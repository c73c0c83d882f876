/**
 * `Serializers`: the validation of a dataset request. The dataset must be
 * known; every requested field must be a field of its model; for a model
 * with a `region` field every requested region must be stored, and for
 * any other model (or when no regions are requested) the region filter is
 * reset to the empty list.
 */
module Serializers {
  import opened Common

  /** The validated attributes of a request; `None` stands for a key the request leaves out. */
  datatype Attrs = Attrs(datasetName: string, fields: Option<seq<string>>, regions: Option<seq<string>>, all: bool)

  /** Why a request is refused: the code of `default_error_messages` and what its message names. */
  datatype Failure =
    | UnknownDataset(dataset: string)
    | UnknownFields(fields: set<string>)
    | UnknownRegions(regions: set<string>)

  /** The result of `validate`: the (possibly adjusted) attributes, or the failure it raises. */
  datatype Validation = Rejected(failure: Failure) | Accepted(attrs: Attrs)

  /** The message of an unknown dataset, with the name filled in. */
  function UnknownDatasetMessage(dataset: string): (m: string)
    ensures |m| > |dataset|
  {
    "Dataset with name " + dataset + " does not exist"
  }

  /** The elements of a list, as a set (`set(...)`). */
  function AsSet(s: seq<string>): (r: set<string>)
    ensures forall x :: x in r <==> x in s
  {
    set x | x in s
  }

  /** `_has_field`: `get_field` finds the name among the model's fields. */
  predicate HasField(modelFields: set<string>, field: string)
  {
    field in modelFields
  }

  /**
   * `validate` as written. `datasets` maps each dataset name of the info
   * table to the field names of its model; `stored` is the set of stored
   * region names. The unknown-regions failure names every requested
   * region, not only the unknown ones.
   */
  function Validate(attrs: Attrs, datasets: map<string, set<string>>, stored: set<string>): (r: Validation)
    ensures r.Rejected? && r.failure.UnknownFields? ==> r.failure.fields != {}
    ensures r.Rejected? && r.failure.UnknownRegions? ==> !(r.failure.regions <= stored)
    ensures r.Accepted? ==> attrs.datasetName in datasets
    ensures r.Accepted? ==>
      r.attrs == attrs.(regions := if "region" in datasets[attrs.datasetName] && attrs.regions.Some? then attrs.regions else Some([]))
  {
    if attrs.datasetName !in datasets then Rejected(UnknownDataset(attrs.datasetName))
    else
      var modelFields := datasets[attrs.datasetName];
      if attrs.fields.Some? && AsSet(attrs.fields.value) - modelFields != {} then
        Rejected(UnknownFields(AsSet(attrs.fields.value) - modelFields))
      else if HasField(modelFields, "region") && attrs.regions.Some? then
        var regions := AsSet(attrs.regions.value);
        if regions - stored != {} then Rejected(UnknownRegions(regions)) else Accepted(attrs)
      else Accepted(attrs.(regions := Some([])))
  }

  /** `validate` with the unknown-regions failure naming only the unknown regions. */
  function ValidateIntended(attrs: Attrs, datasets: map<string, set<string>>, stored: set<string>): (r: Validation)
    ensures r.Rejected? && r.failure.UnknownFields? ==> r.failure.fields != {}
    ensures r.Rejected? && r.failure.UnknownRegions? ==> r.failure.regions != {} && r.failure.regions !! stored
  {
    match Validate(attrs, datasets, stored)
    case Rejected(UnknownRegions(regions)) => Rejected(UnknownRegions(regions - stored))
    case other => other
  }

  /**
   * A request is accepted exactly when its dataset is known, its fields
   * (when given) are fields of the model, and its regions (when given for
   * a model with a `region` field) are stored.
   */
  lemma ValidateAccepts(attrs: Attrs, datasets: map<string, set<string>>, stored: set<string>)
    ensures ValidateIntended(attrs, datasets, stored).Accepted? <==>
      attrs.datasetName in datasets
      && (attrs.fields.Some? ==> forall f :: f in attrs.fields.value ==> f in datasets[attrs.datasetName])
      && ("region" in datasets[attrs.datasetName] && attrs.regions.Some? ==>
            forall g :: g in attrs.regions.value ==> g in stored)
  {
    if attrs.datasetName in datasets {
      var modelFields := datasets[attrs.datasetName];
      if attrs.fields.Some? && !(forall f :: f in attrs.fields.value ==> f in modelFields) {
        var f :| f in attrs.fields.value && f !in modelFields;
        assert f in AsSet(attrs.fields.value) - modelFields;
      }
      if "region" in modelFields && attrs.regions.Some? && !(forall g :: g in attrs.regions.value ==> g in stored) {
        var g :| g in attrs.regions.value && g !in stored;
        assert g in AsSet(attrs.regions.value) - stored;
      }
    }
  }

  /**
   * The checks come in order: an unknown dataset is reported whatever
   * else is wrong, and unknown fields are reported before unknown
   * regions; each failure names exactly the offending names.
   */
  lemma RejectionReasons(attrs: Attrs, datasets: map<string, set<string>>, stored: set<string>)
    ensures var r := ValidateIntended(attrs, datasets, stored);
      (attrs.datasetName !in datasets <==> r == Rejected(UnknownDataset(attrs.datasetName)))
      && (r.Rejected? && r.failure.UnknownFields? ==>
            attrs.fields.Some? && r.failure.fields == AsSet(attrs.fields.value) - datasets[attrs.datasetName])
      && (r.Rejected? && r.failure.UnknownRegions? ==>
            attrs.datasetName in datasets
            && (attrs.fields.Some? ==> AsSet(attrs.fields.value) <= datasets[attrs.datasetName])
            && "region" in datasets[attrs.datasetName] && attrs.regions.Some?
            && r.failure.regions == AsSet(attrs.regions.value) - stored)
  {
    if attrs.datasetName in datasets && attrs.fields.Some? {
      var requested := AsSet(attrs.fields.value);
      var modelFields := datasets[attrs.datasetName];
      if requested - modelFields == {} {
        forall f | f in requested
          ensures f in modelFields
        {
          assert f !in requested - modelFields;
        }
      }
    }
  }

  /** For a model without a `region` field the region filter never matters: the outcome is that of a request without one. */
  lemma RegionsIgnoredWithoutRegionField(attrs: Attrs, datasets: map<string, set<string>>, stored: set<string>)
    requires attrs.datasetName in datasets && "region" !in datasets[attrs.datasetName]
    ensures ValidateIntended(attrs, datasets, stored) == ValidateIntended(attrs.(regions := None), datasets, stored)
  {
  }

  /**
   * As written, the unknown-regions failure also names the requested
   * regions that are stored: asking for a stored and an unknown region
   * reports both.
   */
  lemma RegionFailureNamesKnownRegions()
    ensures var datasets := map["region_data" := {"region"}];
      var attrs := Attrs("region_data", None, Some(["Москва", "Марс"]), false);
      Validate(attrs, datasets, {"Москва"}) == Rejected(UnknownRegions({"Москва", "Марс"}))
      && ValidateIntended(attrs, datasets, {"Москва"}) == Rejected(UnknownRegions({"Марс"}))
  {
    var datasets := map["region_data" := {"region"}];
    var attrs := Attrs("region_data", None, Some(["Москва", "Марс"]), false);
    assert "Марс" in AsSet(attrs.regions.value) - {"Москва"};
    assert AsSet(attrs.regions.value) == {"Москва", "Марс"};
    assert AsSet(attrs.regions.value) - {"Москва"} == {"Марс"};
  }
}
