/**
 * `transformed_data_mappers.py` and `population_mapper.py`: the natural
 * keys, update-field lists and batch sizes of the three mappers, and the
 * key serialisers used when a write is logged.
 */
module MapperConfigs {
  import opened Common
  import opened Calendar
  import opened Mappers

  /** The base batch size of every bulk write. */
  const BaseBatchSize: nat := 500

  /** The global weekly rows are keyed by their week. */
  const GlobalKeyFields: seq<string> := ["start_date", "end_date"]

  /** The columns a global bulk update writes. */
  const GlobalUpdateFields: seq<string> := [
    "weekly_infected", "weekly_deaths", "weekly_recovered", "weekly_first_component", "weekly_vaccinations",
    "weekly_second_component", "infected", "deaths", "recovered", "first_component", "second_component",
    "weekly_infected_per_100000", "weekly_deaths_per_100000", "weekly_recovered_per_100000", "infected_per_100000",
    "deaths_per_100000", "recovered_per_100000", "weekly_recovered_infected_ratio", "weekly_deaths_infected_ratio",
    "weekly_vaccinations_infected_ratio", "vaccinations_population_ratio"]

  /** The regional weekly rows are keyed by their week and region. */
  const RegionKeyFields: seq<string> := ["start_date", "end_date", "region"]

  /** The columns a regional bulk update writes. */
  const RegionUpdateFields: seq<string> := [
    "weekly_infected", "weekly_deaths", "weekly_recovered", "weekly_infected_per_100000",
    "weekly_deaths_per_100000", "weekly_recovered_per_100000", "infected_per_100000", "deaths_per_100000",
    "recovered_per_100000", "weekly_recovered_infected_ratio", "weekly_deaths_infected_ratio", "infected", "deaths",
    "recovered"]

  /** The global columns about vaccinations and vaccine components, which the regional rows do not have. */
  const VaccinationFields: set<string> := {
    "weekly_first_component", "weekly_vaccinations", "weekly_second_component", "first_component",
    "second_component", "weekly_vaccinations_infected_ratio", "vaccinations_population_ratio"}

  /** The population rows are keyed by year and region. */
  const PopulationKeyFields: seq<string> := ["year", "region"]

  /** A population bulk update writes the count only. */
  const PopulationUpdateFields: seq<string> := ["population"]

  /** The population mapper's own, smaller batch size. */
  const PopulationBatchSize: nat := 100

  /** No name is listed twice. */
  predicate NoRepeats(names: seq<string>)
  {
    forall i, j :: 0 <= i < j < |names| ==> names[i] != names[j]
  }

  /** The key fields name distinct attributes, and the update fields never include one of them. */
  predicate WellConfigured(keyFields: seq<string>, updateFields: seq<string>)
  {
    NoRepeats(keyFields) && forall f :: f in updateFields ==> f !in keyFields
  }

  /** A bulk update restricted to the update fields never rewrites a key: the projected row has no key field. */
  lemma ProjectionAvoidsKeys(fields: Fields, keyFields: seq<string>, updateFields: seq<string>)
    requires WellConfigured(keyFields, updateFields)
    ensures forall f :: f in Project(fields, updateFields) ==> f !in keyFields
  {
  }

  /** The global configuration is well formed. */
  lemma GlobalConfigured()
    ensures WellConfigured(GlobalKeyFields, GlobalUpdateFields)
  {
  }

  /** The regional configuration is well formed. */
  lemma RegionConfigured()
    ensures WellConfigured(RegionKeyFields, RegionUpdateFields)
  {
  }

  /** The population configuration is well formed, writes nothing but the count, and in smaller batches. */
  lemma PopulationConfigured()
    ensures WellConfigured(PopulationKeyFields, PopulationUpdateFields)
    ensures forall f :: f in PopulationUpdateFields ==> f == "population"
    ensures PopulationBatchSize < BaseBatchSize
  {
  }

  /**
   * The regional update fields are exactly the global ones without the
   * vaccination and component columns.
   */
  lemma RegionFieldsAreGlobalWithoutVaccinations()
    ensures forall f :: f in RegionUpdateFields ==> f !in VaccinationFields
    ensures forall f :: f in RegionUpdateFields <==> f in GlobalUpdateFields && f !in VaccinationFields
  {
  }

  /** The global mapper: `BaseMapper` under the global key, update fields and the base batch size. */
  method NewGlobalMapper(store: seq<StoredObject>) returns (m: BaseMapper)
    requires forall i :: 0 <= i < |store| ==> ObjectKey(store[i].fields, GlobalKeyFields).Returns?
    ensures fresh(m) && m.Valid()
    ensures m.keyFields == GlobalKeyFields && m.updateFields == GlobalUpdateFields && m.batchSize == BaseBatchSize
    ensures m.existingObjects == Index(store, GlobalKeyFields, |store|)
  {
    m := new BaseMapper(store, GlobalKeyFields, GlobalUpdateFields, BaseBatchSize);
  }

  /** The regional mapper: `BaseMapper` under the regional key, update fields and the base batch size. */
  method NewRegionMapper(store: seq<StoredObject>) returns (m: BaseMapper)
    requires forall i :: 0 <= i < |store| ==> ObjectKey(store[i].fields, RegionKeyFields).Returns?
    ensures fresh(m) && m.Valid()
    ensures m.keyFields == RegionKeyFields && m.updateFields == RegionUpdateFields && m.batchSize == BaseBatchSize
    ensures m.existingObjects == Index(store, RegionKeyFields, |store|)
  {
    m := new BaseMapper(store, RegionKeyFields, RegionUpdateFields, BaseBatchSize);
  }

  /** The population mapper: `BaseMapper` under `(year, region)`, the count only, batches of 100. */
  method NewPopulationMapper(store: seq<StoredObject>) returns (m: BaseMapper)
    requires forall i :: 0 <= i < |store| ==> ObjectKey(store[i].fields, PopulationKeyFields).Returns?
    ensures fresh(m) && m.Valid()
    ensures m.keyFields == PopulationKeyFields && m.updateFields == PopulationUpdateFields
    ensures m.batchSize == PopulationBatchSize
    ensures m.existingObjects == Index(store, PopulationKeyFields, |store|)
  {
    m := new BaseMapper(store, PopulationKeyFields, PopulationUpdateFields, PopulationBatchSize);
  }

  /** The date stored under `name`, when the attribute exists and holds a date (`strftime` needs one). */
  function DateField(obj: Fields, name: string): (r: Option<Date>)
    ensures r.Some? <==> name in obj && obj[name].Day? && ValidDate(obj[name].date)
    ensures r.Some? ==> r.value == obj[name].date
  {
    if name in obj && obj[name].Day? && ValidDate(obj[name].date) then Some(obj[name].date) else None
  }

  /**
   * `GlobalTransformedDataMapper._serialize_key_fields`: both dates as
   * `dd-mm-yyyy`; a missing or non-date attribute raises AttributeError.
   * Each string parses back, with the same format, to the stored date.
   */
  function SerializeGlobalKey(obj: Fields): (r: Parsed<map<string, string>>)
    ensures r.Returns? <==> DateField(obj, "start_date").Some? && DateField(obj, "end_date").Some?
    ensures r.Raises? ==> r.error == AttributeError
    ensures r.Returns? ==> r.value.Keys == {"start_date", "end_date"}
    ensures r.Returns? ==> forall f :: f in r.value ==> StrPTime(r.value[f], DashedDMY) == DateField(obj, f)
  {
    match (DateField(obj, "start_date"), DateField(obj, "end_date"))
    case (Some(s), Some(e)) =>
      FormatDMYRoundTrip(s);
      FormatDMYRoundTrip(e);
      Returns(map["start_date" := FormatDMY(s), "end_date" := FormatDMY(e)])
    case _ => Raises(AttributeError)
  }

  /**
   * `RegionTransformedDataMapper._serialize_key_fields`: the region as it
   * is, both dates as `dd-mm-yyyy` that parse back to the stored dates.
   * A missing attribute, or a non-date in a date attribute, raises
   * AttributeError.
   */
  function SerializeRegionKey(obj: Fields): (r: Parsed<map<string, Value>>)
    ensures r.Returns? <==> "region" in obj && DateField(obj, "start_date").Some? && DateField(obj, "end_date").Some?
    ensures r.Raises? ==> r.error == AttributeError
    ensures r.Returns? ==> r.value.Keys == {"region", "start_date", "end_date"} && r.value["region"] == obj["region"]
    ensures r.Returns? ==> forall f :: f in r.value && f != "region" ==>
      r.value[f].Text? && StrPTime(r.value[f].s, DashedDMY) == DateField(obj, f)
  {
    if "region" !in obj then Raises(AttributeError)
    else match SerializeGlobalKey(obj)
      case Raises(e) => Raises(e)
      case Returns(dates) =>
        Returns(map["region" := obj["region"],
                    "start_date" := Text(dates["start_date"]),
                    "end_date" := Text(dates["end_date"])])
  }

  /**
   * `PopulationMapper._serialize_key_fields`: year and region unchanged,
   * so the serialised dict read back in key-field order is the object's
   * natural key.
   */
  function SerializePopulationKey(obj: Fields): (r: Parsed<Item>)
    ensures r.Returns? <==> ObjectKey(obj, PopulationKeyFields).Returns?
    ensures r.Raises? ==> r.error == AttributeError
    ensures r.Returns? ==> DistinctNames(r.value) && ItemKey(r.value, PopulationKeyFields) == ObjectKey(obj, PopulationKeyFields)
  {
    if "year" in obj && "region" in obj then
      var item := [("year", obj["year"]), ("region", obj["region"])];
      assert Lookup(item, "year") == Some(obj["year"]);
      assert Lookup(item, "region") == Some(obj["region"]);
      assert ItemKey(item, PopulationKeyFields).value == [obj["year"], obj["region"]];
      assert ObjectKey(obj, PopulationKeyFields).value == [obj["year"], obj["region"]];
      Returns(item)
    else Raises(AttributeError)
  }
}
