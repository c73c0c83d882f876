/**
 * `Commands`: the management commands that store what the parsers
 * produce. `import_stopcorona_data` inserts only the bulletin rows whose
 * natural key `(start_date, end_date, region)` is not stored yet, in one
 * atomic bulk insert that the table's uniqueness constraint can refuse;
 * the older command also chooses between all articles and the latest one.
 * `import_regions` creates the region names that are not stored yet.
 */
module Commands {
  import opened Common
  import StopcoronaParser
  import LegacyStopcoronaParser
  import PyStr

  type Record = StopcoronaParser.Record
  type Cell = StopcoronaParser.Cell

  /** The natural key of a bulletin row: `(start_date, end_date, region)`. */
  type Key = (Cell, Cell, Cell)

  /** `item[name]`: the value under a field name, the last one when repeated; a missing name raises KeyError. */
  function FieldValue(item: Record, name: string): (r: Parsed<Cell>)
    ensures r.Returns? ==> (name, r.value) in item
    ensures r.Raises? ==> r.error == KeyError && forall p :: p in item ==> p.0 != name
    decreases |item|
  {
    if item == [] then Raises(KeyError)
    else if item[|item| - 1].0 == name then Returns(item[|item| - 1].1)
    else FieldValue(item[..|item| - 1], name)
  }

  /** The key of an item; an item without one of the three fields raises KeyError. */
  function ItemKey(item: Record): (r: Parsed<Key>)
    ensures r.Raises? ==> r.error == KeyError
    ensures r.Returns? ==>
      ("start_date", r.value.0) in item && ("end_date", r.value.1) in item && ("region", r.value.2) in item
  {
    match FieldValue(item, "start_date")
    case Raises(e) => Raises(e)
    case Returns(start) =>
      match FieldValue(item, "end_date")
      case Raises(e) => Raises(e)
      case Returns(end) =>
        match FieldValue(item, "region")
        case Raises(e) => Raises(e)
        case Returns(region) => Returns((start, end, region))
  }

  /**
   * The list comprehension of `upload_to_db`: the items whose key is not
   * among the stored ones, in input order, each with its key; the first
   * item without a key field raises KeyError.
   */
  function NewObjects(data: seq<Record>, uploaded: set<Key>): (r: Parsed<seq<(Key, Record)>>)
    ensures r.Raises? ==> r.error == KeyError
    ensures r.Returns? ==> |r.value| <= |data|
    ensures r.Returns? ==> forall o :: o in r.value ==> o.0 !in uploaded && o.1 in data && ItemKey(o.1) == Returns(o.0)
    decreases |data|
  {
    if data == [] then Returns([])
    else
      match NewObjects(data[..|data| - 1], uploaded)
      case Raises(e) => Raises(e)
      case Returns(done) =>
        var item := data[|data| - 1];
        match ItemKey(item)
        case Raises(e) => Raises(e)
        case Returns(k) => Returns(done + if k in uploaded then [] else [(k, item)])
  }

  /** The objects of a prefix come first among the objects of the whole input. */
  lemma {:induction false} NewObjectsPrefix(data: seq<Record>, uploaded: set<Key>, n: nat)
    requires n <= |data| && NewObjects(data, uploaded).Returns?
    ensures NewObjects(data[..n], uploaded).Returns?
    ensures NewObjects(data[..n], uploaded).value <= NewObjects(data, uploaded).value
    decreases |data| - n
  {
    if n == |data| {
      assert data[..n] == data;
    } else {
      NewObjectsPrefix(data, uploaded, n + 1);
      assert data[..n + 1][..n] == data[..n];
    }
  }

  /** Every item of the input whose key is not stored is queued for insert, with that key. */
  lemma {:induction false} NewObjectsComplete(data: seq<Record>, uploaded: set<Key>, i: nat)
    requires i < |data| && NewObjects(data, uploaded).Returns?
    ensures ItemKey(data[i]).Returns?
    ensures ItemKey(data[i]).value !in uploaded ==> (ItemKey(data[i]).value, data[i]) in NewObjects(data, uploaded).value
  {
    NewObjectsPrefix(data, uploaded, i + 1);
    assert data[..i + 1][..i] == data[..i];
    assert data[..i + 1][i] == data[i];
  }

  /**
   * Two items of one input with the same key that is not stored are both
   * queued, at two different places of the batch.
   */
  lemma NewObjectsKeepsDuplicates(data: seq<Record>, uploaded: set<Key>, i: nat, j: nat)
    requires i < j < |data| && NewObjects(data, uploaded).Returns?
    requires ItemKey(data[i]) == ItemKey(data[j]) && ItemKey(data[j]).Returns? && ItemKey(data[j]).value !in uploaded
    ensures exists p, q ::
      0 <= p < q < |NewObjects(data, uploaded).value| && NewObjects(data, uploaded).value[p].0 == NewObjects(data, uploaded).value[q].0
  {
    var all := NewObjects(data, uploaded).value;
    var k := ItemKey(data[j]).value;
    NewObjectsPrefix(data, uploaded, j + 1);
    NewObjectsPrefix(data, uploaded, j);
    var upto := NewObjects(data[..j + 1], uploaded).value;
    var before := NewObjects(data[..j], uploaded).value;
    assert data[..j + 1][..j] == data[..j];
    assert data[..j + 1][j] == data[j];
    assert upto == before + [(k, data[j])];
    assert data[..j][i] == data[i];
    NewObjectsComplete(data[..j], uploaded, i);
    var p :| 0 <= p < |before| && before[p] == (k, data[i]);
    assert all[p] == upto[p] && all[|before|] == upto[|before|];
  }

  /** No two entries share a key: what the table's `unique_together` demands. */
  predicate KeysDistinct(rows: seq<(Key, Record)>)
  {
    forall i, j :: 0 <= i < j < |rows| ==> rows[i].0 != rows[j].0
  }

  /** The keys of some rows. */
  function KeysOf(rows: seq<(Key, Record)>): (keys: set<Key>)
    ensures forall i :: 0 <= i < |rows| ==> rows[i].0 in keys
    ensures forall k :: k in keys ==> exists i :: 0 <= i < |rows| && rows[i].0 == k
  {
    set i | 0 <= i < |rows| :: rows[i].0
  }

  /** A bulk insert the uniqueness constraint lets through: new keys, none twice. */
  predicate Insertable(objects: seq<(Key, Record)>, stored: set<Key>)
  {
    KeysDistinct(objects) && forall i :: 0 <= i < |objects| ==> objects[i].0 !in stored
  }

  /** Two queued items with the same new key make the whole bulk insert fail. */
  lemma DuplicateKeysRefused(data: seq<Record>, uploaded: set<Key>, i: nat, j: nat)
    requires i < j < |data| && NewObjects(data, uploaded).Returns?
    requires ItemKey(data[i]) == ItemKey(data[j]) && ItemKey(data[j]).Returns? && ItemKey(data[j]).value !in uploaded
    ensures !Insertable(NewObjects(data, uploaded).value, uploaded)
  {
    NewObjectsKeepsDuplicates(data, uploaded, i, j);
  }

  /** Every queued object has a key that is not stored: as far as keys go, only duplicates within the batch can make the insert fail. */
  lemma NewObjectsInsertable(data: seq<Record>, uploaded: set<Key>)
    requires NewObjects(data, uploaded).Returns?
    ensures Insertable(NewObjects(data, uploaded).value, uploaded) <==> KeysDistinct(NewObjects(data, uploaded).value)
  {
    var objs := NewObjects(data, uploaded).value;
    forall i | 0 <= i < |objs|
      ensures objs[i].0 !in uploaded
    {
      assert objs[i] in objs;
    }
  }

  /** `StopCoronaData`'s integer columns, all NOT NULL. */
  const IntegerFields: seq<string> := ["hospitalized", "infected", "recovered", "deaths"]

  /** The rows of one `INSERT` of `bulk_create(objects, batch_size=500)`. */
  const BatchSize: nat := 500

  /** What `int()` accepts from a cleaned text: an optional sign, then decimal digits. */
  predicate IntAccepts(s: string)
  {
    PyStr.IsDecimal(s) || (|s| > 1 && (s[0] == '+' || s[0] == '-') && PyStr.IsDecimal(s[1..]))
  }

  /**
   * `IntegerField.get_prep_value`: an integer goes through, a text goes
   * through `int()` (ValueError when it refuses), a date raises TypeError.
   */
  function PrepError(c: Cell): (e: Option<Exception>)
    ensures e.None? <==> c.Int? || (c.Text? && IntAccepts(c.s))
    ensures c.Text? && e.Some? ==> e.value == ValueError
  {
    match c
    case Int(_) => None
    case Text(s) => if IntAccepts(s) then None else Some(ValueError)
    case Day(_) => Some(TypeError)
  }

  /** The first exception preparing an object's integer columns, in column order; a missing column is NULL and prepares. */
  function ObjectPrepError(item: Record, fields: seq<string>): (e: Option<Exception>)
    ensures e.None? <==> forall k :: 0 <= k < |fields| && FieldValue(item, fields[k]).Returns? ==>
      PrepError(FieldValue(item, fields[k]).value).None?
    ensures e.Some? ==> e.value == ValueError || e.value == TypeError
    decreases |fields|
  {
    if fields == [] then None
    else
      var rest := ObjectPrepError(item, fields[1..]);
      assert forall k :: 1 <= k < |fields| ==> fields[k] == fields[1..][k - 1];
      match FieldValue(item, fields[0])
      case Raises(_) => rest
      case Returns(c) => if PrepError(c).Some? then PrepError(c) else rest
  }

  /** The integer columns all hold values: none is NULL. */
  predicate NotNull(item: Record)
  {
    forall k :: 0 <= k < |IntegerFields| ==> FieldValue(item, IntegerFields[k]).Returns?
  }

  /** Objects the database stores when their keys allow it: every integer column present and preparable. */
  predicate Storable(objects: seq<(Key, Record)>)
  {
    forall i :: 0 <= i < |objects| ==> ObjectPrepError(objects[i].1, IntegerFields).None? && NotNull(objects[i].1)
  }

  /** How a `bulk_create` ends: everything stored, refused by the database (IntegrityError), or failed before the database with an exception. */
  datatype InsertOutcome = Inserted | Refused | Failed(error: Exception)

  /** The first exception preparing a batch's values, object by object. */
  function BatchPrepError(batch: seq<(Key, Record)>): (e: Option<Exception>)
    ensures e.None? <==> forall i :: 0 <= i < |batch| ==> ObjectPrepError(batch[i].1, IntegerFields).None?
    ensures e.Some? ==> e.value == ValueError || e.value == TypeError
    decreases |batch|
  {
    if batch == [] then None
    else
      var rest := BatchPrepError(batch[1..]);
      assert forall i :: 1 <= i < |batch| ==> batch[i] == batch[1..][i - 1];
      if ObjectPrepError(batch[0].1, IntegerFields).Some? then ObjectPrepError(batch[0].1, IntegerFields) else rest
  }

  /**
   * One `INSERT` of `bulk_create`: every value is prepared first, and a
   * value that cannot be prepared raises; then the database refuses the
   * statement when an integer column is NULL or a key repeats or is stored.
   */
  function BatchOutcome(batch: seq<(Key, Record)>, stored: set<Key>): (o: InsertOutcome)
    ensures o == Inserted <==> Storable(batch) && Insertable(batch, stored)
    ensures o.Failed? <==> !forall i :: 0 <= i < |batch| ==> ObjectPrepError(batch[i].1, IntegerFields).None?
    ensures o.Failed? ==> o.error == ValueError || o.error == TypeError
  {
    if BatchPrepError(batch).Some? then Failed(BatchPrepError(batch).value)
    else if (forall i :: 0 <= i < |batch| ==> NotNull(batch[i].1)) && Insertable(batch, stored) then Inserted
    else Refused
  }

  /**
   * `bulk_create(objects, batch_size=500)` in its transaction: batch after
   * batch, each seeing the keys of those before it; the first batch that
   * does not go in decides the outcome, and the transaction is rolled back.
   */
  function BulkOutcome(objects: seq<(Key, Record)>, stored: set<Key>): (o: InsertOutcome)
    ensures o.Failed? ==> o.error == ValueError || o.error == TypeError
    decreases |objects|
  {
    if objects == [] then Inserted
    else
      var n := if |objects| < BatchSize then |objects| else BatchSize;
      var first := BatchOutcome(objects[..n], stored);
      if first != Inserted then first else BulkOutcome(objects[n..], stored + KeysOf(objects[..n]))
  }

  /** Objects split in two are insertable exactly when the first part is, and the second is after it. */
  lemma InsertableSplit(a: seq<(Key, Record)>, b: seq<(Key, Record)>, stored: set<Key>)
    ensures Insertable(a + b, stored) <==> Insertable(a, stored) && Insertable(b, stored + KeysOf(a))
  {
    var ab := a + b;
    assert forall i :: 0 <= i < |a| ==> ab[i] == a[i];
    assert forall j :: 0 <= j < |b| ==> ab[|a| + j] == b[j];
    if Insertable(a, stored) && Insertable(b, stored + KeysOf(a)) {
      forall i, j | 0 <= i < j < |ab|
        ensures ab[i].0 != ab[j].0
      {
        if i < |a| && j >= |a| {
          assert ab[i].0 in KeysOf(a);
          assert ab[j] == b[j - |a|];
        } else if i >= |a| {
          assert ab[i] == b[i - |a|] && ab[j] == b[j - |a|];
        }
      }
      forall i | 0 <= i < |ab|
        ensures ab[i].0 !in stored
      {
        if i >= |a| {
          assert ab[i] == b[i - |a|];
        }
      }
    }
    if Insertable(ab, stored) {
      forall j | 0 <= j < |b|
        ensures b[j].0 !in KeysOf(a)
      {
        forall i | 0 <= i < |a|
          ensures a[i].0 != b[j].0
        {
          assert ab[i].0 != ab[|a| + j].0;
        }
      }
      forall i, j | 0 <= i < j < |b|
        ensures b[i].0 != b[j].0
      {
        assert ab[|a| + i].0 != ab[|a| + j].0;
      }
      forall j | 0 <= j < |b|
        ensures b[j].0 !in stored
      {
        assert ab[|a| + j] == b[j];
      }
    }
  }

  /** Objects split in two are storable exactly when both parts are. */
  lemma StorableSplit(a: seq<(Key, Record)>, b: seq<(Key, Record)>)
    ensures Storable(a + b) <==> Storable(a) && Storable(b)
  {
    var ab := a + b;
    assert forall i :: 0 <= i < |a| ==> ab[i] == a[i];
    assert forall j :: 0 <= j < |b| ==> ab[|a| + j] == b[j];
    if Storable(a) && Storable(b) {
      forall i | 0 <= i < |ab|
        ensures ObjectPrepError(ab[i].1, IntegerFields).None? && NotNull(ab[i].1)
      {
        if i >= |a| {
          assert ab[i] == b[i - |a|];
        }
      }
    }
  }

  /**
   * The whole insert goes in exactly when every object is storable and no
   * key repeats or is stored: batching changes which error ends the insert,
   * never whether it succeeds.
   */
  lemma {:induction false} BulkOutcomeInserted(objects: seq<(Key, Record)>, stored: set<Key>)
    ensures BulkOutcome(objects, stored) == Inserted <==> Storable(objects) && Insertable(objects, stored)
    decreases |objects|
  {
    if objects != [] {
      var n := if |objects| < BatchSize then |objects| else BatchSize;
      var a, b := objects[..n], objects[n..];
      assert objects == a + b;
      InsertableSplit(a, b, stored);
      StorableSplit(a, b);
      BulkOutcomeInserted(b, stored + KeysOf(a));
    }
  }

  /**
   * Objects whose integer columns all prepare never fail before the
   * database: the insert either goes in or is refused.
   */
  lemma {:induction false} PreparedNeverFails(objects: seq<(Key, Record)>, stored: set<Key>)
    requires forall i :: 0 <= i < |objects| ==> ObjectPrepError(objects[i].1, IntegerFields).None?
    ensures !BulkOutcome(objects, stored).Failed?
    decreases |objects|
  {
    if objects != [] {
      var n := if |objects| < BatchSize then |objects| else BatchSize;
      assert forall i :: 0 <= i < |objects[n..]| ==> objects[n..][i] == objects[n + i];
      PreparedNeverFails(objects[n..], stored + KeysOf(objects[..n]));
    }
  }

  /**
   * A text that `int()` refuses in an integer column of the first batch
   * makes the insert raise ValueError rather than be refused.
   */
  lemma TextInFirstBatchRaises(objects: seq<(Key, Record)>, stored: set<Key>, i: nat, k: nat)
    requires i < |objects| && i < BatchSize && k < |IntegerFields|
    requires forall j :: 0 <= j < i ==> ObjectPrepError(objects[j].1, IntegerFields).None?
    requires forall m :: 0 <= m < |IntegerFields| ==>
      FieldValue(objects[i].1, IntegerFields[m]).Returns? && FieldValue(objects[i].1, IntegerFields[m]).value.Text?
    requires !IntAccepts(FieldValue(objects[i].1, IntegerFields[k]).value.s)
    ensures BulkOutcome(objects, stored) == Failed(ValueError)
  {
    var n := if |objects| < BatchSize then |objects| else BatchSize;
    var batch := objects[..n];
    assert batch[i] == objects[i];
    FirstPrepError(batch, i);
    TextPrepError(objects[i].1, IntegerFields, k);
  }

  /** The first object whose preparation fails decides the batch's exception. */
  lemma {:induction false} FirstPrepError(batch: seq<(Key, Record)>, i: nat)
    requires i < |batch|
    requires forall j :: 0 <= j < i ==> ObjectPrepError(batch[j].1, IntegerFields).None?
    requires ObjectPrepError(batch[i].1, IntegerFields).Some?
    ensures BatchPrepError(batch) == ObjectPrepError(batch[i].1, IntegerFields)
    decreases i
  {
    if i > 0 {
      assert forall j :: 0 <= j < i - 1 ==> batch[1..][j] == batch[j + 1];
      FirstPrepError(batch[1..], i - 1);
    }
  }

  /** An item whose integer columns all hold texts fails, if at all, with ValueError. */
  lemma {:induction false} TextPrepError(item: Record, fields: seq<string>, k: nat)
    requires k < |fields|
    requires forall m :: 0 <= m < |fields| ==> FieldValue(item, fields[m]).Returns? && FieldValue(item, fields[m]).value.Text?
    requires !IntAccepts(FieldValue(item, fields[k]).value.s)
    ensures ObjectPrepError(item, fields) == Some(ValueError)
    decreases |fields|
  {
    if !IntAccepts(FieldValue(item, fields[0]).value.s) {
    } else {
      assert forall m :: 0 <= m < |fields[1..]| ==> fields[1..][m] == fields[m + 1];
      TextPrepError(item, fields[1..], k - 1);
    }
  }

  /**
   * Objects that all prepare, one of which lacks an integer column, are
   * refused by the database (NOT NULL), whatever their keys.
   */
  lemma NullColumnRefused(objects: seq<(Key, Record)>, stored: set<Key>, i: nat)
    requires i < |objects| && !NotNull(objects[i].1)
    requires forall j :: 0 <= j < |objects| ==> ObjectPrepError(objects[j].1, IntegerFields).None?
    ensures BulkOutcome(objects, stored) == Refused
  {
    PreparedNeverFails(objects, stored);
    BulkOutcomeInserted(objects, stored);
  }

  /**
   * A bulletin table whose cells do not fill the last group of five gives a
   * last record without `deaths`: that record cannot be stored.
   */
  lemma ShortTableLastRecordNull(table: seq<Cell>, dates: seq<Cell>)
    requires |dates| == 2 && |table| % 5 != 0
    ensures var records := StopcoronaParser.RegionsData(table, dates);
      records != [] && !NotNull(records[|records| - 1])
  {
    var records := StopcoronaParser.RegionsData(table, dates);
    var k := |records| - 1;
    var last := records[k];
    assert 5 * k < |table| < 5 * k + 5;
    var values := dates + StopcoronaParser.Chunk(table, k);
    assert last == StopcoronaParser.Zip(StopcoronaParser.RegionFields, values);
    assert |last| < 7;
    forall p | p in last
      ensures p.0 != "deaths"
    {
      var m :| 0 <= m < |last| && last[m] == p;
      assert p.0 == StopcoronaParser.RegionFields[m];
    }
    assert IntegerFields[3] == "deaths";
  }

  /**
   * Uploading the same data again after a successful upload queues
   * nothing: every key is stored by then.
   */
  lemma {:induction false} UploadAgainQueuesNothing(data: seq<Record>, uploaded: set<Key>, inserted: set<Key>)
    requires NewObjects(data, uploaded).Returns?
    requires KeysOf(NewObjects(data, uploaded).value) <= inserted
    ensures NewObjects(data, uploaded + inserted) == Returns([])
    decreases |data|
  {
    if data != [] {
      var init := data[..|data| - 1];
      var item := data[|data| - 1];
      var done := NewObjects(init, uploaded).value;
      var k := ItemKey(item).value;
      var objs := NewObjects(data, uploaded).value;
      assert objs == done + if k in uploaded then [] else [(k, item)];
      forall o | o in done
        ensures o.0 in inserted
      {
        var p :| 0 <= p < |done| && done[p] == o;
        assert objs[p] == o;
      }
      UploadAgainQueuesNothing(init, uploaded, inserted);
      if k !in uploaded {
        assert objs[|done|] == (k, item);
      }
    }
  }

  /** The bulletin table: its rows, each with its key. */
  class StopCoronaTable {
    var rows: seq<(Key, Record)>

    /** The uniqueness constraint holds. */
    ghost predicate Valid()
      reads this
    {
      KeysDistinct(rows)
    }

    /** `values_list('start_date', 'end_date', 'region')` as a set. */
    function Keys(): (keys: set<Key>)
      reads this
      ensures keys == KeysOf(rows)
    {
      set i | 0 <= i < |rows| :: rows[i].0
    }

    constructor ()
      ensures rows == [] && Valid()
    {
      rows := [];
    }

    /**
     * `bulk_create(objects, batch_size=500)`: one transaction; it stores
     * every object, or none when a batch is refused or raises.
     */
    method BulkCreate(objects: seq<(Key, Record)>) returns (o: InsertOutcome)
      requires Valid()
      modifies this
      ensures Valid()
      ensures o == BulkOutcome(objects, old(Keys()))
      ensures o == Inserted <==> Storable(objects) && Insertable(objects, old(Keys()))
      ensures o == Inserted ==> rows == old(rows) + objects
      ensures o != Inserted ==> rows == old(rows)
    {
      o := BulkOutcome(objects, Keys());
      BulkOutcomeInserted(objects, Keys());
      if o == Inserted {
        rows := rows + objects;
        forall i, j | 0 <= i < j < |rows|
          ensures rows[i].0 != rows[j].0
        {
          if j >= |old(rows)| && i < |old(rows)| {
            assert rows[i].0 in old(Keys());
          }
        }
      }
    }
  }

  /** What `upload_to_db` writes to its output after the insert. */
  const UploadComplete: string := "Upload complete"
  const ExceptionOccurred: string := "Exception occurred"

  /** The `import_stopcorona_data` command, with the lines it has written. */
  class ImportStopcoronaCommand {
    var out: seq<string>

    constructor ()
      ensures out == []
    {
      out := [];
    }

    /**
     * `upload_to_db`: the keys stored before the call are read once; the
     * items with other keys are inserted together. An insert the database
     * refuses (a `DatabaseError`) writes the exception (its text is
     * `errorText`) and returns early; otherwise "Upload complete" is
     * written. An item without a key field raises KeyError before anything
     * is written, and a value `int()` refuses escapes from the insert.
     */
    method UploadToDb(db: StopCoronaTable, data: seq<Record>, errorText: string) returns (r: Parsed<()>)
      requires db.Valid()
      modifies this, db
      ensures db.Valid()
      ensures NewObjects(data, old(db.Keys())).Raises? ==>
        r == Raises(KeyError) && db.rows == old(db.rows) && out == old(out)
      ensures NewObjects(data, old(db.Keys())).Returns? ==>
        var objects := NewObjects(data, old(db.Keys())).value;
        match BulkOutcome(objects, old(db.Keys()))
        case Inserted => r == Returns(()) && db.rows == old(db.rows) + objects && out == old(out) + [UploadComplete]
        case Refused => r == Returns(()) && db.rows == old(db.rows) && out == old(out) + [ExceptionOccurred, errorText]
        case Failed(e) => r == Raises(e) && db.rows == old(db.rows) && out == old(out)
    {
      var uploaded := db.Keys();
      var objects := NewObjects(data, uploaded);
      if objects.Raises? {
        return Raises(objects.error);
      }
      var o := db.BulkCreate(objects.value);
      if o.Failed? {
        return Raises(o.error);
      }
      if o == Refused {
        out := out + [ExceptionOccurred, errorText];
        return Returns(());
      }
      out := out + [UploadComplete];
      r := Returns(());
    }
  }

  /**
   * `get_parsed_data` of the older command: the parser is built from the
   * listing's links, then every article is parsed when `all` is set and
   * only the first one otherwise.
   */
  method GetParsedData(hrefs: seq<string>, all: bool, fetch: string -> StopcoronaParser.Page, currentYear: nat)
    returns (r: Parsed<seq<Record>>)
    requires currentYear >= 1
    ensures var urls := Filter(hrefs, StopcoronaParser.IsArticle);
      r == LegacyStopcoronaParser.LegacyUrlListRecords(if all || |urls| < 1 then urls else urls[..1], fetch, currentYear)
    ensures r.Raises? ==> r.error == IndexError
  {
    var parser := new LegacyStopcoronaParser.Parser(hrefs);
    if all {
      r := parser.GetAll(fetch, currentYear);
    } else {
      r := parser.GetLatest(fetch, currentYear);
    }
  }

  /** The names `import_regions` creates: those of the list not stored yet, each occurrence, in list order. */
  function MissingRegions(regions: seq<string>, stored: set<string>): (r: seq<string>)
    ensures |r| <= |regions|
    decreases |regions|
  {
    if regions == [] then []
    else
      var name := regions[|regions| - 1];
      MissingRegions(regions[..|regions| - 1], stored) + if name in stored then [] else [name]
  }

  /** A name is created as many times as it occurs in the list when it is not stored, and never otherwise. */
  lemma {:induction false} MissingRegionsCount(regions: seq<string>, stored: set<string>, n: string)
    ensures multiset(MissingRegions(regions, stored))[n] == if n in stored then 0 else multiset(regions)[n]
    decreases |regions|
  {
    if regions != [] {
      var init := regions[..|regions| - 1];
      MissingRegionsCount(init, stored, n);
      assert regions == init + [regions[|regions| - 1]];
    }
  }

  /** The region table: the stored names, in creation order. */
  class RegionTable {
    var names: seq<string>

    constructor ()
      ensures names == []
    {
      names := [];
    }

    /** `Region.objects.create(name=...)`. */
    method Create(name: string)
      modifies this
      ensures names == old(names) + [name]
    {
      names := names + [name];
    }
  }

  /**
   * `import_regions.handle`: the stored names among the list are read
   * once, then every name of the list not among them is created, in list
   * order; the list itself (unpickled from a file) is a parameter.
   */
  method ImportRegions(db: RegionTable, regions: seq<string>)
    modifies db
    ensures db.names == old(db.names) + MissingRegions(regions, set n | n in old(db.names))
  {
    ghost var stored := set n | n in db.names;
    ghost var before := db.names;
    var existing := set n | n in db.names && n in regions;
    var i := 0;
    while i < |regions|
      invariant 0 <= i <= |regions|
      invariant db.names == before + MissingRegions(regions[..i], stored)
    {
      assert regions[..i + 1][..i] == regions[..i];
      ghost var done := MissingRegions(regions[..i], stored);
      assert regions[i] in existing <==> regions[i] in stored;
      if regions[i] !in existing {
        db.Create(regions[i]);
        assert db.names == before + (done + [regions[i]]);
      }
      i := i + 1;
    }
    assert regions[..i] == regions;
  }

  /** After the import every name of the list is stored, and what was stored stays in place. */
  lemma ImportedRegionsStored(before: seq<string>, regions: seq<string>, n: string)
    requires n in regions
    ensures n in before + MissingRegions(regions, set m | m in before)
  {
    if n !in before {
      var stored := set m | m in before;
      MissingRegionsCount(regions, stored, n);
      assert multiset(MissingRegions(regions, stored))[n] > 0;
    }
  }
}
