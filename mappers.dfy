/**
 * `mappers/base.py` and its three configurations: an upsert mapper that
 * indexes the stored objects by natural key once, then sends each incoming
 * item to an insert list (unknown key), an update list (known key, some
 * non-key field differs, overwritten in place) or nowhere.
 */
module Mappers {
  import opened Common
  import opened Calendar

  /** A field value: the model fields are integers, floats, strings and dates. */
  datatype Value = Int(i: int) | Real(x: real) | Text(s: string) | Day(date: Date) | Null

  /**
   * Python's `==` on field values: an integer equals a float of the same
   * value (`100 == 100.0`); values of other kinds equal only themselves.
   */
  predicate PyEq(a: Value, b: Value)
  {
    match (a, b)
    case (Int(i), Real(x)) => i as real == x
    case (Real(x), Int(i)) => i as real == x
    case _ => a == b
  }

  /** An integer and the float of the same value compare equal, although they are different values. */
  lemma IntEqualsFloat(n: int)
    ensures PyEq(Int(n), Real(n as real)) && Int(n) != Real(n as real)
  {
  }

  /** The attributes of a stored object. */
  type Fields = map<string, Value>

  /** An incoming dict, in insertion order. */
  type Item = seq<(string, Value)>

  /** A natural key: the key-field values in key-field order. */
  type Key = seq<Value>

  /** Dict keys are distinct. */
  ghost predicate DistinctNames(item: Item)
  {
    forall i, j :: 0 <= i < j < |item| ==> item[i].0 != item[j].0
  }

  /** `item[name]`, or None when the dict has no such key. */
  function Lookup(item: Item, name: string): (r: Option<Value>)
    ensures r.Some? <==> exists i :: 0 <= i < |item| && item[i].0 == name
    ensures r.Some? ==> (name, r.value) in item
    decreases |item|
  {
    if item == [] then None
    else if item[0].0 == name then Some(item[0].1)
    else
      var r := Lookup(item[1..], name);
      assert forall i :: 0 < i < |item| ==> item[i] == item[1..][i - 1];
      assert r.Some? ==> (name, r.value) in item[1..];
      r
  }

  /** The dict as attributes: what `self._model(**item)` would carry. */
  function AsFields(item: Item): (f: Fields)
    ensures f.Keys == set p | p in item :: p.0
    decreases |item|
  {
    if item == [] then map[]
    else
      var init, last := item[..|item| - 1], item[|item| - 1];
      assert forall p :: p in item <==> p in init || p == last by {
        assert item == init + [last];
      }
      AsFields(init)[last.0 := last.1]
  }

  /** Reading a dict and reading its attributes agree when its keys are distinct. */
  lemma {:induction false} LookupAsFields(item: Item, name: string)
    requires DistinctNames(item)
    ensures Lookup(item, name).Some? <==> name in AsFields(item)
    ensures name in AsFields(item) ==> Lookup(item, name).value == AsFields(item)[name]
    decreases |item|
  {
    if item != [] {
      var init, last := item[..|item| - 1], item[|item| - 1];
      LookupOfPrefix(item, name);
      LookupAsFields(init, name);
    }
  }

  /** With distinct keys, a dict's last entry does not hide an earlier one. */
  lemma {:induction false} LookupOfPrefix(item: Item, name: string)
    requires DistinctNames(item) && item != []
    ensures Lookup(item, name) == if item[|item| - 1].0 == name then Some(item[|item| - 1].1) else Lookup(item[..|item| - 1], name)
    decreases |item|
  {
    if |item| > 1 && item[0].0 != name {
      assert item[1..][..|item[1..]| - 1] == item[..|item| - 1][1..];
      LookupOfPrefix(item[1..], name);
    }
  }

  /** `_get_item_key` on a dict: `item[key]` for each key field; a missing key raises KeyError. */
  function ItemKey(item: Item, keyFields: seq<string>): (r: Parsed<Key>)
    ensures r.Returns? <==> forall f :: f in keyFields ==> Lookup(item, f).Some?
    ensures r.Raises? ==> r.error == KeyError
  {
    if forall f :: f in keyFields ==> Lookup(item, f).Some? then
      Returns(seq(|keyFields|, i requires 0 <= i < |keyFields| => Lookup(item, keyFields[i]).value))
    else Raises(KeyError)
  }

  /** `_get_item_key` on a model object: `getattr(obj, key)`; a missing attribute raises AttributeError. */
  function ObjectKey(fields: Fields, keyFields: seq<string>): (r: Parsed<Key>)
    ensures r.Returns? <==> forall f :: f in keyFields ==> f in fields
    ensures r.Raises? ==> r.error == AttributeError
  {
    if forall f :: f in keyFields ==> f in fields then
      Returns(seq(|keyFields|, i requires 0 <= i < |keyFields| => fields[keyFields[i]]))
    else Raises(AttributeError)
  }

  /**
   * The key is the key-field values in key-field order, and it is the same
   * whether read from the dict or from the object the dict describes.
   */
  lemma ItemKeyOfObject(item: Item, keyFields: seq<string>)
    requires DistinctNames(item)
    requires ItemKey(item, keyFields).Returns?
    ensures |ItemKey(item, keyFields).value| == |keyFields|
    ensures forall i :: 0 <= i < |keyFields| ==> (keyFields[i], ItemKey(item, keyFields).value[i]) in item
    ensures ObjectKey(AsFields(item), keyFields) == ItemKey(item, keyFields)
  {
    forall f | f in keyFields
      ensures f in AsFields(item) && Lookup(item, f).value == AsFields(item)[f]
    {
      LookupAsFields(item, f);
    }
    var a, b := ObjectKey(AsFields(item), keyFields).value, ItemKey(item, keyFields).value;
    assert forall i :: 0 <= i < |keyFields| ==> a[i] == b[i];
    assert a == b;
  }

  /**
   * `_update_existing` on the attributes `fields`: every non-key entry of
   * the dict whose value differs under Python's `==` is written and sets the changed flag; key
   * entries are skipped before any attribute is read; an attribute the
   * object lacks raises AttributeError, with the earlier writes done (the
   * flag then means nothing).
   */
  function Overwrite(fields: Fields, item: Item, keyFields: seq<string>): (r: (Option<Exception>, Fields, bool))
    ensures r.0.None? || r.0 == Some(AttributeError)
    ensures r.1.Keys == fields.Keys
    decreases |item|
  {
    if item == [] then (None, fields, false)
    else if item[0].0 in keyFields then Overwrite(fields, item[1..], keyFields)
    else if item[0].0 !in fields then (Some(AttributeError), fields, false)
    else if !PyEq(fields[item[0].0], item[0].1) then
      var r := Overwrite(fields[item[0].0 := item[0].1], item[1..], keyFields);
      (r.0, r.1, true)
    else Overwrite(fields, item[1..], keyFields)
  }

  /** The writes succeed exactly when every non-key name of the dict is an attribute of the object. */
  lemma {:induction false} OverwriteError(fields: Fields, item: Item, keyFields: seq<string>)
    ensures Overwrite(fields, item, keyFields).0.None?
      <==> forall i :: 0 <= i < |item| ==> item[i].0 in keyFields || item[i].0 in fields
    decreases |item|
  {
    if item != [] {
      assert forall i :: 0 < i < |item| ==> item[i] == item[1..][i - 1];
      if item[0].0 in keyFields || item[0].0 in fields {
        var f := if item[0].0 !in keyFields && !PyEq(fields[item[0].0], item[0].1) then fields[item[0].0 := item[0].1] else fields;
        OverwriteError(f, item[1..], keyFields);
      }
    }
  }

  /** Key fields, and every attribute the dict does not name, are never written. */
  lemma {:induction false} OverwriteKeeps(fields: Fields, item: Item, keyFields: seq<string>, name: string)
    requires name in fields
    requires name in keyFields || forall i :: 0 <= i < |item| ==> item[i].0 != name
    ensures Overwrite(fields, item, keyFields).1[name] == fields[name]
    decreases |item|
  {
    if item != [] {
      assert forall i :: 0 < i < |item| ==> item[i] == item[1..][i - 1];
      if item[0].0 !in keyFields && item[0].0 in fields && !PyEq(fields[item[0].0], item[0].1) {
        OverwriteKeeps(fields[item[0].0 := item[0].1], item[1..], keyFields, name);
      } else if item[0].0 in keyFields || item[0].0 in fields {
        OverwriteKeeps(fields, item[1..], keyFields, name);
      }
    }
  }

  /** After the writes the object agrees with the dict on every non-key entry. */
  lemma {:induction false} OverwriteAgrees(fields: Fields, item: Item, keyFields: seq<string>, j: nat)
    requires DistinctNames(item) && j < |item| && item[j].0 !in keyFields
    requires Overwrite(fields, item, keyFields).0.None?
    ensures item[j].0 in fields
    ensures PyEq(Overwrite(fields, item, keyFields).1[item[j].0], item[j].1)
    decreases |item|
  {
    OverwriteError(fields, item, keyFields);
    assert forall i :: 0 < i < |item| ==> item[i] == item[1..][i - 1];
    var f := if item[0].0 !in keyFields && !PyEq(fields[item[0].0], item[0].1) then fields[item[0].0 := item[0].1] else fields;
    if j == 0 {
      OverwriteKeeps(f, item[1..], keyFields, item[0].0);
    } else {
      OverwriteAgrees(f, item[1..], keyFields, j - 1);
    }
  }

  /** The changed flag is false exactly when every non-key entry already equals the stored attribute. */
  lemma {:induction false} OverwriteChanged(fields: Fields, item: Item, keyFields: seq<string>)
    requires DistinctNames(item)
    requires Overwrite(fields, item, keyFields).0.None?
    ensures forall i :: 0 <= i < |item| ==> item[i].0 in keyFields || item[i].0 in fields
    ensures !Overwrite(fields, item, keyFields).2
      <==> forall i :: 0 <= i < |item| && item[i].0 !in keyFields ==> PyEq(fields[item[i].0], item[i].1)
    decreases |item|
  {
    if item != [] {
      assert forall i :: 0 < i < |item| ==> item[i] == item[1..][i - 1];
      var f := if item[0].0 !in keyFields && !PyEq(fields[item[0].0], item[0].1) then fields[item[0].0 := item[0].1] else fields;
      OverwriteError(fields, item, keyFields);
      OverwriteChanged(f, item[1..], keyFields);
    }
  }

  /** Writing the same dict a second time changes nothing and reports no change. */
  lemma OverwriteIdempotent(fields: Fields, item: Item, keyFields: seq<string>)
    requires DistinctNames(item)
    requires Overwrite(fields, item, keyFields).0.None?
    ensures var once := Overwrite(fields, item, keyFields).1;
      Overwrite(once, item, keyFields) == (None, once, false)
  {
    var once := Overwrite(fields, item, keyFields).1;
    OverwriteError(fields, item, keyFields);
    OverwriteError(once, item, keyFields);
    forall i | 0 <= i < |item| && item[i].0 !in keyFields
      ensures PyEq(once[item[i].0], item[i].1)
    {
      OverwriteAgrees(fields, item, keyFields, i);
    }
    OverwriteChanged(once, item, keyFields);
    OverwriteUnchanged(once, item, keyFields);
  }

  /** A dict that changes nothing leaves the attributes as they are. */
  lemma {:induction false} OverwriteUnchanged(fields: Fields, item: Item, keyFields: seq<string>)
    requires Overwrite(fields, item, keyFields).0.None? && !Overwrite(fields, item, keyFields).2
    ensures Overwrite(fields, item, keyFields).1 == fields
    decreases |item|
  {
    if item != [] {
      OverwriteUnchanged(fields, item[1..], keyFields);
    }
  }

  /** Writing non-key attributes never changes an object's natural key. */
  lemma ObjectKeyKept(fields: Fields, item: Item, keyFields: seq<string>)
    ensures ObjectKey(Overwrite(fields, item, keyFields).1, keyFields) == ObjectKey(fields, keyFields)
  {
    var after := Overwrite(fields, item, keyFields).1;
    forall f | f in keyFields && f in fields
      ensures after[f] == fields[f]
    {
      OverwriteKeeps(fields, item, keyFields, f);
    }
    if forall f :: f in keyFields ==> f in fields {
      var a, b := ObjectKey(after, keyFields).value, ObjectKey(fields, keyFields).value;
      assert forall i :: 0 <= i < |keyFields| ==> a[i] == b[i];
      assert a == b;
    }
  }

  /** The state of `_split_data` after a prefix of the items. */
  datatype SplitState = SplitState(error: Option<Exception>, insert: seq<Item>, update: seq<Key>, store: map<Key, Fields>)

  /** One item of `_split_data`: insert under an unknown key, overwrite (and perhaps queue) under a known one. */
  function SplitStep(s: SplitState, item: Item, keyFields: seq<string>): SplitState
  {
    if s.error.Some? then s
    else match ItemKey(item, keyFields)
      case Raises(e) => s.(error := Some(e))
      case Returns(k) =>
        if k in s.store then
          var o := Overwrite(s.store[k], item, keyFields);
          if o.0.Some? then s.(error := o.0, store := s.store[k := o.1])
          else s.(store := s.store[k := o.1], update := s.update + (if o.2 then [k] else []))
        else s.(insert := s.insert + [item])
  }

  /** `_split_data` on the stored attributes by key: the items one after the other, stopping at an exception. */
  function Split(store: map<Key, Fields>, data: seq<Item>, keyFields: seq<string>): (s: SplitState)
    ensures s.store.Keys == store.Keys
    ensures forall k :: k in s.update ==> k in store
    ensures |s.insert| + |s.update| <= |data|
    decreases |data|
  {
    if data == [] then SplitState(None, [], [], store)
    else SplitStep(Split(store, data[..|data| - 1], keyFields), data[|data| - 1], keyFields)
  }

  /** The items whose key is not in the index, in input order. */
  function NewItems(known: set<Key>, data: seq<Item>, keyFields: seq<string>): seq<Item>
    requires forall x :: x in data ==> ItemKey(x, keyFields).Returns?
    decreases |data|
  {
    if data == [] then []
    else
      var last := data[|data| - 1];
      NewItems(known, data[..|data| - 1], keyFields)
      + (if ItemKey(last, keyFields).value in known then [] else [last])
  }

  /**
   * The insert list is exactly the items whose key was not stored when the
   * index was built, in input order: the index is never extended, so two
   * items with the same new key are both queued.
   */
  lemma {:induction false} SplitInsert(store: map<Key, Fields>, data: seq<Item>, keyFields: seq<string>)
    requires Split(store, data, keyFields).error.None?
    ensures forall x :: x in data ==> ItemKey(x, keyFields).Returns?
    ensures Split(store, data, keyFields).insert == NewItems(store.Keys, data, keyFields)
    decreases |data|
  {
    if data != [] {
      var init := data[..|data| - 1];
      assert forall x :: x in data ==> x in init || x == data[|data| - 1] by {
        assert data == init + [data[|data| - 1]];
      }
      SplitInsert(store, init, keyFields);
    }
  }

  /** A step depends on the state only through its store: its additions can be computed from an empty state. */
  lemma SplitStepCompose(s: SplitState, item: Item, keyFields: seq<string>)
    requires s.error.None?
    ensures var t := SplitStep(SplitState(None, [], [], s.store), item, keyFields);
      SplitStep(s, item, keyFields) == SplitState(t.error, s.insert + t.insert, s.update + t.update, t.store)
  {
  }

  /** One more item: the additions of a step over the current store, appended to what the prefix gave. */
  lemma SplitSnoc(store: map<Key, Fields>, data: seq<Item>, keyFields: seq<string>, i: nat, insert: seq<Item>, keys: seq<Key>, cur: map<Key, Fields>)
    requires i < |data| && Split(store, data[..i], keyFields) == SplitState(None, insert, keys, cur)
    ensures var t := SplitStep(SplitState(None, [], [], cur), data[i], keyFields);
      Split(store, data[..i + 1], keyFields) == SplitState(t.error, insert + t.insert, keys + t.update, t.store)
  {
    assert data[..i + 1][..i] == data[..i];
    SplitStepCompose(SplitState(None, insert, keys, cur), data[i], keyFields);
  }

  /** Once an item raises, the later items are not looked at. */
  lemma {:induction false} SplitStops(store: map<Key, Fields>, data: seq<Item>, keyFields: seq<string>, n: nat)
    requires n <= |data| && Split(store, data[..n], keyFields).error.Some?
    ensures Split(store, data, keyFields) == Split(store, data[..n], keyFields)
    decreases |data|
  {
    if n == |data| {
      assert data[..n] == data;
    } else {
      var init := data[..|data| - 1];
      assert init[..n] == data[..n];
      SplitStops(store, init, keyFields, n);
    }
  }

  /**
   * One item goes to exactly one place: the insert list if its key is
   * unknown, the update list if its key is known and some non-key field
   * differs under Python's `==`, nowhere if every non-key field already matches.
   */
  lemma SplitOne(s: SplitState, item: Item, keyFields: seq<string>)
    requires s.error.None? && DistinctNames(item)
    requires ItemKey(item, keyFields).Returns?
    requires var k := ItemKey(item, keyFields).value;
      k in s.store ==> forall i :: 0 <= i < |item| ==> item[i].0 in keyFields || item[i].0 in s.store[k]
    ensures var k := ItemKey(item, keyFields).value;
      var t := SplitStep(s, item, keyFields);
      t.error.None?
      && (k !in s.store ==> t.insert == s.insert + [item] && t.update == s.update && t.store == s.store)
      && (k in s.store ==>
            (t.insert == s.insert
             && (t.update == s.update + [k] <==> exists i :: 0 <= i < |item| && item[i].0 !in keyFields && !PyEq(s.store[k][item[i].0], item[i].1))
             && (t.update == s.update <==> forall i :: 0 <= i < |item| && item[i].0 !in keyFields ==> PyEq(s.store[k][item[i].0], item[i].1))))
  {
    var k := ItemKey(item, keyFields).value;
    if k in s.store {
      OverwriteError(s.store[k], item, keyFields);
      OverwriteChanged(s.store[k], item, keyFields);
      assert s.update + [k] != s.update;
    }
  }

  /** Onto an empty store every item is inserted, in input order, and nothing is updated. */
  lemma {:induction false} SplitEmptyStore(data: seq<Item>, keyFields: seq<string>)
    requires forall x :: x in data ==> ItemKey(x, keyFields).Returns?
    ensures Split(map[], data, keyFields) == SplitState(None, data, [], map[])
    decreases |data|
  {
    if data != [] {
      var init, last := data[..|data| - 1], data[|data| - 1];
      assert forall x :: x in init ==> x in data;
      SplitEmptyStore(init, keyFields);
      InsertIntoEmptyStore(init, last, keyFields);
      assert init + [last] == data;
    }
  }

  /** With an empty store, an item with a key is queued for insertion. */
  lemma InsertIntoEmptyStore(queued: seq<Item>, item: Item, keyFields: seq<string>)
    requires ItemKey(item, keyFields).Returns?
    ensures SplitStep(SplitState(None, queued, [], map[]), item, keyFields) == SplitState(None, queued + [item], [], map[])
  {
  }

  /** Items whose keys are all stored create nothing. */
  lemma {:induction false} SplitKnownKeys(store: map<Key, Fields>, data: seq<Item>, keyFields: seq<string>)
    requires forall x :: x in data ==> ItemKey(x, keyFields).Returns? && ItemKey(x, keyFields).value in store
    ensures Split(store, data, keyFields).insert == []
    decreases |data|
  {
    if data != [] {
      var init := data[..|data| - 1];
      assert forall x :: x in init ==> x in data;
      SplitKnownKeys(store, init, keyFields);
    }
  }

  /** One item never changes the natural key of a stored object. */
  lemma SplitStepKeepsKey(s: SplitState, item: Item, keyFields: seq<string>, k: Key)
    requires k in s.store
    ensures k in SplitStep(s, item, keyFields).store
    ensures ObjectKey(SplitStep(s, item, keyFields).store[k], keyFields) == ObjectKey(s.store[k], keyFields)
  {
    if s.error.None? && ItemKey(item, keyFields).Returns? {
      var j := ItemKey(item, keyFields).value;
      if j in s.store {
        ObjectKeyKept(s.store[j], item, keyFields);
      }
    }
  }

  /** The key fields of every stored object are the same after the split. */
  lemma {:induction false} SplitKeepsKeys(store: map<Key, Fields>, data: seq<Item>, keyFields: seq<string>, k: Key)
    requires k in store
    ensures ObjectKey(Split(store, data, keyFields).store[k], keyFields) == ObjectKey(store[k], keyFields)
    decreases |data|
  {
    if data != [] {
      var init := data[..|data| - 1];
      SplitKeepsKeys(store, init, keyFields, k);
      SplitStepKeepsKey(Split(store, init, keyFields), data[|data| - 1], keyFields, k);
    }
  }

  /** The attributes of the changed objects, in update-list order. */
  function UpdatedRows(s: SplitState): (rows: seq<Fields>)
    requires forall k :: k in s.update ==> k in s.store
    ensures |rows| == |s.update|
    ensures forall i :: 0 <= i < |s.update| ==> rows[i] == s.store[s.update[i]]
  {
    seq(|s.update|, i requires 0 <= i < |s.update| => s.store[s.update[i]])
  }

  /** One bulk write of `map`. */
  datatype Write =
    | BulkCreate(items: seq<Item>, batchSize: nat)
    | BulkUpdate(rows: seq<Fields>, fields: seq<string>, batchSize: nat)

  /** The attributes `names` of an object: what a restricted bulk update writes. */
  function Project(fields: Fields, names: seq<string>): (p: Fields)
    ensures p.Keys == fields.Keys * (set n | n in names)
    ensures forall n :: n in p ==> p[n] == fields[n]
  {
    map n | n in fields && n in names :: fields[n]
  }

  /** The writes of `map`: a bulk insert only for a non-empty insert list, then a restricted bulk update only for a non-empty update list. */
  function Writes(insert: seq<Item>, update: seq<Fields>, updateFields: seq<string>, batchSize: nat): seq<Write>
  {
    (if insert != [] then [BulkCreate(insert, batchSize)] else [])
    + (if update != [] then [BulkUpdate(seq(|update|, j requires 0 <= j < |update| => Project(update[j], updateFields)), updateFields, batchSize)] else [])
  }

  /**
   * At most two writes: a bulk insert exactly when the insert list is
   * non-empty, a bulk update exactly when the update list is non-empty,
   * and the update writes only the update fields of each object.
   */
  lemma WritesSpec(insert: seq<Item>, update: seq<Fields>, updateFields: seq<string>, batchSize: nat)
    ensures var w := Writes(insert, update, updateFields, batchSize);
      |w| <= 2
      && ((exists i :: 0 <= i < |w| && w[i].BulkCreate?) <==> insert != [])
      && ((exists i :: 0 <= i < |w| && w[i].BulkUpdate?) <==> update != [])
      && forall i :: 0 <= i < |w| && w[i].BulkUpdate? ==>
           (|w[i].rows| == |update| && w[i].fields == updateFields && w[i].batchSize == batchSize
            && forall j :: 0 <= j < |update| ==> w[i].rows[j].Keys <= set n | n in updateFields)
  {
    var w := Writes(insert, update, updateFields, batchSize);
    assert insert != [] ==> w[0].BulkCreate?;
    assert update != [] ==> w[|w| - 1].BulkUpdate?;
  }

  /** A stored model object, whose attributes the mapper overwrites in place. */
  class StoredObject {
    var fields: Fields

    constructor (fields: Fields)
      ensures this.fields == fields
    {
      this.fields := fields;
    }
  }

  /** The index of the first `n` stored objects: later objects win on a repeated key. */
  function Index(store: seq<StoredObject>, keyFields: seq<string>, n: nat): map<Key, StoredObject>
    requires n <= |store|
    requires forall i :: 0 <= i < |store| ==> ObjectKey(store[i].fields, keyFields).Returns?
    reads set i | 0 <= i < |store| :: store[i]
  {
    if n == 0 then map[]
    else Index(store, keyFields, n - 1)[ObjectKey(store[n - 1].fields, keyFields).value := store[n - 1]]
  }

  /** Every stored object's key is indexed, and every indexed object is a stored one sitting under its own key. */
  lemma {:induction false} IndexSpec(store: seq<StoredObject>, keyFields: seq<string>, n: nat)
    requires n <= |store|
    requires forall i :: 0 <= i < |store| ==> ObjectKey(store[i].fields, keyFields).Returns?
    ensures forall i :: 0 <= i < n ==> ObjectKey(store[i].fields, keyFields).value in Index(store, keyFields, n)
    ensures forall k :: k in Index(store, keyFields, n) ==>
      (exists i :: 0 <= i < n && Index(store, keyFields, n)[k] == store[i])
      && ObjectKey(Index(store, keyFields, n)[k].fields, keyFields) == Returns(k)
  {
    if n > 0 {
      IndexSpec(store, keyFields, n - 1);
    }
  }

  /** The index never holds one object under two keys. */
  lemma IndexInjective(store: seq<StoredObject>, keyFields: seq<string>, n: nat)
    requires n <= |store|
    requires forall i :: 0 <= i < |store| ==> ObjectKey(store[i].fields, keyFields).Returns?
    ensures var m := Index(store, keyFields, n);
      forall k, j :: k in m && j in m && k != j ==> m[k] != m[j]
  {
    IndexSpec(store, keyFields, n);
  }

  /** The dict comprehension of `__init__`: each stored object under its natural key. */
  method BuildIndex(store: seq<StoredObject>, keyFields: seq<string>) returns (m: map<Key, StoredObject>)
    requires forall i :: 0 <= i < |store| ==> ObjectKey(store[i].fields, keyFields).Returns?
    ensures m == Index(store, keyFields, |store|)
  {
    m := map[];
    var i := 0;
    while i < |store|
      invariant 0 <= i <= |store|
      invariant m == Index(store, keyFields, i)
    {
      m := m[ObjectKey(store[i].fields, keyFields).value := store[i]];
      i := i + 1;
    }
  }

  /** `objects` are the objects of `index` under `keys`, one for one. */
  ghost predicate Tracks(index: map<Key, StoredObject>, objects: seq<StoredObject>, keys: seq<Key>)
  {
    |objects| == |keys| && forall j :: 0 <= j < |keys| ==> keys[j] in index && objects[j] == index[keys[j]]
  }

  /** Two tracked batches, one after the other, are tracked together. */
  lemma TracksAppend(index: map<Key, StoredObject>, objects: seq<StoredObject>, keys: seq<Key>, more: seq<StoredObject>, moreKeys: seq<Key>)
    requires Tracks(index, objects, keys) && Tracks(index, more, moreKeys)
    ensures Tracks(index, objects + more, keys + moreKeys)
  {
  }

  /** `BaseMapper` with its configuration: key fields, update fields and batch size. */
  class BaseMapper {
    const keyFields: seq<string>
    const updateFields: seq<string>
    const batchSize: nat
    var existingObjects: map<Key, StoredObject>

    /** No object sits under two keys: each indexed object is written through one key only. */
    ghost predicate Valid()
      reads this
    {
      forall k, j :: k in existingObjects && j in existingObjects && k != j ==> existingObjects[k] != existingObjects[j]
    }

    /** The attributes of the indexed objects, by key. */
    function Snapshot(): (m: map<Key, Fields>)
      reads this, existingObjects.Values
      ensures m.Keys == existingObjects.Keys
    {
      map k | k in existingObjects :: existingObjects[k].fields
    }

    /** `__init__`: the index of all stored objects by natural key, built once. */
    constructor (store: seq<StoredObject>, keyFields: seq<string>, updateFields: seq<string>, batchSize: nat)
      requires forall i :: 0 <= i < |store| ==> ObjectKey(store[i].fields, keyFields).Returns?
      ensures this.keyFields == keyFields && this.updateFields == updateFields && this.batchSize == batchSize
      ensures existingObjects == Index(store, keyFields, |store|)
      ensures Valid()
    {
      var index := BuildIndex(store, keyFields);
      this.keyFields := keyFields;
      this.updateFields := updateFields;
      this.batchSize := batchSize;
      existingObjects := index;
      IndexInjective(store, keyFields, |store|);
    }

    /** `_update_existing`: overwrite the differing non-key attributes and report whether any changed. */
    method UpdateExisting(obj: StoredObject, item: Item) returns (r: Parsed<bool>)
      modifies obj
      ensures var o := Overwrite(old(obj.fields), item, keyFields);
        obj.fields == o.1 && (o.0.Some? ==> r == Raises(o.0.value)) && (o.0.None? ==> r == Returns(o.2))
    {
      var changed := false;
      var i := 0;
      while i < |item|
        invariant 0 <= i <= |item|
        invariant var o := Overwrite(old(obj.fields), item, keyFields);
          var t := Overwrite(obj.fields, item[i..], keyFields);
          t.0 == o.0 && t.1 == o.1 && (o.0.None? ==> o.2 == (changed || t.2))
      {
        assert item[i..][1..] == item[i + 1..];
        var (name, value) := item[i];
        if name !in keyFields {
          if name !in obj.fields {
            return Raises(AttributeError);
          }
          if !PyEq(obj.fields[name], value) {
            obj.fields := obj.fields[name := value];
            changed := true;
          }
        }
        i := i + 1;
      }
      return Returns(changed);
    }

    /** The body of the `_split_data` loop for one item, on a fresh state over the current snapshot. */
    method Place(item: Item) returns (r: Parsed<(seq<Item>, seq<StoredObject>)>)
      requires Valid()
      modifies existingObjects.Values
      ensures existingObjects == old(existingObjects) && Valid()
      ensures var t := SplitStep(SplitState(None, [], [], old(Snapshot())), item, keyFields);
        Snapshot() == t.store
        && (t.error.Some? ==> r == Raises(t.error.value))
        && (t.error.None? ==> r.Returns? && r.value.0 == t.insert && Tracks(existingObjects, r.value.1, t.update))
    {
      if !(forall f :: f in keyFields ==> Lookup(item, f).Some?) {
        return Raises(KeyError);
      }
      var key := ItemKey(item, keyFields).value;
      if key !in existingObjects {
        return Returns(([item], []));
      }
      var obj := existingObjects[key];
      ghost var before := Snapshot();
      var changed := UpdateExisting(obj, item);
      assert Snapshot() == before[key := obj.fields];
      if changed.Raises? {
        return Raises(changed.error);
      }
      if changed.value {
        return Returns(([], [obj]));
      }
      return Returns(([], []));
    }

    /** One round of the `_split_data` loop: place `data[i]`, extending the split of `data[..i]` to `data[..i + 1]`. */
    method SplitNext(ghost store0: map<Key, Fields>, data: seq<Item>, i: nat, insert: seq<Item>, update: seq<StoredObject>, ghost keys: seq<Key>)
      returns (r: Parsed<(seq<Item>, seq<StoredObject>)>, ghost keys': seq<Key>)
      requires i < |data| && Valid()
      requires Split(store0, data[..i], keyFields) == SplitState(None, insert, keys, Snapshot())
      requires Tracks(existingObjects, update, keys)
      modifies existingObjects.Values
      ensures existingObjects == old(existingObjects) && Valid()
      ensures r.Raises? ==> var s := Split(store0, data, keyFields); s.error == Some(r.error) && s.store == Snapshot()
      ensures r.Returns? ==>
        Split(store0, data[..i + 1], keyFields) == SplitState(None, r.value.0, keys', Snapshot())
        && Tracks(existingObjects, r.value.1, keys')
    {
      ghost var cur := Snapshot();
      ghost var t := SplitStep(SplitState(None, [], [], cur), data[i], keyFields);
      SplitSnoc(store0, data, keyFields, i, insert, keys, cur);
      var placed := Place(data[i]);
      if placed.Raises? {
        SplitStops(store0, data, keyFields, i + 1);
        return Raises(placed.error), keys;
      }
      TracksAppend(existingObjects, update, keys, placed.value.1, t.update);
      return Returns((insert + placed.value.0, update + placed.value.1)), keys + t.update;
    }

    /** `_split_data`: the insert list and the list of changed objects, in input order. */
    method SplitData(data: seq<Item>) returns (r: Parsed<(seq<Item>, seq<StoredObject>)>)
      requires Valid()
      modifies existingObjects.Values
      ensures existingObjects == old(existingObjects) && Valid()
      ensures var s := Split(old(Snapshot()), data, keyFields);
        Snapshot() == s.store
        && (s.error.Some? ==> r == Raises(s.error.value))
        && (s.error.None? ==> r.Returns? && r.value.0 == s.insert && Tracks(existingObjects, r.value.1, s.update))
    {
      ghost var store0 := Snapshot();
      var insert: seq<Item> := [];
      var update: seq<StoredObject> := [];
      ghost var keys: seq<Key> := [];
      var i := 0;
      while i < |data|
        invariant 0 <= i <= |data|
        invariant existingObjects == old(existingObjects) && Valid()
        invariant Split(store0, data[..i], keyFields) == SplitState(None, insert, keys, Snapshot())
        invariant Tracks(existingObjects, update, keys)
      {
        var next;
        next, keys := SplitNext(store0, data, i, insert, update, keys);
        if next.Raises? {
          return Raises(next.error);
        }
        insert, update := next.value.0, next.value.1;
        i := i + 1;
      }
      assert data[..i] == data;
      return Returns((insert, update));
    }

    /** `map`: split, then the bulk insert and the restricted bulk update, each only when its list is non-empty. */
    method Map(data: seq<Item>) returns (r: Parsed<seq<Write>>)
      requires Valid()
      modifies existingObjects.Values
      ensures existingObjects == old(existingObjects) && Valid()
      ensures var s := Split(old(Snapshot()), data, keyFields);
        Snapshot() == s.store
        && (s.error.Some? ==> r == Raises(s.error.value))
        && (s.error.None? ==> r == Returns(Writes(s.insert, UpdatedRows(s), updateFields, batchSize)))
    {
      ghost var store0 := Snapshot();
      var split := SplitData(data);
      ghost var s := Split(store0, data, keyFields);
      if split.Raises? {
        return Raises(split.error);
      }
      var insert, update := split.value.0, split.value.1;
      var rows := seq(|update|, j requires 0 <= j < |update| reads update => update[j].fields);
      assert rows == UpdatedRows(s);
      return Returns(Writes(insert, rows, updateFields, batchSize));
    }
  }
}
