/**
 * Shared vocabulary of the model: optional values, the outcome of a Python
 * call that may raise, and small sequence utilities (filtering, a stable
 * insertion sort by an integer key).
 */
module Common {

  datatype Option<T> = None | Some(value: T)

  /** The Python exceptions that the modelled code lets escape. */
  datatype Exception =
    | KeyError
    | IndexError
    | ValueError
    | AttributeError
    | TypeError
    | ZeroDivisionError
    | DatabaseError

  /** Outcome of a call that either raises or returns a value. */
  datatype Parsed<T> = Raises(error: Exception) | Returns(value: T)

  /** A null cell counts as 0 in a pandas sum (`skipna`, `min_count=0`). */
  function OrZero(o: Option<int>): int
  {
    if o.Some? then o.value else 0
  }

  /** Elements of `s` satisfying `p`, in their original order. */
  function Filter<T>(s: seq<T>, p: T -> bool): (r: seq<T>)
    ensures |r| <= |s|
    ensures forall x :: x in r ==> x in s && p(x)
    ensures forall x :: x in s && p(x) ==> x in r
  {
    if s == [] then [] else (if p(s[0]) then [s[0]] else []) + Filter(s[1..], p)
  }

  lemma {:induction false} FilterAppend<T>(a: seq<T>, b: seq<T>, p: T -> bool)
    ensures Filter(a + b, p) == Filter(a, p) + Filter(b, p)
  {
    if a == [] {
      assert a + b == b;
    } else {
      assert (a + b)[1..] == a[1..] + b;
      FilterAppend(a[1..], b, p);
    }
  }

  /** Filtering one more element of `s` appends it exactly when it passes. */
  lemma FilterSnoc<T>(s: seq<T>, i: nat, p: T -> bool)
    requires i < |s|
    ensures Filter(s[..i + 1], p) == Filter(s[..i], p) + (if p(s[i]) then [s[i]] else [])
  {
    FilterAppend(s[..i], [s[i]], p);
    assert s[..i + 1] == s[..i] + [s[i]];
    assert [s[i]][1..] == [];
  }

  /** An element the predicate rejects contributes nothing to the filtered sequence. */
  lemma FilterSkip<T>(a: seq<T>, x: T, b: seq<T>, p: T -> bool)
    requires !p(x)
    ensures Filter(a + [x] + b, p) == Filter(a + b, p)
  {
    var xb := [x] + b;
    assert xb[0] == x && xb[1..] == b;
    assert Filter(xb, p) == Filter(b, p);
    assert a + [x] + b == a + xb;
    FilterAppend(a, xb, p);
    FilterAppend(a, b, p);
  }

  lemma {:induction false} FilterAll<T>(s: seq<T>, p: T -> bool)
    requires forall x :: x in s ==> p(x)
    ensures Filter(s, p) == s
  {
    if s != [] {
      FilterAll(s[1..], p);
    }
  }

  /** Every element whose key is at most the key of every later element. */
  ghost predicate SortedBy<T>(s: seq<T>, key: T -> int)
  {
    forall i, j :: 0 <= i < j < |s| ==> key(s[i]) <= key(s[j])
  }

  /** Inserts `x` before the first element whose key is not smaller. */
  function InsertBy<T>(x: T, s: seq<T>, key: T -> int): (r: seq<T>)
    requires SortedBy(s, key)
    ensures SortedBy(r, key)
    ensures multiset(r) == multiset(s) + multiset{x}
    ensures |r| == |s| + 1
  {
    if s == [] then [x]
    else if key(x) <= key(s[0]) then [x] + s
    else
      var rest := InsertBy(x, s[1..], key);
      assert s == [s[0]] + s[1..];
      assert forall j :: 0 <= j < |rest| ==> key(s[0]) <= key(rest[j]) by {
        forall j | 0 <= j < |rest|
          ensures key(s[0]) <= key(rest[j])
        {
          assert rest[j] in multiset(rest);
          assert rest[j] in multiset(s[1..]) || rest[j] == x;
          if rest[j] != x {
            var k :| 0 <= k < |s[1..]| && s[1..][k] == rest[j];
            assert s[k + 1] == rest[j];
          }
        }
      }
      ConsSorted(s[0], rest, key);
      [s[0]] + rest
  }

  /** Prepending an element no larger than every later key keeps the order. */
  lemma ConsSorted<T>(h: T, t: seq<T>, key: T -> int)
    requires SortedBy(t, key)
    requires forall j :: 0 <= j < |t| ==> key(h) <= key(t[j])
    ensures SortedBy([h] + t, key)
  {
    var r := [h] + t;
    forall i, j | 0 <= i < j < |r|
      ensures key(r[i]) <= key(r[j])
    {
      if i > 0 {
        assert r[i] == t[i - 1] && r[j] == t[j - 1];
      } else {
        assert r[j] == t[j - 1];
      }
    }
  }

  /**
   * Stable insertion sort: equal keys keep their input order, since each
   * element is inserted in front of the equal ones that follow it.
   */
  function SortBy<T>(s: seq<T>, key: T -> int): (r: seq<T>)
    ensures SortedBy(r, key)
    ensures multiset(r) == multiset(s)
    ensures |r| == |s|
  {
    if s == [] then []
    else
      assert s == [s[0]] + s[1..];
      InsertBy(s[0], SortBy(s[1..], key), key)
  }
}
