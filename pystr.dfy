/**
 * The Python `str` operations that the parsers and transformers rely on:
 * substring test (`p in s`), `replace`, `strip`, `split`, `isdecimal` and
 * `int(...)` on text, each with the edge cases CPython gives them.
 */
module PyStr {
  import opened Common

  /** `str.isspace()` for a single character (CPython's whitespace table). */
  predicate IsSpace(c: char)
  {
    c == ' ' || ('\t' <= c <= '\r') || ('\U{1C}' <= c <= '\U{1F}')
    || c == '\U{85}' || c == '\U{A0}' || c == '\U{1680}'
    || ('\U{2000}' <= c <= '\U{200A}') || c == '\U{2028}' || c == '\U{2029}'
    || c == '\U{202F}' || c == '\U{205F}' || c == '\U{3000}'
  }

  predicate IsDigit(c: char)
  {
    '0' <= c <= '9'
  }

  function DigitValue(c: char): (v: nat)
    requires IsDigit(c)
    ensures v < 10
  {
    (c as int) - ('0' as int)
  }

  function DigitChar(v: nat): (c: char)
    requires v < 10
    ensures IsDigit(c) && DigitValue(c) == v
  {
    (('0' as int) + v) as char
  }

  predicate StartsWith(s: string, p: string)
  {
    |p| <= |s| && s[..|p|] == p
  }

  /** Python `p in s`; the empty string occurs in every string. */
  predicate Contains(s: string, p: string)
    decreases |s|
  {
    StartsWith(s, p) || (|s| > 0 && Contains(s[1..], p))
  }

  /** `p` occurs in `s` starting at index `i`. */
  predicate OccursAt(s: string, p: string, i: int)
  {
    0 <= i <= |s| - |p| && s[i..i + |p|] == p
  }

  /** `Contains` holds exactly when `p` occurs at some position of `s`. */
  lemma {:induction false} ContainsIff(s: string, p: string)
    ensures Contains(s, p) <==> exists i :: OccursAt(s, p, i)
    decreases |s|
  {
    if StartsWith(s, p) {
      assert OccursAt(s, p, 0);
    } else if |s| > 0 {
      ContainsIff(s[1..], p);
      if Contains(s[1..], p) {
        var i :| OccursAt(s[1..], p, i);
        assert s[1..][i..i + |p|] == s[i + 1..i + 1 + |p|];
        assert OccursAt(s, p, i + 1);
      }
      if exists i :: OccursAt(s, p, i) {
        var i :| OccursAt(s, p, i);
        assert i != 0;
        assert s[1..][i - 1..i - 1 + |p|] == s[i..i + |p|];
        assert OccursAt(s[1..], p, i - 1);
      }
    }
  }

  /**
   * `s.replace(pat, rep)`: occurrences are found left to right and do not
   * overlap; text produced by a replacement is never scanned again.
   */
  function ReplaceAll(s: string, pat: string, rep: string): (r: string)
    requires |pat| > 0
    decreases |s|
  {
    if |s| == 0 then ""
    else if StartsWith(s, pat) then rep + ReplaceAll(s[|pat|..], pat, rep)
    else [s[0]] + ReplaceAll(s[1..], pat, rep)
  }

  /** Replacing a string that does not occur leaves the text unchanged. */
  lemma {:induction false} ReplaceAllAbsent(s: string, pat: string, rep: string)
    requires |pat| > 0
    requires !Contains(s, pat)
    ensures ReplaceAll(s, pat, rep) == s
    decreases |s|
  {
    if |s| > 0 {
      ReplaceAllAbsent(s[1..], pat, rep);
      assert s == [s[0]] + s[1..];
    }
  }

  /**
   * A prefix that never shows the first character of `pat` is copied as
   * is: replacement only starts where `pat` can begin.
   */
  lemma {:induction false} ReplaceAllPrefix(a: string, s: string, pat: string, rep: string)
    requires |pat| > 0
    requires forall i :: 0 <= i < |a| ==> a[i] != pat[0]
    ensures ReplaceAll(a + s, pat, rep) == a + ReplaceAll(s, pat, rep)
    decreases |a|
  {
    if |a| > 0 {
      assert (a + s)[0] == a[0];
      assert !StartsWith(a + s, pat);
      assert (a + s)[1..] == a[1..] + s;
      ReplaceAllPrefix(a[1..], s, pat, rep);
      assert ReplaceAll(a + s, pat, rep) == [a[0]] + ReplaceAll(a[1..] + s, pat, rep);
      assert a == [a[0]] + a[1..];
    } else {
      assert a + s == s;
    }
  }

  /** Index of the first character that is not whitespace (or |s|). */
  function LStripIndex(s: string): (i: nat)
    ensures i <= |s|
    ensures forall k :: 0 <= k < i ==> IsSpace(s[k])
    ensures i < |s| ==> !IsSpace(s[i])
    decreases |s|
  {
    if |s| > 0 && IsSpace(s[0]) then 1 + LStripIndex(s[1..]) else 0
  }

  /** One past the last character that is not whitespace (or 0). */
  function RStripIndex(s: string): (j: nat)
    ensures j <= |s|
    ensures forall k :: j <= k < |s| ==> IsSpace(s[k])
    ensures j > 0 ==> !IsSpace(s[j - 1])
    decreases |s|
  {
    if |s| > 0 && IsSpace(s[|s| - 1]) then RStripIndex(s[..|s| - 1]) else |s|
  }

  /** `s.strip()`: removes leading and trailing whitespace. */
  function Strip(s: string): (r: string)
  {
    var i := LStripIndex(s);
    if i == |s| then "" else s[i..RStripIndex(s)]
  }

  /**
   * `strip` keeps a contiguous slice of the input, removes only
   * whitespace, and the slice neither starts nor ends with whitespace.
   */
  lemma StripSpec(s: string)
    ensures exists i, j ::
              (0 <= i <= j <= |s| && Strip(s) == s[i..j]
               && (forall k :: 0 <= k < i ==> IsSpace(s[k]))
               && (forall k :: j <= k < |s| ==> IsSpace(s[k])))
    ensures |Strip(s)| > 0 ==> !IsSpace(Strip(s)[0]) && !IsSpace(Strip(s)[|Strip(s)| - 1])
  {
    var i := LStripIndex(s);
    if i == |s| {
      assert Strip(s) == s[|s|..|s|];
    } else {
      var j := RStripIndex(s);
      assert !IsSpace(s[i]);
      assert i < j;
      assert Strip(s) == s[i..j];
    }
  }

  /** Text free of surrounding whitespace is its own strip. */
  lemma StripUntouched(s: string)
    requires |s| > 0 ==> !IsSpace(s[0]) && !IsSpace(s[|s| - 1])
    ensures Strip(s) == s
  {
    if |s| > 0 {
      assert LStripIndex(s) == 0;
      assert RStripIndex(s) == |s|;
    }
  }

  /** Leading whitespace in front of a non-space character is all that `lstrip` skips. */
  lemma {:induction false} LStripPast(l: string, t: string)
    requires forall k :: 0 <= k < |l| ==> IsSpace(l[k])
    requires |t| > 0 && !IsSpace(t[0])
    ensures LStripIndex(l + t) == |l|
    decreases |l|
  {
    if |l| > 0 {
      assert (l + t)[1..] == l[1..] + t;
      LStripPast(l[1..], t);
    } else {
      assert l + t == t;
    }
  }

  /** Trailing whitespace after a non-space character is all that `rstrip` drops. */
  lemma {:induction false} RStripPast(t: string, r: string)
    requires forall k :: 0 <= k < |r| ==> IsSpace(r[k])
    requires |t| > 0 && !IsSpace(t[|t| - 1])
    ensures RStripIndex(t + r) == |t|
    decreases |r|
  {
    if |r| > 0 {
      assert (t + r)[..|t + r| - 1] == t + r[..|r| - 1];
      RStripPast(t, r[..|r| - 1]);
    } else {
      assert t + r == t;
    }
  }

  /** Stripping text padded with whitespace gives the text back. */
  lemma StripPadded(l: string, t: string, r: string)
    requires forall k :: 0 <= k < |l| ==> IsSpace(l[k])
    requires forall k :: 0 <= k < |r| ==> IsSpace(r[k])
    requires |t| > 0 && !IsSpace(t[0]) && !IsSpace(t[|t| - 1])
    ensures Strip(l + t + r) == t
  {
    LStripPast(l, t + r);
    assert l + t + r == l + (t + r);
    RStripPast(l + t, r);
    assert (l + t + r)[|l|..|l + t|] == t;
  }

  /**
   * `s.split(sep)` for a one-character separator, and `re.split` on an
   * alternation of single characters: cut at every separator occurrence.
   */
  function Split(s: string, seps: set<char>): (r: seq<string>)
    ensures |r| >= 1
    ensures forall k :: 0 <= k < |r| ==> forall c :: c in r[k] ==> c !in seps
    decreases |s|
  {
    if |s| == 0 then [""]
    else
      var rest := Split(s[1..], seps);
      if s[0] in seps then [""] + rest
      else [[s[0]] + rest[0]] + rest[1..]
  }

  /** Text without a separator is one piece. */
  lemma {:induction false} SplitNone(s: string, seps: set<char>)
    requires forall k :: 0 <= k < |s| ==> s[k] !in seps
    ensures Split(s, seps) == [s]
    decreases |s|
  {
    if |s| > 0 {
      SplitNone(s[1..], seps);
      assert s == [s[0]] + s[1..];
    }
  }

  /** Text up to the first separator is the first piece; the rest is split on its own. */
  lemma {:induction false} SplitAt(a: string, c: char, b: string, seps: set<char>)
    requires forall k :: 0 <= k < |a| ==> a[k] !in seps
    requires c in seps
    ensures Split(a + [c] + b, seps) == [a] + Split(b, seps)
    decreases |a|
  {
    if |a| == 0 {
      assert a + [c] + b == [c] + b;
      assert ([c] + b)[1..] == b;
    } else {
      assert (a + [c] + b)[1..] == a[1..] + [c] + b;
      SplitAt(a[1..], c, b, seps);
      assert a == [a[0]] + a[1..];
    }
  }

  /** `sep.join(parts)` */
  function Join(parts: seq<string>, sep: char): string
  {
    if |parts| == 0 then ""
    else if |parts| == 1 then parts[0]
    else parts[0] + [sep] + Join(parts[1..], sep)
  }

  /** Joining the pieces of a split with the separator gives the text back. */
  lemma {:induction false} SplitJoin(s: string, sep: char)
    ensures Join(Split(s, {sep}), sep) == s
    decreases |s|
  {
    if |s| > 0 {
      var rest := Split(s[1..], {sep});
      SplitJoin(s[1..], sep);
      if s[0] == sep {
        assert Split(s, {sep}) == [""] + rest;
        assert ([""] + rest)[1..] == rest;
        assert s == [sep] + s[1..];
      } else {
        var r := Split(s, {sep});
        assert r == [[s[0]] + rest[0]] + rest[1..];
        if |rest| == 1 {
          assert s[1..] == rest[0];
          assert s == [s[0]] + s[1..];
        } else {
          assert r[1..] == rest[1..];
          assert Join(rest, sep) == rest[0] + [sep] + Join(rest[1..], sep);
          assert s == [s[0]] + s[1..];
        }
      }
    }
  }

  /** `str.isdecimal()` restricted to ASCII digits; false on "". */
  predicate IsDecimal(s: string)
  {
    |s| > 0 && forall k :: 0 <= k < |s| ==> IsDigit(s[k])
  }

  /** Value of a run of ASCII digits, most significant first. */
  function DecimalValue(s: string): (v: nat)
    requires forall k :: 0 <= k < |s| ==> IsDigit(s[k])
    decreases |s|
  {
    if |s| == 0 then 0 else 10 * DecimalValue(s[..|s| - 1]) + DigitValue(s[|s| - 1])
  }

  function Pow10(k: nat): (p: nat)
    ensures p >= 1
  {
    if k == 0 then 1 else 10 * Pow10(k - 1)
  }

  /** The value of concatenated digit runs: the left run shifted by the right's length. */
  lemma {:induction false} DecimalValueConcat(a: string, b: string)
    requires forall k :: 0 <= k < |a| ==> IsDigit(a[k])
    requires forall k :: 0 <= k < |b| ==> IsDigit(b[k])
    ensures DecimalValue(a + b) == DecimalValue(a) * Pow10(|b|) + DecimalValue(b)
    decreases |b|
  {
    if |b| == 0 {
      assert a + b == a;
    } else {
      var b' := b[..|b| - 1];
      var d := DigitValue(b[|b| - 1]);
      assert (a + b)[..|a + b| - 1] == a + b';
      assert (a + b)[|a + b| - 1] == b[|b| - 1];
      DecimalValueConcat(a, b');
      var va, vb, p := DecimalValue(a), DecimalValue(b'), Pow10(|b'|);
      assert DecimalValue(a + b) == 10 * (va * p + vb) + d;
      assert DecimalValue(b) == 10 * vb + d;
      assert Pow10(|b|) == 10 * p;
      ScaleProduct(va, p);
    }
  }

  /** Scaling a product by ten scales its second factor. */
  lemma ScaleProduct(x: int, y: int)
    ensures 10 * (x * y) == x * (10 * y)
  {
  }

  function DecimalString(n: nat): (s: string)
    ensures IsDecimal(s)
    ensures |s| > 1 ==> s[0] != '0'
    decreases n
  {
    if n < 10 then [DigitChar(n)] else DecimalString(n / 10) + [DigitChar(n % 10)]
  }

  lemma {:induction false} DecimalRoundTrip(n: nat)
    ensures DecimalValue(DecimalString(n)) == n
    decreases n
  {
    if n >= 10 {
      var s := DecimalString(n);
      DecimalRoundTrip(n / 10);
      assert s[..|s| - 1] == DecimalString(n / 10);
    }
  }

  /** `s.replace('_', '')` on a run of digits and underscores. */
  function DropUnderscores(s: string): (r: string)
    ensures forall c :: c in r ==> c in s && c != '_'
    ensures (forall k :: 0 <= k < |s| ==> IsDigit(s[k]) || s[k] == '_') ==>
              forall k :: 0 <= k < |r| ==> IsDigit(r[k])
    decreases |s|
  {
    if |s| == 0 then "" else (if s[0] == '_' then "" else [s[0]]) + DropUnderscores(s[1..])
  }

  /**
   * Body of an integer literal accepted by `int(...)`: digits, where an
   * underscore may only stand alone between two digits.
   */
  predicate DigitBody(b: string)
  {
    |b| > 0 && IsDigit(b[0]) && IsDigit(b[|b| - 1])
    && (forall k :: 0 <= k < |b| ==> IsDigit(b[k]) || b[k] == '_')
    && (forall k :: 0 <= k < |b| - 1 ==> !(b[k] == '_' && b[k + 1] == '_'))
  }

  /**
   * `int(s)` on text: surrounding whitespace is ignored, an optional sign
   * is read, and the rest must be a digit body; anything else raises
   * ValueError, modelled as `None`.
   */
  function PyInt(s: string): (r: Option<int>)
  {
    var t := Strip(s);
    var negative := |t| > 0 && t[0] == '-';
    var body := if |t| > 0 && (t[0] == '-' || t[0] == '+') then t[1..] else t;
    if !DigitBody(body) then None
    else
      var v: int := DecimalValue(DropUnderscores(body));
      Some(if negative then -v else v)
  }

  /** `int(str(n)) == n` for every non-negative `n`. */
  lemma PyIntOfDecimalString(n: nat)
    ensures PyInt(DecimalString(n)) == Some(n)
  {
    PyIntOfDigits(DecimalString(n));
    DecimalRoundTrip(n);
  }

  lemma {:induction false} NoUnderscores(s: string)
    requires forall k :: 0 <= k < |s| ==> IsDigit(s[k])
    ensures DropUnderscores(s) == s
    decreases |s|
  {
    if |s| > 0 {
      NoUnderscores(s[1..]);
      assert s == [s[0]] + s[1..];
    }
  }

  /** `int()` of a run of ASCII digits is its decimal value. */
  lemma PyIntOfDigits(s: string)
    requires IsDecimal(s)
    ensures PyInt(s) == Some(DecimalValue(s))
  {
    assert !IsSpace(s[0]) && !IsSpace(s[|s| - 1]);
    StripUntouched(s);
    NoUnderscores(s);
    assert !(s[0] == '-' || s[0] == '+');
    assert DigitBody(s);
  }

  /** Text without a digit anywhere is never an integer. */
  lemma PyIntRejectsNonDigits(s: string)
    requires forall k :: 0 <= k < |s| ==> !IsDigit(s[k])
    ensures PyInt(s) == None
  {
    var t := Strip(s);
    StripSpec(s);
    var i, j :| 0 <= i <= j <= |s| && t == s[i..j];
    var body := if |t| > 0 && (t[0] == '-' || t[0] == '+') then t[1..] else t;
    if |body| > 0 {
      if |t| > 0 && (t[0] == '-' || t[0] == '+') {
        assert body[0] == s[i + 1];
      } else {
        assert body[0] == s[i];
      }
    }
  }
}
