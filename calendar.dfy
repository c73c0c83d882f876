/**
 * Calendar dates as Python's `datetime.date` sees them, the subset of
 * `datetime.strptime` the parsers use (directives %d, %m, %Y, %y and
 * literal characters), the `dd-mm-yyyy` key format of the mappers, and day
 * numbers for weekly bucketing.
 */
module Calendar {
  import opened Common
  import opened PyStr

  datatype Date = Date(year: int, month: int, day: int)

  predicate IsLeap(y: int)
  {
    y % 4 == 0 && (y % 100 != 0 || y % 400 == 0)
  }

  function DaysInMonth(y: int, m: int): (n: int)
    requires 1 <= m <= 12
    ensures 28 <= n <= 31
  {
    if m == 2 then (if IsLeap(y) then 29 else 28)
    else if m == 4 || m == 6 || m == 9 || m == 11 then 30
    else 31
  }

  /** The dates `datetime.date` accepts (MINYEAR = 1, MAXYEAR = 9999). */
  predicate ValidDate(d: Date)
  {
    1 <= d.year <= 9999 && 1 <= d.month <= 12 && 1 <= d.day <= DaysInMonth(d.year, d.month)
  }

  /** One element of a `strptime` format string. */
  datatype Directive = DayOfMonth | MonthNumber | Year4 | Year2 | Literal(c: char)

  /** "%d.%m.%Y" */
  const DottedDMY: seq<Directive> := [DayOfMonth, Literal('.'), MonthNumber, Literal('.'), Year4]
  /** "%d.%m.%y" */
  const DottedDMy: seq<Directive> := [DayOfMonth, Literal('.'), MonthNumber, Literal('.'), Year2]
  /** "%Y-%m-%d" */
  const IsoYMD: seq<Directive> := [Year4, Literal('-'), MonthNumber, Literal('-'), DayOfMonth]
  /** "%d-%m-%Y" */
  const DashedDMY: seq<Directive> := [DayOfMonth, Literal('-'), MonthNumber, Literal('-'), Year4]

  /**
   * Lengths of the prefixes of `s` that the directive's regular expression
   * matches, in the order CPython's alternation tries them:
   * %d is `3[01]|[12]\d|0[1-9]|[1-9]| [1-9]`, %m is `1[0-2]|0[1-9]|[1-9]`,
   * %Y is `\d\d\d\d` and %y is `\d\d`.
   */
  function Alternatives(d: Directive, s: string): (lens: seq<nat>)
    requires !d.Literal?
    ensures |lens| <= 5
    ensures forall k :: 0 <= k < |lens| ==> 0 < lens[k] <= |s|
  {
    match d
    case DayOfMonth =>
      (if |s| >= 2 && s[0] == '3' && '0' <= s[1] <= '1' then [2] else [])
      + (if |s| >= 2 && '1' <= s[0] <= '2' && IsDigit(s[1]) then [2] else [])
      + (if |s| >= 2 && s[0] == '0' && '1' <= s[1] <= '9' then [2] else [])
      + (if |s| >= 1 && '1' <= s[0] <= '9' then [1] else [])
      + (if |s| >= 2 && s[0] == ' ' && '1' <= s[1] <= '9' then [2] else [])
    case MonthNumber =>
      (if |s| >= 2 && s[0] == '1' && '0' <= s[1] <= '2' then [2] else [])
      + (if |s| >= 2 && s[0] == '0' && '1' <= s[1] <= '9' then [2] else [])
      + (if |s| >= 1 && '1' <= s[0] <= '9' then [1] else [])
    case Year4 =>
      if |s| >= 4 && IsDigit(s[0]) && IsDigit(s[1]) && IsDigit(s[2]) && IsDigit(s[3]) then [4] else []
    case Year2 =>
      if |s| >= 2 && IsDigit(s[0]) && IsDigit(s[1]) then [2] else []
  }

  /** What a successful match captured: text per directive, and the unmatched rest. */
  datatype Capture = Capture(fields: map<Directive, string>, rest: string)

  /**
   * `re.match` of the whole format against a prefix of `s`, backtracking
   * through the alternatives of each directive in order; the first overall
   * success is the match.
   */
  function MatchFrom(s: string, fmt: seq<Directive>): (r: Option<Capture>)
    ensures r.Some? ==> |r.value.rest| <= |s|
    decreases |fmt|, 6
  {
    if fmt == [] then Some(Capture(map[], s))
    else match fmt[0]
      case Literal(c) =>
        if |s| > 0 && s[0] == c then MatchFrom(s[1..], fmt[1..]) else None
      case _ => TryAlternatives(s, fmt, Alternatives(fmt[0], s))
  }

  function TryAlternatives(s: string, fmt: seq<Directive>, lens: seq<nat>): (r: Option<Capture>)
    requires fmt != [] && !fmt[0].Literal?
    requires |lens| <= 5
    requires forall k :: 0 <= k < |lens| ==> 0 < lens[k] <= |s|
    ensures r.Some? ==> |r.value.rest| <= |s|
    decreases |fmt|, |lens|
  {
    if lens == [] then None
    else
      var tail := MatchFrom(s[lens[0]..], fmt[1..]);
      if tail.Some? then Some(Capture(tail.value.fields[fmt[0] := s[..lens[0]]], tail.value.rest))
      else TryAlternatives(s, fmt, lens[1..])
  }

  /** Numeric value of a captured field (`int()` of the matched text). */
  function FieldValue(caps: map<Directive, string>, d: Directive, default: int): int
  {
    if d in caps then
      match PyInt(caps[d])
      case Some(v) => v
      case None => default
    else default
  }

  /**
   * `datetime.strptime(s, fmt).date()`: `None` stands for the ValueError
   * raised when the format does not match, when unconverted data remains,
   * or when the fields do not form a valid date. A two-digit year is read
   * as 2000-2068 for 00-68 and 1969-1999 for 69-99; absent fields default
   * to 1900-01-01.
   */
  function StrPTime(s: string, fmt: seq<Directive>): (r: Option<Date>)
    ensures r.Some? ==> ValidDate(r.value)
  {
    match MatchFrom(s, fmt)
    case None => None
    case Some(cap) =>
      if cap.rest != "" then None
      else
        var d := Date(CapturedYear(cap.fields), FieldValue(cap.fields, MonthNumber, 1), FieldValue(cap.fields, DayOfMonth, 1));
        if ValidDate(d) then Some(d) else None
  }

  /** The year the captured fields name: `%Y` as it reads, `%y` pivoted at 68, 1900 when neither was captured. */
  function CapturedYear(fields: map<Directive, string>): int
  {
    var y2 := FieldValue(fields, Year2, -1);
    if Year4 in fields then FieldValue(fields, Year4, 1900)
    else if Year2 in fields then (if y2 <= 68 then y2 + 2000 else y2 + 1900)
    else 1900
  }

  /** Two digits, zero-padded. */
  function Pad2(n: nat): (s: string)
    requires n < 100
    ensures |s| == 2 && IsDigit(s[0]) && IsDigit(s[1])
  {
    [DigitChar(n / 10), DigitChar(n % 10)]
  }

  /** Four digits, zero-padded. */
  function Pad4(n: nat): (s: string)
    requires n < 10000
    ensures |s| == 4 && forall k :: 0 <= k < 4 ==> IsDigit(s[k])
  {
    Pad2(n / 100) + Pad2(n % 100)
  }

  /** `date.strftime('%d-%m-%Y')`, the key format of the mappers. */
  function FormatDMY(d: Date): (s: string)
    requires ValidDate(d)
    ensures |s| == 10 && s[2] == '-' && s[5] == '-'
  {
    Pad2(d.day) + "-" + Pad2(d.month) + "-" + Pad4(d.year)
  }

  /** `dd.mm.yyyy`, zero-padded: how the bulletin headings write a full date. */
  function Dotted(d: Date): (s: string)
    requires ValidDate(d)
    ensures |s| == 10 && s[2] == '.' && s[5] == '.'
    ensures forall k :: 0 <= k < |s| && k != 2 && k != 5 ==> IsDigit(s[k])
  {
    Pad2(d.day) + "." + Pad2(d.month) + "." + Pad4(d.year)
  }

  lemma Pad2Decimal(n: nat)
    requires n < 100
    ensures DecimalValue(Pad2(n)) == n
  {
    DecimalValuePair(Pad2(n));
  }

  lemma Pad2Value(n: nat)
    requires n < 100
    ensures PyInt(Pad2(n)) == Some(n)
  {
    PyIntOfDigits(Pad2(n));
    Pad2Decimal(n);
  }

  lemma DecimalValuePair(s: string)
    requires |s| == 2 && IsDigit(s[0]) && IsDigit(s[1])
    ensures DecimalValue(s) == 10 * DigitValue(s[0]) + DigitValue(s[1])
  {
    var a := s[..1];
    assert a[..0] == [];
    assert DecimalValue(a) == DigitValue(s[0]);
    assert DecimalValue(s) == 10 * DecimalValue(a) + DigitValue(s[1]);
  }

  lemma Pad4Decimal(n: nat)
    requires n < 10000
    ensures DecimalValue(Pad4(n)) == n
  {
    var hi, lo := Pad2(n / 100), Pad2(n % 100);
    Pad2Decimal(n / 100);
    Pad2Decimal(n % 100);
    DecimalValueConcat(hi, lo);
    assert Pow10(2) == 100 by {
      assert Pow10(1) == 10;
    }
    assert Pad4(n) == hi + lo;
  }

  lemma Pad4Value(n: nat)
    requires n < 10000
    ensures PyInt(Pad4(n)) == Some(n)
  {
    PyIntOfDigits(Pad4(n));
    Pad4Decimal(n);
  }

  /** Putting a field in front of the text matched so far. */
  lemma MatchFieldFirst(d: Directive, s: string, f: seq<Directive>)
    requires !d.Literal?
    requires |Alternatives(d, s)| > 0
    requires MatchFrom(s[Alternatives(d, s)[0]..], f).Some?
    ensures MatchFrom(s, [d] + f)
      == Some(Capture(MatchFrom(s[Alternatives(d, s)[0]..], f).value.fields[d := s[..Alternatives(d, s)[0]]],
                      MatchFrom(s[Alternatives(d, s)[0]..], f).value.rest))
  {
    assert ([d] + f)[1..] == f;
  }

  lemma MatchLiteralFirst(c: char, s: string, f: seq<Directive>)
    ensures MatchFrom([c] + s, [Literal(c)] + f) == MatchFrom(s, f)
  {
    assert ([Literal(c)] + f)[1..] == f;
    assert ([c] + s)[1..] == s;
  }

  /** A field whose every alternative leaves a rest the format cannot match does not match at all. */
  lemma {:induction false} NoAlternativeMatches(s: string, fmt: seq<Directive>, lens: seq<nat>)
    requires fmt != [] && !fmt[0].Literal?
    requires |lens| <= 5
    requires forall k :: 0 <= k < |lens| ==> 0 < lens[k] <= |s|
    requires forall k :: 0 <= k < |lens| ==> MatchFrom(s[lens[k]..], fmt[1..]).None?
    ensures TryAlternatives(s, fmt, lens).None?
    decreases |lens|
  {
    if lens != [] {
      NoAlternativeMatches(s, fmt, lens[1..]);
    }
  }

  /** The `mm. ` rest of `dd.mm. ` has no alternative for the month that the dot and the year can follow. */
  lemma MonthDotSpaceFails(t: string)
    requires |t| == 4 && t[2] == '.' && t[3] == ' '
    requires IsDigit(t[0]) && IsDigit(t[1])
    ensures MatchFrom(t, DottedDMY[2..]).None?
  {
    var tail := DottedDMY[2..];
    forall k | 0 <= k < |Alternatives(MonthNumber, t)|
      ensures MatchFrom(t[Alternatives(MonthNumber, t)[k]..], tail[1..]).None?
    {
      var n := Alternatives(MonthNumber, t)[k];
      assert n == 1 || n == 2;
      assert tail[1..] == [Literal('.'), Year4];
      if n == 2 {
        assert t[2..][1..] == t[3..] == " ";
        assert Alternatives(Year4, t[3..]) == [];
        assert MatchFrom(t[3..], [Year4]).None?;
      } else {
        assert t[1..][0] == t[1];
      }
    }
    NoAlternativeMatches(t, tail, Alternatives(MonthNumber, t));
  }

  /**
   * `dd.mm. `: a day and a month, each of two digits, followed by a dot
   * and a space, does not match `%d.%m.%Y`, since a space is where the
   * year's digits must start.
   */
  lemma DayMonthDotSpaceFails(s: string)
    requires |s| == 7 && s[2] == '.' && s[5] == '.' && s[6] == ' '
    requires IsDigit(s[0]) && IsDigit(s[1]) && IsDigit(s[3]) && IsDigit(s[4])
    ensures StrPTime(s, DottedDMY) == None
  {
    var t := s[3..];
    var tail := DottedDMY[2..];
    MonthDotSpaceFails(t);
    forall k | 0 <= k < |Alternatives(DayOfMonth, s)|
      ensures MatchFrom(s[Alternatives(DayOfMonth, s)[k]..], DottedDMY[1..]).None?
    {
      var n := Alternatives(DayOfMonth, s)[k];
      assert n == 1 || n == 2;
      if n == 2 {
        assert s[2..] == ['.'] + t;
        assert DottedDMY[1..] == [Literal('.')] + tail;
        MatchLiteralFirst('.', t, tail);
      }
    }
    NoAlternativeMatches(s, DottedDMY, Alternatives(DayOfMonth, s));
  }

  /** A padded day or month is matched by its two-character alternative first. */
  lemma TwoDigitFieldFirst(d: Directive, n: nat, s: string)
    requires (d == DayOfMonth && 1 <= n <= 31) || (d == MonthNumber && 1 <= n <= 12)
    ensures |Alternatives(d, Pad2(n) + s)| > 0 && Alternatives(d, Pad2(n) + s)[0] == 2
  {
  }

  lemma MatchYearTail(y: nat, rest: string)
    requires y < 10000
    ensures MatchFrom(Pad4(y) + rest, [Year4]) == Some(Capture(map[Year4 := Pad4(y)], rest))
  {
    var t := Pad4(y) + rest;
    assert Alternatives(Year4, t) == [4];
    assert t[4..] == rest && t[..4] == Pad4(y);
    MatchFieldFirst(Year4, t, []);
    assert [Year4] + [] == [Year4];
  }

  lemma MatchMonthYearTail(m: nat, y: nat, sep: char, rest: string)
    requires 1 <= m <= 12 && y < 10000
    ensures MatchFrom(Pad2(m) + ([sep] + (Pad4(y) + rest)), [MonthNumber, Literal(sep), Year4])
         == Some(Capture(map[Year4 := Pad4(y), MonthNumber := Pad2(m)], rest))
  {
    var mm, yyyy := Pad2(m), Pad4(y) + rest;
    MatchYearTail(y, rest);
    MatchLiteralFirst(sep, yyyy, [Year4]);
    assert [Literal(sep)] + [Year4] == [Literal(sep), Year4];
    var t := mm + ([sep] + yyyy);
    TwoDigitFieldFirst(MonthNumber, m, [sep] + yyyy);
    assert t[2..] == [sep] + yyyy && t[..2] == mm;
    MatchFieldFirst(MonthNumber, t, [Literal(sep), Year4]);
    assert [MonthNumber] + [Literal(sep), Year4] == [MonthNumber, Literal(sep), Year4];
  }

  lemma MatchSepMonthYearTail(m: nat, y: nat, sep: char, rest: string)
    requires 1 <= m <= 12 && y < 10000
    ensures MatchFrom([sep] + (Pad2(m) + ([sep] + (Pad4(y) + rest))), [Literal(sep), MonthNumber, Literal(sep), Year4])
         == Some(Capture(map[Year4 := Pad4(y), MonthNumber := Pad2(m)], rest))
  {
    var t := Pad2(m) + ([sep] + (Pad4(y) + rest));
    MatchMonthYearTail(m, y, sep, rest);
    MatchLiteralFirst(sep, t, [MonthNumber, Literal(sep), Year4]);
    assert [Literal(sep)] + [MonthNumber, Literal(sep), Year4] == [Literal(sep), MonthNumber, Literal(sep), Year4];
  }

  /**
   * `%d<sep>%m<sep>%Y` against a zero-padded date written with that
   * separator: the fields are captured and whatever follows is left over.
   */
  lemma MatchDMY(d: Date, sep: char, rest: string)
    requires ValidDate(d)
    ensures MatchFrom(Pad2(d.day) + [sep] + Pad2(d.month) + [sep] + Pad4(d.year) + rest,
                      [DayOfMonth, Literal(sep), MonthNumber, Literal(sep), Year4])
         == Some(Capture(map[Year4 := Pad4(d.year), MonthNumber := Pad2(d.month), DayOfMonth := Pad2(d.day)], rest))
  {
    var t := [sep] + (Pad2(d.month) + ([sep] + (Pad4(d.year) + rest)));
    var f := [Literal(sep), MonthNumber, Literal(sep), Year4];
    MatchSepMonthYearTail(d.month, d.year, sep, rest);
    MatchTwoDigitThen(DayOfMonth, d.day, t, f);
    assert [DayOfMonth] + f == [DayOfMonth, Literal(sep), MonthNumber, Literal(sep), Year4];
    assert Pad2(d.day) + [sep] + Pad2(d.month) + [sep] + Pad4(d.year) + rest == Pad2(d.day) + t;
  }

  /** A complete match with a four-digit year yields the date its fields spell. */
  lemma StrPTimeOfCapture(s: string, fmt: seq<Directive>, fields: map<Directive, string>, d: Date)
    requires MatchFrom(s, fmt) == Some(Capture(fields, ""))
    requires Year4 in fields && FieldValue(fields, Year4, 1900) == d.year
    requires FieldValue(fields, MonthNumber, 1) == d.month
    requires FieldValue(fields, DayOfMonth, 1) == d.day
    requires ValidDate(d)
    ensures StrPTime(s, fmt) == Some(d)
  {
  }

  lemma DMYFieldValues(d: Date)
    requires ValidDate(d)
    ensures var fields := map[Year4 := Pad4(d.year), MonthNumber := Pad2(d.month), DayOfMonth := Pad2(d.day)];
      FieldValue(fields, Year4, 1900) == d.year
      && FieldValue(fields, MonthNumber, 1) == d.month
      && FieldValue(fields, DayOfMonth, 1) == d.day
  {
    var fields := map[Year4 := Pad4(d.year), MonthNumber := Pad2(d.month), DayOfMonth := Pad2(d.day)];
    YearFieldValue(fields, d.year, 1900);
    PaddedFieldValue(fields, MonthNumber, d.month, 1);
    PaddedFieldValue(fields, DayOfMonth, d.day, 1);
  }

  /** A field captured as a zero-padded two-digit number reads back as that number. */
  lemma PaddedFieldValue(fields: map<Directive, string>, k: Directive, n: nat, default: int)
    requires n < 100 && k in fields && fields[k] == Pad2(n)
    ensures FieldValue(fields, k, default) == n
  {
    Pad2Value(n);
  }

  /** A year captured as a zero-padded four-digit number reads back as that number. */
  lemma YearFieldValue(fields: map<Directive, string>, n: nat, default: int)
    requires n < 10000 && Year4 in fields && fields[Year4] == Pad4(n)
    ensures FieldValue(fields, Year4, default) == n
  {
    Pad4Value(n);
  }

  /**
   * Formatting a date as `dd-mm-yyyy` and parsing it back with the same
   * format gives the date back.
   */
  lemma FormatDMYRoundTrip(d: Date)
    requires ValidDate(d)
    ensures StrPTime(FormatDMY(d), DashedDMY) == Some(d)
  {
    MatchDMY(d, '-', "");
    assert FormatDMY(d) + "" == FormatDMY(d);
    DMYCaptureDate(FormatDMY(d), DashedDMY, d);
  }

  /** Text whose complete match captures the padded fields of a date parses to that date. */
  lemma DMYCaptureDate(s: string, fmt: seq<Directive>, d: Date)
    requires ValidDate(d)
    requires MatchFrom(s, fmt) == Some(Capture(map[Year4 := Pad4(d.year), MonthNumber := Pad2(d.month), DayOfMonth := Pad2(d.day)], ""))
    ensures StrPTime(s, fmt) == Some(d)
  {
    DMYFieldValues(d);
    StrPTimeOfCapture(s, fmt, map[Year4 := Pad4(d.year), MonthNumber := Pad2(d.month), DayOfMonth := Pad2(d.day)], d);
  }

  /** A zero-padded `dd.mm.yyyy` text parses back, with `%d.%m.%Y`, to its date. */
  lemma DottedRoundTrip(d: Date)
    requires ValidDate(d)
    ensures StrPTime(Dotted(d), DottedDMY) == Some(d)
  {
    MatchDMY(d, '.', "");
    assert Dotted(d) + "" == Dotted(d);
    DMYCaptureDate(Dotted(d), DottedDMY, d);
  }

  /** Anything after a complete `dd.mm.yyyy` is unconverted data, and `%d.%m.%Y` rejects it. */
  lemma DottedThenMore(d: Date, rest: string)
    requires ValidDate(d) && rest != ""
    ensures StrPTime(Dotted(d) + rest, DottedDMY) == None
  {
    MatchDMY(d, '.', rest);
  }

  /** Year4 is used once, as the last directive of the format. */
  predicate YearLast(fmt: seq<Directive>)
  {
    |fmt| > 0 && fmt[|fmt| - 1] == Year4 && forall k :: 0 <= k < |fmt| - 1 ==> fmt[k] != Year4
  }

  /**
   * When a format ends with its only %Y and matches all of `s`, the year
   * captured is the last four characters of `s`.
   */
  lemma {:induction false} YearCapturedLast(s: string, fmt: seq<Directive>)
    requires YearLast(fmt)
    requires MatchFrom(s, fmt).Some? && MatchFrom(s, fmt).value.rest == ""
    ensures |s| >= 4 && Year4 in MatchFrom(s, fmt).value.fields
    ensures MatchFrom(s, fmt).value.fields[Year4] == s[|s| - 4..]
    decreases |fmt|, 6
  {
    match fmt[0]
    case Literal(c) =>
      assert fmt[1..][|fmt| - 2] == Year4;
      YearCapturedLast(s[1..], fmt[1..]);
      assert s[1..][|s| - 5..] == s[|s| - 4..];
    case _ =>
      YearCapturedTry(s, fmt, Alternatives(fmt[0], s));
  }

  lemma {:induction false} YearCapturedTry(s: string, fmt: seq<Directive>, lens: seq<nat>)
    requires YearLast(fmt) && !fmt[0].Literal?
    requires |lens| <= 5 && forall k :: 0 <= k < |lens| ==> 0 < lens[k] <= |s|
    requires fmt[0] == Year4 ==> forall k :: 0 <= k < |lens| ==> lens[k] == 4
    requires TryAlternatives(s, fmt, lens).Some? && TryAlternatives(s, fmt, lens).value.rest == ""
    ensures |s| >= 4 && Year4 in TryAlternatives(s, fmt, lens).value.fields
    ensures TryAlternatives(s, fmt, lens).value.fields[Year4] == s[|s| - 4..]
    decreases |fmt|, |lens|
  {
    var tail := MatchFrom(s[lens[0]..], fmt[1..]);
    if tail.Some? {
      if |fmt| == 1 {
        assert fmt[1..] == [];
        assert s[..lens[0]] == s[|s| - 4..];
      } else {
        assert fmt[1..][|fmt| - 2] == Year4;
        YearCapturedLast(s[lens[0]..], fmt[1..]);
        assert s[lens[0]..][|s| - lens[0] - 4..] == s[|s| - 4..];
      }
    } else {
      YearCapturedTry(s, fmt, lens[1..]);
    }
  }

  /** A four-digit year is written with exactly four digits. */
  lemma FourDigits(y: nat)
    requires 1000 <= y <= 9999
    ensures |DecimalString(y)| == 4
  {
    assert |DecimalString(y / 1000)| == 1;
    assert DecimalString(y / 100) == DecimalString(y / 1000) + [DigitChar(y / 100 % 10)];
    assert DecimalString(y / 10) == DecimalString(y / 100) + [DigitChar(y / 10 % 10)];
  }

  /** A four-digit year is its own zero-padded form. */
  lemma Pad4OfYear(y: nat)
    requires 1000 <= y <= 9999
    ensures Pad4(y) == DecimalString(y)
  {
    var q, r := y / 100, y % 100;
    assert y / 10 == 10 * q + r / 10;
    assert y / 10 / 10 == q && y / 10 % 10 == r / 10 && y % 10 == r % 10;
    assert q / 10 == y / 1000 && 1 <= q / 10 < 10;
    assert DecimalString(q) == DecimalString(q / 10) + [DigitChar(q % 10)];
    assert DecimalString(y / 10) == DecimalString(q) + [DigitChar(r / 10)];
    assert DecimalString(y) == DecimalString(y / 10) + [DigitChar(r % 10)];
  }

  /**
   * Whatever precedes it, a text ending in `.` and a four-digit year
   * parses with `%d.%m.%Y`, if at all, to a date in that year.
   */
  lemma DottedYear(x: string, y: nat)
    requires 1000 <= y <= 9999
    requires StrPTime(x + "." + DecimalString(y), DottedDMY).Some?
    ensures StrPTime(x + "." + DecimalString(y), DottedDMY).value.year == y
  {
    var s := x + "." + DecimalString(y);
    assert YearLast(DottedDMY);
    YearCapturedLast(s, DottedDMY);
    FourDigits(y);
    assert s[|s| - 4..] == DecimalString(y);
    PyIntOfDecimalString(y);
  }

  /** `dd.mm.yy`, zero-padded, for a date in 2000-2068, the years `%y` reads as this century. */
  function ShortDotted(d: Date): (s: string)
    requires ValidDate(d) && 2000 <= d.year <= 2068
    ensures |s| == 8 && s[2] == '.' && s[5] == '.'
    ensures forall k :: 0 <= k < |s| && k != 2 && k != 5 ==> IsDigit(s[k])
  {
    Pad2(d.day) + "." + Pad2(d.month) + "." + Pad2(d.year - 2000)
  }

  /** `yyyy-mm-dd`, zero-padded (`date.isoformat()`). */
  function IsoDate(d: Date): (s: string)
    requires ValidDate(d)
    ensures |s| == 10 && s[4] == '-' && s[7] == '-'
  {
    Pad4(d.year) + "-" + Pad2(d.month) + "-" + Pad2(d.day)
  }

  /** A two-digit field value that its directive reads back from its padded form. */
  predicate TwoDigitField(d: Directive, n: nat)
  {
    (d == DayOfMonth && 1 <= n <= 31) || (d == MonthNumber && 1 <= n <= 12) || (d == Year2 && n < 100)
  }

  /** A padded two-digit field matched by the first alternative of its directive. */
  lemma MatchTwoDigitThen(d: Directive, n: nat, t: string, f: seq<Directive>)
    requires TwoDigitField(d, n)
    requires MatchFrom(t, f).Some?
    ensures MatchFrom(Pad2(n) + t, [d] + f)
         == Some(Capture(MatchFrom(t, f).value.fields[d := Pad2(n)], MatchFrom(t, f).value.rest))
  {
    var s := Pad2(n) + t;
    assert Alternatives(d, s)[0] == 2;
    assert s[2..] == t && s[..2] == Pad2(n);
    MatchFieldFirst(d, s, f);
  }

  /** A padded four-digit year matched by `%Y`. */
  lemma MatchYearThen(y: nat, t: string, f: seq<Directive>)
    requires y < 10000
    requires MatchFrom(t, f).Some?
    ensures MatchFrom(Pad4(y) + t, [Year4] + f)
         == Some(Capture(MatchFrom(t, f).value.fields[Year4 := Pad4(y)], MatchFrom(t, f).value.rest))
  {
    var s := Pad4(y) + t;
    assert Alternatives(Year4, s) == [4];
    assert s[4..] == t && s[..4] == Pad4(y);
    MatchFieldFirst(Year4, s, f);
  }

  /** A separator followed by a padded two-digit field. */
  lemma MatchSepThen(sep: char, d: Directive, n: nat, t: string, f: seq<Directive>)
    requires TwoDigitField(d, n)
    requires MatchFrom(t, f).Some?
    ensures MatchFrom([sep] + (Pad2(n) + t), [Literal(sep), d] + f)
         == Some(Capture(MatchFrom(t, f).value.fields[d := Pad2(n)], MatchFrom(t, f).value.rest))
  {
    MatchTwoDigitThen(d, n, t, f);
    MatchLiteralFirst(sep, Pad2(n) + t, [d] + f);
    assert [Literal(sep)] + ([d] + f) == [Literal(sep), d] + f;
  }

  /** A separator, a padded two-digit field, the separator again and a last padded two-digit field, matched in full. */
  lemma MatchSepTwoFields(sep: char, d2: Directive, n2: nat, d3: Directive, n3: nat)
    requires TwoDigitField(d2, n2) && TwoDigitField(d3, n3)
    ensures MatchFrom([sep] + (Pad2(n2) + ([sep] + Pad2(n3))), [Literal(sep), d2, Literal(sep), d3])
         == Some(Capture(map[d3 := Pad2(n3)][d2 := Pad2(n2)], ""))
  {
    var empty: seq<Directive> := [];
    assert MatchFrom("", empty) == Some(Capture(map[], ""));
    MatchSepThen(sep, d3, n3, "", empty);
    assert Pad2(n3) + "" == Pad2(n3) && [Literal(sep), d3] + empty == [Literal(sep), d3];
    MatchSepThen(sep, d2, n2, [sep] + Pad2(n3), [Literal(sep), d3]);
    assert [Literal(sep), d2] + [Literal(sep), d3] == [Literal(sep), d2, Literal(sep), d3];
  }

  /** Three padded two-digit fields separated by `sep`, matched in full. */
  lemma MatchThreeFields(d1: Directive, n1: nat, sep: char, d2: Directive, n2: nat, d3: Directive, n3: nat)
    requires TwoDigitField(d1, n1) && TwoDigitField(d2, n2) && TwoDigitField(d3, n3)
    ensures MatchFrom(Pad2(n1) + ([sep] + (Pad2(n2) + ([sep] + Pad2(n3)))), [d1, Literal(sep), d2, Literal(sep), d3])
         == Some(Capture(map[d3 := Pad2(n3)][d2 := Pad2(n2)][d1 := Pad2(n1)], ""))
  {
    MatchSepTwoFields(sep, d2, n2, d3, n3);
    MatchTwoDigitThen(d1, n1, [sep] + (Pad2(n2) + ([sep] + Pad2(n3))), [Literal(sep), d2, Literal(sep), d3]);
    assert [d1] + [Literal(sep), d2, Literal(sep), d3] == [d1, Literal(sep), d2, Literal(sep), d3];
  }

  /** `%d.%m.%y` against a zero-padded `dd.mm.yy` captures the three fields and nothing is left. */
  lemma MatchShortDotted(d: Date)
    requires ValidDate(d) && 2000 <= d.year <= 2068
    ensures MatchFrom(ShortDotted(d), DottedDMy)
         == Some(Capture(map[Year2 := Pad2(d.year - 2000), MonthNumber := Pad2(d.month), DayOfMonth := Pad2(d.day)], ""))
  {
    MatchThreeFields(DayOfMonth, d.day, '.', MonthNumber, d.month, Year2, d.year - 2000);
    assert ShortDotted(d) == Pad2(d.day) + (['.'] + (Pad2(d.month) + (['.'] + Pad2(d.year - 2000))));
  }

  /** A complete match with a two-digit year and no four-digit one yields the date its fields spell. */
  lemma StrPTimeOfShortCapture(s: string, fmt: seq<Directive>, fields: map<Directive, string>, d: Date)
    requires MatchFrom(s, fmt) == Some(Capture(fields, ""))
    requires Year4 !in fields && Year2 in fields
    requires 0 <= FieldValue(fields, Year2, -1) <= 68 && FieldValue(fields, Year2, -1) + 2000 == d.year
    requires FieldValue(fields, MonthNumber, 1) == d.month
    requires FieldValue(fields, DayOfMonth, 1) == d.day
    requires ValidDate(d)
    ensures StrPTime(s, fmt) == Some(d)
  {
    assert CapturedYear(fields) == d.year;
    assert Date(CapturedYear(fields), FieldValue(fields, MonthNumber, 1), FieldValue(fields, DayOfMonth, 1)) == d;
  }

  /** A zero-padded `dd.mm.yy` of a date in 2000-2068 parses back, with `%d.%m.%y`, to that date. */
  lemma ShortDottedRoundTrip(d: Date)
    requires ValidDate(d) && 2000 <= d.year <= 2068
    ensures StrPTime(ShortDotted(d), DottedDMy) == Some(d)
  {
    var fields := map[Year2 := Pad2(d.year - 2000), MonthNumber := Pad2(d.month), DayOfMonth := Pad2(d.day)];
    MatchShortDotted(d);
    ShortCaptureDate(ShortDotted(d), DottedDMy, fields, d);
  }

  /** Text whose complete match captures the padded fields of a date in 2000-2068, with a two-digit year, parses to that date. */
  lemma ShortCaptureDate(s: string, fmt: seq<Directive>, fields: map<Directive, string>, d: Date)
    requires ValidDate(d) && 2000 <= d.year <= 2068
    requires Year4 !in fields && Year2 in fields && MonthNumber in fields && DayOfMonth in fields
    requires fields[Year2] == Pad2(d.year - 2000) && fields[MonthNumber] == Pad2(d.month) && fields[DayOfMonth] == Pad2(d.day)
    requires MatchFrom(s, fmt) == Some(Capture(fields, ""))
    ensures StrPTime(s, fmt) == Some(d)
  {
    PaddedFieldValue(fields, Year2, d.year - 2000, -1);
    PaddedFieldValue(fields, MonthNumber, d.month, 1);
    PaddedFieldValue(fields, DayOfMonth, d.day, 1);
    StrPTimeOfShortCapture(s, fmt, fields, d);
  }

  /** `%Y-%m-%d` against a zero-padded `yyyy-mm-dd` captures the three fields and nothing is left. */
  lemma MatchIsoDate(d: Date)
    requires ValidDate(d)
    ensures MatchFrom(IsoDate(d), IsoYMD)
         == Some(Capture(map[DayOfMonth := Pad2(d.day), MonthNumber := Pad2(d.month), Year4 := Pad4(d.year)], ""))
  {
    var t := ['-'] + (Pad2(d.month) + (['-'] + Pad2(d.day)));
    var f := [Literal('-'), MonthNumber, Literal('-'), DayOfMonth];
    assert MatchFrom(t, f) == Some(Capture(map[DayOfMonth := Pad2(d.day)][MonthNumber := Pad2(d.month)], "")) by {
      MatchSepTwoFields('-', MonthNumber, d.month, DayOfMonth, d.day);
    }
    MatchYearThen(d.year, t, f);
    assert [Year4] + f == IsoYMD;
    assert IsoDate(d) == Pad4(d.year) + t;
  }

  /** A zero-padded `yyyy-mm-dd` parses back, with `%Y-%m-%d`, to its date. */
  lemma IsoDateRoundTrip(d: Date)
    requires ValidDate(d)
    ensures StrPTime(IsoDate(d), IsoYMD) == Some(d)
  {
    MatchIsoDate(d);
    var fields := map[DayOfMonth := Pad2(d.day), MonthNumber := Pad2(d.month), Year4 := Pad4(d.year)];
    YearFieldValue(fields, d.year, 1900);
    PaddedFieldValue(fields, MonthNumber, d.month, 1);
    PaddedFieldValue(fields, DayOfMonth, d.day, 1);
    StrPTimeOfCapture(IsoDate(d), IsoYMD, fields, d);
  }

  /** Day numbers count days from 1970-01-01, which was a Thursday. */
  predicate IsMonday(day: int)
  {
    day % 7 == 4
  }

  /**
   * Label of the `W-MON` bucket containing `day`: the first Monday on or
   * after it. The bucket covers the seven days ending on that Monday.
   */
  function WeekEnd(day: int): (e: int)
    ensures IsMonday(e)
    ensures day <= e <= day + 6
  {
    day + (4 - day) % 7
  }

  /** Every Monday is the label of its own week, and of no other. */
  lemma WeekEndUnique(day: int, e: int)
    requires IsMonday(e) && e - 6 <= day <= e
    ensures WeekEnd(day) == e
  {
    var w := WeekEnd(day);
    assert (w - e) % 7 == 0;
  }
}
