/**
 * `stopcorona_parser.py`: a weekly bulletin on the stopcorona site gives
 * its week in an `<h3>` heading and its regional figures in a table. The
 * heading becomes a pair of dates, the table cells are cleaned and cut
 * into records of five, and the articles of the bulletin list are parsed
 * one after the other. Fetching pages and walking the HTML are outside the
 * model: a page is given as the matches of the date pattern in its heading
 * and the texts of its table cells.
 */
module StopcoronaParser {
  import opened Common
  import opened PyStr
  import opened Calendar

  /** A record value: a date, a cleaned cell's text, or a cleaned cell's integer. */
  datatype Cell = Text(s: string) | Int(n: int) | Day(date: Date)

  /** `dict(zip(...))`: field names paired with values, in insertion order. */
  type Record = seq<(string, Cell)>

  /** One fetched article: the matches of the date pattern in its heading, and its `<td>` texts. */
  datatype Page = Page(matches: seq<string>, cells: seq<string>)

  /** The keys of a regional record, dates first. */
  const RegionFields: seq<string> := ["start_date", "end_date", "region", "hospitalized", "recovered", "infected", "deaths"]

  /** The header cell that marks a table whose header is five cells long (six otherwise). */
  const HeaderMarker: string := "Наименование субъекта"

  /** The three-character run (newline, tab, carriage return) removed from every cell. */
  const ControlRun: string := "\n\t\r"

  /** The heading's two dates are separated by a hyphen or an en dash. */
  const DateSeparators: set<char> := {'-', '–'}

  /** Only the links whose address names the weekly recovery bulletin are kept. */
  const ArticleMarker: string := "v-rossii-za-nedelyu-vyzdorovelo-"

  /* ---------------------------------------------------------------------
   * The heading's dates
   * ------------------------------------------------------------------- */

  /**
   * `int(part.split('.')[1].strip())`: the month written in a `dd.mm`
   * part. Fewer than two dot-separated pieces raise IndexError; a piece
   * that is not an integer is `Returns(None)` (ValueError, which the
   * caller catches).
   */
  function MonthOf(part: string): (r: Parsed<Option<int>>)
    ensures r.Raises? <==> |Split(part, {'.'})| < 2
    ensures r.Raises? ==> r.error == IndexError
    ensures r.Returns? ==> r.value == PyInt(Strip(Split(part, {'.'})[1]))
  {
    var pieces := Split(part, {'.'});
    if |pieces| < 2 then Raises(IndexError) else Returns(PyInt(Strip(pieces[1])))
  }

  /** A stripped `dd.mm` part completed with `.` and a year, ready for `%d.%m.%Y`. */
  function WithYear(part: string, year: nat): string
  {
    Strip(part) + "." + DecimalString(year)
  }

  /** `strptime(part.strip() + f'.{year}', '%d.%m.%Y')`; `None` for ValueError. */
  function DatedPart(part: string, year: nat): (r: Option<Date>)
  {
    StrPTime(WithYear(part, year), DottedDMY)
  }

  /**
   * Both parts dated once their months are known: the end in the current
   * year, the start in the year before when its month is the later one.
   * `None` when either text does not parse (ValueError).
   */
  function DatePair(start: string, end: string, m0: int, m1: int, currentYear: nat): (r: Option<(Date, Date)>)
    requires currentYear >= 1
  {
    var startYear: nat := if m0 > m1 then currentYear - 1 else currentYear;
    match (DatedPart(start, startYear), DatedPart(end, currentYear))
    case (Some(s), Some(e)) => Some((s, e))
    case _ => None
  }

  /**
   * The year-inferring branch of `_get_dates`: both parts are `dd.mm`;
   * the end falls in the current year, and the start in the year before
   * when its month is later than the end's (the week spans New Year).
   * IndexError is not caught; ValueError, from `int` or `strptime`, is,
   * and yields `Returns(None)`.
   */
  function InferDates(parts: seq<string>, currentYear: nat): (r: Parsed<Option<(Date, Date)>>)
    requires |parts| >= 1 && currentYear >= 1
    ensures r.Raises? ==> r.error == IndexError
    ensures r.Returns? && r.value.Some? ==> |parts| >= 2
  {
    match MonthOf(parts[0])
    case Raises(e) => Raises(e)
    case Returns(m0) =>
      if m0.None? then Returns(None)
      else if |parts| < 2 then Raises(IndexError)
      else match MonthOf(parts[1])
        case Raises(e) => Raises(e)
        case Returns(m1) =>
          if m1.None? then Returns(None)
          else Returns(DatePair(parts[0], parts[1], m0.value, m1.value, currentYear))
  }

  /**
   * The year rule: whenever the inference succeeds, the end date is in the
   * current year, and the start date is in the year before exactly when
   * the start's written month is greater than the end's.
   */
  lemma YearRule(parts: seq<string>, currentYear: nat)
    requires |parts| >= 1 && 1001 <= currentYear <= 9999
    requires InferDates(parts, currentYear).Returns? && InferDates(parts, currentYear).value.Some?
    ensures |parts| >= 2
    ensures MonthOf(parts[0]).Returns? && MonthOf(parts[0]).value.Some?
    ensures MonthOf(parts[1]).Returns? && MonthOf(parts[1]).value.Some?
    ensures InferDates(parts, currentYear).value.value.1.year == currentYear
    ensures InferDates(parts, currentYear).value.value.0.year ==
      if MonthOf(parts[0]).value.value > MonthOf(parts[1]).value.value then currentYear - 1 else currentYear
  {
    var m0, m1 := MonthOf(parts[0]).value.value, MonthOf(parts[1]).value.value;
    var startYear: nat := if m0 > m1 then currentYear - 1 else currentYear;
    DottedYear(Strip(parts[0]), startYear);
    DottedYear(Strip(parts[1]), currentYear);
  }

  /**
   * `_get_dates` as written. Unless the pattern matched exactly once and
   * the match splits, on a hyphen or an en dash, into exactly two parts,
   * the result is `None`. A start with three dot-separated pieces is read
   * as a full date: both parts go to `strptime` as they are, and a
   * ValueError is not caught. Otherwise the year is inferred.
   */
  function GetDates(matches: seq<string>, currentYear: nat): (r: Parsed<Option<(Date, Date)>>)
    requires currentYear >= 1
    ensures |matches| != 1 ==> r == Returns(None)
    ensures |matches| == 1 && |Split(matches[0], DateSeparators)| != 2 ==> r == Returns(None)
    ensures r.Raises? ==> r.error == ValueError || r.error == IndexError
  {
    if |matches| != 1 then Returns(None)
    else
      var parts := Split(matches[0], DateSeparators);
      if |parts| != 2 then Returns(None)
      else if |Split(parts[0], {'.'})| == 3 then
        match (StrPTime(parts[0], DottedDMY), StrPTime(parts[1], DottedDMY))
        case (Some(start), Some(end)) => Returns(Some((start, end)))
        case _ => Raises(ValueError)
      else InferDates(parts, currentYear)
  }

  /** A part without its surrounding whitespace and without one trailing dot. */
  function Trimmed(part: string): (t: string)
    ensures |t| > 0 ==> !IsSpace(t[0])
  {
    var s := Strip(part);
    StripSpec(part);
    if |s| > 0 && s[|s| - 1] == '.' then s[..|s| - 1] else s
  }

  /**
   * `_get_dates` as evidently intended: each part is trimmed before it is
   * classified and parsed, and a full date that does not parse yields
   * `None` like every other malformed heading.
   */
  function GetDatesIntended(matches: seq<string>, currentYear: nat): (r: Parsed<Option<(Date, Date)>>)
    requires currentYear >= 1
    ensures |matches| != 1 ==> r == Returns(None)
    ensures |matches| == 1 && |Split(matches[0], DateSeparators)| != 2 ==> r == Returns(None)
    ensures r.Raises? ==> r.error == IndexError
  {
    if |matches| != 1 then Returns(None)
    else
      var parts := Split(matches[0], DateSeparators);
      if |parts| != 2 then Returns(None)
      else
        var start, end := Trimmed(parts[0]), Trimmed(parts[1]);
        if |Split(start, {'.'})| == 3 then
          match (StrPTime(start, DottedDMY), StrPTime(end, DottedDMY))
          case (Some(s), Some(e)) => Returns(Some((s, e)))
          case _ => Returns(None)
        else InferDates([start, end], currentYear)
  }

  /** Three dot-free pieces joined by dots split back into the three pieces. */
  lemma ThreePieces(a: string, b: string, c: string)
    requires forall k :: 0 <= k < |a| ==> a[k] != '.'
    requires forall k :: 0 <= k < |b| ==> b[k] != '.'
    requires forall k :: 0 <= k < |c| ==> c[k] != '.'
    ensures Split(a + "." + b + "." + c, {'.'}) == [a, b, c]
  {
    SplitNone(c, {'.'});
    SplitAt(b, '.', c, {'.'});
    SplitAt(a, '.', b + "." + c, {'.'});
    assert a + "." + b + "." + c == a + ['.'] + (b + "." + c);
  }

  /** Day, month and year digits joined by dots, then a dot-free `rest`, split into day, month and year-then-rest. */
  lemma DigitPieces(dd: string, mm: string, yyyy: string, rest: string)
    requires forall k :: 0 <= k < |dd| ==> IsDigit(dd[k])
    requires forall k :: 0 <= k < |mm| ==> IsDigit(mm[k])
    requires forall k :: 0 <= k < |yyyy| ==> IsDigit(yyyy[k])
    requires forall k :: 0 <= k < |rest| ==> rest[k] != '.'
    ensures Split(dd + "." + mm + "." + yyyy + rest, {'.'}) == [dd, mm, yyyy + rest]
  {
    var tail := yyyy + rest;
    assert forall k :: 0 <= k < |tail| ==> tail[k] != '.' by {
      forall k | 0 <= k < |tail| ensures tail[k] != '.' {
        if k < |yyyy| {
          assert tail[k] == yyyy[k];
        } else {
          assert tail[k] == rest[k - |yyyy|];
        }
      }
    }
    assert dd + "." + mm + "." + yyyy + rest == dd + "." + mm + "." + tail;
    ThreePieces(dd, mm, tail);
  }

  /** A heading of two full dates around a spaced en dash splits into the two dates, each with its space. */
  lemma SpacedDashParts(d0: Date, d1: Date)
    requires ValidDate(d0) && ValidDate(d1)
    ensures Split(Dotted(d0) + " – " + Dotted(d1), DateSeparators) == [Dotted(d0) + " ", " " + Dotted(d1)]
  {
    var a, b := Dotted(d0) + " ", " " + Dotted(d1);
    assert forall k :: 0 <= k < |a| ==> a[k] !in DateSeparators by {
      forall k | 0 <= k < |a| ensures a[k] !in DateSeparators {
        if k < 10 {
          assert a[k] == Dotted(d0)[k];
        }
      }
    }
    assert forall k :: 0 <= k < |b| ==> b[k] !in DateSeparators by {
      forall k | 0 <= k < |b| ensures b[k] !in DateSeparators {
        if k > 0 {
          assert b[k] == Dotted(d1)[k - 1];
        }
      }
    }
    SplitNone(b, DateSeparators);
    SplitAt(a, '–', b, DateSeparators);
    assert Dotted(d0) + " – " + Dotted(d1) == a + ['–'] + b;
  }

  /**
   * As written, a heading of two full dates around a spaced en dash (the
   * third alternative of the heading pattern allows the spaces) raises an
   * uncaught ValueError: the start keeps its trailing space, which
   * `strptime` rejects as unconverted data.
   */
  lemma SpacedFullDatesRaise(d0: Date, d1: Date, currentYear: nat)
    requires ValidDate(d0) && ValidDate(d1) && currentYear >= 1
    ensures GetDates([Dotted(d0) + " – " + Dotted(d1)], currentYear) == Raises(ValueError)
  {
    SpacedDashParts(d0, d1);
    DigitPieces(Pad2(d0.day), Pad2(d0.month), Pad4(d0.year), " ");
    DottedThenMore(d0, " ");
  }

  /** A full date padded with whitespace trims to itself: its last character is a digit, not a dot. */
  lemma TrimmedDotted(d: Date, l: string, r: string)
    requires ValidDate(d)
    requires forall k :: 0 <= k < |l| ==> IsSpace(l[k])
    requires forall k :: 0 <= k < |r| ==> IsSpace(r[k])
    ensures Trimmed(l + Dotted(d) + r) == Dotted(d)
  {
    var t := Dotted(d);
    assert IsDigit(t[0]) && IsDigit(t[9]);
    StripPadded(l, t, r);
  }

  /** A full date splits on dots into three pieces. */
  lemma DottedThreePieces(d: Date)
    requires ValidDate(d)
    ensures |Split(Dotted(d), {'.'})| == 3
  {
    DigitPieces(Pad2(d.day), Pad2(d.month), Pad4(d.year), "");
    assert Dotted(d) + "" == Dotted(d);
  }

  /** Both parts of a spaced full-date heading trim to their dates. */
  lemma SpacedPartsTrimmed(d0: Date, d1: Date)
    requires ValidDate(d0) && ValidDate(d1)
    ensures Trimmed(Dotted(d0) + " ") == Dotted(d0) && Trimmed(" " + Dotted(d1)) == Dotted(d1)
  {
    TrimmedDotted(d0, "", " ");
    assert "" + Dotted(d0) + " " == Dotted(d0) + " ";
    TrimmedDotted(d1, " ", "");
    assert " " + Dotted(d1) + "" == " " + Dotted(d1);
  }

  /** The intended reading of the same heading gives back the two dates. */
  lemma SpacedFullDatesParse(d0: Date, d1: Date, currentYear: nat)
    requires ValidDate(d0) && ValidDate(d1) && currentYear >= 1
    ensures GetDatesIntended([Dotted(d0) + " – " + Dotted(d1)], currentYear) == Returns(Some((d0, d1)))
  {
    SpacedDashParts(d0, d1);
    SpacedPartsTrimmed(d0, d1);
    DottedThreePieces(d0);
    DottedRoundTrip(d0);
    DottedRoundTrip(d1);
  }

  /** `dd.mm`: how a heading writes a date without its year. */
  function DayMonth(d: Date): (s: string)
    requires ValidDate(d)
    ensures |s| == 5 && s[2] == '.'
    ensures forall k :: 0 <= k < 5 && k != 2 ==> IsDigit(s[k])
  {
    Pad2(d.day) + "." + Pad2(d.month)
  }

  /** `dd.mm` completed with a four-digit year is the zero-padded full date. */
  lemma WithYearDotted(d: Date)
    requires ValidDate(d) && 1000 <= d.year
    ensures WithYear(DayMonth(d), d.year) == Dotted(d)
  {
    var dm := DayMonth(d);
    assert IsDigit(dm[0]) && IsDigit(dm[4]);
    StripUntouched(dm);
    Pad4OfYear(d.year);
  }

  /** The month of a `dd.mm` part is read back. */
  lemma MonthOfDayMonth(d: Date)
    requires ValidDate(d)
    ensures MonthOf(DayMonth(d)) == Returns(Some(d.month))
  {
    var dd, mm := Pad2(d.day), Pad2(d.month);
    SplitNone(mm, {'.'});
    SplitAt(dd, '.', mm, {'.'});
    assert dd + "." + mm == dd + ['.'] + mm;
    StripUntouched(mm);
    PyIntOfDigits(mm);
    Pad2Decimal(d.month);
  }

  /** A `dd.mm` part splits on its dot into two pieces, so it never takes the full-date branch. */
  lemma DayMonthTwoPieces(d: Date)
    requires ValidDate(d)
    ensures |Split(DayMonth(d), {'.'})| == 2
  {
    var dd, mm := Pad2(d.day), Pad2(d.month);
    SplitNone(mm, {'.'});
    SplitAt(dd, '.', mm, {'.'});
    assert dd + "." + mm == dd + ['.'] + mm;
  }

  /** A `dd.mm` part completed with its date's year parses to that date. */
  lemma DayMonthWithYear(d: Date)
    requires ValidDate(d) && 1000 <= d.year
    ensures DatedPart(DayMonth(d), d.year) == Some(d)
  {
    WithYearDotted(d);
    DottedRoundTrip(d);
  }

  /** Two parts whose months and year-completed texts read back as `d0` and `d1` under the year rule are dated so. */
  lemma InferredFrom(p0: string, p1: string, d0: Date, d1: Date, currentYear: nat)
    requires currentYear >= 1
    requires MonthOf(p0) == Returns(Some(d0.month)) && MonthOf(p1) == Returns(Some(d1.month))
    requires DatePair(p0, p1, d0.month, d1.month, currentYear) == Some((d0, d1))
    ensures InferDates([p0, p1], currentYear) == Returns(Some((d0, d1)))
  {
    InferredOfMonths([p0, p1], d0.month, d1.month, currentYear);
  }

  /** Two parts whose months are known are dated as `DatePair` dates them. */
  lemma InferredOfMonths(parts: seq<string>, m0: int, m1: int, currentYear: nat)
    requires |parts| == 2 && currentYear >= 1
    requires MonthOf(parts[0]) == Returns(Some(m0)) && MonthOf(parts[1]) == Returns(Some(m1))
    ensures InferDates(parts, currentYear) == Returns(DatePair(parts[0], parts[1], m0, m1, currentYear))
  {
  }

  /** Two parts that read back as `d0` and `d1` in the years of the year rule form that pair. */
  lemma PairedFrom(p0: string, p1: string, d0: Date, d1: Date, currentYear: nat)
    requires currentYear >= 1
    requires d1.year == currentYear
    requires d0.year == if d0.month > d1.month then currentYear - 1 else currentYear
    requires DatedPart(p0, d0.year) == Some(d0)
    requires DatedPart(p1, d1.year) == Some(d1)
    ensures DatePair(p0, p1, d0.month, d1.month, currentYear) == Some((d0, d1))
  {
    var startYear: nat := if d0.month > d1.month then currentYear - 1 else currentYear;
    assert startYear == d0.year && currentYear == d1.year;
    PairOfDated(p0, p1, d0.month, d1.month, currentYear, DatedPart(p0, startYear), DatedPart(p1, currentYear));
  }

  /** `DatePair` pairs the parts' dates, once each is known, in the years of the year rule. */
  lemma PairOfDated(p0: string, p1: string, m0: int, m1: int, currentYear: nat, o0: Option<Date>, o1: Option<Date>)
    requires currentYear >= 1
    requires o0 == DatedPart(p0, if m0 > m1 then currentYear - 1 else currentYear)
    requires o1 == DatedPart(p1, currentYear)
    ensures o0.Some? && o1.Some? ==> DatePair(p0, p1, m0, m1, currentYear) == Some((o0.value, o1.value))
  {
  }

  /** Two parts whose months and dated texts read back as `d0` and `d1`, in the years of the year rule, are dated so. */
  lemma InferredByYearRule(p0: string, p1: string, d0: Date, d1: Date, currentYear: nat)
    requires currentYear >= 1
    requires d1.year == currentYear
    requires d0.year == if d0.month > d1.month then currentYear - 1 else currentYear
    requires MonthOf(p0) == Returns(Some(d0.month)) && MonthOf(p1) == Returns(Some(d1.month))
    requires DatedPart(p0, d0.year) == Some(d0) && DatedPart(p1, d1.year) == Some(d1)
    ensures InferDates([p0, p1], currentYear) == Returns(Some((d0, d1)))
  {
    PairedFrom(p0, p1, d0, d1, currentYear);
    InferredFrom(p0, p1, d0, d1, currentYear);
  }

  /** Parts with the same stripped text are dated alike. */
  lemma DatedPartStripped(p: string, q: string, year: nat)
    requires Strip(p) == Strip(q)
    ensures DatedPart(p, year) == DatedPart(q, year)
  {
    assert WithYear(p, year) == WithYear(q, year);
  }

  /**
   * The converse of the year rule: two `dd.mm` parts whose dates follow the
   * rule (the end in the current year, the start in the year before only
   * when its month is later) are dated exactly so.
   */
  lemma DayMonthInferred(d0: Date, d1: Date, currentYear: nat)
    requires ValidDate(d0) && ValidDate(d1) && 1001 <= currentYear
    requires d1.year == currentYear
    requires d0.year == if d0.month > d1.month then currentYear - 1 else currentYear
    ensures InferDates([DayMonth(d0), DayMonth(d1)], currentYear) == Returns(Some((d0, d1)))
  {
    MonthOfDayMonth(d0);
    MonthOfDayMonth(d1);
    DayMonthWithYear(d0);
    DayMonthWithYear(d1);
    InferredByYearRule(DayMonth(d0), DayMonth(d1), d0, d1, currentYear);
  }

  /** Two digits, a dot and two digits. */
  predicate IsDayMonth(s: string)
  {
    |s| == 5 && s[2] == '.' && IsDigit(s[0]) && IsDigit(s[1]) && IsDigit(s[3]) && IsDigit(s[4])
  }

  /** A `dd.mm. - dd.mm` heading splits into the start with its dot and space, and the spaced end. */
  lemma TrailingDotSplit(s0: string, s1: string)
    requires IsDayMonth(s0) && IsDayMonth(s1)
    ensures Split(s0 + ". - " + s1, DateSeparators) == [s0 + ". ", " " + s1]
  {
    var a, b := s0 + ". ", " " + s1;
    assert forall k :: 0 <= k < |a| ==> a[k] !in DateSeparators by {
      forall k | 0 <= k < |a| ensures a[k] !in DateSeparators {
        if k < 5 {
          assert a[k] == s0[k];
        }
      }
    }
    assert forall k :: 0 <= k < |b| ==> b[k] !in DateSeparators by {
      forall k | 0 <= k < |b| ensures b[k] !in DateSeparators {
        if k > 0 {
          assert b[k] == s1[k - 1];
        }
      }
    }
    SplitNone(b, DateSeparators);
    SplitAt(a, '-', b, DateSeparators);
    assert s0 + ". - " + s1 == a + ['-'] + b;
  }

  /** A `dd.mm` part with a trailing dot and space trims to `dd.mm`. */
  lemma TrailingDotStartTrimmed(s0: string)
    requires IsDayMonth(s0)
    ensures Trimmed(s0 + ". ") == s0
  {
    StripPadded("", s0 + ".", " ");
    assert "" + (s0 + ".") + " " == s0 + ". ";
    assert (s0 + ".")[..5] == s0;
  }

  /** A spaced `dd.mm` part trims to `dd.mm`. */
  lemma SpacedEndTrimmed(s1: string)
    requires IsDayMonth(s1)
    ensures Trimmed(" " + s1) == s1
  {
    StripPadded(" ", s1, "");
    assert " " + s1 + "" == " " + s1;
  }

  /** The two parts of a `dd.mm. - dd.mm` heading trim to their `dd.mm`. */
  lemma TrailingDotTrimmed(s0: string, s1: string)
    requires IsDayMonth(s0) && IsDayMonth(s1)
    ensures Trimmed(s0 + ". ") == s0 && Trimmed(" " + s1) == s1
  {
    TrailingDotStartTrimmed(s0);
    SpacedEndTrimmed(s1);
  }

  /**
   * Headings like the repository's own test heading `23.10. - 29.10`
   * (a trailing dot after the first day and month), read as intended: the
   * dates follow the year rule.
   */
  lemma TrailingDotHeadingParses(d0: Date, d1: Date, currentYear: nat)
    requires ValidDate(d0) && ValidDate(d1) && 1001 <= currentYear
    requires d1.year == currentYear
    requires d0.year == if d0.month > d1.month then currentYear - 1 else currentYear
    ensures GetDatesIntended([DayMonth(d0) + ". - " + DayMonth(d1)], currentYear) == Returns(Some((d0, d1)))
  {
    TrailingDotSplit(DayMonth(d0), DayMonth(d1));
    TrailingDotTrimmed(DayMonth(d0), DayMonth(d1));
    DayMonthTwoPieces(d0);
    DayMonthInferred(d0, d1, currentYear);
  }

  /**
   * As written, the same heading raises ValueError: its start `dd.mm. `
   * splits on dots into three pieces, so it takes the full-date branch,
   * and `strptime` rejects it.
   */
  lemma TrailingDotHeadingRaises(d0: Date, d1: Date, currentYear: nat)
    requires ValidDate(d0) && ValidDate(d1) && currentYear >= 1
    ensures GetDates([DayMonth(d0) + ". - " + DayMonth(d1)], currentYear) == Raises(ValueError)
  {
    var dm := DayMonth(d0);
    TrailingDotSplit(dm, DayMonth(d1));
    ThreePieces(dm[..2], dm[3..], " ");
    assert dm[..2] + "." + dm[3..] + "." + " " == dm + ". ";
    DayMonthDotSpaceFails(dm + ". ");
  }

  /** Two texts without a dot joined have no dot. */
  lemma DotFreeJoin(a: string, b: string)
    requires forall k :: 0 <= k < |a| ==> a[k] != '.'
    requires forall k :: 0 <= k < |b| ==> b[k] != '.'
    ensures forall k :: 0 <= k < |a + b| ==> (a + b)[k] !in {'.'}
  {
    forall k | 0 <= k < |a + b| ensures (a + b)[k] !in {'.'} {
      if k >= |a| {
        assert (a + b)[k] == b[k - |a|];
      }
    }
  }

  /** A `dd.mm` part between dot-free pieces is a dot-free day, a dot, and a dot-free month. */
  lemma DayMonthPieces(l: string, s: string, r: string)
    requires IsDayMonth(s)
    requires forall k :: 0 <= k < |l| ==> l[k] != '.'
    requires forall k :: 0 <= k < |r| ==> r[k] != '.'
    ensures l + s + r == (l + s[..2]) + ['.'] + (s[3..] + r)
    ensures forall k :: 0 <= k < |l + s[..2]| ==> (l + s[..2])[k] !in {'.'}
    ensures forall k :: 0 <= k < |s[3..] + r| ==> (s[3..] + r)[k] !in {'.'}
  {
    DotFreeJoin(l, s[..2]);
    DotFreeJoin(s[3..], r);
    assert s == s[..2] + ['.'] + s[3..];
  }

  /** A `dd.mm` part between dot-free pieces splits on its dot into the prefixed day and the suffixed month. */
  lemma DayMonthSplit(l: string, s: string, r: string)
    requires IsDayMonth(s)
    requires forall k :: 0 <= k < |l| ==> l[k] != '.'
    requires forall k :: 0 <= k < |r| ==> r[k] != '.'
    ensures Split(l + s + r, {'.'}) == [l + s[..2], s[3..] + r]
  {
    var dd, mm := l + s[..2], s[3..] + r;
    DayMonthPieces(l, s, r);
    SplitNone(mm, {'.'});
    SplitAt(dd, '.', mm, {'.'});
  }

  /**
   * A `dd.mm` part padded with whitespace still splits into two pieces on
   * its dot, has the month of the bare part, strips to it, and is dated
   * as it is.
   */
  lemma PaddedDayMonth(l: string, s: string, r: string, year: nat)
    requires IsDayMonth(s)
    requires forall k :: 0 <= k < |l| ==> IsSpace(l[k])
    requires forall k :: 0 <= k < |r| ==> IsSpace(r[k])
    ensures |Split(l + s + r, {'.'})| == 2
    ensures MonthOf(l + s + r) == MonthOf(s)
    ensures Strip(l + s + r) == s
    ensures DatedPart(l + s + r, year) == DatedPart(s, year)
  {
    DayMonthSplit(l, s, r);
    DayMonthSplit("", s, "");
    assert "" + s + "" == s;
    var mm := s[3..];
    StripPadded("", mm, r);
    assert "" + mm + r == mm + r;
    StripUntouched(mm);
    StripPadded(l, s, r);
    StripUntouched(s);
    DatedPartStripped(l + s + r, s, year);
  }

  /** A `dd.mm` part followed by a space has the month of the bare part and is dated as it is. */
  lemma SpaceAfterDayMonth(s: string, year: nat)
    requires IsDayMonth(s)
    ensures |Split(s + " ", {'.'})| == 2
    ensures MonthOf(s + " ") == MonthOf(s)
    ensures DatedPart(s + " ", year) == DatedPart(s, year)
  {
    PaddedDayMonth("", s, " ", year);
    assert "" + s + " " == s + " ";
  }

  /** A `dd.mm` part after a space has the month of the bare part and is dated as it is. */
  lemma SpaceBeforeDayMonth(s: string, year: nat)
    requires IsDayMonth(s)
    ensures MonthOf(" " + s) == MonthOf(s)
    ensures DatedPart(" " + s, year) == DatedPart(s, year)
  {
    PaddedDayMonth(" ", s, "", year);
    assert " " + s + "" == " " + s;
  }

  /** A `dd.mm - dd.mm` heading splits into the start with its space and the spaced end. */
  lemma SpacedHyphenSplit(s0: string, s1: string)
    requires IsDayMonth(s0) && IsDayMonth(s1)
    ensures Split(s0 + " - " + s1, DateSeparators) == [s0 + " ", " " + s1]
  {
    var a, b := s0 + " ", " " + s1;
    assert forall k :: 0 <= k < |a| ==> a[k] !in DateSeparators by {
      forall k | 0 <= k < |a| ensures a[k] !in DateSeparators {
        if k < 5 {
          assert a[k] == s0[k];
        }
      }
    }
    assert forall k :: 0 <= k < |b| ==> b[k] !in DateSeparators by {
      forall k | 0 <= k < |b| ensures b[k] !in DateSeparators {
        if k > 0 {
          assert b[k] == s1[k - 1];
        }
      }
    }
    SplitNone(b, DateSeparators);
    SplitAt(a, '-', b, DateSeparators);
    assert s0 + " - " + s1 == a + ['-'] + b;
  }

  /**
   * As written, a `dd.mm - dd.mm` heading gets the year rule's dates: each
   * part splits into two pieces on '.', so the year is inferred, and the
   * spaces around the hyphen are stripped before `strptime`.
   */
  lemma AsWrittenDayMonthHeading(d0: Date, d1: Date, currentYear: nat)
    requires ValidDate(d0) && ValidDate(d1) && 1001 <= currentYear
    requires d1.year == currentYear
    requires d0.year == if d0.month > d1.month then currentYear - 1 else currentYear
    ensures GetDates([DayMonth(d0) + " - " + DayMonth(d1)], currentYear) == Returns(Some((d0, d1)))
  {
    var s0, s1 := DayMonth(d0), DayMonth(d1);
    var p0, p1 := s0 + " ", " " + s1;
    SpacedHyphenSplit(s0, s1);
    SpaceAfterDayMonth(s0, d0.year);
    SpaceBeforeDayMonth(s1, d1.year);
    MonthOfDayMonth(d0);
    MonthOfDayMonth(d1);
    DayMonthWithYear(d0);
    DayMonthWithYear(d1);
    InferredByYearRule(p0, p1, d0, d1, currentYear);
    assert GetDates([s0 + " - " + s1], currentYear) == InferDates([p0, p1], currentYear);
  }

  /** A heading of two full dates around a bare en dash splits into the two dates. */
  lemma BareDashParts(d0: Date, d1: Date)
    requires ValidDate(d0) && ValidDate(d1)
    ensures Split(Dotted(d0) + "–" + Dotted(d1), DateSeparators) == [Dotted(d0), Dotted(d1)]
  {
    var a, b := Dotted(d0), Dotted(d1);
    assert forall k :: 0 <= k < |a| ==> a[k] !in DateSeparators;
    assert forall k :: 0 <= k < |b| ==> b[k] !in DateSeparators;
    SplitNone(b, DateSeparators);
    SplitAt(a, '–', b, DateSeparators);
    assert a + "–" + b == a + ['–'] + b;
  }

  /**
   * As written, a heading of two full dates around an en dash without
   * spaces gives those dates: the start has three pieces on '.', and both
   * parts are exactly what `strptime` reads.
   */
  lemma AsWrittenFullDateHeading(d0: Date, d1: Date, currentYear: nat)
    requires ValidDate(d0) && ValidDate(d1) && currentYear >= 1
    ensures GetDates([Dotted(d0) + "–" + Dotted(d1)], currentYear) == Returns(Some((d0, d1)))
  {
    BareDashParts(d0, d1);
    DottedThreePieces(d0);
    DottedRoundTrip(d0);
    DottedRoundTrip(d1);
  }

  /* ---------------------------------------------------------------------
   * The table
   * ------------------------------------------------------------------- */

  /**
   * One cell of `_clean_table_data`: the control run removed, then the
   * surrounding whitespace; if what remains, without its spaces, is
   * decimal, the cell is that integer, otherwise the text.
   */
  function CleanCell(text: string): (c: Cell)
    ensures !c.Day?
    ensures c.Int? ==> c.n >= 0
  {
    var t := Strip(ReplaceAll(text, ControlRun, ""));
    var digits := ReplaceAll(t, " ", "");
    if IsDecimal(digits) then Int(DecimalValue(digits)) else Text(t)
  }

  /** Replacing a pattern whose first character never occurs leaves the text unchanged. */
  lemma ReplaceAbsentChar(s: string, pat: string, rep: string)
    requires |pat| > 0 && forall k :: 0 <= k < |s| ==> s[k] != pat[0]
    ensures ReplaceAll(s, pat, rep) == s
  {
    ReplaceAllPrefix(s, "", pat, rep);
    assert s + "" == s;
  }

  /** A number printed by `str` is read back as that number. */
  lemma NumberCell(n: nat)
    ensures CleanCell(DecimalString(n)) == Int(n)
  {
    var s := DecimalString(n);
    ReplaceAbsentChar(s, ControlRun, "");
    StripUntouched(s);
    ReplaceAbsentChar(s, " ", "");
    DecimalRoundTrip(n);
  }

  /** Removing the spaces of two digit runs joined by one space joins the runs. */
  lemma GroupedDigits(a: string, b: string)
    requires IsDecimal(a) && IsDecimal(b)
    ensures ReplaceAll(a + " " + b, " ", "") == a + b
  {
    var sb := " " + b;
    assert a + " " + b == a + sb;
    assert forall k :: 0 <= k < |a| ==> a[k] != ' ';
    ReplaceAllPrefix(a, sb, " ", "");
    assert StartsWith(sb, " ") && sb[1..] == b;
    assert ReplaceAll(sb, " ", "") == "" + ReplaceAll(b, " ", "");
    assert forall k :: 0 <= k < |b| ==> b[k] != ' ';
    ReplaceAbsentChar(b, " ", "");
  }

  /** Digits grouped by a space, as thousands often are, are read as one number. */
  lemma GroupedNumberCell(a: string, b: string)
    requires IsDecimal(a) && IsDecimal(b)
    ensures CleanCell(a + " " + b) == Int(DecimalValue(a + b))
  {
    var s := a + " " + b;
    assert forall k :: 0 <= k < |s| ==> s[k] != '\n' by {
      forall k | 0 <= k < |s| ensures s[k] != '\n' {
        if k < |a| {
          assert s[k] == a[k];
        } else if k > |a| {
          assert s[k] == b[k - |a| - 1];
        }
      }
    }
    ReplaceAbsentChar(s, ControlRun, "");
    assert IsDigit(s[0]) && IsDigit(s[|s| - 1]);
    StripUntouched(s);
    GroupedDigits(a, b);
  }

  /** The number of header cells: five when the first cell names the subject column, six otherwise. */
  function HeaderLength(first: string): (n: nat)
    ensures n == 5 <==> Contains(first, HeaderMarker)
    ensures n == 5 || n == 6
  {
    if Contains(first, HeaderMarker) then 5 else 6
  }

  /**
   * `_clean_table_data` as a value: an empty table raises IndexError;
   * otherwise the header is dropped and every remaining cell is cleaned,
   * in order.
   */
  function CleanedTable(cells: seq<string>): (r: Parsed<seq<Cell>>)
    ensures r.Raises? <==> cells == []
    ensures r.Raises? ==> r.error == IndexError
    ensures r.Returns? ==>
      var n := HeaderLength(cells[0]);
      |r.value| == (if |cells| <= n then 0 else |cells| - n)
      && forall i :: 0 <= i < |r.value| ==> r.value[i] == CleanCell(cells[n + i])
  {
    if cells == [] then Raises(IndexError)
    else
      var n := HeaderLength(cells[0]);
      var body := if |cells| <= n then [] else cells[n..];
      Returns(seq(|body|, i requires 0 <= i < |body| => CleanCell(body[i])))
  }

  /** `_clean_table_data`: the header slice is taken, then each slot is overwritten by its cleaned value. */
  method CleanTableData(cells: seq<string>) returns (r: Parsed<seq<Cell>>)
    ensures r == CleanedTable(cells)
  {
    if |cells| == 0 {
      return Raises(IndexError);
    }
    var n := HeaderLength(cells[0]);
    var body := if |cells| <= n then [] else cells[n..];
    var table: seq<Cell> := seq(|body|, i requires 0 <= i < |body| => Text(body[i]));
    var i := 0;
    while i < |body|
      invariant 0 <= i <= |body| && |table| == |body|
      invariant forall k :: 0 <= k < i ==> table[k] == CleanCell(body[k])
    {
      var t := Strip(ReplaceAll(body[i], ControlRun, ""));
      table := table[i := Text(t)];
      var temp := ReplaceAll(t, " ", "");
      if IsDecimal(temp) {
        table := table[i := Int(DecimalValue(temp))];
      }
      i := i + 1;
    }
    assert table == CleanedTable(cells).value;
    return Returns(table);
  }

  /** `dict(zip(names, values))`: as many pairs as the shorter side, in order. */
  function Zip(names: seq<string>, values: seq<Cell>): (r: Record)
    ensures |r| == if |names| < |values| then |names| else |values|
    ensures forall i :: 0 <= i < |r| ==> r[i] == (names[i], values[i])
  {
    var n := if |names| < |values| then |names| else |values|;
    seq(n, i requires 0 <= i < n => (names[i], values[i]))
  }

  /** `table[5 * k : 5 * k + 5]`, which is shorter at the end of the table. */
  function Chunk(table: seq<Cell>, k: nat): (c: seq<Cell>)
    requires 5 * k < |table|
    ensures 0 < |c| <= 5
  {
    if 5 * k + 5 <= |table| then table[5 * k..5 * k + 5] else table[5 * k..]
  }

  /**
   * `_get_regions_data`: one record per started group of five cells, each
   * the dates followed by the group, zipped with the region fields.
   */
  function RegionsData(table: seq<Cell>, dates: seq<Cell>): (r: seq<Record>)
    ensures |r| == (|table| + 4) / 5
    ensures forall k :: 0 <= k < |r| ==> r[k] == Zip(RegionFields, dates + Chunk(table, k))
  {
    var n := (|table| + 4) / 5;
    seq(n, k requires 0 <= k < n => Zip(RegionFields, dates + Chunk(table, k)))
  }

  /** The values of a record, in order. */
  function Values(r: Record): (v: seq<Cell>)
    ensures |v| == |r| && forall i :: 0 <= i < |r| ==> v[i] == r[i].1
  {
    seq(|r|, i requires 0 <= i < |r| => r[i].1)
  }

  /** The table cells a list of records holds after their two dates, record after record. */
  function TableOf(records: seq<Record>): seq<Cell>
    decreases |records|
  {
    if records == [] then []
    else
      var last := Values(records[|records| - 1]);
      TableOf(records[..|records| - 1]) + (if |last| < 2 then [] else last[2..])
  }

  /** Each record holds the two dates and then its group of cells, under the region fields. */
  lemma RecordOfChunk(table: seq<Cell>, dates: seq<Cell>, k: nat)
    requires |dates| == 2 && k < (|table| + 4) / 5
    ensures Values(RegionsData(table, dates)[k]) == dates + Chunk(table, k)
    ensures RegionsData(table, dates)[k][..2] == [("start_date", dates[0]), ("end_date", dates[1])]
  {
    var rec := RegionsData(table, dates)[k];
    var vs := dates + Chunk(table, k);
    assert rec == Zip(RegionFields, vs);
    assert |rec| == |vs|;
  }

  /** The cells of a leading run of records are those of the run before it, then the last record's cells after its dates. */
  lemma TableOfLast(records: seq<Record>, n: nat)
    requires 0 < n <= |records|
    ensures var last := Values(records[n - 1]);
      TableOf(records[..n]) == TableOf(records[..n - 1]) + (if |last| < 2 then [] else last[2..])
  {
    assert records[..n][..n - 1] == records[..n - 1];
    assert records[..n][n - 1] == records[n - 1];
  }

  /** The `n`-th group of cells, after the groups before it, extends the table prefix they cover. */
  lemma ChunkExtends(table: seq<Cell>, n: nat)
    requires 0 < n && 5 * (n - 1) < |table|
    ensures var m := if 5 * n < |table| then 5 * n else |table|;
      table[..m] == table[..5 * (n - 1)] + Chunk(table, n - 1)
  {
    var m := if 5 * n < |table| then 5 * n else |table|;
    assert Chunk(table, n - 1) == table[5 * (n - 1)..m];
    assert table[..m] == table[..5 * (n - 1)] + table[5 * (n - 1)..m];
  }

  lemma {:induction false} TableOfPrefix(table: seq<Cell>, dates: seq<Cell>, n: nat)
    requires |dates| == 2 && n <= (|table| + 4) / 5
    ensures var m := if 5 * n < |table| then 5 * n else |table|;
      TableOf(RegionsData(table, dates)[..n]) == table[..m]
    decreases n
  {
    if n > 0 {
      var r := RegionsData(table, dates);
      TableOfPrefix(table, dates, n - 1);
      TableOfLast(r, n);
      RecordOfChunk(table, dates, n - 1);
      var chunk := Chunk(table, n - 1);
      assert (dates + chunk)[2..] == chunk;
      ChunkExtends(table, n);
    }
  }

  /**
   * Nothing in the table is lost or reordered: the records' cells after
   * their two dates, concatenated, are the whole cleaned table. Every record
   * carries the two dates first.
   */
  lemma RegionsDataRoundTrip(table: seq<Cell>, dates: seq<Cell>)
    requires |dates| == 2
    ensures TableOf(RegionsData(table, dates)) == table
    ensures forall k :: 0 <= k < |RegionsData(table, dates)| ==>
      RegionsData(table, dates)[k][..2] == [("start_date", dates[0]), ("end_date", dates[1])]
  {
    var r := RegionsData(table, dates);
    TableOfPrefix(table, dates, |r|);
    assert r[..|r|] == r;
    assert table[..|table|] == table;
    forall k | 0 <= k < |r|
      ensures r[k][..2] == [("start_date", dates[0]), ("end_date", dates[1])]
    {
      RecordOfChunk(table, dates, k);
    }
  }

  /* ---------------------------------------------------------------------
   * Pages and the article list
   * ------------------------------------------------------------------- */

  /** Which `_get_dates` a pipeline reads its headings with: the code as written, or as evidently intended. */
  datatype Reading = AsWritten | Intended

  /** The heading dates under `reading`. */
  function HeadingDates(reading: Reading, matches: seq<string>, currentYear: nat): (r: Parsed<Option<(Date, Date)>>)
    requires currentYear >= 1
    ensures r.Raises? ==> r.error == IndexError || (reading == AsWritten && r.error == ValueError)
  {
    if reading == AsWritten then GetDates(matches, currentYear) else GetDatesIntended(matches, currentYear)
  }

  /**
   * `_parse_page`: the heading's dates first (no dates, no records; an
   * exception from `_get_dates` escapes), then the cleaned table cut into
   * records. The source's reading is `AsWritten`.
   */
  function ParsePage(page: Page, currentYear: nat, reading: Reading := AsWritten): (r: Parsed<Option<seq<Record>>>)
    requires currentYear >= 1
    ensures HeadingDates(reading, page.matches, currentYear) == Returns(None) ==> r == Returns(None)
    ensures HeadingDates(reading, page.matches, currentYear).Raises? ==> r == Raises(HeadingDates(reading, page.matches, currentYear).error)
    ensures r.Raises? ==> r.error == IndexError || (reading == AsWritten && r.error == ValueError)
  {
    match HeadingDates(reading, page.matches, currentYear)
    case Raises(e) => Raises(e)
    case Returns(None) => Returns(None)
    case Returns(Some((start, end))) =>
      match CleanedTable(page.cells)
      case Raises(e) => Raises(e)
      case Returns(table) => Returns(Some(RegionsData(table, [Day(start), Day(end)])))
  }

  /**
   * A page with dates yields records that all start with those dates and
   * together hold every cleaned table cell, in order.
   */
  lemma PageRecords(page: Page, currentYear: nat, reading: Reading)
    requires currentYear >= 1
    requires ParsePage(page, currentYear, reading).Returns? && ParsePage(page, currentYear, reading).value.Some?
    ensures HeadingDates(reading, page.matches, currentYear).Returns?
    ensures HeadingDates(reading, page.matches, currentYear).value.Some?
    ensures CleanedTable(page.cells).Returns?
    ensures var records := ParsePage(page, currentYear, reading).value.value;
      var dates := HeadingDates(reading, page.matches, currentYear).value.value;
      TableOf(records) == CleanedTable(page.cells).value
      && forall k :: 0 <= k < |records| ==>
           records[k][..2] == [("start_date", Day(dates.0)), ("end_date", Day(dates.1))]
  {
    var dates := HeadingDates(reading, page.matches, currentYear).value.value;
    RegionsDataRoundTrip(CleanedTable(page.cells).value, [Day(dates.0), Day(dates.1)]);
  }

  /**
   * As written, a page headed like the repository's own test heading
   * `23.10. - 29.10` raises ValueError, whatever its table; read as
   * intended, the same page yields records carrying the year rule's dates.
   */
  lemma TrailingDotPage(d0: Date, d1: Date, currentYear: nat, cells: seq<string>)
    requires ValidDate(d0) && ValidDate(d1) && 1001 <= currentYear
    requires d1.year == currentYear
    requires d0.year == if d0.month > d1.month then currentYear - 1 else currentYear
    requires cells != []
    ensures ParsePage(Page([DayMonth(d0) + ". - " + DayMonth(d1)], cells), currentYear) == Raises(ValueError)
    ensures ParsePage(Page([DayMonth(d0) + ". - " + DayMonth(d1)], cells), currentYear, Intended)
      == Returns(Some(RegionsData(CleanedTable(cells).value, [Day(d0), Day(d1)])))
  {
    TrailingDotHeadingRaises(d0, d1, currentYear);
    TrailingDotHeadingParses(d0, d1, currentYear);
  }

  /**
   * `_parse_url_list` as a value: the pages of `urls` parsed in order, the
   * records of each appended; a page without dates adds nothing, and an
   * exception stops the walk.
   */
  function UrlListRecords(urls: seq<string>, fetch: string -> Page, currentYear: nat, reading: Reading := AsWritten): (r: Parsed<seq<Record>>)
    requires currentYear >= 1
    ensures r.Raises? ==> r.error == IndexError || (reading == AsWritten && r.error == ValueError)
    decreases |urls|
  {
    if urls == [] then Returns([])
    else
      match UrlListRecords(urls[..|urls| - 1], fetch, currentYear, reading)
      case Raises(e) => Raises(e)
      case Returns(parsed) =>
        match ParsePage(fetch(urls[|urls| - 1]), currentYear, reading)
        case Raises(e) => Raises(e)
        case Returns(None) => Returns(parsed)
        case Returns(Some(records)) => Returns(parsed + records)
  }

  /** One more page: its exception, nothing, or its records after those already read. */
  lemma UrlListSnoc(urls: seq<string>, fetch: string -> Page, currentYear: nat, reading: Reading, i: nat, parsed: seq<Record>)
    requires currentYear >= 1 && i < |urls|
    requires UrlListRecords(urls[..i], fetch, currentYear, reading) == Returns(parsed)
    ensures var page := ParsePage(fetch(urls[i]), currentYear, reading);
      UrlListRecords(urls[..i + 1], fetch, currentYear, reading) ==
        match page
        case Raises(e) => Raises(e)
        case Returns(None) => Returns(parsed)
        case Returns(Some(records)) => Returns(parsed + records)
  {
    assert urls[..i + 1][..i] == urls[..i];
  }

  /** Once an exception is raised, no later page changes the outcome. */
  lemma {:induction false} UrlListStops(urls: seq<string>, fetch: string -> Page, currentYear: nat, reading: Reading, i: nat)
    requires currentYear >= 1 && i <= |urls|
    requires UrlListRecords(urls[..i], fetch, currentYear, reading).Raises?
    ensures UrlListRecords(urls, fetch, currentYear, reading) == UrlListRecords(urls[..i], fetch, currentYear, reading)
    decreases |urls| - i
  {
    if i < |urls| {
      assert urls[..i + 1][..i] == urls[..i];
      UrlListStops(urls, fetch, currentYear, reading, i + 1);
    } else {
      assert urls[..i] == urls;
    }
  }

  /** The records of a leading part of the list, when the whole list parses, begin the whole list's records. */
  lemma {:induction false} UrlListPrefix(urls: seq<string>, fetch: string -> Page, currentYear: nat, reading: Reading, i: nat)
    requires currentYear >= 1 && i <= |urls|
    requires UrlListRecords(urls, fetch, currentYear, reading).Returns?
    ensures UrlListRecords(urls[..i], fetch, currentYear, reading).Returns?
    ensures UrlListRecords(urls[..i], fetch, currentYear, reading).value <= UrlListRecords(urls, fetch, currentYear, reading).value
    decreases |urls|
  {
    if i < |urls| {
      var init := urls[..|urls| - 1];
      UrlListPrefix(init, fetch, currentYear, reading, i);
      assert init[..i] == urls[..i];
    } else {
      assert urls[..i] == urls;
    }
  }

  /** A link names a weekly bulletin article. */
  predicate IsArticle(href: string)
  {
    Contains(href, ArticleMarker)
  }

  /** `StopCoronaParser`: the bulletin articles found on the listing pages. */
  class StopCoronaParser {
    var urlList: seq<string>

    /**
     * `__init__` and `_get_url_list`: the links of every listing page,
     * in page order (fetched beforehand), keeping the bulletin articles.
     */
    constructor (hrefs: seq<string>)
      ensures urlList == Filter(hrefs, IsArticle)
    {
      var urls: seq<string> := [];
      var i := 0;
      while i < |hrefs|
        invariant 0 <= i <= |hrefs|
        invariant urls == Filter(hrefs[..i], IsArticle)
      {
        FilterSnoc(hrefs, i, IsArticle);
        if IsArticle(hrefs[i]) {
          urls := urls + [hrefs[i]];
        }
        i := i + 1;
      }
      assert hrefs[..i] == hrefs;
      urlList := urls;
    }

    /** `_parse_url_list`: fetch and parse each page in turn, extending the result with its records. */
    static method ParseUrlList(urls: seq<string>, fetch: string -> Page, currentYear: nat, reading: Reading := AsWritten) returns (r: Parsed<seq<Record>>)
      requires currentYear >= 1
      ensures r == UrlListRecords(urls, fetch, currentYear, reading)
    {
      var parsed: seq<Record> := [];
      var i := 0;
      while i < |urls|
        invariant 0 <= i <= |urls|
        invariant UrlListRecords(urls[..i], fetch, currentYear, reading) == Returns(parsed)
      {
        UrlListSnoc(urls, fetch, currentYear, reading, i, parsed);
        var regions := ParsePage(fetch(urls[i]), currentYear, reading);
        if regions.Raises? {
          UrlListStops(urls, fetch, currentYear, reading, i + 1);
          return Raises(regions.error);
        }
        if regions.value.Some? {
          parsed := parsed + regions.value.value;
        }
        i := i + 1;
      }
      assert urls[..i] == urls;
      return Returns(parsed);
    }

    /** `get_all`: every article, in list order. */
    method GetAll(fetch: string -> Page, currentYear: nat, reading: Reading := AsWritten) returns (r: Parsed<seq<Record>>)
      requires currentYear >= 1
      ensures r == UrlListRecords(urlList, fetch, currentYear, reading)
    {
      r := ParseUrlList(urlList, fetch, currentYear, reading);
    }

    /**
     * `get_latest`: the first article only (`url_list[:1]`), which is the
     * first of `get_all`'s pages; no articles, no records.
     */
    method GetLatest(fetch: string -> Page, currentYear: nat, reading: Reading := AsWritten) returns (r: Parsed<seq<Record>>)
      requires currentYear >= 1
      ensures urlList == [] ==> r == Returns([])
      ensures urlList != [] ==> r == UrlListRecords(urlList[..1], fetch, currentYear, reading)
      ensures urlList != [] && r.Returns? && UrlListRecords(urlList, fetch, currentYear, reading).Returns? ==>
        r.value <= UrlListRecords(urlList, fetch, currentYear, reading).value
    {
      var first := if |urlList| < 1 then urlList else urlList[..1];
      r := ParseUrlList(first, fetch, currentYear, reading);
      if urlList != [] && UrlListRecords(urlList, fetch, currentYear, reading).Returns? {
        UrlListPrefix(urlList, fetch, currentYear, reading, 1);
      }
    }
  }
}
