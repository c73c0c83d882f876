/**
 * The older `etl` copy of the stopcorona parser (`etl/utils/parsers`). It
 * shares the table cleaning and record building of the app's parser, but
 * reads the heading differently: the first match is taken without a
 * count check, only the ASCII hyphen separates the dates, every part is
 * dated by the year rule, and the parts after the second are kept as they
 * are.
 */
module LegacyStopcoronaParser {
  import opened Common
  import opened PyStr
  import opened Calendar
  import opened StopcoronaParser

  /** The legacy parser splits the heading on the ASCII hyphen only. */
  const Hyphen: set<char> := {'-'}

  /**
   * `_get_dates` of the legacy parser: `matches[0]` raises IndexError when
   * nothing matched; the match is split on hyphens, the first two parts
   * are dated by the year rule, and any further parts stay text.
   */
  function LegacyDates(matches: seq<string>, currentYear: nat): (r: Parsed<Option<seq<Cell>>>)
    requires currentYear >= 1
    ensures matches == [] ==> r == Raises(IndexError)
    ensures r.Raises? ==> r.error == IndexError
    ensures r.Returns? && r.value.Some? ==>
      |r.value.value| == |Split(matches[0], Hyphen)| >= 2 && r.value.value[0].Day? && r.value.value[1].Day?
  {
    if matches == [] then Raises(IndexError)
    else
      var parts := Split(matches[0], Hyphen);
      match InferDates(parts, currentYear)
      case Raises(e) => Raises(e)
      case Returns(None) => Returns(None)
      case Returns(Some((start, end))) =>
        Returns(Some([Day(start), Day(end)] + seq(|parts| - 2, k requires 0 <= k < |parts| - 2 => Text(parts[k + 2]))))
  }

  /**
   * An en dash is not a separator here: a heading match without a hyphen
   * never yields dates (it raises IndexError or gives `None`).
   */
  lemma LegacyIgnoresEnDash(matches: seq<string>, currentYear: nat)
    requires currentYear >= 1 && matches != []
    requires forall k :: 0 <= k < |matches[0]| ==> matches[0][k] != '-'
    ensures !(LegacyDates(matches, currentYear).Returns? && LegacyDates(matches, currentYear).value.Some?)
  {
    SplitNone(matches[0], Hyphen);
  }

  /** The hyphen heading `dd.mm- dd.mm` splits into the start and the spaced end. */
  lemma HyphenParts(s0: string, s1: string)
    requires IsDayMonth(s0) && IsDayMonth(s1)
    ensures Split(s0 + "- " + s1, Hyphen) == [s0, " " + s1]
  {
    var b := " " + s1;
    assert forall k :: 0 <= k < |s0| ==> s0[k] !in Hyphen;
    assert forall k :: 0 <= k < |b| ==> b[k] !in Hyphen by {
      forall k | 0 <= k < |b| ensures b[k] !in Hyphen {
        if k > 0 {
          assert b[k] == s1[k - 1];
        }
      }
    }
    SplitNone(b, Hyphen);
    SplitAt(s0, '-', b, Hyphen);
    assert s0 + "- " + s1 == s0 + ['-'] + b;
  }

  /** A `dd.mm` start and a spaced `dd.mm` end are dated by the year rule. */
  lemma SpacedEndInferred(d0: Date, d1: Date, currentYear: nat)
    requires ValidDate(d0) && ValidDate(d1) && 1001 <= currentYear
    requires d1.year == currentYear
    requires d0.year == if d0.month > d1.month then currentYear - 1 else currentYear
    ensures InferDates([DayMonth(d0), " " + DayMonth(d1)], currentYear) == Returns(Some((d0, d1)))
  {
    MonthOfDayMonth(d0);
    MonthOfDayMonth(d1);
    DayMonthWithYear(d0);
    DayMonthWithYear(d1);
    SpaceBeforeDayMonth(DayMonth(d1), d1.year);
    InferredByYearRule(DayMonth(d0), " " + DayMonth(d1), d0, d1, currentYear);
  }

  /** A `dd.mm- dd.mm` heading is dated as its start and spaced end are, and has no further parts. */
  lemma LegacyHeadingOf(s0: string, s1: string, currentYear: nat)
    requires IsDayMonth(s0) && IsDayMonth(s1) && currentYear >= 1
    requires InferDates([s0, " " + s1], currentYear).Returns? && InferDates([s0, " " + s1], currentYear).value.Some?
    ensures var (start, end) := InferDates([s0, " " + s1], currentYear).value.value;
      LegacyDates([s0 + "- " + s1], currentYear) == Returns(Some([Day(start), Day(end)]))
  {
    var heading := s0 + "- " + s1;
    HyphenParts(s0, s1);
    var parts := Split(heading, Hyphen);
    assert parts == [s0, " " + s1];
    var (start, end) := InferDates(parts, currentYear).value.value;
    var rest := seq(|parts| - 2, k requires 0 <= k < |parts| - 2 => Text(parts[k + 2]));
    assert rest == [];
    assert LegacyDates([heading], currentYear) == Returns(Some([Day(start), Day(end)] + rest));
    assert [Day(start), Day(end)] + rest == [Day(start), Day(end)];
  }

  /**
   * The legacy parser reads a `dd.mm- dd.mm` heading by the year rule, as
   * the app's parser does.
   */
  lemma LegacyHyphenHeading(d0: Date, d1: Date, currentYear: nat)
    requires ValidDate(d0) && ValidDate(d1) && 1001 <= currentYear
    requires d1.year == currentYear
    requires d0.year == if d0.month > d1.month then currentYear - 1 else currentYear
    ensures LegacyDates([DayMonth(d0) + "- " + DayMonth(d1)], currentYear) == Returns(Some([Day(d0), Day(d1)]))
  {
    SpacedEndInferred(d0, d1, currentYear);
    LegacyHeadingOf(DayMonth(d0), DayMonth(d1), currentYear);
  }

  /** `_parse_page` of the legacy parser: dates, then the cleaned table cut into records. */
  function LegacyParsePage(page: Page, currentYear: nat): (r: Parsed<Option<seq<Record>>>)
    requires currentYear >= 1
    ensures page.matches == [] ==> r == Raises(IndexError)
    ensures r.Raises? ==> r.error == IndexError
  {
    match LegacyDates(page.matches, currentYear)
    case Raises(e) => Raises(e)
    case Returns(None) => Returns(None)
    case Returns(Some(dates)) =>
      match CleanedTable(page.cells)
      case Raises(e) => Raises(e)
      case Returns(table) => Returns(Some(RegionsData(table, dates)))
  }

  /**
   * With exactly two parts, every legacy record starts with the two dates
   * and the records hold every cleaned cell, in order.
   */
  lemma LegacyPageRecords(page: Page, currentYear: nat)
    requires currentYear >= 1
    requires LegacyParsePage(page, currentYear).Returns? && LegacyParsePage(page, currentYear).value.Some?
    requires |Split(page.matches[0], Hyphen)| == 2
    ensures CleanedTable(page.cells).Returns?
    ensures var records := LegacyParsePage(page, currentYear).value.value;
      var dates := LegacyDates(page.matches, currentYear).value.value;
      TableOf(records) == CleanedTable(page.cells).value
      && forall k :: 0 <= k < |records| ==> records[k][..2] == [("start_date", dates[0]), ("end_date", dates[1])]
  {
    var dates := LegacyDates(page.matches, currentYear).value.value;
    RegionsDataRoundTrip(CleanedTable(page.cells).value, dates);
  }

  /** `_parse_url_list` of the legacy parser, as a value. */
  function LegacyUrlListRecords(urls: seq<string>, fetch: string -> Page, currentYear: nat): (r: Parsed<seq<Record>>)
    requires currentYear >= 1
    ensures r.Raises? ==> r.error == IndexError
    decreases |urls|
  {
    if urls == [] then Returns([])
    else
      var init := urls[..|urls| - 1];
      var last := urls[|urls| - 1];
      match LegacyUrlListRecords(init, fetch, currentYear)
      case Raises(e) => Raises(e)
      case Returns(parsed) =>
        match LegacyParsePage(fetch(last), currentYear)
        case Raises(e) => Raises(e)
        case Returns(None) => Returns(parsed)
        case Returns(Some(records)) => Returns(parsed + records)
  }

  lemma {:induction false} LegacyUrlListStops(urls: seq<string>, fetch: string -> Page, currentYear: nat, i: nat)
    requires currentYear >= 1 && i <= |urls|
    requires LegacyUrlListRecords(urls[..i], fetch, currentYear).Raises?
    ensures LegacyUrlListRecords(urls, fetch, currentYear) == LegacyUrlListRecords(urls[..i], fetch, currentYear)
    decreases |urls| - i
  {
    if i < |urls| {
      assert urls[..i + 1][..i] == urls[..i];
      LegacyUrlListStops(urls, fetch, currentYear, i + 1);
    } else {
      assert urls[..i] == urls;
    }
  }

  /** `Parser`: the legacy parser object. */
  class Parser {
    var urlList: seq<string>

    /** `__init__` and `_get_url_list`: the bulletin articles among the listed links, in order. */
    constructor (hrefs: seq<string>)
      ensures urlList == Filter(hrefs, IsArticle)
    {
      var urls: seq<string> := [];
      var i := 0;
      while i < |hrefs|
        invariant 0 <= i <= |hrefs|
        invariant urls == Filter(hrefs[..i], IsArticle)
      {
        FilterSnoc(hrefs, i, IsArticle);
        if IsArticle(hrefs[i]) {
          urls := urls + [hrefs[i]];
        }
        i := i + 1;
      }
      assert hrefs[..i] == hrefs;
      urlList := urls;
    }

    /** `_parse_url_list`: each page in turn, extending the result with its records. */
    static method ParseUrlList(urls: seq<string>, fetch: string -> Page, currentYear: nat) returns (r: Parsed<seq<Record>>)
      requires currentYear >= 1
      ensures r == LegacyUrlListRecords(urls, fetch, currentYear)
    {
      var parsed: seq<Record> := [];
      var i := 0;
      while i < |urls|
        invariant 0 <= i <= |urls|
        invariant LegacyUrlListRecords(urls[..i], fetch, currentYear) == Returns(parsed)
      {
        assert urls[..i + 1][..i] == urls[..i];
        var regions := LegacyParsePage(fetch(urls[i]), currentYear);
        if regions.Raises? {
          LegacyUrlListStops(urls, fetch, currentYear, i + 1);
          return Raises(regions.error);
        }
        if regions.value.Some? {
          parsed := parsed + regions.value.value;
        }
        i := i + 1;
      }
      assert urls[..i] == urls;
      return Returns(parsed);
    }

    /** `get_all`: every article, in list order. */
    method GetAll(fetch: string -> Page, currentYear: nat) returns (r: Parsed<seq<Record>>)
      requires currentYear >= 1
      ensures r == LegacyUrlListRecords(urlList, fetch, currentYear)
    {
      r := ParseUrlList(urlList, fetch, currentYear);
    }

    /** `get_latest`: the first article only. */
    method GetLatest(fetch: string -> Page, currentYear: nat) returns (r: Parsed<seq<Record>>)
      requires currentYear >= 1
      ensures r == LegacyUrlListRecords(if |urlList| < 1 then urlList else urlList[..1], fetch, currentYear)
    {
      r := ParseUrlList(if |urlList| < 1 then urlList else urlList[..1], fetch, currentYear);
    }
  }
}
