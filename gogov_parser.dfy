/**
 * `GogovParser` of the dashboard application: the nation-wide vaccination
 * figures read from the global section of the gogov.ru page. The page is
 * fetched, the first `d.m.yy`-shaped text of the section gives the date,
 * and spans 1, 2, 3 and 6 and the bold element give the counters, each
 * cleaned of spaces and of the `чел.` unit before `int()`.
 */
module GogovParser {
  import opened Common
  import opened PyStr
  import opened Calendar

  /**
   * The global section as the parser sees it: its text, the texts of its
   * `<span>` elements in document order, and the text of its first `<b>`
   * element, if it has one.
   */
  datatype Section = Section(text: string, spans: seq<string>, bold: Option<string>)

  /** The record `_parse_global_data` builds: the date and the counters by field name. */
  datatype GlobalData = GlobalData(date: Date, counts: map<string, int>)

  /** `_global_spans`, in its insertion order: span index and field name. */
  const GlobalSpans: seq<(nat, string)> :=
    [(1, "first_component"), (2, "full_vaccinated"), (3, "children_vaccinated"), (6, "need_revaccination")]

  /** The counters of a global record. */
  const GlobalCounters: set<string> :=
    {"first_component", "full_vaccinated", "children_vaccinated", "need_revaccination", "revaccinated"}

  /** What the page fetch ends with: the connection error it catches, or a response. */
  datatype Response = ConnectionFailed | Reply(status: int, text: string)

  /** `requests.codes.ok` */
  const StatusOk: int := 200

  /**
   * `convert_str_to_date`: `datetime.strptime(s, fmt).date()`; text the
   * format does not describe raises ValueError.
   */
  function ConvertStrToDate(s: string, fmt: seq<Directive>): (r: Parsed<Date>)
    ensures r.Returns? ==> ValidDate(r.value)
    ensures r.Raises? ==> r.error == ValueError
  {
    match StrPTime(s, fmt)
    case Some(d) => Returns(d)
    case None => Raises(ValueError)
  }

  /** A zero-padded `dd.mm.yy` date of this century converts back to itself with `%d.%m.%y`. */
  lemma ConvertShortDate(d: Date)
    requires ValidDate(d) && 2000 <= d.year <= 2068
    ensures ConvertStrToDate(ShortDotted(d), DottedDMy) == Returns(d)
  {
    ShortDottedRoundTrip(d);
  }

  /** Text that does not start with a day number is rejected with ValueError. */
  lemma ConvertRejectsNonDate(s: string)
    requires s == [] || (!IsDigit(s[0]) && s[0] != ' ')
    ensures ConvertStrToDate(s, DottedDMy) == Raises(ValueError)
  {
    assert Alternatives(DayOfMonth, s) == [];
  }

  /** Leading ASCII digits of `s` from `i`, at most two: what a greedy `\d{1,2}` takes. */
  function DigitsAt(s: string, i: nat): (n: nat)
    requires i <= |s|
    ensures n <= 2 && i + n <= |s|
    ensures forall k :: i <= k < i + n ==> IsDigit(s[k])
    ensures n < 2 && i + n < |s| ==> !IsDigit(s[i + n])
  {
    if i < |s| && IsDigit(s[i]) then (if i + 1 < |s| && IsDigit(s[i + 1]) then 2 else 1) else 0
  }

  /**
   * End of a match of `\d{1,2}\.\d{1,2}\.\d{1,2}` starting at `i`, if
   * there is one. Taking fewer digits in the first two groups never helps:
   * the character after the first digit of a two-digit run is a digit, not
   * the `.` the pattern needs, so the greedy choice is the only candidate.
   */
  function DateMatchAt(s: string, i: nat): (r: Option<nat>)
    ensures r.Some? ==> i + 5 <= r.value <= i + 8 && r.value <= |s|
    ensures r.Some? ==> IsDigit(s[i]) && IsDigit(s[r.value - 1])
  {
    if i >= |s| then None
    else
    var a := DigitsAt(s, i);
    if a == 0 || i + a >= |s| || s[i + a] != '.' then None
    else
      var b := DigitsAt(s, i + a + 1);
      var j := i + a + 1 + b;
      if b == 0 || j >= |s| || s[j] != '.' then None
      else
        var c := DigitsAt(s, j + 1);
        if c == 0 then None else Some(j + 1 + c)
  }

  /** `re.search` of the date pattern in `s` from `from`: the leftmost match, as start and end. */
  function SearchDate(s: string, from: nat): (r: Option<(nat, nat)>)
    ensures r.Some? ==> from <= r.value.0 && DateMatchAt(s, r.value.0) == Some(r.value.1)
    ensures r.Some? ==> forall i :: from <= i < r.value.0 ==> DateMatchAt(s, i).None?
    ensures r.None? ==> forall i :: from <= i ==> DateMatchAt(s, i).None?
    decreases |s| - from
  {
    if from >= |s| then None
    else match DateMatchAt(s, from)
      case Some(e) => Some((from, e))
      case None => SearchDate(s, from + 1)
  }

  /**
   * A section whose text shows one `dd.mm.yy` date after text without
   * digits, and no digit right after it, is dated with that date.
   */
  lemma {:induction false} SearchFindsShortDate(pre: string, d: Date, post: string)
    requires ValidDate(d) && 2000 <= d.year <= 2068
    requires forall k :: 0 <= k < |pre| ==> !IsDigit(pre[k])
    requires post == [] || !IsDigit(post[0])
    ensures var s := pre + ShortDotted(d) + post;
      SearchDate(s, 0) == Some((|pre|, |pre| + 8)) && s[|pre|..|pre| + 8] == ShortDotted(d)
  {
    var s := pre + ShortDotted(d) + post;
    var n := |pre|;
    forall i | 0 <= i < n
      ensures DateMatchAt(s, i).None?
    {
      assert s[i] == pre[i];
    }
    assert s[n..n + 8] == ShortDotted(d);
    assert DateMatchAt(s, n) == Some(n + 8) by {
      assert s[n + 2] == '.' && s[n + 5] == '.';
      assert IsDigit(s[n]) && IsDigit(s[n + 1]) && IsDigit(s[n + 3]) && IsDigit(s[n + 4]);
      assert IsDigit(s[n + 6]) && IsDigit(s[n + 7]);
      assert n + 8 < |s| ==> s[n + 8] == post[0];
    }
    SearchSkips(s, 0, n);
  }

  /** The search passes over positions where no match starts. */
  lemma {:induction false} SearchSkips(s: string, from: nat, n: nat)
    requires from <= n < |s|
    requires forall i :: from <= i < n ==> DateMatchAt(s, i).None?
    ensures SearchDate(s, from) == SearchDate(s, n)
    decreases n - from
  {
    if from < n {
      assert DateMatchAt(s, from).None?;
      assert SearchDate(s, from) == SearchDate(s, from + 1);
      SearchSkips(s, from + 1, n);
    }
  }

  /**
   * `re.sub(" |чел.", "", s)`: every space goes, and so does every `чел`
   * with the one character after it, since the `.` of the pattern matches
   * any character but a newline. Removed text is never scanned again.
   */
  function CleanSpan(s: string): (r: string)
    ensures |r| <= |s|
    decreases |s|
  {
    if |s| == 0 then ""
    else if s[0] == ' ' then CleanSpan(s[1..])
    else if UnitAt(s) then CleanSpan(s[4..])
    else [s[0]] + CleanSpan(s[1..])
  }

  /** `чел.` as the pattern reads it matches at the start of `s`. */
  predicate UnitAt(s: string)
  {
    |s| >= 4 && s[0] == 'ч' && s[1] == 'е' && s[2] == 'л' && s[3] != '\n'
  }

  /** No space survives the cleaning. */
  lemma {:induction false} CleanSpanNoSpace(s: string)
    ensures forall k :: 0 <= k < |CleanSpan(s)| ==> CleanSpan(s)[k] != ' '
    decreases |s|
  {
    if |s| > 0 {
      CleanSpanNoSpace(s[1..]);
      if |s| >= 4 {
        CleanSpanNoSpace(s[4..]);
      }
    }
  }

  /** Cleaning a text without `ч` works character by character, so it distributes over concatenation. */
  lemma {:induction false} CleanSpanConcat(a: string, b: string)
    requires forall k :: 0 <= k < |a| ==> a[k] != 'ч'
    ensures CleanSpan(a + b) == CleanSpan(a) + CleanSpan(b)
    decreases |a|
  {
    if a == [] {
      assert a + b == b;
    } else {
      assert (a + b)[0] == a[0] && (a + b)[1..] == a[1..] + b;
      assert !UnitAt(a + b) && !UnitAt(a);
      CleanSpanConcat(a[1..], b);
    }
  }

  /** Digits separated by spaces clean to the digits alone. */
  lemma {:induction false} CleanSpanGroups(s: string)
    requires forall k :: 0 <= k < |s| ==> IsDigit(s[k]) || s[k] == ' '
    ensures CleanSpan(s) == Filter(s, IsDigit)
    decreases |s|
  {
    if s != [] {
      CleanSpanGroups(s[1..]);
      assert !UnitAt(s);
      assert Filter(s, IsDigit) == (if IsDigit(s[0]) then [s[0]] else []) + Filter(s[1..], IsDigit);
    }
  }

  /** `int(clean(text))`: the counter a span shows; text that is no integer once cleaned raises ValueError. */
  function ReadCount(text: string): (r: Parsed<int>)
    ensures r.Raises? ==> r.error == ValueError
  {
    match PyInt(CleanSpan(text))
    case Some(v) => Returns(v)
    case None => Raises(ValueError)
  }

  /** The unit after its space cleans away entirely. */
  lemma UnitCleansAway()
    ensures CleanSpan(" чел.") == ""
  {
    assert " чел."[1..] == "чел.";
    assert UnitAt("чел.");
    assert "чел."[4..] == "";
  }

  /** Digit groups followed by the unit clean to the digits alone. */
  lemma CleanGroupsWithUnit(groups: string)
    requires forall k :: 0 <= k < |groups| ==> IsDigit(groups[k]) || groups[k] == ' '
    ensures CleanSpan(groups + " чел.") == Filter(groups, IsDigit)
  {
    assert forall k :: 0 <= k < |groups| ==> groups[k] != 'ч';
    CleanSpanConcat(groups, " чел.");
    CleanSpanGroups(groups);
    UnitCleansAway();
    assert Filter(groups, IsDigit) + "" == Filter(groups, IsDigit);
  }

  /** The digits kept from text holding at least one digit form a decimal. */
  lemma GroupDigitsDecimal(groups: string)
    requires exists k :: 0 <= k < |groups| && IsDigit(groups[k])
    ensures IsDecimal(Filter(groups, IsDigit))
  {
    var digits := Filter(groups, IsDigit);
    var k :| 0 <= k < |groups| && IsDigit(groups[k]);
    var c := groups[k];
    assert c in groups;
    assert c in digits;
    forall m | 0 <= m < |digits|
      ensures IsDigit(digits[m])
    {
      assert digits[m] in digits;
    }
  }

  /**
   * A counter written as digit groups separated by spaces and followed by
   * ` чел.` reads as the number its digits spell.
   */
  lemma SpanCount(groups: string)
    requires forall k :: 0 <= k < |groups| ==> IsDigit(groups[k]) || groups[k] == ' '
    requires exists k :: 0 <= k < |groups| && IsDigit(groups[k])
    ensures var digits := Filter(groups, IsDigit);
      IsDecimal(digits) && ReadCount(groups + " чел.") == Returns(DecimalValue(digits))
  {
    var digits := Filter(groups, IsDigit);
    GroupDigitsDecimal(groups);
    CleanGroupsWithUnit(groups);
    PyIntOfDigits(digits);
    assert PyInt(CleanSpan(groups + " чел.")) == Some(DecimalValue(digits));
  }

  /**
   * The `_global_spans` loop up to `entries`, with `read` the cleaning and
   * `int()` applied to a span's text: each named counter read from its
   * span. The first failure wins: a missing span raises IndexError, and a
   * failed read raises what the read raises.
   */
  function SpanCounts(spans: seq<string>, entries: seq<(nat, string)>, read: string -> Parsed<int>): (r: Parsed<map<string, int>>)
    decreases |entries|
  {
    if entries == [] then Returns(map[])
    else ReadEntry(SpanCounts(spans, entries[..|entries| - 1], read), entries[|entries| - 1], spans, read)
  }

  /** One turn of the loop: the counter of `entry` added to what was read so far. */
  function ReadEntry(acc: Parsed<map<string, int>>, entry: (nat, string), spans: seq<string>,
                     read: string -> Parsed<int>): (r: Parsed<map<string, int>>)
    ensures r.Returns? <==> acc.Returns? && entry.0 < |spans| && read(spans[entry.0]).Returns?
    ensures r.Returns? ==> r.value == acc.value[entry.1 := read(spans[entry.0]).value]
  {
    match acc
    case Raises(e) => Raises(e)
    case Returns(m) =>
      if entry.0 >= |spans| then Raises(IndexError)
      else match read(spans[entry.0])
        case Raises(e) => Raises(e)
        case Returns(v) => Returns(m[entry.1 := v])
  }

  /**
   * The global spans are read exactly when the section has at least seven
   * spans and spans 1, 2, 3 and 6 are read without error; each counter is
   * then the value of its own span.
   */
  lemma GlobalSpanCounts(spans: seq<string>, read: string -> Parsed<int>)
    ensures var r := SpanCounts(spans, GlobalSpans, read);
      r.Returns? <==> |spans| > 6 && read(spans[1]).Returns? && read(spans[2]).Returns?
                      && read(spans[3]).Returns? && read(spans[6]).Returns?
    ensures var r := SpanCounts(spans, GlobalSpans, read);
      r.Returns? ==> r.value == map["first_component" := read(spans[1]).value,
                                    "full_vaccinated" := read(spans[2]).value,
                                    "children_vaccinated" := read(spans[3]).value,
                                    "need_revaccination" := read(spans[6]).value]
  {
    var r0: Parsed<map<string, int>> := Returns(map[]);
    var r1 := ReadEntry(r0, GlobalSpans[0], spans, read);
    var r2 := ReadEntry(r1, GlobalSpans[1], spans, read);
    var r3 := ReadEntry(r2, GlobalSpans[2], spans, read);
    var r4 := ReadEntry(r3, GlobalSpans[3], spans, read);
    var e1, e2, e3 := GlobalSpans[..1], GlobalSpans[..2], GlobalSpans[..3];
    assert e1[..0] == [];
    assert SpanCounts(spans, e1, read) == r1;
    assert e2[..1] == e1;
    assert SpanCounts(spans, e2, read) == r2;
    assert e3[..2] == e2;
    assert SpanCounts(spans, e3, read) == r3;
    assert GlobalSpans[..3] == e3;
    assert SpanCounts(spans, GlobalSpans, read) == r4;
  }

  /** The date conversion `_parse_global_data` applies: `%d.%m.%y`. */
  function GlobalDate(text: string): (r: Parsed<Date>)
    ensures r.Raises? ==> r.error == ValueError
  {
    ConvertStrToDate(text, DottedDMy)
  }

  /** `_parse_global_data` over a section, with its date conversion and its counter read. */
  function GlobalDataOf(sec: Section): (r: Parsed<GlobalData>)
    ensures SearchDate(sec.text, 0).None? ==> r == Raises(AttributeError)
    ensures r.Returns? ==> r.value.counts.Keys == GlobalCounters && |sec.spans| > 6 && sec.bold.Some?
  {
    GlobalDataFields(sec, GlobalDate, ReadCount);
    GlobalDataWith(sec, GlobalDate, ReadCount)
  }

  /**
   * `_parse_global_data` given the date conversion and the counter read:
   * the date first (no date-shaped text leaves `re.search` without a
   * match, whose `.group()` raises AttributeError), then the span
   * counters, then `revaccinated` from the bold element (absent:
   * AttributeError).
   */
  function GlobalDataWith(sec: Section, toDate: string -> Parsed<Date>, read: string -> Parsed<int>): (r: Parsed<GlobalData>)
    ensures SearchDate(sec.text, 0).None? ==> r == Raises(AttributeError)
    ensures SearchDate(sec.text, 0).Some? && sec.bold.None? ==> r.Raises?
  {
    match SearchDate(sec.text, 0)
    case None => Raises(AttributeError)
    case Some((i, j)) =>
      match toDate(sec.text[i..j])
      case Raises(e) => Raises(e)
      case Returns(d) =>
        match SpanCounts(sec.spans, GlobalSpans, read)
        case Raises(e) => Raises(e)
        case Returns(counts) =>
          match sec.bold
          case None => Raises(AttributeError)
          case Some(b) =>
            match read(b)
            case Raises(e) => Raises(e)
            case Returns(v) => Returns(GlobalData(d, counts["revaccinated" := v]))
  }

  /**
   * A global record exists exactly when the section has a date that
   * converts, at least seven spans with counters at 1, 2, 3 and 6, and a
   * counter in bold; it then holds the five counters and nothing else,
   * each read from its own element, and the date of the first match.
   */
  lemma GlobalDataFields(sec: Section, toDate: string -> Parsed<Date>, read: string -> Parsed<int>)
    ensures var r := GlobalDataWith(sec, toDate, read);
      r.Returns? <==>
        SearchDate(sec.text, 0).Some?
        && toDate(sec.text[SearchDate(sec.text, 0).value.0..SearchDate(sec.text, 0).value.1]).Returns?
        && |sec.spans| > 6 && read(sec.spans[1]).Returns? && read(sec.spans[2]).Returns?
        && read(sec.spans[3]).Returns? && read(sec.spans[6]).Returns?
        && sec.bold.Some? && read(sec.bold.value).Returns?
    ensures var r := GlobalDataWith(sec, toDate, read);
      r.Returns? ==>
        var (i, j) := SearchDate(sec.text, 0).value;
        r.value.date == toDate(sec.text[i..j]).value
        && r.value.counts.Keys == GlobalCounters
        && r.value.counts["first_component"] == read(sec.spans[1]).value
        && r.value.counts["full_vaccinated"] == read(sec.spans[2]).value
        && r.value.counts["children_vaccinated"] == read(sec.spans[3]).value
        && r.value.counts["need_revaccination"] == read(sec.spans[6]).value
        && r.value.counts["revaccinated"] == read(sec.bold.value).value
  {
    GlobalSpanCounts(sec.spans, read);
  }

  /** A section without any date-shaped text fails before anything else is read. */
  lemma UndatedSectionFails(sec: Section)
    requires forall k :: 0 <= k < |sec.text| ==> !IsDigit(sec.text[k])
    ensures GlobalDataOf(sec) == Raises(AttributeError)
  {
    assert forall i :: 0 <= i ==> DateMatchAt(sec.text, i).None? by {
      forall i | 0 <= i
        ensures DateMatchAt(sec.text, i).None?
      {
        if i < |sec.text| {
          assert DigitsAt(sec.text, i) == 0;
        }
      }
    }
    SearchNone(sec.text, 0);
  }

  /** With no match anywhere, the search finds nothing. */
  lemma {:induction false} SearchNone(s: string, from: nat)
    requires forall i :: from <= i ==> DateMatchAt(s, i).None?
    ensures SearchDate(s, from).None?
    decreases |s| - from
  {
    if from < |s| {
      SearchNone(s, from + 1);
    }
  }

  /**
   * `_parse_global_data` as the source runs it: the date, then the loop
   * over `_global_spans` filling the dict, then the bold counter.
   */
  method ParseGlobalData(sec: Section) returns (r: Parsed<GlobalData>)
    ensures r == GlobalDataOf(sec)
  {
    var found := SearchDate(sec.text, 0);
    if found.None? {
      return Raises(AttributeError);
    }
    var (i, j) := found.value;
    var date := ConvertStrToDate(sec.text[i..j], DottedDMy);
    if date.Raises? {
      return Raises(date.error);
    }
    var counts := ReadGlobalSpans(sec.spans, ReadCount);
    if counts.Raises? {
      return Raises(counts.error);
    }
    if sec.bold.None? {
      return Raises(AttributeError);
    }
    var b := ReadCount(sec.bold.value);
    if b.Raises? {
      return Raises(b.error);
    }
    r := Returns(GlobalData(date.value, counts.value["revaccinated" := b.value]));
  }

  /**
   * The loop over `_global_spans` of `_parse_global_data`, with `read` the
   * cleaning and `int()` of a span's text: each named counter read from
   * its span into the dict, the first failure escaping.
   */
  method ReadGlobalSpans(spans: seq<string>, read: string -> Parsed<int>) returns (r: Parsed<map<string, int>>)
    ensures r == SpanCounts(spans, GlobalSpans, read)
  {
    var counts: map<string, int> := map[];
    var k := 0;
    while k < |GlobalSpans|
      invariant 0 <= k <= |GlobalSpans|
      invariant SpanCounts(spans, GlobalSpans[..k], read) == Returns(counts)
    {
      SpanCountsStep(spans, GlobalSpans, read, k);
      var (index, name) := GlobalSpans[k];
      if index >= |spans| {
        SpanCountsRaise(spans, GlobalSpans, read, k + 1);
        return Raises(IndexError);
      }
      var v := read(spans[index]);
      if v.Raises? {
        SpanCountsRaise(spans, GlobalSpans, read, k + 1);
        return Raises(v.error);
      }
      counts := counts[name := v.value];
      k := k + 1;
    }
    assert GlobalSpans[..k] == GlobalSpans;
    return Returns(counts);
  }

  /** The counters read from the first `k + 1` entries are those of the first `k` with entry `k` read. */
  lemma SpanCountsStep(spans: seq<string>, entries: seq<(nat, string)>, read: string -> Parsed<int>, k: nat)
    requires k < |entries|
    ensures SpanCounts(spans, entries[..k + 1], read) == ReadEntry(SpanCounts(spans, entries[..k], read), entries[k], spans, read)
  {
    assert entries[..k + 1][..k] == entries[..k];
  }

  /** A failure on a prefix of the entries is the failure of the whole loop. */
  lemma {:induction false} SpanCountsRaise(spans: seq<string>, entries: seq<(nat, string)>, read: string -> Parsed<int>, n: nat)
    requires n <= |entries| && SpanCounts(spans, entries[..n], read).Raises?
    ensures SpanCounts(spans, entries, read) == SpanCounts(spans, entries[..n], read)
    decreases |entries| - n
  {
    if n < |entries| {
      assert entries[..n + 1][..n] == entries[..n];
      SpanCountsRaise(spans, entries, read, n + 1);
    } else {
      assert entries[..n] == entries;
    }
  }

  /**
   * `_get_page_html`: the response text on status 200; `None` after a
   * connection error or any other status.
   */
  function GetPageHtml(response: Response): (r: Option<string>)
    ensures r.Some? <==> response.Reply? && response.status == StatusOk
    ensures r.Some? ==> r.value == response.text
  {
    match response
    case ConnectionFailed => None
    case Reply(status, text) => if status == StatusOk then Some(text) else None
  }

  /**
   * `_parse_page`: the global section of the page, parsed; `soup` stands
   * for BeautifulSoup, giving `None` when the page has no `data` element
   * with a paragraph (attribute access on `None`: AttributeError).
   */
  function ParsePage(src: string, soup: string -> Option<Section>): (r: Parsed<GlobalData>)
    ensures soup(src).None? ==> r == Raises(AttributeError)
    ensures soup(src).Some? ==> r == GlobalDataOf(soup(src).value)
    ensures r.Returns? ==> r.value.counts.Keys == GlobalCounters
  {
    match soup(src)
    case None => Raises(AttributeError)
    case Some(sec) => GlobalDataOf(sec)
  }

  /**
   * `get_data`: nothing when the fetch gives no text or empty text (a
   * falsy `html`), otherwise the outcome of parsing the page.
   */
  function GetData(response: Response, soup: string -> Option<Section>): (r: Option<Parsed<GlobalData>>)
    ensures r.Some? <==> response.Reply? && response.status == StatusOk && response.text != ""
    ensures r.Some? && soup(response.text).None? ==> r.value == Raises(AttributeError)
    ensures r.Some? && soup(response.text).Some? ==> r.value == GlobalDataOf(soup(response.text).value)
  {
    var html := GetPageHtml(response);
    if html.None? || html.value == "" then None else Some(ParsePage(html.value, soup))
  }
}
