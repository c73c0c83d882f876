/**
 * `RosstatParser`: the yearly population tables of Rosstat. The links of
 * the publication page that point into the media bank are paired with the
 * years (2019 to the current year, newest first) whose text they contain;
 * each file is read as a RAR archive or as a workbook depending on its
 * URL, the right table is picked, its columns are renamed by a rule that
 * depends on the year, and each complete row becomes a record that
 * carries the year.
 */
module RosstatParser {
  import opened Common
  import opened PyStr

  /** `_media_url_path` */
  const MediaUrlPath: string := "/storage/mediabank/"
  /** `_covid_first_year` */
  const CovidFirstYear: nat := 2019
  /** `_new_table_style_year` */
  const NewTableStyleYear: nat := 2021
  /** `_rar_xls_filename_template` without its placeholder */
  const RarTemplatePrefix: string := "Tabl-01-"
  /** `_sheet_names`, in the order they are tried. */
  const SheetNames: seq<string> := ["Таб_1", "Табл. 1"]
  /** The population column of every table style. */
  const PopulationHeader: string := "Все население"
  /** The region column of the tables before 2021. */
  const OldRegionHeader: string := "Таблица 1."
  /** The region column of the tables from 2021 on: the unnamed first column. */
  const NewRegionHeader: string := "Unnamed: 0"

  /** A year and the URL of the file that holds its table. */
  type YearUrl = (nat, string)

  /** A media-bank link. */
  predicate IsMediaFile(href: string)
  {
    Contains(href, MediaUrlPath)
  }

  /** The link targets that point into the media bank, in page order. */
  function FileUrls(hrefs: seq<string>): (r: seq<string>)
    ensures forall u :: u in r ==> u in hrefs && IsMediaFile(u)
  {
    Filter(hrefs, IsMediaFile)
  }

  /**
   * The candidate years, newest first: the current year down to 2019. The
   * source sorts their texts in reverse; for four-digit years text order
   * and numeric order agree.
   */
  function YearsDescending(current: nat): (ys: seq<nat>)
    ensures |ys| == if current >= CovidFirstYear then current - CovidFirstYear + 1 else 0
    decreases current
  {
    if current < CovidFirstYear then [] else [current] + YearsDescending(current - 1)
  }

  /** The k-th candidate year is k years before the current one. */
  lemma {:induction false} YearsDescendingAt(current: nat, k: nat)
    requires k < |YearsDescending(current)|
    ensures YearsDescending(current)[k] == current - k
    decreases current
  {
    if k > 0 {
      YearsDescendingAt(current - 1, k - 1);
    }
  }

  /** The candidate years strictly decrease. */
  lemma YearsDescendingStrictly(current: nat)
    ensures forall i, j :: 0 <= i < j < |YearsDescending(current)| ==> YearsDescending(current)[i] > YearsDescending(current)[j]
  {
    forall i, j | 0 <= i < j < |YearsDescending(current)|
      ensures YearsDescending(current)[i] > YearsDescending(current)[j]
    {
      YearsDescendingAt(current, i);
      YearsDescendingAt(current, j);
    }
  }

  /** The candidate years are exactly 2019 to the current year. */
  lemma YearsDescendingRange(current: nat, y: nat)
    ensures y in YearsDescending(current) <==> CovidFirstYear <= y <= current
  {
    var ys := YearsDescending(current);
    if y in ys {
      var k :| 0 <= k < |ys| && ys[k] == y;
      YearsDescendingAt(current, k);
    }
    if CovidFirstYear <= y <= current {
      YearsDescendingAt(current, current - y);
    }
  }

  /** The years whose text occurs in `url`, paired with it, in the order of `years`. */
  function UrlPairs(url: string, years: seq<nat>): (r: seq<YearUrl>)
    ensures |r| <= |years|
    decreases |years|
  {
    if years == [] then []
    else
      var y := years[|years| - 1];
      UrlPairs(url, years[..|years| - 1]) + (if Contains(url, DecimalString(y)) then [(y, url)] else [])
  }

  /** The pairs of every URL in turn. */
  function AllPairs(urls: seq<string>, years: seq<nat>): (r: seq<YearUrl>)
    decreases |urls|
  {
    if urls == [] then [] else AllPairs(urls[..|urls| - 1], years) + UrlPairs(urls[|urls| - 1], years)
  }

  /** `_get_year_url_pairs`: every media file with `all`, otherwise the first one only. */
  function YearUrlPairsOf(hrefs: seq<string>, all: bool, current: nat): (r: seq<YearUrl>)
  {
    AllPairs(ChosenFiles(hrefs, all), YearsDescending(current))
  }

  /** `file_urls[:None if all else 1]`: every media file, or the first one only. */
  function ChosenFiles(hrefs: seq<string>, all: bool): (r: seq<string>)
  {
    var files := FileUrls(hrefs);
    if all || |files| <= 1 then files else files[..1]
  }

  /** A pair of one URL names a year of the list whose text the URL contains, and every such year is paired. */
  lemma {:induction false} UrlPairsExact(url: string, years: seq<nat>, p: YearUrl)
    ensures p in UrlPairs(url, years) <==> p.1 == url && p.0 in years && Contains(url, DecimalString(p.0))
    decreases |years|
  {
    if years != [] {
      var init := years[..|years| - 1];
      UrlPairsExact(url, init, p);
      assert years == init + [years[|years| - 1]];
    }
  }

  /** Within one URL the pairs follow the years' order: newest first when the years are. */
  lemma {:induction false} UrlPairsDescending(url: string, years: seq<nat>)
    requires forall i, j :: 0 <= i < j < |years| ==> years[i] > years[j]
    ensures forall i, j :: 0 <= i < j < |UrlPairs(url, years)| ==> UrlPairs(url, years)[i].0 > UrlPairs(url, years)[j].0
    decreases |years|
  {
    if years != [] {
      var init := years[..|years| - 1];
      var y := years[|years| - 1];
      UrlPairsDescending(url, init);
      var r0 := UrlPairs(url, init);
      forall k | 0 <= k < |r0|
        ensures r0[k].0 > y
      {
        assert r0[k] in r0;
        UrlPairsExact(url, init, r0[k]);
      }
    }
  }

  /** A pair of the list names one of the URLs, a year of the list, and a year whose text that URL contains; every such combination is paired. */
  lemma {:induction false} AllPairsExact(urls: seq<string>, years: seq<nat>, p: YearUrl)
    ensures p in AllPairs(urls, years) <==> p.1 in urls && p.0 in years && Contains(p.1, DecimalString(p.0))
    decreases |urls|
  {
    if urls != [] {
      var init := urls[..|urls| - 1];
      AllPairsExact(init, years, p);
      UrlPairsExact(urls[|urls| - 1], years, p);
      assert urls == init + [urls[|urls| - 1]];
    }
  }

  /**
   * Every pair's year lies between 2019 and the current year and its text
   * occurs in a media-bank URL of the page; without `all`, every pair comes
   * from the first such URL.
   */
  lemma YearUrlPairsSound(hrefs: seq<string>, all: bool, current: nat, p: YearUrl)
    requires p in YearUrlPairsOf(hrefs, all, current)
    ensures CovidFirstYear <= p.0 <= current && Contains(p.1, DecimalString(p.0))
    ensures p.1 in hrefs && IsMediaFile(p.1)
    ensures !all ==> p.1 == FileUrls(hrefs)[0]
  {
    var files := FileUrls(hrefs);
    var chosen := ChosenFiles(hrefs, all);
    AllPairsExact(chosen, YearsDescending(current), p);
    YearsDescendingRange(current, p.0);
    assert p.1 in files;
  }

  /** With `all`, every year from 2019 on whose text a media-bank URL contains is paired with that URL. */
  lemma YearUrlPairsComplete(hrefs: seq<string>, current: nat, url: string, y: nat)
    requires url in hrefs && IsMediaFile(url)
    requires CovidFirstYear <= y <= current && Contains(url, DecimalString(y))
    ensures (y, url) in YearUrlPairsOf(hrefs, true, current)
  {
    var ys := YearsDescending(current);
    YearsDescendingRange(current, y);
    assert url in FileUrls(hrefs);
    AllPairsExact(FileUrls(hrefs), ys, (y, url));
  }

  /** A single URL's pairs come newest year first. */
  lemma YearsNewestFirst(url: string, current: nat)
    ensures var r := UrlPairs(url, YearsDescending(current));
      forall i, j :: 0 <= i < j < |r| ==> r[i].0 > r[j].0
  {
    var ys := YearsDescending(current);
    YearsDescendingStrictly(current);
    UrlPairsDescending(url, ys);
  }

  /**
   * `_get_year_url_pairs` as the source runs it: over the chosen files,
   * then over the years, appending each year whose text the URL contains.
   */
  method GetYearUrlPairs(hrefs: seq<string>, all: bool, current: nat) returns (pairs: seq<YearUrl>)
    ensures pairs == YearUrlPairsOf(hrefs, all, current)
  {
    var chosen := ChosenFiles(hrefs, all);
    var years := YearsDescending(current);
    pairs := [];
    var i := 0;
    while i < |chosen|
      invariant 0 <= i <= |chosen|
      invariant pairs == AllPairs(chosen[..i], years)
    {
      var url := chosen[i];
      ghost var start := pairs;
      var j := 0;
      while j < |years|
        invariant 0 <= j <= |years|
        invariant pairs == start + UrlPairs(url, years[..j])
      {
        UrlPairsSnoc(url, years, j);
        if Contains(url, DecimalString(years[j])) {
          pairs := pairs + [(years[j], url)];
        }
        j := j + 1;
      }
      assert years[..j] == years;
      AllPairsSnoc(chosen, years, i);
      i := i + 1;
    }
    assert chosen[..i] == chosen;
  }

  /** One more year of the list. */
  lemma UrlPairsSnoc(url: string, years: seq<nat>, j: nat)
    requires j < |years|
    ensures Contains(url, DecimalString(years[j])) ==> UrlPairs(url, years[..j + 1]) == UrlPairs(url, years[..j]) + [(years[j], url)]
    ensures !Contains(url, DecimalString(years[j])) ==> UrlPairs(url, years[..j + 1]) == UrlPairs(url, years[..j])
  {
    assert years[..j + 1][..j] == years[..j];
  }

  /** One more URL of the list. */
  lemma AllPairsSnoc(urls: seq<string>, years: seq<nat>, i: nat)
    requires i < |urls|
    ensures AllPairs(urls[..i + 1], years) == AllPairs(urls[..i], years) + UrlPairs(urls[i], years)
  {
    assert urls[..i + 1][..i] == urls[..i];
  }

  /** `_rar_xls_filename_template.format(year % 100)`: the year's last two digits, unpadded. */
  function RarTemplate(year: nat): (t: string)
    ensures StartsWith(t, RarTemplatePrefix)
  {
    RarTemplatePrefix + DecimalString(year % 100)
  }

  /** A cell of a table: text or a number; `None` in a row stands for NaN. */
  datatype Value = Text(s: string) | Number(n: int)

  /** A row of a table, by column name. */
  type Row = map<string, Option<Value>>

  /** A worksheet: its name, its columns and its rows. */
  datatype Sheet = Sheet(name: string, columns: set<string>, rows: seq<Row>)

  /** A workbook's sheets, in order. */
  type Workbook = seq<Sheet>

  /** A record of the output: its values by column, with `year` among them. */
  type Record = map<string, Value>

  /** A downloaded file as the RAR reader sees it (named entries) and as the Excel reader sees it. */
  datatype Payload = Payload(entries: seq<(string, Workbook)>, book: Workbook)

  /** How a file is read. */
  datatype FileKind = Archive | Spreadsheet

  /** `'rar' in url`: archives are recognised by the URL alone. */
  function KindOf(url: string): (k: FileKind)
    ensures k == Archive <==> Contains(url, "rar")
  {
    if Contains(url, "rar") then Archive else Spreadsheet
  }

  /**
   * The entry `_get_data_from_rar` reads: the first entry whose name
   * contains the year's template; none raises IndexError.
   */
  function RarEntry(entries: seq<(string, Workbook)>, year: nat): (r: Parsed<(string, Workbook)>)
    ensures r.Raises? ==> r.error == IndexError
  {
    var t := RarTemplate(year);
    var matching := Filter(entries, (e: (string, Workbook)) => Contains(e.0, t));
    if matching == [] then Raises(IndexError) else Returns(matching[0])
  }

  /** The entry read is the first one whose name contains the template, and there is none exactly when no name does. */
  lemma RarEntryFirst(entries: seq<(string, Workbook)>, year: nat)
    ensures RarEntry(entries, year).Raises? <==> forall k :: 0 <= k < |entries| ==> !Contains(entries[k].0, RarTemplate(year))
    ensures RarEntry(entries, year).Returns? ==>
      exists k :: 0 <= k < |entries| && entries[k] == RarEntry(entries, year).value
        && Contains(entries[k].0, RarTemplate(year))
        && forall j :: 0 <= j < k ==> !Contains(entries[j].0, RarTemplate(year))
  {
    var t := RarTemplate(year);
    var p := (e: (string, Workbook)) => Contains(e.0, t);
    FilterHead(entries, p);
    if forall k :: 0 <= k < |entries| ==> !p(entries[k]) {
      FilterNone(entries, p);
    }
  }

  /** The head of a filtered sequence is the first element that passes. */
  lemma {:induction false} FilterHead<T>(s: seq<T>, p: T -> bool)
    ensures Filter(s, p) != [] ==>
      exists k :: 0 <= k < |s| && s[k] == Filter(s, p)[0] && p(s[k]) && forall j :: 0 <= j < k ==> !p(s[j])
    decreases |s|
  {
    if s != [] && !p(s[0]) {
      FilterHead(s[1..], p);
      if Filter(s, p) != [] {
        var k :| 0 <= k < |s[1..]| && s[1..][k] == Filter(s[1..], p)[0] && p(s[1..][k])
          && forall j :: 0 <= j < k ==> !p(s[1..][j]);
        assert s[k + 1] == s[1..][k];
        forall j | 0 <= j < k + 1
          ensures !p(s[j])
        {
          if j > 0 {
            assert s[j] == s[1..][j - 1];
          }
        }
      }
    } else if s != [] {
      assert s[0] == Filter(s, p)[0];
    }
  }

  /** Nothing passes: the filtered sequence is empty. */
  lemma {:induction false} FilterNone<T>(s: seq<T>, p: T -> bool)
    requires forall k :: 0 <= k < |s| ==> !p(s[k])
    ensures Filter(s, p) == []
    decreases |s|
  {
    if s != [] {
      FilterNone(s[1..], p);
    }
  }

  /** The sheet of `book` named `name`; a missing sheet raises ValueError (`read_excel`). */
  function SheetNamed(book: Workbook, name: string): (r: Parsed<Sheet>)
    ensures r.Returns? ==> r.value in book && r.value.name == name
    ensures r.Raises? ==> r.error == ValueError && forall s :: s in book ==> s.name != name
    decreases |book|
  {
    if book == [] then Raises(ValueError)
    else if book[0].name == name then Returns(book[0])
    else SheetNamed(book[1..], name)
  }

  /**
   * The table `_get_data_from_xlsx` reads: the first sheet of an archive
   * entry; in a workbook, `Таб_1` unless it lacks the population column,
   * in which case `Табл. 1`. Each read of a missing sheet raises
   * ValueError, so a workbook without `Таб_1` fails.
   */
  function PickSheet(book: Workbook, oneSheet: bool): (r: Parsed<Sheet>)
    ensures r.Raises? ==> r.error == ValueError
    ensures r.Returns? && !oneSheet ==> r.value in book && r.value.name in SheetNames
  {
    if oneSheet then (if book == [] then Raises(ValueError) else Returns(book[0]))
    else
      match SheetNamed(book, SheetNames[0])
      case Raises(e) => Raises(e)
      case Returns(first) =>
        if PopulationHeader in first.columns then Returns(first) else SheetNamed(book, SheetNames[1])
  }

  /** A workbook without a sheet named `Таб_1` is never read, whatever its other sheets. */
  lemma PickSheetNeedsFirstName(book: Workbook)
    requires forall s :: s in book ==> s.name != SheetNames[0]
    ensures PickSheet(book, false) == Raises(ValueError)
  {
  }

  /** Renaming column `from` to `to` in a row (`DataFrame.rename`; an absent column is ignored). */
  function RenameRow(row: Row, from: string, to: string): (r: Row)
    ensures from in row && from != to ==> from !in r && to in r && r[to] == row[from]
    ensures from !in row ==> r == row
  {
    if from in row then (row - {from})[to := row[from]] else row
  }

  /** Renaming a column in the column set. */
  function RenameColumns(columns: set<string>, from: string, to: string): (r: set<string>)
    ensures from in columns ==> to in r && r - {to} == columns - {from, to}
    ensures from !in columns ==> r == columns
  {
    if from in columns then (columns - {from}) + {to} else columns
  }

  /** The region header of a year's table style. */
  function RegionHeader(year: nat): (h: string)
    ensures year < NewTableStyleYear ==> h == OldRegionHeader
    ensures year >= NewTableStyleYear ==> h == NewRegionHeader
  {
    if year < NewTableStyleYear then OldRegionHeader else NewRegionHeader
  }

  /** The column set after the renaming of the year's table style. */
  function StyledColumns(columns: set<string>, year: nat): set<string>
  {
    RenameColumns(RenameColumns(columns, RegionHeader(year), "region"), PopulationHeader, "population")
  }

  /** A row after the renaming of the year's table style, with the year added. */
  function StyledRow(row: Row, year: nat): Row
  {
    RenameRow(RenameRow(row, RegionHeader(year), "region"), PopulationHeader, "population")["year" := Some(Number(year))]
  }

  /** `dropna`: a row is kept only when every column holds a value. */
  predicate Complete(row: Row, columns: set<string>)
  {
    forall c :: c in columns ==> c in row && row[c].Some?
  }

  /** `to_dict('records')` of a complete row. */
  function ToRecord(row: Row, columns: set<string>): (r: Record)
    requires Complete(row, columns)
    ensures r.Keys == columns
    ensures forall c :: c in columns ==> r[c] == row[c].value
  {
    map c | c in columns :: row[c].value
  }

  /** The records of the styled rows, complete rows only, in order. */
  function CompleteRecords(rows: seq<Row>, columns: set<string>, year: nat): (r: seq<Record>)
    ensures |r| <= |rows|
    decreases |rows|
  {
    if rows == [] then []
    else
      var row := StyledRow(rows[0], year);
      (if Complete(row, columns) then [ToRecord(row, columns)] else []) + CompleteRecords(rows[1..], columns, year)
  }

  /**
   * `_get_data_from_xlsx` after the sheet is read: the columns renamed by
   * the year's style, the header row dropped for the tables before 2021,
   * the year added, incomplete rows dropped.
   */
  function SheetRecords(sheet: Sheet, year: nat): (r: seq<Record>)
  {
    var rows := if year < NewTableStyleYear && |sheet.rows| > 0 then sheet.rows[1..] else sheet.rows;
    CompleteRecords(rows, StyledColumns(sheet.columns, year) + {"year"}, year)
  }

  /** Every record carries its year, under exactly the styled columns. */
  lemma {:induction false} CompleteRecordsYear(rows: seq<Row>, columns: set<string>, year: nat)
    requires "year" in columns
    ensures forall k :: 0 <= k < |CompleteRecords(rows, columns, year)| ==>
      CompleteRecords(rows, columns, year)[k].Keys == columns
      && CompleteRecords(rows, columns, year)[k]["year"] == Number(year)
    decreases |rows|
  {
    if rows != [] {
      CompleteRecordsYear(rows[1..], columns, year);
    }
  }

  /** A row with a missing value in some column gives no record. */
  lemma {:induction false} IncompleteRowsDropped(rows: seq<Row>, columns: set<string>, year: nat)
    requires forall k :: 0 <= k < |rows| ==> !Complete(StyledRow(rows[k], year), columns)
    ensures CompleteRecords(rows, columns, year) == []
    decreases |rows|
  {
    if rows != [] {
      IncompleteRowsDropped(rows[1..], columns, year);
    }
  }

  /**
   * Every record of a sheet carries the year and the renamed columns: the
   * region and population headers of the year's style become `region`
   * and `population`.
   */
  lemma SheetRecordsColumns(sheet: Sheet, year: nat)
    requires RegionHeader(year) in sheet.columns && PopulationHeader in sheet.columns
    requires RegionHeader(year) != "year" && PopulationHeader != "year"
    ensures forall k :: 0 <= k < |SheetRecords(sheet, year)| ==>
      "year" in SheetRecords(sheet, year)[k] && SheetRecords(sheet, year)[k]["year"] == Number(year)
      && "region" in SheetRecords(sheet, year)[k] && "population" in SheetRecords(sheet, year)[k]
      && RegionHeader(year) !in SheetRecords(sheet, year)[k] && PopulationHeader !in SheetRecords(sheet, year)[k]
  {
    var rows := if year < NewTableStyleYear && |sheet.rows| > 0 then sheet.rows[1..] else sheet.rows;
    var cols := StyledColumns(sheet.columns, year) + {"year"};
    CompleteRecordsYear(rows, cols, year);
  }

  /** Before 2021 the first row of the table is never a record; from 2021 on it is one when complete. */
  lemma FirstRowByStyle(sheet: Sheet, year: nat)
    requires |sheet.rows| == 1
    ensures year < NewTableStyleYear ==> SheetRecords(sheet, year) == []
    ensures year >= NewTableStyleYear ==>
      var cols := StyledColumns(sheet.columns, year) + {"year"};
      var row := StyledRow(sheet.rows[0], year);
      Complete(row, cols) ==> SheetRecords(sheet, year) == [ToRecord(row, cols)]
  {
    assert sheet.rows[1..] == [];
  }

  /**
   * `_get_data_from_rar`, `_get_data_from_xlsx`: the records of one file,
   * read as an archive or as a workbook by its URL.
   */
  function FileRecords(payload: Payload, year: nat, url: string): (r: Parsed<seq<Record>>)
  {
    match KindOf(url)
    case Archive =>
      (match RarEntry(payload.entries, year)
       case Raises(e) => Raises(e)
       case Returns(entry) =>
         match PickSheet(entry.1, true)
         case Raises(e) => Raises(e)
         case Returns(sheet) => Returns(SheetRecords(sheet, year)))
    case Spreadsheet =>
      match PickSheet(payload.book, false)
      case Raises(e) => Raises(e)
      case Returns(sheet) => Returns(SheetRecords(sheet, year))
  }

  /** `_parse_url_list` up to a prefix of the pairs: the records of each file in turn, the first failure wins. */
  function UrlListRecords(pairs: seq<YearUrl>, fetch: string -> Payload): (r: Parsed<seq<Record>>)
    decreases |pairs|
  {
    if pairs == [] then Returns([])
    else
      match UrlListRecords(pairs[..|pairs| - 1], fetch)
      case Raises(e) => Raises(e)
      case Returns(done) =>
        var (year, url) := pairs[|pairs| - 1];
        match FileRecords(fetch(url), year, url)
        case Raises(e) => Raises(e)
        case Returns(more) => Returns(done + more)
  }

  /** The records of one pair. */
  lemma OnePairRecords(p: YearUrl, fetch: string -> Payload)
    ensures UrlListRecords([p], fetch) == FileRecords(fetch(p.1), p.0, p.1)
  {
    assert [p][..0] == [];
    var r := FileRecords(fetch(p.1), p.0, p.1);
    if r.Returns? {
      assert [] + r.value == r.value;
    }
  }

  /** One more pair of the list, after the records of the ones before it. */
  lemma UrlListSnoc(pairs: seq<YearUrl>, fetch: string -> Payload, i: nat, done: seq<Record>)
    requires i < |pairs| && UrlListRecords(pairs[..i], fetch) == Returns(done)
    ensures var f := FileRecords(fetch(pairs[i].1), pairs[i].0, pairs[i].1);
      UrlListRecords(pairs[..i + 1], fetch) == if f.Raises? then Raises(f.error) else Returns(done + f.value)
  {
    assert pairs[..i + 1][..i] == pairs[..i];
  }

  /** A failure on a prefix of the pairs is the failure of the whole list. */
  lemma {:induction false} UrlListStops(pairs: seq<YearUrl>, fetch: string -> Payload, n: nat)
    requires n <= |pairs| && UrlListRecords(pairs[..n], fetch).Raises?
    ensures UrlListRecords(pairs, fetch) == UrlListRecords(pairs[..n], fetch)
    decreases |pairs| - n
  {
    if n < |pairs| {
      assert pairs[..n + 1][..n] == pairs[..n];
      UrlListStops(pairs, fetch, n + 1);
    } else {
      assert pairs[..n] == pairs;
    }
  }

  class Parser {
    var yearUrlPairs: seq<YearUrl>

    /** `__init__`: the year/URL pairs of the page's links, computed once. */
    constructor (hrefs: seq<string>, all: bool, current: nat)
      ensures yearUrlPairs == YearUrlPairsOf(hrefs, all, current)
    {
      var pairs := GetYearUrlPairs(hrefs, all, current);
      yearUrlPairs := pairs;
    }

    /** `get_parsed_data` and `_parse_url_list`: each pair's file in turn, extending the records. */
    method GetParsedData(fetch: string -> Payload) returns (r: Parsed<seq<Record>>)
      ensures r == UrlListRecords(yearUrlPairs, fetch)
    {
      var parsed: seq<Record> := [];
      var i := 0;
      while i < |yearUrlPairs|
        invariant 0 <= i <= |yearUrlPairs|
        invariant UrlListRecords(yearUrlPairs[..i], fetch) == Returns(parsed)
      {
        UrlListSnoc(yearUrlPairs, fetch, i, parsed);
        var (year, url) := yearUrlPairs[i];
        var more := FileRecords(fetch(url), year, url);
        if more.Raises? {
          UrlListStops(yearUrlPairs, fetch, i + 1);
          return Raises(more.error);
        }
        parsed := parsed + more.value;
        i := i + 1;
      }
      assert yearUrlPairs[..i] == yearUrlPairs;
      r := Returns(parsed);
    }
  }
}
