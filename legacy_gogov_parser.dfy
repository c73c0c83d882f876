/**
 * `GogovParser` of the standalone ETL project: the same global section as
 * the application's parser, plus the per-region table, whose columns are
 * picked and cleaned by the `_region_fields` table.
 */
module LegacyGogovParser {
  import opened Common
  import opened PyStr
  import opened Calendar
  import opened GogovParser

  /**
   * A table cell as the parser sees it: the text of its link, if it has
   * one, and its `data-text` attribute, if it has one.
   */
  datatype Cell = Cell(link: Option<string>, dataText: Option<string>)

  /** A cleaned field value: a region name, a count or a date. */
  datatype FieldValue = Name(name: string) | Count(n: int) | Day(date: Date)

  /** One region's record, by field name. */
  type Record = map<string, FieldValue>

  /** How a column is cleaned. */
  datatype Cleaner = RegionName | IntStr | IsoDay

  datatype FieldInfo = FieldInfo(name: string, clean: Cleaner)

  /** `_region_fields.get(i)`: the field name and cleaner of column `i`; other columns are ignored. */
  function RegionField(i: nat): (r: Option<FieldInfo>)
    ensures r.Some? ==> i <= 10 && r.value.name in RegionFieldNames
  {
    if i == 0 then Some(FieldInfo("region", RegionName))
    else if i == 1 then Some(FieldInfo("vaccinated", IntStr))
    else if i == 4 then Some(FieldInfo("avg_people_per_day", IntStr))
    else if i == 6 then Some(FieldInfo("full_vaccinated", IntStr))
    else if i == 7 then Some(FieldInfo("revaccinated", IntStr))
    else if i == 8 then Some(FieldInfo("need_revaccination", IntStr))
    else if i == 9 then Some(FieldInfo("children_vaccinated", IntStr))
    else if i == 10 then Some(FieldInfo("date", IsoDay))
    else None
  }

  /** The column each field of a region record comes from. */
  function ColumnOf(name: string): (i: nat)
  {
    if name == "region" then 0
    else if name == "vaccinated" then 1
    else if name == "avg_people_per_day" then 4
    else if name == "full_vaccinated" then 6
    else if name == "revaccinated" then 7
    else if name == "need_revaccination" then 8
    else if name == "children_vaccinated" then 9
    else 10
  }

  /** The field names of a region record. */
  const RegionFieldNames: set<string> := {
    "region", "vaccinated", "avg_people_per_day", "full_vaccinated", "revaccinated",
    "need_revaccination", "children_vaccinated", "date"}

  /**
   * Columns and fields correspond one to one: each mapped column's field
   * comes from that column alone, and every field of a region record has
   * its column.
   */
  lemma ColumnsAndFields(i: nat, name: string)
    ensures RegionField(i).Some? ==> ColumnOf(RegionField(i).value.name) == i
    ensures name in RegionFieldNames ==> RegionField(ColumnOf(name)).Some? && RegionField(ColumnOf(name)).value.name == name
  {
  }

  /**
   * The page as the parser sees it: the global section and the rows of
   * cells of the region table, or `None` when the page has no `m-table`
   * element or that element has no `tbody`.
   */
  datatype PageTree = PageTree(section: Section, table: Option<seq<seq<Cell>>>)

  /** What `_parse_page` returns. */
  datatype PageData = PageData(globalData: GlobalData, regionsData: seq<Record>)

  /**
   * `convert_int_str_to_int`: an absent or empty text is 0; anything else
   * goes through `int()`, which raises ValueError on text that is no integer.
   */
  function ConvertIntStrToInt(s: Option<string>): (r: Parsed<int>)
    ensures s.None? || s == Some("") ==> r == Returns(0)
    ensures r.Raises? ==> r.error == ValueError
  {
    if s.None? || s.value == "" then Returns(0)
    else match PyInt(s.value)
      case Some(v) => Returns(v)
      case None => Raises(ValueError)
  }

  /** A non-negative number written in decimal converts back to itself, and empty text to 0. */
  lemma ConvertIntStrRoundTrip(n: nat)
    ensures ConvertIntStrToInt(Some(DecimalString(n))) == Returns(n)
    ensures ConvertIntStrToInt(Some("")) == Returns(0) && ConvertIntStrToInt(None) == Returns(0)
  {
    PyIntOfDecimalString(n);
  }

  /** Text without any digit is rejected. */
  lemma ConvertIntStrRejects(s: string)
    requires s != "" && forall k :: 0 <= k < |s| ==> !IsDigit(s[k])
    ensures ConvertIntStrToInt(Some(s)) == Raises(ValueError)
  {
    PyIntRejectsNonDigits(s);
  }

  /**
   * `re.sub("обл.", "область", s)` as written: the `.` matches any
   * character but a newline, so every `обл` followed by one more
   * character becomes `область`.
   */
  function RegionNameAsWritten(s: string): (r: string)
    decreases |s|
  {
    if |s| == 0 then ""
    else if AbbreviationAt(s) then "область" + RegionNameAsWritten(s[4..])
    else [s[0]] + RegionNameAsWritten(s[1..])
  }

  /** `обл.` as a regular expression matches at the start of `s`. */
  predicate AbbreviationAt(s: string)
  {
    |s| >= 4 && s[0] == 'о' && s[1] == 'б' && s[2] == 'л' && s[3] != '\n'
  }

  /** The name written out in full is mangled by the pattern as written. */
  lemma RegionNameAsWrittenMangles()
    ensures RegionNameAsWritten("область") == "областьсть"
  {
    var s := "область";
    assert AbbreviationAt(s);
    var t := s[4..];
    assert t == "сть";
    assert !AbbreviationAt(t) && !AbbreviationAt(t[1..]) && !AbbreviationAt(t[2..]);
    assert t[1..][1..][1..] == "";
    assert RegionNameAsWritten(t[2..]) == [t[2]];
    assert RegionNameAsWritten(t[1..]) == [t[1]] + [t[2]];
    assert RegionNameAsWritten(t) == [t[0]] + ([t[1]] + [t[2]]);
  }

  /**
   * The region-name cleaner as intended: the abbreviation `обл.`, with a
   * literal dot, is written out as `область`.
   */
  function RegionNameClean(s: string): (r: string)
  {
    ReplaceAll(s, "обл.", "область")
  }

  /** A name that does not contain the abbreviation is left as it is; in particular a full `область` stays. */
  lemma RegionNameCleanKeeps(s: string)
    requires !Contains(s, "обл.")
    ensures RegionNameClean(s) == s
  {
    ReplaceAllAbsent(s, "обл.", "область");
  }

  /** The full word does not contain the abbreviation, so the intended cleaner keeps it. */
  lemma RegionNameCleanKeepsFullWord()
    ensures RegionNameClean("область") == "область"
  {
    var s := "область";
    assert !StartsWith(s, "обл.") by {
      assert s[..4] != "обл." by { assert s[3] == 'а'; }
    }
    assert !StartsWith(s[1..], "обл.") && !StartsWith(s[2..], "обл.") && !StartsWith(s[3..], "обл.");
    assert !StartsWith(s[4..], "обл.") && s[4..][1..] == s[5..] && s[5..][1..] == s[6..];
    assert !StartsWith(s[5..], "обл.") && !StartsWith(s[6..], "обл.") && s[6..][1..] == "";
    assert !Contains(s[6..], "обл.");
    assert !Contains(s[5..], "обл.");
    assert !Contains(s[4..], "обл.");
    assert s[3..][1..] == s[4..] && s[2..][1..] == s[3..] && s[1..][1..] == s[2..];
    assert !Contains(s[3..], "обл.");
    assert !Contains(s[2..], "обл.");
    assert !Contains(s[1..], "обл.");
    RegionNameCleanKeeps(s);
  }

  /** An abbreviation at the end of a name that shows no `о` before it is written out. */
  lemma RegionNameCleanExpands(a: string)
    requires forall k :: 0 <= k < |a| ==> a[k] != 'о'
    ensures RegionNameClean(a + "обл.") == a + "область"
  {
    ReplaceAllPrefix(a, "обл.", "обл.", "область");
    assert StartsWith("обл.", "обл.");
    assert "обл."[4..] == "";
    assert "область" + "" == "область";
  }

  /** The value a column cleaner makes of a cell's text. */
  function CleanValue(clean: Cleaner, value: Option<string>): (r: Parsed<FieldValue>)
    ensures r.Returns? && clean == RegionName ==> r.value.Name?
    ensures r.Returns? && clean == IntStr ==> r.value.Count?
    ensures r.Returns? && clean == IsoDay ==> r.value.Day? && ValidDate(r.value.date)
  {
    match clean
    case RegionName =>
      // `re.sub` of None raises TypeError
      if value.None? then Raises(TypeError) else Returns(Name(RegionNameAsWritten(value.value)))
    case IntStr =>
      (match ConvertIntStrToInt(value)
       case Raises(e) => Raises(e)
       case Returns(n) => Returns(Count(n)))
    case IsoDay =>
      // `strptime` of None raises TypeError
      if value.None? then Raises(TypeError)
      else match ConvertStrToDate(value.value, IsoYMD)
        case Raises(e) => Raises(e)
        case Returns(d) => Returns(Day(d))
  }

  /** The region column, cleaned as written, mangles a name spelled out in full. */
  lemma CleanValueRegionMangles()
    ensures CleanValue(RegionName, Some("область")) == Returns(Name("областьсть"))
  {
    RegionNameAsWrittenMangles();
  }

  /**
   * A count written in decimal and a date written `yyyy-mm-dd` are cleaned
   * back to the count and the date; a missing `data-text` is a count of 0
   * but no date.
   */
  lemma CleanValueRoundTrip(n: nat, d: Date)
    requires ValidDate(d)
    ensures CleanValue(IntStr, Some(DecimalString(n))) == Returns(Count(n))
    ensures CleanValue(IsoDay, Some(IsoDate(d))) == Returns(Day(d))
    ensures CleanValue(IntStr, None) == Returns(Count(0)) && CleanValue(IsoDay, None) == Raises(TypeError)
  {
    ConvertIntStrRoundTrip(n);
    IsoDateRoundTrip(d);
  }

  /**
   * One mapped cell: the region from the link text (a cell without a link
   * raises AttributeError), every other field from `data-text`, cleaned.
   */
  function FieldOf(info: FieldInfo, cell: Cell): (r: Parsed<FieldValue>)
    ensures info.name == "region" && cell.link.None? ==> r == Raises(AttributeError)
    ensures info.name == "region" && cell.link.Some? ==> r == CleanValue(info.clean, cell.link)
    ensures info.name != "region" ==> r == CleanValue(info.clean, cell.dataText)
  {
    if info.name == "region" then
      if cell.link.None? then Raises(AttributeError) else CleanValue(info.clean, cell.link)
    else CleanValue(info.clean, cell.dataText)
  }

  /** The record of a row, cell by cell; the first failing cell ends the row. */
  function RowRecord(cells: seq<Cell>): (r: Parsed<Record>)
    decreases |cells|
  {
    if cells == [] then Returns(map[])
    else AddCell(RowRecord(cells[..|cells| - 1]), |cells| - 1, cells[|cells| - 1])
  }

  /** One turn of the inner loop: column `i` added to the record so far when the table maps it. */
  function AddCell(acc: Parsed<Record>, i: nat, cell: Cell): (r: Parsed<Record>)
    ensures RegionField(i).None? ==> r == acc
    ensures RegionField(i).Some? ==>
      (r.Returns? <==> acc.Returns? && FieldOf(RegionField(i).value, cell).Returns?)
    ensures RegionField(i).Some? && r.Returns? ==>
      r.value == acc.value[RegionField(i).value.name := FieldOf(RegionField(i).value, cell).value]
  {
    match RegionField(i)
    case None => acc
    case Some(info) =>
      match acc
      case Raises(e) => Raises(e)
      case Returns(m) =>
        match FieldOf(info, cell)
        case Raises(e) => Raises(e)
        case Returns(v) => Returns(m[info.name := v])
  }

  /**
   * A row's record holds the field of a mapped column exactly when the
   * row reaches that column, with the cleaned value of that very cell,
   * and no field outside a region record's.
   */
  lemma {:induction false} RowRecordFields(cells: seq<Cell>)
    requires RowRecord(cells).Returns?
    ensures forall name :: name in RowRecord(cells).value ==> name in RegionFieldNames
    ensures forall i: nat :: RegionField(i).Some? ==> (RegionField(i).value.name in RowRecord(cells).value <==> i < |cells|)
    ensures forall i: nat :: RegionField(i).Some? && i < |cells| ==>
      FieldOf(RegionField(i).value, cells[i]).Returns?
      && RowRecord(cells).value[RegionField(i).value.name] == FieldOf(RegionField(i).value, cells[i]).value
    decreases |cells|
  {
    if cells != [] {
      var n := |cells| - 1;
      var init := cells[..n];
      var acc := RowRecord(init);
      assert RowRecord(cells) == AddCell(acc, n, cells[n]);
      assert acc.Returns?;
      RowRecordFields(init);
      forall i: nat | RegionField(i).Some?
        ensures (RegionField(i).value.name in RowRecord(cells).value <==> i < |cells|)
      {
        ColumnsAndFields(i, "");
        ColumnsAndFields(n, "");
      }
      forall i: nat | RegionField(i).Some? && i < |cells|
        ensures FieldOf(RegionField(i).value, cells[i]).Returns?
        ensures RowRecord(cells).value[RegionField(i).value.name] == FieldOf(RegionField(i).value, cells[i]).value
      {
        ColumnsAndFields(i, "");
        ColumnsAndFields(n, "");
        if i < n {
          assert init[i] == cells[i];
        }
      }
    }
  }

  /** A row with at least eleven cells yields a record with exactly the fields of a region record. */
  lemma FullRowKeys(cells: seq<Cell>)
    requires RowRecord(cells).Returns? && |cells| > 10
    ensures RowRecord(cells).value.Keys == RegionFieldNames
  {
    RowRecordFields(cells);
    forall name | name in RegionFieldNames
      ensures name in RowRecord(cells).value
    {
      ColumnsAndFields(0, name);
    }
  }

  /** `_get_regions_data` up to a prefix of the rows: one record per row, the first failure wins. */
  function RegionsData(rows: seq<seq<Cell>>): (r: Parsed<seq<Record>>)
    ensures r.Returns? ==> |r.value| == |rows|
    ensures r.Returns? ==> forall k :: 0 <= k < |rows| ==> RowRecord(rows[k]) == Returns(r.value[k])
    decreases |rows|
  {
    if rows == [] then Returns([])
    else
      var init := rows[..|rows| - 1];
      match RegionsData(init)
      case Raises(e) => Raises(e)
      case Returns(records) =>
        match RowRecord(rows[|rows| - 1])
        case Raises(e) => Raises(e)
        case Returns(rec) =>
          assert forall k :: 0 <= k < |init| ==> init[k] == rows[k];
          Returns(records + [rec])
  }

  /** The regions are parsed exactly when every row is. */
  lemma {:induction false} RegionsDataReturns(rows: seq<seq<Cell>>)
    ensures RegionsData(rows).Returns? <==> forall k :: 0 <= k < |rows| ==> RowRecord(rows[k]).Returns?
    decreases |rows|
  {
    if rows != [] {
      var init := rows[..|rows| - 1];
      RegionsDataReturns(init);
      assert forall k :: 0 <= k < |init| ==> init[k] == rows[k];
    }
  }

  /**
   * `_get_regions_data` as the source runs it: for each row, a fresh dict
   * filled cell by cell through the column table, then appended.
   */
  method GetRegionsData(rows: seq<seq<Cell>>) returns (r: Parsed<seq<Record>>)
    ensures r == RegionsData(rows)
  {
    var regionsData: seq<Record> := [];
    var k := 0;
    while k < |rows|
      invariant 0 <= k <= |rows|
      invariant RegionsData(rows[..k]) == Returns(regionsData)
    {
      var tr := rows[k];
      var regionInfo: Record := map[];
      var i := 0;
      while i < |tr|
        invariant 0 <= i <= |tr|
        invariant RowRecord(tr[..i]) == Returns(regionInfo)
      {
        RowRecordStep(tr, i);
        var field := RegionField(i);
        if field.Some? {
          var info := field.value;
          var value := FieldOf(info, tr[i]);
          if value.Raises? {
            RowRecordRaises(tr, i + 1);
            RegionsDataRaises(rows, k);
            return Raises(value.error);
          }
          regionInfo := regionInfo[info.name := value.value];
        }
        i := i + 1;
      }
      assert tr[..i] == tr;
      RegionsDataSnoc(rows, k, regionsData, regionInfo);
      regionsData := regionsData + [regionInfo];
      k := k + 1;
    }
    assert rows[..k] == rows;
    r := Returns(regionsData);
  }

  /** The record of a row's first `i + 1` cells is the record of its first `i` with cell `i` added. */
  lemma RowRecordStep(cells: seq<Cell>, i: nat)
    requires i < |cells|
    ensures RowRecord(cells[..i + 1]) == AddCell(RowRecord(cells[..i]), i, cells[i])
  {
    assert cells[..i + 1][..i] == cells[..i];
  }

  /** A row that parses extends the records of the rows before it. */
  lemma RegionsDataSnoc(rows: seq<seq<Cell>>, k: nat, records: seq<Record>, rec: Record)
    requires k < |rows| && RegionsData(rows[..k]) == Returns(records) && RowRecord(rows[k]) == Returns(rec)
    ensures RegionsData(rows[..k + 1]) == Returns(records + [rec])
  {
    assert rows[..k + 1][..k] == rows[..k];
  }

  /** A failure on a prefix of a row is the failure of the whole row. */
  lemma {:induction false} RowRecordRaises(cells: seq<Cell>, n: nat)
    requires n <= |cells| && RowRecord(cells[..n]).Raises?
    ensures RowRecord(cells) == RowRecord(cells[..n])
    decreases |cells| - n
  {
    if n < |cells| {
      RowRecordStep(cells, n);
      RowRecordRaises(cells, n + 1);
    } else {
      assert cells[..n] == cells;
    }
  }

  /** A failing row fails the whole table with its error, whatever follows. */
  lemma {:induction false} RegionsDataRaises(rows: seq<seq<Cell>>, k: nat)
    requires k < |rows| && RegionsData(rows[..k]).Returns? && RowRecord(rows[k]).Raises?
    ensures RegionsData(rows) == Raises(RowRecord(rows[k]).error)
  {
    assert rows[..k + 1][..k] == rows[..k];
    RegionsDataPrefixRaises(rows, k + 1);
  }

  lemma {:induction false} RegionsDataPrefixRaises(rows: seq<seq<Cell>>, n: nat)
    requires n <= |rows| && RegionsData(rows[..n]).Raises?
    ensures RegionsData(rows) == RegionsData(rows[..n])
    decreases |rows| - n
  {
    if n < |rows| {
      assert rows[..n + 1][..n] == rows[..n];
      RegionsDataPrefixRaises(rows, n + 1);
    } else {
      assert rows[..n] == rows;
    }
  }

  /**
   * `_parse_page`: the global record, then the region records. `soup`
   * stands for BeautifulSoup and gives `None` when the page lacks the
   * `data` element or its paragraph (AttributeError before anything is
   * read). The section is parsed before the table is looked up, so a
   * section error is reported even when the table is missing, and a
   * missing table or `tbody` is an AttributeError only after the section
   * has parsed.
   */
  function ParsePage(src: string, soup: string -> Option<PageTree>): (r: Parsed<PageData>)
  {
    match soup(src)
    case None => Raises(AttributeError)
    case Some(page) =>
      match GlobalDataOf(page.section)
      case Raises(e) => Raises(e)
      case Returns(g) =>
        if page.table.None? then Raises(AttributeError)
        else
          match RegionsData(page.table.value)
          case Raises(e) => Raises(e)
          case Returns(regions) => Returns(PageData(g, regions))
  }

  /**
   * A parsed page carries the global record of its section and one
   * record per table row; a page is parsed exactly when its section, its
   * table and all its rows are. A section error wins over a missing
   * table, and a missing table over the rows.
   */
  lemma ParsePageParts(src: string, soup: string -> Option<PageTree>)
    ensures ParsePage(src, soup).Returns? <==>
      soup(src).Some? && GlobalDataOf(soup(src).value.section).Returns? && soup(src).value.table.Some?
      && forall k :: 0 <= k < |soup(src).value.table.value| ==> RowRecord(soup(src).value.table.value[k]).Returns?
    ensures soup(src).Some? && GlobalDataOf(soup(src).value.section).Raises? ==>
      ParsePage(src, soup) == Raises(GlobalDataOf(soup(src).value.section).error)
    ensures soup(src).Some? && GlobalDataOf(soup(src).value.section).Returns? && soup(src).value.table.None? ==>
      ParsePage(src, soup) == Raises(AttributeError)
    ensures ParsePage(src, soup).Returns? ==>
      var page := soup(src).value;
      ParsePage(src, soup).value.globalData == GlobalDataOf(page.section).value
      && |ParsePage(src, soup).value.regionsData| == |page.table.value|
      && forall k :: 0 <= k < |page.table.value| ==>
           RowRecord(page.table.value[k]) == Returns(ParsePage(src, soup).value.regionsData[k])
  {
    if soup(src).Some? && soup(src).value.table.Some? {
      RegionsDataReturns(soup(src).value.table.value);
    }
  }

  /**
   * `get_data`: nothing when the fetch gives no text or empty text,
   * otherwise the outcome of parsing the page.
   */
  function GetData(response: Response, soup: string -> Option<PageTree>): (r: Option<Parsed<PageData>>)
    ensures r.Some? <==> response.Reply? && response.status == StatusOk && response.text != ""
    ensures r.Some? ==> r.value == ParsePage(response.text, soup)
  {
    var html := GetPageHtml(response);
    if html.None? || html.value == "" then None else Some(ParsePage(html.value, soup))
  }
}
