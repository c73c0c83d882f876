/**
 * `global_transformers.py`: the legacy national pipeline (sum the external
 * rows per date, splice them after the CSV series, left-join the
 * vaccination rows, resample into Monday-ending weeks) and
 * `GlobalDataTransformer`, which turns cumulative vaccination readings into
 * daily deltas, aggregates them into the stopcorona bulletin weeks and
 * extends the stored totals with seeded running sums.
 */
module GlobalTransformers {
  import opened Common
  import opened Calendar
  import opened Resample
  import opened TransformingFunctions

  // ---------------------------------------------------------------------
  // LegacyGlobalDataTransformer: summing the external rows per date
  // ---------------------------------------------------------------------

  /** The counter columns of the external statistic rows. */
  const ExternalCounters: set<Counter> := {InfectionPerDay, DeathPerDay, RecoveryPerDay}

  /** The counter columns of the vaccination rows. */
  const VaccinationCounters: set<Counter> := {DailyVaccinations, DailyPeopleVaccinated}

  /** Every counter column of the merged daily frame. */
  const AllCounters: set<Counter> := ExternalCounters + VaccinationCounters

  /** Sum of column `c` over the rows dated `d`, nulls counting as 0. */
  function DateSum(rows: seq<DayRow>, d: int, c: Counter): int
    decreases |rows|
  {
    if rows == [] then 0
    else
      var last := rows[|rows| - 1];
      DateSum(rows[..|rows| - 1], d, c) + (if last.date == d then Val(last, c) else 0)
  }

  function Dates(rows: seq<DayRow>): set<int>
  {
    set r | r in rows :: r.date
  }

  ghost predicate StrictlyByDate(rows: seq<DayRow>)
  {
    forall i, j :: 0 <= i < j < |rows| ==> rows[i].date < rows[j].date
  }

  /** The value of column `c` in the first row dated `d`, or 0 when no row has that date. */
  function At(rows: seq<DayRow>, d: int, c: Counter): int
  {
    if rows == [] then 0 else if rows[0].date == d then Val(rows[0], c) else At(rows[1..], d, c)
  }

  lemma {:induction false} AtAbsent(rows: seq<DayRow>, d: int, c: Counter)
    requires d !in Dates(rows)
    ensures At(rows, d, c) == 0
  {
    if rows != [] {
      assert rows[0] in rows;
      assert Dates(rows[1..]) <= Dates(rows) by {
        forall r | r in rows[1..] ensures r in rows { }
      }
      AtAbsent(rows[1..], d, c);
    }
  }

  lemma {:induction false} AtOfMember(rows: seq<DayRow>, i: nat, c: Counter)
    requires StrictlyByDate(rows) && i < |rows|
    ensures At(rows, rows[i].date, c) == Val(rows[i], c)
  {
    if i > 0 {
      assert rows[1..][i - 1] == rows[i];
      AtOfMember(rows[1..], i - 1, c);
    }
  }

  /** A new date group holding the counters `cols` of `x`. */
  function GroupOf(x: DayRow, cols: set<Counter>): DayRow
  {
    DayRow(x.date, map c | c in cols :: Val(x, c))
  }

  /** Date groups: strictly increasing dates, every group holding exactly the columns `cols`. */
  ghost predicate Groups(r: seq<DayRow>, cols: set<Counter>)
  {
    StrictlyByDate(r) && forall o :: o in r ==> o.counts.Keys == cols
  }

  /** `r` is `acc` with row `x` added into the group of its date. */
  ghost predicate AddedTo(r: seq<DayRow>, acc: seq<DayRow>, x: DayRow, cols: set<Counter>)
  {
    Dates(r) == Dates(acc) + {x.date}
    && forall d, c :: c in cols ==> At(r, d, c) == At(acc, d, c) + (if d == x.date then Val(x, c) else 0)
  }

  /** The group of `g`'s date with the counters of `x` added. */
  function Merged(g: DayRow, x: DayRow, cols: set<Counter>): DayRow
  {
    DayRow(g.date, map c | c in cols :: Val(g, c) + Val(x, c))
  }

  /**
   * Adds row `x` into the per-date sums `acc`, which are in strictly
   * increasing date order; a new date gets its own group in place.
   */
  function AddToGroups(acc: seq<DayRow>, x: DayRow, cols: set<Counter>): (r: seq<DayRow>)
    requires Groups(acc, cols)
    ensures Groups(r, cols)
    ensures AddedTo(r, acc, x, cols)
    decreases |acc|
  {
    if acc == [] then [GroupOf(x, cols)]
    else if acc[0].date == x.date then
      AddIntoFirst(acc, x, cols);
      [Merged(acc[0], x, cols)] + acc[1..]
    else if x.date < acc[0].date then
      AddBeforeFirst(acc, x, cols);
      [GroupOf(x, cols)] + acc
    else
      var rest := AddToGroups(acc[1..], x, cols);
      AddAfterFirst(acc, x, cols, rest);
      [acc[0]] + rest
  }

  lemma DatesCons(h: DayRow, t: seq<DayRow>)
    ensures Dates([h] + t) == {h.date} + Dates(t)
  {
    assert forall o :: o in [h] + t <==> o == h || o in t;
  }

  lemma AddIntoFirst(acc: seq<DayRow>, x: DayRow, cols: set<Counter>)
    requires Groups(acc, cols) && acc != [] && acc[0].date == x.date
    ensures var r := [Merged(acc[0], x, cols)] + acc[1..];
      Groups(r, cols) && AddedTo(r, acc, x, cols)
  {
    var r := [Merged(acc[0], x, cols)] + acc[1..];
    assert acc == [acc[0]] + acc[1..];
    DatesCons(acc[0], acc[1..]);
    DatesCons(r[0], acc[1..]);
    assert r[1..] == acc[1..];
    forall o | o in r
      ensures o.counts.Keys == cols
    {
      if o != r[0] {
        assert o in acc;
      }
    }
  }

  lemma AddBeforeFirst(acc: seq<DayRow>, x: DayRow, cols: set<Counter>)
    requires Groups(acc, cols) && acc != [] && x.date < acc[0].date
    ensures var r := [GroupOf(x, cols)] + acc;
      Groups(r, cols) && AddedTo(r, acc, x, cols)
  {
    var r := [GroupOf(x, cols)] + acc;
    DatesCons(GroupOf(x, cols), acc);
    assert r[1..] == acc;
    forall d | d in Dates(acc)
      ensures x.date < d
    {
      var o :| o in acc && o.date == d;
      var i :| 0 <= i < |acc| && acc[i] == o;
    }
    forall c | c in cols
      ensures At(acc, x.date, c) == 0
    {
      AtAbsent(acc, x.date, c);
    }
    forall i, j | 0 <= i < j < |r|
      ensures r[i].date < r[j].date
    {
      if i == 0 {
        assert r[j] in acc;
      } else {
        assert r[i] == acc[i - 1] && r[j] == acc[j - 1];
      }
    }
  }

  lemma AddAfterFirst(acc: seq<DayRow>, x: DayRow, cols: set<Counter>, rest: seq<DayRow>)
    requires Groups(acc, cols) && acc != [] && acc[0].date < x.date
    requires Groups(rest, cols) && AddedTo(rest, acc[1..], x, cols)
    ensures var r := [acc[0]] + rest;
      Groups(r, cols) && AddedTo(r, acc, x, cols)
  {
    AfterFirstBound(acc, x, cols, rest);
    assert acc[0] in acc;
    ConsGroups(acc[0], rest, cols);
    AfterFirstDates(acc, x, rest);
    forall d, c | c in cols
      ensures At([acc[0]] + rest, d, c) == At(acc, d, c) + (if d == x.date then Val(x, c) else 0)
    {
      AfterFirstAt(acc, x, cols, rest, d, c);
    }
  }

  /** Every date of the groups after the first is later than the first group's. */
  lemma AfterFirstBound(acc: seq<DayRow>, x: DayRow, cols: set<Counter>, rest: seq<DayRow>)
    requires Groups(acc, cols) && acc != [] && acc[0].date < x.date
    requires Dates(rest) == Dates(acc[1..]) + {x.date}
    ensures forall d :: d in Dates(rest) ==> acc[0].date < d
  {
    forall d | d in Dates(rest)
      ensures acc[0].date < d
    {
      if d != x.date {
        var o :| o in acc[1..] && o.date == d;
        var i :| 0 <= i < |acc[1..]| && acc[1..][i] == o;
        assert acc[i + 1] == o;
      }
    }
  }

  lemma AfterFirstDates(acc: seq<DayRow>, x: DayRow, rest: seq<DayRow>)
    requires acc != [] && Dates(rest) == Dates(acc[1..]) + {x.date}
    ensures Dates([acc[0]] + rest) == Dates(acc) + {x.date}
  {
    assert acc == [acc[0]] + acc[1..];
    DatesCons(acc[0], acc[1..]);
    DatesCons(acc[0], rest);
  }

  lemma AfterFirstAt(acc: seq<DayRow>, x: DayRow, cols: set<Counter>, rest: seq<DayRow>, d: int, c: Counter)
    requires acc != [] && acc[0].date < x.date && c in cols
    requires At(rest, d, c) == At(acc[1..], d, c) + (if d == x.date then Val(x, c) else 0)
    ensures At([acc[0]] + rest, d, c) == At(acc, d, c) + (if d == x.date then Val(x, c) else 0)
  {
    assert ([acc[0]] + rest)[1..] == rest;
  }

  /** Prepending a group dated before all others keeps the groups in order. */
  lemma ConsGroups(h: DayRow, t: seq<DayRow>, cols: set<Counter>)
    requires Groups(t, cols) && h.counts.Keys == cols
    requires forall d :: d in Dates(t) ==> h.date < d
    ensures Groups([h] + t, cols)
  {
    var r := [h] + t;
    forall i, j | 0 <= i < j < |r|
      ensures r[i].date < r[j].date
    {
      if i == 0 {
        assert r[j] == t[j - 1];
        assert t[j - 1].date in Dates(t);
      } else {
        assert r[i] == t[i - 1] && r[j] == t[j - 1];
      }
    }
  }

  /**
   * `groupby("date").sum()` followed by `reset_index`: one row per distinct
   * date, in increasing date order, each column of `cols` the sum of that
   * date's rows.
   */
  function SummarizeByDate(rows: seq<DayRow>, cols: set<Counter>): (r: seq<DayRow>)
    ensures StrictlyByDate(r)
    ensures forall o :: o in r ==> o.counts.Keys == cols
    ensures Dates(r) == Dates(rows)
    ensures forall d, c :: c in cols ==> At(r, d, c) == DateSum(rows, d, c)
    decreases |rows|
  {
    if rows == [] then []
    else
      var init, last := rows[..|rows| - 1], rows[|rows| - 1];
      assert Dates(rows) == Dates(init) + {last.date} by {
        assert rows == init + [last];
        assert forall o :: o in rows <==> o in init || o == last;
      }
      var r := AddToGroups(SummarizeByDate(init, cols), last, cols);
      r
  }

  /**
   * The summary has one row per distinct date of the input, and each of
   * its cells is the sum of that column over the input rows of that date.
   */
  lemma SummarizeByDateSpec(rows: seq<DayRow>, cols: set<Counter>, i: nat, c: Counter)
    requires i < |SummarizeByDate(rows, cols)| && c in cols
    ensures var r := SummarizeByDate(rows, cols);
      r[i].counts[c] == DateSum(rows, r[i].date, c)
      && (exists x :: x in rows && x.date == r[i].date)
      && forall j :: 0 <= j < |r| && j != i ==> r[j].date != r[i].date
  {
    var r := SummarizeByDate(rows, cols);
    AtOfMember(r, i, c);
    assert r[i] in r;
    assert r[i].date in Dates(rows);
  }

  // ---------------------------------------------------------------------
  // LegacyGlobalDataTransformer: splicing, joining and sorting
  // ---------------------------------------------------------------------

  /** A row of the CSV source: daily `cases` and `deaths` (null when absent). */
  datatype CsvRow = CsvRow(date: int, cases: Option<int>, deaths: Option<int>)

  /** The CSV row under the column names of the merged frame, with no recoveries. */
  function CsvDay(r: CsvRow): (d: DayRow)
    ensures d.date == r.date && d.counts.Keys <= {InfectionPerDay, DeathPerDay}
    ensures InfectionPerDay in d.counts <==> r.cases.Some?
    ensures DeathPerDay in d.counts <==> r.deaths.Some?
    ensures r.cases.Some? ==> d.counts[InfectionPerDay] == r.cases.value
    ensures r.deaths.Some? ==> d.counts[DeathPerDay] == r.deaths.value
  {
    var cases := if r.cases.Some? then map[InfectionPerDay := r.cases.value] else map[];
    var deaths := if r.deaths.Some? then map[DeathPerDay := r.deaths.value] else map[];
    DayRow(r.date, cases + deaths)
  }

  function CsvDays(csv: seq<CsvRow>): (days: seq<DayRow>)
    ensures |days| == |csv|
    ensures forall i :: 0 <= i < |csv| ==> days[i] == CsvDay(csv[i])
  {
    seq(|csv|, i requires 0 <= i < |csv| => CsvDay(csv[i]))
  }

  /** The latest CSV date, after which the external series takes over. */
  function CutOff(csv: seq<CsvRow>): (m: int)
    requires csv != []
    ensures forall r :: r in csv ==> r.date <= m
    ensures exists r :: r in csv && r.date == m
  {
    var days := CsvDays(csv);
    var m := MaxDate(days);
    assert forall r :: r in csv ==> CsvDay(r) in days by {
      forall r | r in csv ensures CsvDay(r) in days {
        var i :| 0 <= i < |csv| && csv[i] == r;
        assert days[i] == CsvDay(r);
      }
    }
    var x :| x in days && x.date == m;
    var i :| 0 <= i < |days| && days[i] == x;
    assert csv[i] in csv;
    m
  }

  /** The vaccination cells of a row; a merge brings in nothing else. */
  function VaccinationCells(v: DayRow): map<Counter, int>
  {
    map c | c in v.counts && c in VaccinationCounters :: v.counts[c]
  }

  /** The right-hand rows a left row with date `d` is joined with. */
  function Matching(right: seq<DayRow>, d: int): seq<DayRow>
  {
    Filter(right, (v: DayRow) => v.date == d)
  }

  /** The output rows of one left row: one per match, or the row itself with null right-hand cells. */
  function JoinRow(l: DayRow, matches: seq<DayRow>): (r: seq<DayRow>)
    ensures matches == [] ==> r == [l]
    ensures matches != [] ==> |r| == |matches|
    ensures forall k :: 0 <= k < |matches| ==> r[k] == DayRow(l.date, l.counts + VaccinationCells(matches[k]))
  {
    if matches == [] then [l]
    else seq(|matches|, k requires 0 <= k < |matches| => DayRow(l.date, l.counts + VaccinationCells(matches[k])))
  }

  /** `pd.merge(left, right, on='date', how='left')` with the left rows kept in order. */
  function LeftJoinByDate(left: seq<DayRow>, right: seq<DayRow>): seq<DayRow>
    decreases |left|
  {
    if left == [] then [] else JoinRow(left[0], Matching(right, left[0].date)) + LeftJoinByDate(left[1..], right)
  }

  /** Row `o` carries the date and every non-vaccination cell of `l`. */
  predicate CarriesRow(o: DayRow, l: DayRow)
  {
    o.date == l.date
    && forall c :: c !in VaccinationCounters ==> (c in o.counts <==> c in l.counts) && (c in o.counts ==> o.counts[c] == l.counts[c])
  }

  /** The vaccination cells of `o` are null when no right-hand row shares its date, and those of such a row otherwise. */
  predicate JoinedVaccinations(o: DayRow, right: seq<DayRow>)
  {
    if Matching(right, o.date) == [] then forall c :: c in VaccinationCounters ==> c !in o.counts
    else exists v :: v in right && v.date == o.date && forall c :: c in VaccinationCounters ==> Val(o, c) == Val(v, c) && (c in o.counts <==> c in v.counts)
  }

  predicate NoVaccinationCells(l: DayRow)
  {
    forall c :: c in VaccinationCounters ==> c !in l.counts
  }

  lemma JoinRowSpec(l: DayRow, right: seq<DayRow>, o: DayRow)
    requires NoVaccinationCells(l)
    requires o in JoinRow(l, Matching(right, l.date))
    ensures CarriesRow(o, l) && JoinedVaccinations(o, right)
  {
    var ms := Matching(right, l.date);
    if ms != [] {
      var k :| 0 <= k < |ms| && JoinRow(l, ms)[k] == o;
      var v := ms[k];
      assert v in ms;
      MergedRow(l, v);
      assert v in right && v.date == o.date;
      assert forall c :: c in VaccinationCounters ==> Val(o, c) == Val(v, c) && (c in o.counts <==> c in v.counts);
    }
  }

  /** A left row merged with a right-hand row keeps its own cells and takes the vaccination cells of the other. */
  lemma MergedRow(l: DayRow, v: DayRow)
    requires NoVaccinationCells(l)
    ensures var o := DayRow(l.date, l.counts + VaccinationCells(v));
      CarriesRow(o, l)
      && forall c :: c in VaccinationCounters ==> Val(o, c) == Val(v, c) && (c in o.counts <==> c in v.counts)
  {
  }

  /** The left join keeps every left row at least once, with its own cells. */
  lemma {:induction false} LeftJoinKeepsLeft(left: seq<DayRow>, right: seq<DayRow>, i: nat)
    requires i < |left|
    ensures exists o :: o in LeftJoinByDate(left, right) && CarriesRow(o, left[i])
    decreases i
  {
    var head := JoinRow(left[0], Matching(right, left[0].date));
    var tail := LeftJoinByDate(left[1..], right);
    assert LeftJoinByDate(left, right) == head + tail;
    if i == 0 {
      assert head[0] in head + tail;
      assert CarriesRow(head[0], left[0]);
    } else {
      LeftJoinKeepsLeft(left[1..], right, i - 1);
      var o :| o in tail && CarriesRow(o, left[1..][i - 1]);
      assert o in head + tail;
    }
  }

  /**
   * Every row of the left join comes from a left row, with the vaccination
   * cells of a right-hand row sharing its date, or nulls when there is none:
   * dates only the right-hand side has are dropped.
   */
  lemma {:induction false} LeftJoinFromLeft(left: seq<DayRow>, right: seq<DayRow>, o: DayRow)
    requires forall l :: l in left ==> NoVaccinationCells(l)
    requires o in LeftJoinByDate(left, right)
    ensures exists l :: l in left && CarriesRow(o, l)
    ensures JoinedVaccinations(o, right)
    decreases |left|
  {
    var head := JoinRow(left[0], Matching(right, left[0].date));
    var tail := LeftJoinByDate(left[1..], right);
    assert LeftJoinByDate(left, right) == head + tail;
    assert left[0] in left;
    if o in head {
      JoinRowSpec(left[0], right, o);
    } else {
      assert forall l :: l in left[1..] ==> l in left;
      LeftJoinFromLeft(left[1..], right, o);
      var l :| l in left[1..] && CarriesRow(o, l);
    }
  }

  function ByDate(r: DayRow): int
  {
    r.date
  }

  /** The CSV rows followed by the external rows dated after the latest CSV date (`pd.concat`). */
  function Spliced(external: seq<DayRow>, csv: seq<CsvRow>): seq<DayRow>
    requires csv != []
  {
    var cut := CutOff(csv);
    CsvDays(csv) + Filter(external, (x: DayRow) => x.date > cut)
  }

  /**
   * `_merge_all_dfs`: the spliced rows left-joined with the vaccination
   * rows on the date and sorted by date. A source without rows is a frame
   * without columns, whose `date` column raises KeyError.
   */
  function MergeAll(external: seq<DayRow>, vaccinations: seq<DayRow>, csv: seq<CsvRow>): (r: Parsed<seq<DayRow>>)
    ensures r.Raises? <==> csv == [] || vaccinations == []
    ensures r.Raises? ==> r.error == KeyError
    ensures r.Returns? ==> SortedBy(r.value, ByDate)
  {
    if csv == [] || vaccinations == [] then Raises(KeyError)
    else Returns(SortBy(LeftJoinByDate(Spliced(external, csv), vaccinations), ByDate))
  }

  /** Sorting the joined rows neither adds nor drops a row. */
  lemma MergeAllMembers(external: seq<DayRow>, vaccinations: seq<DayRow>, csv: seq<CsvRow>, o: DayRow)
    requires csv != [] && vaccinations != []
    ensures o in MergeAll(external, vaccinations, csv).value
        <==> o in LeftJoinByDate(Spliced(external, csv), vaccinations)
  {
    var join := LeftJoinByDate(Spliced(external, csv), vaccinations);
    var m := SortBy(join, ByDate);
    assert o in m <==> o in multiset(m);
    assert o in join <==> o in multiset(join);
  }

  /** The merge keeps every CSV row. */
  lemma MergeAllKeepsCsv(external: seq<DayRow>, vaccinations: seq<DayRow>, csv: seq<CsvRow>, i: nat)
    requires vaccinations != [] && i < |csv|
    ensures exists o :: o in MergeAll(external, vaccinations, csv).value && CarriesRow(o, CsvDay(csv[i]))
  {
    var left := Spliced(external, csv);
    assert left[i] == CsvDay(csv[i]);
    LeftJoinKeepsLeft(left, vaccinations, i);
    var o :| o in LeftJoinByDate(left, vaccinations) && CarriesRow(o, left[i]);
    MergeAllMembers(external, vaccinations, csv, o);
  }

  /** The merge keeps every external row dated after the latest CSV date. */
  lemma MergeAllKeepsLaterExternal(external: seq<DayRow>, vaccinations: seq<DayRow>, csv: seq<CsvRow>, x: DayRow)
    requires vaccinations != [] && csv != []
    requires x in external && x.date > CutOff(csv)
    ensures exists o :: o in MergeAll(external, vaccinations, csv).value && CarriesRow(o, x)
  {
    var cut := CutOff(csv);
    var left := Spliced(external, csv);
    var kept := Filter(external, (y: DayRow) => y.date > cut);
    assert x in kept;
    var k :| 0 <= k < |kept| && kept[k] == x;
    assert left[|csv| + k] == x;
    LeftJoinKeepsLeft(left, vaccinations, |csv| + k);
    var o :| o in LeftJoinByDate(left, vaccinations) && CarriesRow(o, x);
    MergeAllMembers(external, vaccinations, csv, o);
  }

  /** A spliced row is a renamed CSV row or an external row dated after the latest CSV date. */
  lemma SplicedOrigin(external: seq<DayRow>, csv: seq<CsvRow>, l: DayRow)
    requires csv != [] && l in Spliced(external, csv)
    ensures (exists r :: r in csv && l == CsvDay(r)) || (l in external && l.date > CutOff(csv))
  {
    var days := CsvDays(csv);
    var kept := Filter(external, (y: DayRow) => y.date > CutOff(csv));
    assert Spliced(external, csv) == days + kept;
    if l in days {
      var i :| 0 <= i < |days| && days[i] == l;
      assert csv[i] in csv;
    }
  }

  lemma SplicedNoVaccinations(external: seq<DayRow>, csv: seq<CsvRow>)
    requires csv != []
    requires forall x :: x in external ==> NoVaccinationCells(x)
    ensures forall l :: l in Spliced(external, csv) ==> NoVaccinationCells(l)
  {
    forall l | l in Spliced(external, csv)
      ensures NoVaccinationCells(l)
    {
      SplicedOrigin(external, csv, l);
    }
  }

  /**
   * Every merged row is a CSV row or an external row dated after the latest
   * CSV date, with the vaccination cells of that date or nulls.
   */
  lemma MergeAllOrigin(external: seq<DayRow>, vaccinations: seq<DayRow>, csv: seq<CsvRow>, o: DayRow)
    requires vaccinations != [] && csv != []
    requires forall x :: x in external ==> NoVaccinationCells(x)
    requires o in MergeAll(external, vaccinations, csv).value
    ensures JoinedVaccinations(o, vaccinations)
    ensures (exists r :: r in csv && CarriesRow(o, CsvDay(r)))
      || (exists x :: x in external && x.date > CutOff(csv) && CarriesRow(o, x))
  {
    var left := Spliced(external, csv);
    SplicedNoVaccinations(external, csv);
    MergeAllMembers(external, vaccinations, csv, o);
    LeftJoinFromLeft(left, vaccinations, o);
    var l :| l in left && CarriesRow(o, l);
    SplicedOrigin(external, csv, l);
  }

  // ---------------------------------------------------------------------
  // LegacyGlobalDataTransformer: the weekly frame
  // ---------------------------------------------------------------------

  /** The rename applied to the resampled columns. */
  function WeeklyColumn(c: Counter): Column
  {
    match c
    case DeathPerDay => WeeklyDeaths
    case InfectionPerDay => WeeklyInfected
    case RecoveryPerDay => WeeklyRecovered
    case DailyVaccinations => WeeklyVaccinations
    case DailyPeopleVaccinated => WeeklyFirstComponent
  }

  /** The rename never merges two columns. */
  lemma WeeklyColumnInjective(c: Counter, d: Counter)
    ensures WeeklyColumn(c) == WeeklyColumn(d) ==> c == d
  {
  }

  /** The weekly row of one bucket: the renamed sums, `end_date` the Monday label, `start_date` six days before it. */
  function WeekOfBucket(b: Bucket): WeekRow
  {
    WeekRow(None, b.end - 6, b.end, map c | c in b.sums :: WeeklyColumn(c) := b.sums[c])
  }

  /** `_transform_to_weekly_format`: the `W-MON` resample of every counter, renamed. */
  function WeeklyFormat(merged: seq<DayRow>): (r: seq<WeekRow>)
    ensures |r| == |WeeklySums(merged, AllCounters)|
  {
    WeekRowsOf(WeeklySums(merged, AllCounters))
  }

  /** The weekly rows of a sequence of buckets, one per bucket. */
  function WeekRowsOf(b: seq<Bucket>): (r: seq<WeekRow>)
    ensures |r| == |b|
    ensures forall k :: 0 <= k < |b| ==> r[k] == WeekOfBucket(b[k])
  {
    seq(|b|, k requires 0 <= k < |b| => WeekOfBucket(b[k]))
  }

  /**
   * Each weekly row ends on a Monday, starts six days earlier, follows the
   * previous row by one week, and holds for every counter the sum of the
   * daily values dated within its week.
   */
  lemma WeeklyFormatSpec(merged: seq<DayRow>, k: nat, c: Counter)
    requires k < |WeeklyFormat(merged)|
    ensures var w := WeeklyFormat(merged)[k];
      IsMonday(w.end) && w.start == w.end - 6
      && WeeklyColumn(c) in w.cells
      && w.cells[WeeklyColumn(c)] == WindowSum(merged, c, w.end)
      && (k > 0 ==> w.end == WeeklyFormat(merged)[k - 1].end + 7)
  {
    var b := WeeklySums(merged, AllCounters);
    assert WeeklyFormat(merged)[k] == WeekOfBucket(b[k]);
    assert c in AllCounters;
    WeeklySumsAt(merged, AllCounters, k, c);
    WeekOfBucketCell(b[k], c);
  }

  /** The renamed cell of a bucket holds the sum of the counter it was renamed from. */
  lemma WeekOfBucketCell(b: Bucket, c: Counter)
    requires c in b.sums
    ensures WeeklyColumn(c) in WeekOfBucket(b).cells && WeekOfBucket(b).cells[WeeklyColumn(c)] == b.sums[c]
  {
    forall d | d in b.sums && WeeklyColumn(d) == WeeklyColumn(c)
      ensures d == c
    {
      WeeklyColumnInjective(c, d);
    }
  }

  /** Sum of the column `col` over the first `n` weekly rows. */
  function WeeklyTotal(rows: seq<WeekRow>, col: Column, n: nat): int
    requires n <= |rows|
  {
    if n == 0 then 0 else WeeklyTotal(rows, col, n - 1) + OrZero(Cell(rows[n - 1], col))
  }

  /** A weekly cell is the bucket sum of the counter it was renamed from. */
  lemma WeeklyCell(merged: seq<DayRow>, k: nat, c: Counter)
    requires k < |WeeklyFormat(merged)|
    ensures c in WeeklySums(merged, AllCounters)[k].sums
    ensures Cell(WeeklyFormat(merged)[k], WeeklyColumn(c)) == Some(WeeklySums(merged, AllCounters)[k].sums[c])
  {
    var b := WeeklySums(merged, AllCounters);
    assert c in AllCounters;
    WeekOfBucketCell(b[k], c);
  }

  /** Summing a column whose cells hold the buckets' sums of a counter sums that counter over the buckets. */
  lemma {:induction false} WeeklyTotalOfBuckets(rows: seq<WeekRow>, col: Column, b: seq<Bucket>, c: Counter, n: nat)
    requires n <= |rows| && n <= |b| && forall k :: 0 <= k < |b| ==> c in b[k].sums
    requires forall k :: 0 <= k < n ==> Cell(rows[k], col) == Some(b[k].sums[c])
    ensures WeeklyTotal(rows, col, n) == SumOfBuckets(b, c, n)
  {
    if n > 0 {
      WeeklyTotalOfBuckets(rows, col, b, c, n - 1);
    }
  }

  lemma WeeklyTotalIsSumOfBuckets(merged: seq<DayRow>, c: Counter, n: nat)
    requires n <= |WeeklyFormat(merged)|
    ensures forall k :: 0 <= k < |WeeklySums(merged, AllCounters)| ==> c in WeeklySums(merged, AllCounters)[k].sums
    ensures WeeklyTotal(WeeklyFormat(merged), WeeklyColumn(c), n) == SumOfBuckets(WeeklySums(merged, AllCounters), c, n)
  {
    assert c in AllCounters;
    var b := WeeklySums(merged, AllCounters);
    var rows := WeeklyFormat(merged);
    forall k | 0 <= k < n
      ensures Cell(rows[k], WeeklyColumn(c)) == Some(b[k].sums[c])
    {
      WeekOfBucketCell(b[k], c);
    }
    WeeklyTotalOfBuckets(rows, WeeklyColumn(c), b, c, n);
  }

  /** The weekly frame loses nothing: its weekly columns add up to the daily totals. */
  lemma WeeklyFormatConserves(merged: seq<DayRow>, c: Counter)
    requires merged != []
    ensures var w := WeeklyFormat(merged);
      WeeklyTotal(w, WeeklyColumn(c), |w|) == Total(merged, c)
  {
    WeeklyTotalIsSumOfBuckets(merged, c, |WeeklyFormat(merged)|);
    WeeklySumsConserve(merged, AllCounters, c);
  }

  /** `weekly_second_component = weekly_vaccinations - weekly_first_component`, row by row. */
  function WithSecondComponent(rows: seq<WeekRow>): (r: seq<WeekRow>)
    ensures |r| == |rows|
    ensures forall k :: 0 <= k < |rows| ==>
      Cell(r[k], WeeklySecondComponent)
        == Some(OrZero(Cell(rows[k], WeeklyVaccinations)) - OrZero(Cell(rows[k], WeeklyFirstComponent)))
      && forall c :: c != WeeklySecondComponent ==> Cell(r[k], c) == Cell(rows[k], c)
  {
    seq(|rows|, k requires 0 <= k < |rows| =>
      SetCell(rows[k], WeeklySecondComponent,
        Some(OrZero(Cell(rows[k], WeeklyVaccinations)) - OrZero(Cell(rows[k], WeeklyFirstComponent)))))
  }

  /**
   * `LegacyGlobalDataTransformer.run` on the rows of the three sources;
   * `applyAll` stands for the transformation chain the module imports and
   * does not define. An empty external source has no `date` column.
   */
  function LegacyRun(external: seq<DayRow>, vaccinations: seq<DayRow>, csv: seq<CsvRow>,
                     applyAll: seq<WeekRow> -> seq<WeekRow>): (r: Parsed<seq<WeekRow>>)
    ensures r.Raises? <==> external == [] || csv == [] || vaccinations == []
    ensures r.Raises? ==> r.error == KeyError
  {
    if external == [] then Raises(KeyError)
    else
      match MergeAll(SummarizeByDate(external, ExternalCounters), vaccinations, csv)
      case Raises(e) => Raises(e)
      case Returns(merged) => Returns(applyAll(WithSecondComponent(WeeklyFormat(merged))))
  }

  // ---------------------------------------------------------------------
  // GlobalDataTransformer
  // ---------------------------------------------------------------------

  /** A national stopcorona bulletin row, after the rename to weekly columns. */
  datatype Bulletin = Bulletin(start: int, end: int, weeklyInfected: int, weeklyRecovered: int, weeklyDeaths: int)

  /** A gogov reading: the cumulative numbers of people with the first and the second component. */
  datatype Reading = Reading(date: int, firstComponent: int, secondComponent: int)

  /** The stored totals that seed the running sums (`latest_values`). */
  datatype Baseline = Baseline(infected: int, recovered: int, deaths: int, firstComponent: int, secondComponent: int)

  /** The `daily_first_component`, `daily_second_component` and `daily_vaccinations` cells of a reading. */
  datatype Delta = Delta(first: Option<int>, second: Option<int>, vaccinations: Option<int>)

  function Change(first: int, second: int): Delta
  {
    Delta(Some(first), Some(second), Some(first + second))
  }

  /**
   * The delta of reading `i`: the change from the previous reading, and for
   * reading 0 the change from the stored baseline in latest mode, null otherwise.
   */
  function DeltaAt(readings: seq<Reading>, i: nat, latest: bool, base: Baseline): Delta
    requires i < |readings|
  {
    if i == 0 then
      if latest then Change(readings[0].firstComponent - base.firstComponent, readings[0].secondComponent - base.secondComponent)
      else Delta(None, None, None)
    else
      Change(readings[i].firstComponent - readings[i - 1].firstComponent,
             readings[i].secondComponent - readings[i - 1].secondComponent)
  }

  function Deltas(readings: seq<Reading>, latest: bool, base: Baseline): (d: seq<Delta>)
    ensures |d| == |readings|
    ensures forall i :: 0 <= i < |readings| ==> d[i] == DeltaAt(readings, i, latest, base)
  {
    seq(|readings|, i requires 0 <= i < |readings| => DeltaAt(readings, i, latest, base))
  }

  /** Sum of the non-null first-component deltas among the first `n`. */
  function FirstDeltaSum(deltas: seq<Delta>, n: nat): int
    requires n <= |deltas|
  {
    if n == 0 then 0 else FirstDeltaSum(deltas, n - 1) + OrZero(deltas[n - 1].first)
  }

  /** Sum of the non-null second-component deltas among the first `n`. */
  function SecondDeltaSum(deltas: seq<Delta>, n: nat): int
    requires n <= |deltas|
  {
    if n == 0 then 0 else SecondDeltaSum(deltas, n - 1) + OrZero(deltas[n - 1].second)
  }

  /**
   * The deltas telescope: the first `n` of them add up to the latest of
   * those readings minus the stored baseline in latest mode, or minus the
   * first reading otherwise. Nothing is lost or counted twice.
   */
  lemma {:induction false} DeltasTelescope(readings: seq<Reading>, latest: bool, base: Baseline, n: nat)
    requires 0 < n <= |readings|
    ensures var d := Deltas(readings, latest, base);
      FirstDeltaSum(d, n) == readings[n - 1].firstComponent - (if latest then base.firstComponent else readings[0].firstComponent)
      && SecondDeltaSum(d, n) == readings[n - 1].secondComponent - (if latest then base.secondComponent else readings[0].secondComponent)
  {
    if n > 1 {
      DeltasTelescope(readings, latest, base, n - 1);
    }
  }

  /** Week totals of the three delta columns. */
  datatype Sums = Sums(first: int, second: int, vaccinations: int)

  function Plus(s: Sums, d: Delta): Sums
  {
    Sums(s.first + OrZero(d.first), s.second + OrZero(d.second), s.vaccinations + OrZero(d.vaccinations))
  }

  /** Reading `r` is dated within the bulletin week `b`. */
  predicate InBulletin(r: Reading, b: Bulletin)
  {
    b.start <= r.date <= b.end
  }

  /** The column sums of the deltas of the first `n` readings dated within `b`. */
  function WeekDeltaSums(readings: seq<Reading>, deltas: seq<Delta>, n: nat, b: Bulletin): Sums
    requires n <= |readings| == |deltas|
  {
    if n == 0 then Sums(0, 0, 0)
    else
      var s := WeekDeltaSums(readings, deltas, n - 1, b);
      if InBulletin(readings[n - 1], b) then Plus(s, deltas[n - 1]) else s
  }

  /** The last of the first `n` readings dated within `b`, if any (`iloc[-1]`). */
  function LastIn(readings: seq<Reading>, n: nat, b: Bulletin): (r: Option<Reading>)
    requires n <= |readings|
    ensures r.None? <==> forall i :: 0 <= i < n ==> !InBulletin(readings[i], b)
    ensures r.Some? ==> exists i :: (0 <= i < n && readings[i] == r.value && InBulletin(r.value, b)
                                     && forall j :: i < j < n ==> !InBulletin(readings[j], b))
  {
    if n == 0 then None
    else if InBulletin(readings[n - 1], b) then Some(readings[n - 1])
    else LastIn(readings, n - 1, b)
  }

  /** One row of the weekly vaccination frame. */
  datatype GogovWeek = GogovWeek(start: int, end: int, weeklyVaccinations: int, weeklyFirst: int, weeklySecond: int,
                                 firstComponent: int, secondComponent: int)

  /** The vaccination row of bulletin week `b`, or none when no reading is dated within it. */
  function WeekOf(readings: seq<Reading>, deltas: seq<Delta>, b: Bulletin): Option<GogovWeek>
    requires |readings| == |deltas|
  {
    match LastIn(readings, |readings|, b)
    case None => None
    case Some(last) =>
      var s := WeekDeltaSums(readings, deltas, |readings|, b);
      Some(GogovWeek(b.start, b.end, s.vaccinations, s.first, s.second, last.firstComponent, last.secondComponent))
  }

  /** The vaccination rows of the bulletin weeks, in bulletin order, skipping weeks without readings. */
  function GogovWeeks(readings: seq<Reading>, deltas: seq<Delta>, bulletins: seq<Bulletin>): (r: seq<GogovWeek>)
    requires |readings| == |deltas|
    ensures |r| <= |bulletins|
    decreases |bulletins|
  {
    if bulletins == [] then []
    else
      var init, b := bulletins[..|bulletins| - 1], bulletins[|bulletins| - 1];
      GogovWeeks(readings, deltas, init) + (match WeekOf(readings, deltas, b) case None => [] case Some(w) => [w])
  }

  /** Each vaccination row is the row of some bulletin week, and every bulletin week with readings has its row. */
  lemma {:induction false} GogovWeeksMembers(readings: seq<Reading>, deltas: seq<Delta>, bulletins: seq<Bulletin>)
    requires |readings| == |deltas|
    ensures forall w :: w in GogovWeeks(readings, deltas, bulletins) ==>
      exists b :: b in bulletins && WeekOf(readings, deltas, b) == Some(w)
    ensures forall b :: b in bulletins && WeekOf(readings, deltas, b).Some? ==>
      WeekOf(readings, deltas, b).value in GogovWeeks(readings, deltas, bulletins)
    decreases |bulletins|
  {
    if bulletins != [] {
      var init, b := bulletins[..|bulletins| - 1], bulletins[|bulletins| - 1];
      GogovWeeksMembers(readings, deltas, init);
      assert bulletins == init + [b];
      assert forall x :: x in bulletins <==> x in init || x == b;
    }
  }

  /**
   * `_transform_gogov_data` as a value. Latest mode reads reading 0, which
   * a frame without rows lacks (KeyError); a bulletin frame without rows
   * has no `start_date` column (KeyError); a reading frame without rows has
   * no `date` attribute once a bulletin row is examined (AttributeError).
   */
  function TransformGogov(latest: bool, base: Baseline, readings: seq<Reading>, bulletins: seq<Bulletin>): Parsed<seq<GogovWeek>>
  {
    if latest && readings == [] then Raises(KeyError)
    else if bulletins == [] then Raises(KeyError)
    else if readings == [] then Raises(AttributeError)
    else Returns(GogovWeeks(readings, Deltas(readings, latest, base), bulletins))
  }

  /** Each week's vaccinations are its first-component plus its second-component deltas. */
  lemma {:induction false} WeekVaccinationsSplit(readings: seq<Reading>, latest: bool, base: Baseline, n: nat, b: Bulletin)
    requires n <= |readings|
    ensures var s := WeekDeltaSums(readings, Deltas(readings, latest, base), n, b);
      s.vaccinations == s.first + s.second
  {
    if n > 0 {
      WeekVaccinationsSplit(readings, latest, base, n - 1, b);
    }
  }

  /**
   * A bulletin week gets a vaccination row exactly when a reading is dated
   * within it; the row's vaccinations are its two component sums added, and
   * its component totals are those of the last reading dated within it.
   */
  lemma WeekOfSpec(readings: seq<Reading>, latest: bool, base: Baseline, b: Bulletin)
    ensures var w := WeekOf(readings, Deltas(readings, latest, base), b);
      (w.None? <==> forall i :: 0 <= i < |readings| ==> !InBulletin(readings[i], b))
      && (w.Some? ==>
            w.value.start == b.start && w.value.end == b.end
            && w.value.weeklyVaccinations == w.value.weeklyFirst + w.value.weeklySecond
            && exists i :: 0 <= i < |readings| && InBulletin(readings[i], b)
                 && w.value.firstComponent == readings[i].firstComponent
                 && w.value.secondComponent == readings[i].secondComponent
                 && forall j :: i < j < |readings| ==> !InBulletin(readings[j], b))
  {
    WeekVaccinationsSplit(readings, latest, base, |readings|, b);
  }

  /** A global result row: the bulletin, its vaccination row or nulls, and the running totals. */
  datatype GlobalRow = GlobalRow(bulletin: Bulletin, vaccination: Option<GogovWeek>,
                                 infected: Option<int>, recovered: Option<int>, deaths: Option<int>)

  /** The result rows of one bulletin: one per vaccination row of the same week, or one with nulls. */
  function JoinBulletin(b: Bulletin, weeks: seq<GogovWeek>): (r: seq<GlobalRow>)
    ensures |r| >= 1
    ensures forall o :: o in r ==> o.bulletin == b && o.infected.None? && o.recovered.None? && o.deaths.None?
    ensures forall o :: o in r ==> if o.vaccination.None? then forall w :: w in weeks ==> !(w.start == b.start && w.end == b.end)
      else o.vaccination.value in weeks && o.vaccination.value.start == b.start && o.vaccination.value.end == b.end
  {
    var ms := Filter(weeks, (w: GogovWeek) => w.start == b.start && w.end == b.end);
    assert forall k :: 0 <= k < |ms| ==> ms[k] in ms;
    if ms == [] then [GlobalRow(b, None, None, None, None)]
    else seq(|ms|, k requires 0 <= k < |ms| => GlobalRow(b, Some(ms[k]), None, None, None))
  }

  /** `pd.merge(bulletins, weeks, on=['start_date', 'end_date'], how='left')`. */
  function JoinWeeks(bulletins: seq<Bulletin>, weeks: seq<GogovWeek>): (r: seq<GlobalRow>)
    ensures |r| >= |bulletins|
    ensures forall o :: o in r ==> o.bulletin in bulletins
    ensures forall b :: b in bulletins ==> exists o :: o in r && o.bulletin == b
    ensures forall o :: o in r ==> if o.vaccination.None? then forall w :: w in weeks ==> !(w.start == o.bulletin.start && w.end == o.bulletin.end)
      else o.vaccination.value in weeks && o.vaccination.value.start == o.bulletin.start && o.vaccination.value.end == o.bulletin.end
    decreases |bulletins|
  {
    if bulletins == [] then []
    else
      var head := JoinBulletin(bulletins[0], weeks);
      var tail := JoinWeeks(bulletins[1..], weeks);
      assert head[0] in head + tail;
      assert forall b :: b in bulletins ==> b == bulletins[0] || b in bulletins[1..];
      head + tail
  }

  function ByStart(r: GlobalRow): int
  {
    r.bulletin.start
  }

  /** `_merge_all_dfs`: the left join sorted by `start_date`. */
  function MergeWeeks(bulletins: seq<Bulletin>, weeks: seq<GogovWeek>): (r: seq<GlobalRow>)
    ensures SortedBy(r, ByStart)
    ensures multiset(r) == multiset(JoinWeeks(bulletins, weeks))
  {
    SortBy(JoinWeeks(bulletins, weeks), ByStart)
  }

  /** The bulletin weekly values summed over the first `n` rows. */
  datatype Totals = Totals(infected: int, recovered: int, deaths: int)

  function WeeklyPrefix(rows: seq<GlobalRow>, n: nat): Totals
    requires n <= |rows|
  {
    if n == 0 then Totals(0, 0, 0)
    else
      var t := WeeklyPrefix(rows, n - 1);
      var b := rows[n - 1].bulletin;
      Totals(t.infected + b.weeklyInfected, t.recovered + b.weeklyRecovered, t.deaths + b.weeklyDeaths)
  }

  /** Row `k` with its totals set to the baseline plus the weekly values of rows `0..k`. */
  function SeededRow(rows: seq<GlobalRow>, k: nat, base: Baseline): GlobalRow
    requires k < |rows|
  {
    var t := WeeklyPrefix(rows, k + 1);
    rows[k].(infected := Some(base.infected + t.infected),
             recovered := Some(base.recovered + t.recovered),
             deaths := Some(base.deaths + t.deaths))
  }

  /** The frame after `_add_cumulative_stats`. */
  function Seeded(rows: seq<GlobalRow>, base: Baseline): (r: seq<GlobalRow>)
    ensures |r| == |rows|
    ensures forall k :: 0 <= k < |rows| ==> r[k] == SeededRow(rows, k, base)
  {
    seq(|rows|, k requires 0 <= k < |rows| => SeededRow(rows, k, base))
  }

  /**
   * The seeded chain: the first row's totals are the baseline plus its
   * weekly values, each later row's the previous row's plus its own weekly
   * values; the bulletin and vaccination cells are kept.
   */
  /** The bulletin's weekly values are not negative. */
  predicate NonNegativeWeekly(b: Bulletin)
  {
    b.weeklyInfected >= 0 && b.weeklyRecovered >= 0 && b.weeklyDeaths >= 0
  }

  lemma SeededChain(rows: seq<GlobalRow>, base: Baseline, k: nat)
    requires k < |rows|
    ensures var r := Seeded(rows, base);
      var b := rows[k].bulletin;
      r[k].bulletin == b && r[k].vaccination == rows[k].vaccination
      && r[k].infected.Some? && r[k].recovered.Some? && r[k].deaths.Some?
      && (k == 0 ==> r[k].infected.value == base.infected + b.weeklyInfected
                     && r[k].recovered.value == base.recovered + b.weeklyRecovered
                     && r[k].deaths.value == base.deaths + b.weeklyDeaths)
      && (k > 0 ==> r[k].infected.value == r[k - 1].infected.value + b.weeklyInfected
                    && r[k].recovered.value == r[k - 1].recovered.value + b.weeklyRecovered
                    && r[k].deaths.value == r[k - 1].deaths.value + b.weeklyDeaths)
  {
    assert WeeklyPrefix(rows, 0) == Totals(0, 0, 0);
  }

  lemma {:induction false} WeeklyPrefixMonotone(rows: seq<GlobalRow>, j: nat, k: nat)
    requires j <= k <= |rows|
    requires forall i :: 0 <= i < |rows| ==> NonNegativeWeekly(rows[i].bulletin)
    ensures WeeklyPrefix(rows, j).infected <= WeeklyPrefix(rows, k).infected
    ensures WeeklyPrefix(rows, j).recovered <= WeeklyPrefix(rows, k).recovered
    ensures WeeklyPrefix(rows, j).deaths <= WeeklyPrefix(rows, k).deaths
    decreases k - j
  {
    if j < k {
      WeeklyPrefixMonotone(rows, j, k - 1);
    }
  }

  /** With non-negative weekly values the totals never decrease, and never fall below the baseline. */
  lemma SeededMonotone(rows: seq<GlobalRow>, base: Baseline, j: nat, k: nat)
    requires j <= k < |rows|
    requires forall i :: 0 <= i < |rows| ==> NonNegativeWeekly(rows[i].bulletin)
    ensures var r := Seeded(rows, base);
      base.infected <= r[j].infected.value <= r[k].infected.value
      && base.recovered <= r[j].recovered.value <= r[k].recovered.value
      && base.deaths <= r[j].deaths.value <= r[k].deaths.value
  {
    WeeklyPrefixMonotone(rows, 0, j + 1);
    WeeklyPrefixMonotone(rows, j + 1, k + 1);
  }

  /** A result frame passed by reference, its rows written cell by cell. */
  class ResultFrame {
    var rows: seq<GlobalRow>

    constructor (rows: seq<GlobalRow>)
      ensures this.rows == rows
    {
      this.rows := rows;
    }
  }

  /** Everything of row `r` except the three totals, which are null. */
  function Cleared(r: GlobalRow): GlobalRow
  {
    r.(infected := None, recovered := None, deaths := None)
  }

  /** The whole run of `GlobalDataTransformer`, as a value. */
  function RunSpec(latest: bool, base: Baseline, bulletins: seq<Bulletin>, readings: seq<Reading>,
                   rateStats: seq<GlobalRow> -> seq<GlobalRow>): Parsed<seq<GlobalRow>>
  {
    if latest && bulletins == [] then Raises(IndexError)
    else
      match TransformGogov(latest, base, readings, bulletins)
      case Raises(e) => Raises(e)
      case Returns(weeks) =>
        if weeks == [] then Returns([])
        else Returns(rateStats(Seeded(MergeWeeks(bulletins, weeks), base)))
  }

  /**
   * `GlobalDataTransformer(latest)`: `latest` selects the newest bulletin
   * only, and `baseline` stands for the stored totals read at construction.
   */
  class GlobalDataTransformer {
    const latest: bool
    const baseline: Baseline

    constructor (latest: bool, baseline: Baseline)
      ensures this.latest == latest && this.baseline == baseline
    {
      this.latest := latest;
      this.baseline := baseline;
    }

    /** The delta loop of `_transform_gogov_data`, over a frame with at least one reading. */
    method DailyDeltas(readings: seq<Reading>) returns (deltas: seq<Delta>)
      requires readings != []
      ensures deltas == Deltas(readings, latest, baseline)
    {
      deltas := [Delta(None, None, None)];
      if latest {
        var first := readings[0].firstComponent - baseline.firstComponent;
        var second := readings[0].secondComponent - baseline.secondComponent;
        deltas := [Delta(Some(first), Some(second), Some(first + second))];
      }
      var i := 1;
      while i < |readings|
        invariant 1 <= i <= |readings| && |deltas| == i
        invariant forall j :: 0 <= j < i ==> deltas[j] == DeltaAt(readings, j, latest, baseline)
      {
        var first := readings[i].firstComponent - readings[i - 1].firstComponent;
        var second := readings[i].secondComponent - readings[i - 1].secondComponent;
        deltas := deltas + [Delta(Some(first), Some(second), Some(first + second))];
        i := i + 1;
      }
    }

    /** The sums and the last reading of one bulletin week. */
    method WeekRow(readings: seq<Reading>, deltas: seq<Delta>, b: Bulletin) returns (w: Option<GogovWeek>)
      requires |readings| == |deltas|
      ensures w == WeekOf(readings, deltas, b)
    {
      var sums := Sums(0, 0, 0);
      var last: Option<Reading> := None;
      var j := 0;
      while j < |readings|
        invariant 0 <= j <= |readings|
        invariant sums == WeekDeltaSums(readings, deltas, j, b)
        invariant last == LastIn(readings, j, b)
      {
        if b.start <= readings[j].date <= b.end {
          var d := deltas[j];
          sums := Sums(sums.first + OrZero(d.first), sums.second + OrZero(d.second),
                       sums.vaccinations + OrZero(d.vaccinations));
          last := Some(readings[j]);
        }
        j := j + 1;
      }
      if last.Some? {
        w := Some(GogovWeek(b.start, b.end, sums.vaccinations, sums.first, sums.second,
                            last.value.firstComponent, last.value.secondComponent));
      } else {
        w := None;
      }
    }

    /** `_transform_gogov_data`: deltas, then one vaccination row per bulletin week with readings. */
    method TransformGogovData(readings: seq<Reading>, bulletins: seq<Bulletin>) returns (r: Parsed<seq<GogovWeek>>)
      ensures r == TransformGogov(latest, baseline, readings, bulletins)
    {
      if latest && readings == [] {
        return Raises(KeyError);
      }
      var deltas: seq<Delta> := [];
      if readings != [] {
        deltas := DailyDeltas(readings);
      }
      if bulletins == [] {
        return Raises(KeyError);
      }
      if readings == [] {
        return Raises(AttributeError);
      }
      var weeks: seq<GogovWeek> := [];
      var k := 0;
      while k < |bulletins|
        invariant 0 <= k <= |bulletins|
        invariant weeks == GogovWeeks(readings, deltas, bulletins[..k])
      {
        var w := WeekRow(readings, deltas, bulletins[k]);
        assert bulletins[..k + 1] == bulletins[..k] + [bulletins[k]];
        if w.Some? {
          weeks := weeks + [w.value];
        }
        k := k + 1;
      }
      assert bulletins[..k] == bulletins;
      return Returns(weeks);
    }

    /**
     * `_add_cumulative_stats`: the three total columns are nulled, row 0 is
     * seeded from the baseline (a frame without rows has no row 0), and each
     * later row adds its weekly values to the previous row's totals.
     */
    method AddCumulativeStats(df: ResultFrame) returns (raised: Option<Exception>)
      modifies df
      ensures raised == None <==> old(df.rows) != []
      ensures raised.Some? ==> raised == Some(KeyError) && df.rows == []
      ensures raised.None? ==> df.rows == Seeded(old(df.rows), baseline)
    {
      df.rows := seq(|df.rows|, k requires 0 <= k < |df.rows| reads df => Cleared(df.rows[k]));
      if |df.rows| == 0 {
        return Some(KeyError);
      }
      ghost var orig := old(df.rows);
      var r0 := df.rows[0];
      df.rows := df.rows[0 := r0.(infected := Some(baseline.infected + r0.bulletin.weeklyInfected),
                                  recovered := Some(baseline.recovered + r0.bulletin.weeklyRecovered),
                                  deaths := Some(baseline.deaths + r0.bulletin.weeklyDeaths))];
      assert WeeklyPrefix(orig, 0) == Totals(0, 0, 0);
      var i := 1;
      while i < |df.rows|
        invariant 1 <= i <= |df.rows| == |orig|
        invariant forall k :: 0 <= k < i ==> df.rows[k] == SeededRow(orig, k, baseline)
        invariant forall k :: i <= k < |df.rows| ==> df.rows[k] == Cleared(orig[k])
      {
        var prev, cur := df.rows[i - 1], df.rows[i];
        df.rows := df.rows[i := cur.(infected := Some(prev.infected.value + cur.bulletin.weeklyInfected),
                                     recovered := Some(prev.recovered.value + cur.bulletin.weeklyRecovered),
                                     deaths := Some(prev.deaths.value + cur.bulletin.weeklyDeaths))];
        i := i + 1;
      }
      return None;
    }

    /**
     * `run`: in latest mode the newest bulletin (row 0) is read first; the
     * vaccination rows are built; no week with readings gives `[]`;
     * otherwise the merged frame gets its totals and then `rateStats`,
     * which stands for the per-100000 and ratio steps the module imports
     * and does not define.
     */
    method Run(bulletins: seq<Bulletin>, readings: seq<Reading>, rateStats: seq<GlobalRow> -> seq<GlobalRow>)
      returns (r: Parsed<seq<GlobalRow>>)
      ensures r == RunSpec(latest, baseline, bulletins, readings, rateStats)
    {
      if latest && bulletins == [] {
        return Raises(IndexError);
      }
      var weeks := TransformGogovData(readings, bulletins);
      if weeks.Raises? {
        return Raises(weeks.error);
      }
      if weeks.value == [] || bulletins == [] {
        return Returns([]);
      }
      var df := new ResultFrame(MergeWeeks(bulletins, weeks.value));
      var raised := AddCumulativeStats(df);
      return Returns(rateStats(df.rows));
    }
  }

  /**
   * With both sources present `run` returns, and when no reading falls in
   * any bulletin week what it returns is `[]`.
   */
  lemma RunEmpty(latest: bool, base: Baseline, bulletins: seq<Bulletin>, readings: seq<Reading>,
                 rateStats: seq<GlobalRow> -> seq<GlobalRow>)
    requires bulletins != [] && readings != []
    ensures var r := RunSpec(latest, base, bulletins, readings, rateStats);
      r.Returns?
      && ((forall b, i :: b in bulletins && 0 <= i < |readings| ==> !InBulletin(readings[i], b)) ==> r.value == [])
  {
    var weeks := GogovWeeks(readings, Deltas(readings, latest, base), bulletins);
    GogovWeeksMembers(readings, Deltas(readings, latest, base), bulletins);
    if forall b, i :: b in bulletins && 0 <= i < |readings| ==> !InBulletin(readings[i], b) {
      if weeks != [] {
        var b :| b in bulletins && WeekOf(readings, Deltas(readings, latest, base), b) == Some(weeks[0]);
        WeekOfSpec(readings, latest, base, b);
      }
    }
  }

  /** The error paths of `run`: each missing source raises the exception pandas raises. */
  lemma RunErrors(latest: bool, base: Baseline, bulletins: seq<Bulletin>, readings: seq<Reading>,
                  rateStats: seq<GlobalRow> -> seq<GlobalRow>)
    ensures var r := RunSpec(latest, base, bulletins, readings, rateStats);
      (r.Raises? <==> bulletins == [] || readings == [])
      && (latest && bulletins == [] ==> r == Raises(IndexError))
      && (latest && bulletins != [] && readings == [] ==> r == Raises(KeyError))
      && (!latest && bulletins == [] ==> r == Raises(KeyError))
      && (!latest && bulletins != [] && readings == [] ==> r == Raises(AttributeError))
  {
  }
}
