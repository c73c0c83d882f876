/**
 * `regional_transformers.py`: the legacy per-region weekly resample of the
 * external daily rows, and `RegionsDataTransformer`, which extends each
 * region's stored totals along its stopcorona bulletin rows.
 */
module RegionalTransformers {
  import opened Common
  import opened Calendar
  import opened Resample
  import opened TransformingFunctions
  import opened GlobalTransformers

  // ---------------------------------------------------------------------
  // Region names in `groupby('region')` order
  // ---------------------------------------------------------------------

  /** Python's `<` on `str`: code-point order, a proper prefix first. */
  predicate LexLess(a: string, b: string)
  {
    if a == [] then b != []
    else if b == [] then false
    else a[0] < b[0] || (a[0] == b[0] && LexLess(a[1..], b[1..]))
  }

  lemma {:induction false} LexLessIrreflexive(a: string)
    ensures !LexLess(a, a)
  {
    if a != [] {
      LexLessIrreflexive(a[1..]);
    }
  }

  lemma {:induction false} LexLessTransitive(a: string, b: string, c: string)
    requires LexLess(a, b) && LexLess(b, c)
    ensures LexLess(a, c)
  {
    if a != [] && a[0] == b[0] && b[0] == c[0] {
      LexLessTransitive(a[1..], b[1..], c[1..]);
    }
  }

  lemma {:induction false} LexLessTotal(a: string, b: string)
    ensures a == b || LexLess(a, b) || LexLess(b, a)
  {
    if a != [] && b != [] && a[0] == b[0] {
      LexLessTotal(a[1..], b[1..]);
      if a[1..] == b[1..] {
        assert a == [a[0]] + a[1..] && b == [b[0]] + b[1..];
      }
    }
  }

  ghost predicate StrictlySorted(s: seq<string>)
  {
    forall i, j :: 0 <= i < j < |s| ==> LexLess(s[i], s[j])
  }

  /** Adds the name `g` to a sorted list of distinct names. */
  function InsertRegion(g: string, s: seq<string>): (r: seq<string>)
    requires StrictlySorted(s)
    ensures StrictlySorted(r)
    ensures forall x :: x in r <==> x in s || x == g
  {
    if s == [] then [g]
    else if g == s[0] then s
    else if LexLess(g, s[0]) then
      assert forall j :: 0 < j < |s| ==> LexLess(g, s[j]) by {
        forall j | 0 < j < |s|
          ensures LexLess(g, s[j])
        {
          LexLessTransitive(g, s[0], s[j]);
        }
      }
      [g] + s
    else
      var rest := InsertRegion(g, s[1..]);
      LexLessTotal(g, s[0]);
      assert forall x :: x in rest ==> LexLess(s[0], x) by {
        forall x | x in rest
          ensures LexLess(s[0], x)
        {
          if x != g {
            var j :| 0 <= j < |s[1..]| && s[1..][j] == x;
            assert s[j + 1] == x;
          }
        }
      }
      var r := [s[0]] + rest;
      assert forall i, j :: 0 < i < j < |r| ==> LexLess(r[i], r[j]) by {
        forall i, j | 0 < i < j < |r|
          ensures LexLess(r[i], r[j])
        {
          assert r[i] == rest[i - 1] && r[j] == rest[j - 1];
        }
      }
      assert forall j :: 0 < j < |r| ==> LexLess(r[0], r[j]) by {
        forall j | 0 < j < |r|
          ensures LexLess(r[0], r[j])
        {
          assert r[j] == rest[j - 1] && r[j] in rest;
        }
      }
      assert forall x :: x in s <==> x == s[0] || x in s[1..] by {
        assert s == [s[0]] + s[1..];
      }
      r
  }

  /** One row of the external regional source: a region name and its daily counters. */
  datatype RegionDay = RegionDay(region: string, day: DayRow)

  /** The distinct region names of the rows in increasing order: the groups of `groupby('region')`. */
  function Regions(rows: seq<RegionDay>): (r: seq<string>)
    ensures StrictlySorted(r)
    ensures forall g :: g in r <==> exists x :: x in rows && x.region == g
    decreases |rows|
  {
    if rows == [] then []
    else
      var init, last := rows[..|rows| - 1], rows[|rows| - 1];
      assert forall x :: x in rows <==> x in init || x == last by {
        assert rows == init + [last];
      }
      InsertRegion(last.region, Regions(init))
  }

  /** Distinct positions of a strictly sorted list hold distinct names. */
  lemma SortedDistinct(s: seq<string>, i: nat, j: nat)
    requires StrictlySorted(s) && i < j < |s|
    ensures s[i] != s[j]
  {
    LexLessIrreflexive(s[i]);
  }

  // ---------------------------------------------------------------------
  // LegacyRegionalDataTransformer
  // ---------------------------------------------------------------------

  /** The daily rows of region `g`, in input order. */
  function DaysOf(rows: seq<RegionDay>, g: string): seq<DayRow>
    decreases |rows|
  {
    if rows == [] then []
    else
      var last := rows[|rows| - 1];
      DaysOf(rows[..|rows| - 1], g) + (if last.region == g then [last.day] else [])
  }

  /** Sum of column `c` over the rows of region `g` dated within the week ending on `end`. */
  function RegionWindowSum(rows: seq<RegionDay>, g: string, c: Counter, end: int): int
    decreases |rows|
  {
    if rows == [] then 0
    else
      var last := rows[|rows| - 1];
      RegionWindowSum(rows[..|rows| - 1], g, c, end)
      + (if last.region == g && InWeek(last.day.date, end) then Val(last.day, c) else 0)
  }

  lemma {:induction false} WindowSumSnoc(rows: seq<DayRow>, x: DayRow, c: Counter, end: int)
    ensures WindowSum(rows + [x], c, end) == WindowSum(rows, c, end) + (if InWeek(x.date, end) then Val(x, c) else 0)
  {
    assert (rows + [x])[..|rows + [x]| - 1] == rows;
  }

  /** A region's group holds only that region's rows: its window sums read nothing else. */
  lemma {:induction false} RegionWindow(rows: seq<RegionDay>, g: string, c: Counter, end: int)
    ensures WindowSum(DaysOf(rows, g), c, end) == RegionWindowSum(rows, g, c, end)
    decreases |rows|
  {
    if rows != [] {
      var init, last := rows[..|rows| - 1], rows[|rows| - 1];
      RegionWindow(init, g, c, end);
      if last.region == g {
        WindowSumSnoc(DaysOf(init, g), last.day, c, end);
      } else {
        assert DaysOf(rows, g) == DaysOf(init, g);
      }
    }
  }

  /** The weekly rows of region `g`: its resample, renamed, labelled with the region. */
  function RegionWeeks(g: string, days: seq<DayRow>): (r: seq<WeekRow>)
    ensures |r| == |WeeklySums(days, ExternalCounters)|
  {
    var b := WeeklySums(days, ExternalCounters);
    seq(|b|, k requires 0 <= k < |b| => WeekOfBucket(b[k]).(region := Some(g)))
  }

  /** The weekly rows of the listed regions, one block per region in list order. */
  function PerRegion(rows: seq<RegionDay>, regions: seq<string>): seq<WeekRow>
    decreases |regions|
  {
    if regions == [] then [] else RegionWeeks(regions[0], DaysOf(rows, regions[0])) + PerRegion(rows, regions[1..])
  }

  /** `groupby('region').resample('W-MON', on='date').sum()`, renamed, with `start_date = end_date - 6`. */
  function WeeklyByRegion(rows: seq<RegionDay>): seq<WeekRow>
  {
    PerRegion(rows, Regions(rows))
  }

  /** The weekly columns of the regional frame. */
  const RegionalWeeklyColumns: set<Column> := {WeeklyDeaths, WeeklyInfected, WeeklyRecovered}

  /** A weekly row of region `g` as the resample builds it. */
  ghost predicate RegionWeekRow(o: WeekRow, rows: seq<RegionDay>, g: string)
  {
    o.region == Some(g)
    && IsMonday(o.end) && o.start == o.end - 6
    && o.cells.Keys == RegionalWeeklyColumns
    && forall c :: c in ExternalCounters ==> o.cells[WeeklyColumn(c)] == RegionWindowSum(rows, g, c, o.end)
  }

  /** The renamed sums of a regional bucket hold exactly the three weekly columns. */
  lemma RenamedKeys(b: Bucket)
    requires b.sums.Keys == ExternalCounters
    ensures WeekOfBucket(b).cells.Keys == RegionalWeeklyColumns
  {
    var m := WeekOfBucket(b).cells;
    assert WeeklyColumn(DeathPerDay) in m && WeeklyColumn(InfectionPerDay) in m && WeeklyColumn(RecoveryPerDay) in m;
    forall col | col in m
      ensures col in RegionalWeeklyColumns
    {
      var c :| c in b.sums && WeeklyColumn(c) == col;
    }
  }

  /** The `k`-th weekly row of region `g` is the renamed `k`-th bucket of its resample. */
  lemma RegionWeeksAt(g: string, days: seq<DayRow>, k: nat)
    requires k < |RegionWeeks(g, days)|
    ensures RegionWeeks(g, days)[k] == WeekOfBucket(WeeklySums(days, ExternalCounters)[k]).(region := Some(g))
  {
  }

  lemma RegionWeekCell(rows: seq<RegionDay>, g: string, k: nat, c: Counter)
    requires k < |RegionWeeks(g, DaysOf(rows, g))| && c in ExternalCounters
    ensures var o := RegionWeeks(g, DaysOf(rows, g))[k];
      WeeklyColumn(c) in o.cells && o.cells[WeeklyColumn(c)] == RegionWindowSum(rows, g, c, o.end)
  {
    var days := DaysOf(rows, g);
    var b := WeeklySums(days, ExternalCounters)[k];
    RegionWeeksAt(g, days, k);
    WeeklySumsAt(days, ExternalCounters, k, c);
    WeekOfBucketCell(b, c);
    RegionWindow(rows, g, c, b.end);
  }

  lemma RegionWeeksSpec(rows: seq<RegionDay>, g: string, k: nat)
    requires k < |RegionWeeks(g, DaysOf(rows, g))|
    ensures RegionWeekRow(RegionWeeks(g, DaysOf(rows, g))[k], rows, g)
  {
    var b := WeeklySums(DaysOf(rows, g), ExternalCounters)[k];
    RegionWeeksAt(g, DaysOf(rows, g), k);
    RenamedKeys(b);
    forall c | c in ExternalCounters
      ensures var o := RegionWeeks(g, DaysOf(rows, g))[k];
        o.cells[WeeklyColumn(c)] == RegionWindowSum(rows, g, c, o.end)
    {
      RegionWeekCell(rows, g, k, c);
    }
  }

  /** Every row of the per-region weekly frame is a weekly row of the listed region it is labelled with. */
  lemma {:induction false} PerRegionSpec(rows: seq<RegionDay>, regions: seq<string>, i: nat)
    requires i < |PerRegion(rows, regions)|
    ensures PerRegion(rows, regions)[i].region.Some?
    ensures PerRegion(rows, regions)[i].region.value in regions
    ensures RegionWeekRow(PerRegion(rows, regions)[i], rows, PerRegion(rows, regions)[i].region.value)
    decreases |regions|
  {
    var all := PerRegion(rows, regions);
    var head := RegionWeeks(regions[0], DaysOf(rows, regions[0]));
    var tail := PerRegion(rows, regions[1..]);
    assert all == head + tail;
    if i < |head| {
      assert all[i] == head[i];
      RegionWeeksSpec(rows, regions[0], i);
    } else {
      assert all[i] == tail[i - |head|];
      PerRegionSpec(rows, regions[1..], i - |head|);
      var g := tail[i - |head|].region.value;
      var j :| 0 <= j < |regions[1..]| && regions[1..][j] == g;
      assert regions[j + 1] == g;
    }
  }

  /** The bucket labels of a resample are one week apart. */
  lemma {:induction false} WeeklyEndsStep(days: seq<DayRow>, k: nat)
    requires k < |WeeklySums(days, ExternalCounters)|
    ensures WeeklySums(days, ExternalCounters)[k].end == WeeklySums(days, ExternalCounters)[0].end + 7 * k
  {
    if k > 0 {
      WeeklyEndsStep(days, k - 1);
    }
  }

  /** One region's weeks start on distinct days. */
  lemma RegionWeeksDistinct(g: string, days: seq<DayRow>)
    ensures DistinctGroups(RegionWeeks(g, days), true)
    ensures forall k :: 0 <= k < |RegionWeeks(g, days)| ==> RegionWeeks(g, days)[k].region == Some(g)
  {
    var b := WeeklySums(days, ExternalCounters);
    var r := RegionWeeks(g, days);
    forall i, j | 0 <= i < j < |r|
      ensures !SameGroup(r[i], r[j], true)
    {
      WeeklyEndsStep(days, i);
      WeeklyEndsStep(days, j);
      assert r[i].start == b[i].end - 6 && r[j].start == b[j].end - 6;
    }
  }

  /** Appending the weeks of a region not among the later ones keeps the groups distinct. */
  lemma AppendDistinct(head: seq<WeekRow>, tail: seq<WeekRow>, g: string, others: seq<string>)
    requires DistinctGroups(head, true) && DistinctGroups(tail, true)
    requires forall k :: 0 <= k < |head| ==> head[k].region == Some(g)
    requires forall k :: 0 <= k < |tail| ==> tail[k].region.value in others
    requires g !in others
    ensures DistinctGroups(head + tail, true)
  {
    var all := head + tail;
    forall i, j | 0 <= i < j < |all|
      ensures !SameGroup(all[i], all[j], true)
    {
      if j < |head| {
        assert all[i] == head[i] && all[j] == head[j];
      } else if i < |head| {
        assert all[i] == head[i] && all[j] == tail[j - |head|];
      } else {
        assert all[i] == tail[i - |head|] && all[j] == tail[j - |head|];
      }
    }
    forall i | 0 <= i < |all|
      ensures all[i].region.Some?
    {
      if i < |head| {
        assert all[i] == head[i];
      } else {
        assert all[i] == tail[i - |head|];
      }
    }
  }

  /** No two rows of the per-region frame share region and week. */
  lemma {:induction false} PerRegionDistinct(rows: seq<RegionDay>, regions: seq<string>)
    requires StrictlySorted(regions)
    ensures DistinctGroups(PerRegion(rows, regions), true)
    ensures forall i :: 0 <= i < |PerRegion(rows, regions)| ==> PerRegion(rows, regions)[i].region.value in regions
    decreases |regions|
  {
    if regions != [] {
      var g := regions[0];
      var head := RegionWeeks(g, DaysOf(rows, g));
      var tail := PerRegion(rows, regions[1..]);
      assert PerRegion(rows, regions) == head + tail;
      assert StrictlySorted(regions[1..]);
      PerRegionDistinct(rows, regions[1..]);
      assert DistinctGroups(head + tail, true) by {
        RegionWeeksDistinct(g, DaysOf(rows, g));
        assert g !in regions[1..] by {
          forall h | 0 <= h < |regions[1..]|
            ensures regions[1..][h] != g
          {
            SortedDistinct(regions, 0, h + 1);
          }
        }
        AppendDistinct(head, tail, g, regions[1..]);
      }
      var all := head + tail;
      forall i | 0 <= i < |all|
        ensures all[i].region.value in regions
      {
        if i < |head| {
          assert all[i] == head[i];
        } else {
          assert all[i] == tail[i - |head|];
        }
      }
    }
  }

  /**
   * `_transform_external_data` as written: `external_data.apply(f)` without
   * `axis=1` passes each column to `f`, whose `row.date` finds no `date`
   * label and raises AttributeError; a source without rows has no `date`
   * column and raises KeyError first. The frame never reaches the
   * transforms.
   */
  function TransformExternalData(rows: seq<RegionDay>): (r: Parsed<FrameState>)
    ensures r.Raises?
    ensures rows == [] ==> r.error == KeyError
    ensures rows != [] ==> r.error == AttributeError
  {
    if rows == [] then Raises(KeyError) else Raises(AttributeError)
  }

  /**
   * `_transform_external_data` with only the `apply` corrected (`axis=1`):
   * the weekly frame reaches `apply_all_transforms`, whose ratio statistics
   * read `weekly_vaccinations`, a column regional frames lack; and on
   * success it would return None, since the transforms return nothing.
   */
  function TransformExternalDataAxisFixed(rows: seq<RegionDay>): (r: Parsed<Option<FrameState>>)
    ensures r.Returns? ==> r.value == None
  {
    if rows == [] then Raises(KeyError)
    else
      var out := TransformsOutcome(FrameState(RegionalWeeklyColumns, WeeklyByRegion(rows)), true);
      if out.0.Some? then Raises(out.0.value) else Returns(None)
  }

  /**
   * Correcting the `apply` alone is not enough: every regional frame with
   * a week raises, KeyError for the vaccination column, or
   * ZeroDivisionError when the first week has no infections.
   */
  lemma AxisFixedStillRaises(rows: seq<RegionDay>)
    ensures TransformExternalDataAxisFixed(rows).Raises? <==> rows == [] || WeeklyByRegion(rows) != []
    ensures TransformExternalDataAxisFixed(rows).Raises? ==>
      TransformExternalDataAxisFixed(rows).error in {KeyError, ZeroDivisionError}
  {
    if rows != [] {
      var s := FrameState(RegionalWeeklyColumns, WeeklyByRegion(rows));
      assert TransformsOutcome(s, true).0.Some? <==> s.rows != [] by {
        assert WeeklyReads(true) <= s.columns && WeeklyVaccinations !in s.columns;
        TransformsSucceed(s, true);
      }
    }
  }

  /**
   * `_transform_external_data` as evidently intended: `start_date` computed
   * per row and the transformed frame returned, i.e. the per-region weekly
   * rows with the region-grouped cumulative totals. The two statistics
   * steps add nothing to it: as written they compute columns that are then
   * discarded, and they raise on a regional frame (see
   * `AxisFixedStillRaises`).
   */
  function TransformExternalDataIntended(rows: seq<RegionDay>): (r: Parsed<FrameState>)
    ensures r.Raises? <==> rows == []
    ensures r.Returns? ==> |r.value.rows| == |WeeklyByRegion(rows)|
  {
    if rows == [] then Raises(KeyError)
    else Returns(Assignments(FrameState(RegionalWeeklyColumns, WeeklyByRegion(rows)), CumulativePairs(true), true).1)
  }

  /** The intended frame carries every column the region-aware ratio statistics mean to read. */
  lemma IntendedFrameHasRatioColumns(rows: seq<RegionDay>)
    requires rows != []
    ensures RatioReadsIntended(true) <= TransformExternalDataIntended(rows).value.columns
    ensures !(RatioReads <= TransformExternalDataIntended(rows).value.columns)
  {
    var s := FrameState(RegionalWeeklyColumns, WeeklyByRegion(rows));
    CumulativePairsShape(true, s.columns);
    AssignmentsOutcome(s, CumulativePairs(true), true, TotalWrites(true));
  }

  /** As written, every input without an exception-free path: the intended frame is never produced. */
  lemma TransformExternalDataNeverReturns(rows: seq<RegionDay>)
    requires rows != []
    ensures TransformExternalData(rows) == Raises(AttributeError)
    ensures TransformExternalDataIntended(rows).Returns?
  {
  }

  /** Each row of the intended weekly frame is a weekly row of the input region it is labelled with. */
  lemma WeeklyByRegionSpec(rows: seq<RegionDay>, k: nat)
    requires k < |WeeklyByRegion(rows)|
    ensures var o := WeeklyByRegion(rows)[k];
      o.region.Some? && (exists x :: x in rows && x.region == o.region.value) && RegionWeekRow(o, rows, o.region.value)
  {
    PerRegionSpec(rows, Regions(rows), k);
  }

  /** The regional pairs read weekly columns of the regional frame and write three distinct total columns. */
  lemma RegionalPairsFit()
    ensures |CumulativePairs(true)| == 3
    ensures CumulativePairs(true)[0] == (Recovered, WeeklyRecovered)
    ensures CumulativePairs(true)[1] == (Deaths, WeeklyDeaths)
    ensures CumulativePairs(true)[2] == (Infected, WeeklyInfected)
  {
  }

  /** Three pairs reading the regional weekly columns and writing distinct total columns. */
  lemma RegionalPairsDistinct(pairs: seq<(Column, Column)>)
    requires |pairs| == 3 && pairs[0] == (Recovered, WeeklyRecovered) && pairs[1] == (Deaths, WeeklyDeaths)
    requires pairs[2] == (Infected, WeeklyInfected)
    ensures forall p :: p in pairs ==> p.1 in RegionalWeeklyColumns && p.0 != WeeklyInfected
    ensures forall p, q :: p in pairs && q in pairs ==> p.0 != q.1
    ensures forall i, j :: 0 <= i < j < |pairs| ==> pairs[j].0 != pairs[i].0
  {
    forall p | p in pairs
      ensures p.1 in RegionalWeeklyColumns && p.0 != WeeklyInfected
    {
      var i :| 0 <= i < 3 && pairs[i] == p;
    }
    forall p, q | p in pairs && q in pairs
      ensures p.0 != q.1
    {
      var i :| 0 <= i < 3 && pairs[i] == p;
      var j :| 0 <= j < 3 && pairs[j] == q;
    }
  }

  /** The assignments of three pairs writing distinct totals from the regional weekly columns. */
  lemma RegionalAssignmentsOf(s: FrameState, pairs: seq<(Column, Column)>, k: nat)
    requires s.columns == RegionalWeeklyColumns && DistinctGroups(s.rows, true) && k < |s.rows|
    requires |pairs| == 3 && pairs[0] == (Recovered, WeeklyRecovered) && pairs[1] == (Deaths, WeeklyDeaths)
    requires pairs[2] == (Infected, WeeklyInfected)
    ensures var o := Assignments(s, pairs, true).1.rows[k];
      o.region == s.rows[k].region && o.start == s.rows[k].start
      && Cell(o, Infected) == Cell(s.rows[k], WeeklyInfected)
      && Cell(o, Recovered) == Cell(s.rows[k], WeeklyRecovered)
      && Cell(o, Deaths) == Cell(s.rows[k], WeeklyDeaths)
      && Cell(o, WeeklyInfected) == Cell(s.rows[k], WeeklyInfected)
  {
    RegionalPairsDistinct(pairs);
    AssignmentsOfDistinctGroups(s, pairs, true, k, 0);
    AssignmentsOfDistinctGroups(s, pairs, true, k, 1);
    AssignmentsOfDistinctGroups(s, pairs, true, k, 2);
    AssignmentsKeepOtherCells(s, pairs, true, k, WeeklyInfected);
  }

  /** The region-grouped totals of a frame without repeated (region, week) groups. */
  lemma RegionalAssignments(s: FrameState, k: nat)
    requires s.columns == RegionalWeeklyColumns && DistinctGroups(s.rows, true) && k < |s.rows|
    ensures var o := Assignments(s, CumulativePairs(true), true).1.rows[k];
      o.region == s.rows[k].region && o.start == s.rows[k].start
      && Cell(o, Infected) == Cell(s.rows[k], WeeklyInfected)
      && Cell(o, Recovered) == Cell(s.rows[k], WeeklyRecovered)
      && Cell(o, Deaths) == Cell(s.rows[k], WeeklyDeaths)
      && Cell(o, WeeklyInfected) == Cell(s.rows[k], WeeklyInfected)
  {
    RegionalPairsFit();
    RegionalAssignmentsOf(s, CumulativePairs(true), k);
  }

  /**
   * The intended frame: because the totals are grouped by region and week,
   * each total equals the row's own weekly value (nothing accumulates
   * across weeks), and the weekly values and labels are kept.
   */
  lemma TransformExternalDataIntendedTotals(rows: seq<RegionDay>, k: nat)
    requires rows != [] && k < |WeeklyByRegion(rows)|
    ensures var w := WeeklyByRegion(rows)[k];
      var o := TransformExternalDataIntended(rows).value.rows[k];
      o.region == w.region && o.start == w.start
      && Cell(o, Infected) == Cell(w, WeeklyInfected)
      && Cell(o, Recovered) == Cell(w, WeeklyRecovered)
      && Cell(o, Deaths) == Cell(w, WeeklyDeaths)
      && Cell(o, WeeklyInfected) == Cell(w, WeeklyInfected)
  {
    PerRegionDistinct(rows, Regions(rows));
    RegionalAssignments(FrameState(RegionalWeeklyColumns, WeeklyByRegion(rows)), k);
  }

  // ---------------------------------------------------------------------
  // RegionsDataTransformer
  // ---------------------------------------------------------------------

  /** A regional stopcorona bulletin row, after the rename to weekly columns. */
  datatype RegionBulletin = RegionBulletin(region: string, start: int, end: int,
                                           weeklyInfected: int, weeklyRecovered: int, weeklyDeaths: int)

  /** A regional row: its bulletin and its total cells. */
  datatype RegionRow = RegionRow(bulletin: RegionBulletin, infected: Option<int>, recovered: Option<int>, deaths: Option<int>)

  /** A regional frame passed by reference, written cell by cell. */
  class RegionFrame {
    var rows: seq<RegionRow>

    constructor (rows: seq<RegionRow>)
      ensures this.rows == rows
    {
      this.rows := rows;
    }
  }

  /** The weekly values of region `g` summed over the first `n` rows. */
  function RegionPrefix(rows: seq<RegionRow>, n: nat, g: string): Totals
    requires n <= |rows|
  {
    if n == 0 then Totals(0, 0, 0)
    else
      var t := RegionPrefix(rows, n - 1, g);
      var b := rows[n - 1].bulletin;
      if b.region == g then Totals(t.infected + b.weeklyInfected, t.recovered + b.weeklyRecovered, t.deaths + b.weeklyDeaths)
      else t
  }

  /** Row `k` with its totals set to the stored totals plus its region's weekly values up to row `k`. */
  function ChainRow(rows: seq<RegionRow>, k: nat, base: Totals): RegionRow
    requires k < |rows|
  {
    var t := RegionPrefix(rows, k + 1, rows[k].bulletin.region);
    rows[k].(infected := Some(base.infected + t.infected),
             recovered := Some(base.recovered + t.recovered),
             deaths := Some(base.deaths + t.deaths))
  }

  /** The frame after the chain of region `g`, seeded with `base`: other regions' rows are kept. */
  function WithRegionTotals(rows: seq<RegionRow>, g: string, base: Totals): (r: seq<RegionRow>)
    ensures |r| == |rows|
    ensures forall k :: 0 <= k < |rows| ==> r[k] == if rows[k].bulletin.region == g then ChainRow(rows, k, base) else rows[k]
  {
    seq(|rows|, k requires 0 <= k < |rows| => if rows[k].bulletin.region == g then ChainRow(rows, k, base) else rows[k])
  }

  predicate HasRegion(rows: seq<RegionRow>, g: string)
  {
    exists k :: 0 <= k < |rows| && rows[k].bulletin.region == g
  }

  /**
   * `_add_cumulative_stats` over the stored totals in dictionary order: a
   * region without bulletin rows has no row 0 and raises KeyError, leaving
   * the earlier regions done.
   */
  function RegionTotals(rows: seq<RegionRow>, stored: seq<(string, Totals)>): (r: (Option<Exception>, seq<RegionRow>))
    ensures |r.1| == |rows|
    ensures r.0.None? || r.0 == Some(KeyError)
    ensures forall k :: 0 <= k < |rows| ==> r.1[k].bulletin == rows[k].bulletin
    decreases |stored|
  {
    if stored == [] then (None, rows)
    else if !HasRegion(rows, stored[0].0) then (Some(KeyError), rows)
    else RegionTotals(WithRegionTotals(rows, stored[0].0, stored[0].1), stored[1..])
  }

  /**
   * `_add_cumulative_stats` as written: `run` has already renamed
   * `infected` to `weekly_infected`, so the first stored region's
   * `region_data['infected']` raises KeyError (the frame's rows are taken
   * to carry the stopcorona fields). Nothing reaches the frame: the writes
   * would go to the filtered copy `region_data`.
   */
  function RegionTotalsAsWritten(rows: seq<RegionRow>, stored: seq<(string, Totals)>): (r: (Option<Exception>, seq<RegionRow>))
    ensures r.1 == rows
    ensures r.0.Some? <==> stored != []
    ensures r.0.None? || r.0 == Some(KeyError)
  {
    if stored == [] then (None, rows) else (Some(KeyError), rows)
  }

  /**
   * A stored region with bulletin rows: as written the loop raises at its
   * first turn, where the intended chain seeds the region's totals from
   * the stored ones.
   */
  lemma RegionTotalsAsWrittenRaises(rows: seq<RegionRow>, stored: seq<(string, Totals)>)
    requires stored != [] && HasRegion(rows, stored[0].0)
    ensures RegionTotalsAsWritten(rows, stored) == (Some(KeyError), rows)
    ensures RegionTotals(rows, stored[..1]) == (None, WithRegionTotals(rows, stored[0].0, stored[0].1))
  {
    assert stored[..1][1..] == [];
  }

  /** Positions of the rows of region `g` among the first `n`, in order (the filtered frame). */
  function RegionPositions(rows: seq<RegionRow>, g: string, n: nat): (pos: seq<nat>)
    requires n <= |rows|
    ensures |pos| <= n
  {
    if n == 0 then [] else RegionPositions(rows, g, n - 1) + (if rows[n - 1].bulletin.region == g then [n - 1] else [])
  }

  /** The positions are increasing, each is a row of region `g`, and every row of `g` among the first `n` is listed. */
  lemma {:induction false} RegionPositionsSpec(rows: seq<RegionRow>, g: string, n: nat)
    requires n <= |rows|
    ensures forall i :: 0 <= i < |RegionPositions(rows, g, n)| ==> RegionPositions(rows, g, n)[i] < n
    ensures forall i :: 0 <= i < |RegionPositions(rows, g, n)| ==> rows[RegionPositions(rows, g, n)[i]].bulletin.region == g
    ensures forall i, j :: 0 <= i < j < |RegionPositions(rows, g, n)| ==> RegionPositions(rows, g, n)[i] < RegionPositions(rows, g, n)[j]
    ensures forall k :: 0 <= k < n && rows[k].bulletin.region == g ==> k in RegionPositions(rows, g, n)
  {
    if n > 0 {
      RegionPositionsSpec(rows, g, n - 1);
      var prev := RegionPositions(rows, g, n - 1);
      var pos := RegionPositions(rows, g, n);
      if rows[n - 1].bulletin.region == g {
        assert pos == prev + [n - 1];
        forall i | 0 <= i < |pos|
          ensures pos[i] < n && rows[pos[i]].bulletin.region == g
        {
          if i < |prev| {
            assert pos[i] == prev[i] && prev[i] < n - 1;
          } else {
            assert pos[i] == n - 1;
          }
        }
        forall i, j | 0 <= i < j < |pos|
          ensures pos[i] < pos[j]
        {
          assert pos[i] == prev[i];
        }
        forall k | 0 <= k < n && rows[k].bulletin.region == g
          ensures k in pos
        {
          if k < n - 1 {
            assert k in prev;
          } else {
            assert pos[|prev|] == k;
          }
        }
      } else {
        assert pos == prev;
      }
    }
  }

  lemma {:induction false} RegionPrefixSkip(rows: seq<RegionRow>, lo: nat, hi: nat, g: string)
    requires lo <= hi <= |rows|
    requires forall k :: lo <= k < hi ==> rows[k].bulletin.region != g
    ensures RegionPrefix(rows, hi, g) == RegionPrefix(rows, lo, g)
    decreases hi - lo
  {
    if lo < hi {
      RegionPrefixSkip(rows, lo, hi - 1, g);
    }
  }

  /** The rows strictly between two consecutive positions of a region belong to other regions. */
  lemma PositionsGap(rows: seq<RegionRow>, g: string, pos: seq<nat>, i: nat)
    requires pos == RegionPositions(rows, g, |rows|) && i < |pos|
    ensures pos[i] < |rows|
    ensures forall k :: (if i == 0 then 0 else pos[i - 1] + 1) <= k < pos[i] ==> rows[k].bulletin.region != g
  {
    RegionPositionsSpec(rows, g, |rows|);
    forall k | (if i == 0 then 0 else pos[i - 1] + 1) <= k < pos[i]
      ensures rows[k].bulletin.region != g
    {
      forall j | 0 <= j < |pos|
        ensures pos[j] != k
      {
        if j + 1 < i {
          assert pos[j] < pos[i - 1];
        } else if j > i {
          assert pos[i] < pos[j];
        }
      }
    }
  }

  /** Row `cur` with its totals set to `t` plus its own weekly values. */
  function PlusWeekly(cur: RegionRow, t: Totals): (r: RegionRow)
    ensures r.bulletin == cur.bulletin && r.infected.Some? && r.recovered.Some? && r.deaths.Some?
  {
    cur.(infected := Some(t.infected + cur.bulletin.weeklyInfected),
         recovered := Some(t.recovered + cur.bulletin.weeklyRecovered),
         deaths := Some(t.deaths + cur.bulletin.weeklyDeaths))
  }

  /** The totals a chained row holds. */
  function TotalsOf(r: RegionRow): Totals
    requires r.infected.Some? && r.recovered.Some? && r.deaths.Some?
  {
    Totals(r.infected.value, r.recovered.value, r.deaths.value)
  }

  /**
   * The chain of one region: a region's first row gets the stored totals
   * plus its weekly values.
   */
  lemma RegionChainFirst(rows: seq<RegionRow>, g: string, base: Totals, k: nat)
    requires k < |rows| && rows[k].bulletin.region == g
    requires forall m :: 0 <= m < k ==> rows[m].bulletin.region != g
    ensures ChainRow(rows, k, base) == PlusWeekly(rows[k], base)
  {
    RegionPrefixSkip(rows, 0, k, g);
    assert RegionPrefix(rows, 0, g) == Totals(0, 0, 0);
  }

  /** Every later row of the region gets the totals of the region's previous row plus its own weekly values. */
  lemma RegionChain(rows: seq<RegionRow>, g: string, base: Totals, j: nat, k: nat)
    requires j < k < |rows|
    requires rows[j].bulletin.region == g && rows[k].bulletin.region == g
    requires forall m :: j < m < k ==> rows[m].bulletin.region != g
    ensures ChainRow(rows, k, base) == PlusWeekly(rows[k], TotalsOf(ChainRow(rows, j, base)))
  {
    RegionPrefixSkip(rows, j + 1, k, g);
  }

  /** The region's rows up to position `last` are chained; every other row is as it was. */
  ghost predicate ChainedUpTo(orig: seq<RegionRow>, g: string, base: Totals, rows: seq<RegionRow>, last: int)
  {
    |rows| == |orig|
    && forall m :: 0 <= m < |orig| ==>
      rows[m] == if orig[m].bulletin.region == g && m <= last then ChainRow(orig, m, base) else orig[m]
  }

  /** Writing the region's first row starts the chain. */
  lemma ChainFirstStep(orig: seq<RegionRow>, g: string, base: Totals, pos: seq<nat>)
    requires pos == RegionPositions(orig, g, |orig|) && |pos| > 0
    ensures pos[0] < |orig|
    ensures ChainedUpTo(orig, g, base, orig[pos[0] := PlusWeekly(orig[pos[0]], base)], pos[0])
  {
    RegionPositionsSpec(orig, g, |orig|);
    PositionsGap(orig, g, pos, 0);
    RegionChainFirst(orig, g, base, pos[0]);
  }

  /** Writing the region's next row from the previous one extends the chain by one row. */
  lemma ChainNextStep(orig: seq<RegionRow>, g: string, base: Totals, pos: seq<nat>, i: nat, rows: seq<RegionRow>)
    requires pos == RegionPositions(orig, g, |orig|) && 0 < i < |pos|
    requires ChainedUpTo(orig, g, base, rows, pos[i - 1])
    ensures pos[i - 1] < pos[i] < |rows|
    ensures rows[pos[i - 1]] == ChainRow(orig, pos[i - 1], base)
    ensures rows[pos[i]] == orig[pos[i]]
    ensures ChainedUpTo(orig, g, base, rows[pos[i] := PlusWeekly(orig[pos[i]], TotalsOf(ChainRow(orig, pos[i - 1], base)))], pos[i])
  {
    RegionPositionsSpec(orig, g, |orig|);
    PositionsGap(orig, g, pos, i);
    RegionChain(orig, g, base, pos[i - 1], pos[i]);
  }

  /** The positions of the rows of region `g`: the filter `stopcorona_data.region == key`. */
  method FindRegionRows(rows: seq<RegionRow>, g: string) returns (pos: seq<nat>)
    ensures pos == RegionPositions(rows, g, |rows|)
    ensures |pos| == 0 <==> !HasRegion(rows, g)
  {
    pos := [];
    var k := 0;
    while k < |rows|
      invariant 0 <= k <= |rows|
      invariant pos == RegionPositions(rows, g, k)
    {
      if rows[k].bulletin.region == g {
        pos := pos + [k];
      }
      k := k + 1;
    }
    RegionPositionsFound(rows, g);
  }

  /** A region has positions exactly when it has a row. */
  lemma {:induction false} RegionPositionsFound(rows: seq<RegionRow>, g: string)
    ensures |RegionPositions(rows, g, |rows|)| == 0 <==> !HasRegion(rows, g)
  {
    var pos := RegionPositions(rows, g, |rows|);
    if HasRegion(rows, g) {
      var m :| 0 <= m < |rows| && rows[m].bulletin.region == g;
      assert m in pos by {
        RegionPositionsSpec(rows, g, |rows|);
      }
    }
    if |pos| > 0 {
      assert 0 <= pos[0] < |rows| && rows[pos[0]].bulletin.region == g by {
        RegionPositionsSpec(rows, g, |rows|);
      }
    }
  }

  /**
   * The chain over the rows of one region: the first row gets the stored
   * totals plus its weekly values, each later row the previous row's
   * totals plus its own weekly values; the other rows are kept.
   */
  method ChainRegion(orig: seq<RegionRow>, g: string, base: Totals, pos: seq<nat>) returns (rows: seq<RegionRow>)
    requires pos == RegionPositions(orig, g, |orig|) && |pos| > 0
    ensures rows == WithRegionTotals(orig, g, base)
  {
    ChainFirstStep(orig, g, base, pos);
    rows := orig[pos[0] := PlusWeekly(orig[pos[0]], base)];
    var i := 1;
    while i < |pos|
      invariant 1 <= i <= |pos|
      invariant ChainedUpTo(orig, g, base, rows, pos[i - 1])
    {
      ChainNextStep(orig, g, base, pos, i, rows);
      var prev, cur := rows[pos[i - 1]], rows[pos[i]];
      rows := rows[pos[i] := PlusWeekly(cur, TotalsOf(prev))];
      i := i + 1;
    }
    ChainComplete(orig, g, base, pos, rows);
  }

  /** Every row of the region lies at or before its last position. */
  lemma LastPosition(orig: seq<RegionRow>, g: string, pos: seq<nat>, m: nat)
    requires pos == RegionPositions(orig, g, |orig|) && |pos| > 0
    requires m < |orig| && orig[m].bulletin.region == g
    ensures m <= pos[|pos| - 1]
  {
    RegionPositionsSpec(orig, g, |orig|);
    var j :| 0 <= j < |pos| && pos[j] == m;
    if j < |pos| - 1 {
      assert pos[j] < pos[|pos| - 1];
    }
  }

  lemma ChainComplete(orig: seq<RegionRow>, g: string, base: Totals, pos: seq<nat>, rows: seq<RegionRow>)
    requires pos == RegionPositions(orig, g, |orig|) && |pos| > 0
    requires ChainedUpTo(orig, g, base, rows, pos[|pos| - 1])
    ensures rows == WithRegionTotals(orig, g, base)
  {
    forall m | 0 <= m < |orig| && orig[m].bulletin.region == g
      ensures m <= pos[|pos| - 1]
    {
      LastPosition(orig, g, pos, m);
    }
  }

  /** `_add_cumulative_stats` for one region; a region without rows raises KeyError. */
  method AddRegionTotals(df: RegionFrame, g: string, base: Totals) returns (raised: Option<Exception>)
    modifies df
    ensures raised.Some? <==> !HasRegion(old(df.rows), g)
    ensures raised.Some? ==> raised == Some(KeyError) && df.rows == old(df.rows)
    ensures raised.None? ==> df.rows == WithRegionTotals(old(df.rows), g, base)
  {
    var pos := FindRegionRows(df.rows, g);
    if |pos| == 0 {
      return Some(KeyError);
    }
    df.rows := ChainRegion(df.rows, g, base, pos);
    return None;
  }

  /** `_add_cumulative_stats(stopcorona_data)` with the stored totals of each region, in dictionary order. */
  method AddCumulativeStats(df: RegionFrame, stored: seq<(string, Totals)>) returns (raised: Option<Exception>)
    modifies df
    ensures (raised, df.rows) == RegionTotals(old(df.rows), stored)
  {
    var i := 0;
    while i < |stored|
      invariant 0 <= i <= |stored|
      invariant RegionTotals(old(df.rows), stored) == RegionTotals(df.rows, stored[i..])
    {
      assert stored[i..][1..] == stored[i + 1..];
      raised := AddRegionTotals(df, stored[i].0, stored[i].1);
      if raised.Some? {
        return;
      }
      i := i + 1;
    }
    return None;
  }

  /** Rows of regions without stored totals are left untouched, whether or not a region raises. */
  lemma {:induction false} RegionTotalsUntouched(rows: seq<RegionRow>, stored: seq<(string, Totals)>, k: nat)
    requires k < |rows|
    requires forall p :: p in stored ==> p.0 != rows[k].bulletin.region
    ensures RegionTotals(rows, stored).1[k] == rows[k]
    decreases |stored|
  {
    if stored != [] && HasRegion(rows, stored[0].0) {
      assert forall p :: p in stored[1..] ==> p in stored;
      RegionTotalsUntouched(WithRegionTotals(rows, stored[0].0, stored[0].1), stored[1..], k);
    }
  }

  /** The sums of the weekly values of some rows. */
  function WeeklySum(rows: seq<RegionRow>): Totals
    decreases |rows|
  {
    if rows == [] then Totals(0, 0, 0)
    else
      var t := WeeklySum(rows[..|rows| - 1]);
      var b := rows[|rows| - 1].bulletin;
      Totals(t.infected + b.weeklyInfected, t.recovered + b.weeklyRecovered, t.deaths + b.weeklyDeaths)
  }

  /** The filtered frame `stopcorona_data[stopcorona_data.region == g]`: the rows of region `g`, in order. */
  function RegionRows(rows: seq<RegionRow>, g: string): (r: seq<RegionRow>)
    decreases |rows|
  {
    if rows == [] then []
    else RegionRows(rows[..|rows| - 1], g) + (if rows[|rows| - 1].bulletin.region == g then [rows[|rows| - 1]] else [])
  }

  /** The filtered frame holds exactly the rows of region `g`. */
  lemma {:induction false} RegionRowsMembers(rows: seq<RegionRow>, g: string, x: RegionRow)
    ensures x in RegionRows(rows, g) <==> x in rows && x.bulletin.region == g
    decreases |rows|
  {
    if rows != [] {
      var init := rows[..|rows| - 1];
      RegionRowsMembers(init, g, x);
      assert rows == init + [rows[|rows| - 1]];
    }
  }

  /** Appending a row adds its weekly values to the sums. */
  lemma WeeklySumSnoc(f: seq<RegionRow>, x: RegionRow)
    ensures WeeklySum(f + [x]) == Totals(WeeklySum(f).infected + x.bulletin.weeklyInfected,
                                         WeeklySum(f).recovered + x.bulletin.weeklyRecovered,
                                         WeeklySum(f).deaths + x.bulletin.weeklyDeaths)
  {
    assert (f + [x])[..|f + [x]| - 1] == f;
  }

  /** A region's chain reads only the rows of that region: it is the sum over the filtered frame. */
  lemma {:induction false} RegionPrefixIsFiltered(rows: seq<RegionRow>, n: nat, g: string)
    requires n <= |rows|
    ensures RegionPrefix(rows, n, g) == WeeklySum(RegionRows(rows[..n], g))
  {
    if n > 0 {
      RegionPrefixIsFiltered(rows, n - 1, g);
      assert rows[..n][..n - 1] == rows[..n - 1];
      var f := RegionRows(rows[..n - 1], g);
      if rows[n - 1].bulletin.region == g {
        WeeklySumSnoc(f, rows[n - 1]);
      } else {
        assert f + [] == f;
      }
    }
  }
}
