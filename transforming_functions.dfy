/**
 * `TransformingFunctions`: the cumulative statistics written onto a weekly
 * frame in place, and the order in which `apply_all_transforms` runs the
 * three column groups. A frame is modelled as a class whose `rows` and
 * `columns` the static methods reassign, as pandas changes the passed
 * DataFrame.
 */
module TransformingFunctions {
  import opened Common

  /** Columns of a weekly frame that the transformations read or write. */
  datatype Column =
    | WeeklyInfected
    | WeeklyDeaths
    | WeeklyRecovered
    | WeeklyVaccinations
    | WeeklyFirstComponent
    | WeeklySecondComponent
    | Infected
    | Deaths
    | Recovered
    | FirstComponent
    | SecondComponent

  /** One weekly row: region (null in a global frame), week bounds and the numeric cells (null = absent). */
  datatype WeekRow = WeekRow(region: Option<string>, start: int, end: int, cells: map<Column, int>)

  function Cell(r: WeekRow, c: Column): Option<int>
  {
    if c in r.cells then Some(r.cells[c]) else None
  }

  /** Writes (or nulls) one cell and keeps everything else. */
  function SetCell(r: WeekRow, c: Column, v: Option<int>): (s: WeekRow)
    ensures Cell(s, c) == v
    ensures forall d :: d != c ==> Cell(s, d) == Cell(r, d)
    ensures s.region == r.region && s.start == r.start && s.end == r.end
  {
    if v.Some? then r.(cells := r.cells[c := v.value]) else r.(cells := r.cells - {c})
  }

  /** A pandas DataFrame passed by reference: its column labels and its rows in order. */
  class Frame {
    var columns: set<Column>
    var rows: seq<WeekRow>

    constructor (columns: set<Column>, rows: seq<WeekRow>)
      ensures this.columns == columns && this.rows == rows
    {
      this.columns := columns;
      this.rows := rows;
    }
  }

  /**
   * Rows `a` and `b` fall in the same group of `groupby(group_columns)`:
   * the same `start_date`, and with the region flag the same region too.
   */
  predicate SameGroup(a: WeekRow, b: WeekRow, region: bool)
  {
    a.start == b.start && (region ==> a.region == b.region)
  }

  /** Sum of the non-null `weekly` cells among `rows[..n]` in the group of `g`. */
  function GroupSum(rows: seq<WeekRow>, n: nat, g: WeekRow, weekly: Column, region: bool): int
    requires n <= |rows|
  {
    if n == 0 then 0
    else
      GroupSum(rows, n - 1, g, weekly, region)
      + (if SameGroup(rows[n - 1], g, region) then OrZero(Cell(rows[n - 1], weekly)) else 0)
  }

  /**
   * `df.groupby(group_columns)[weekly].cumsum()` at row `k`: the running sum
   * of the group up to and including row `k`; null where the row's own
   * weekly cell is null, or where its region is null under the region flag
   * (pandas drops rows whose group key is null).
   */
  function GroupCumsum(rows: seq<WeekRow>, k: nat, weekly: Column, region: bool): Option<int>
    requires k < |rows|
  {
    if (region && rows[k].region.None?) || weekly !in rows[k].cells then None
    else Some(GroupSum(rows, k + 1, rows[k], weekly, region))
  }

  /** `df[total] = df.groupby(group_columns)[weekly].cumsum()` */
  function WithCumsum(rows: seq<WeekRow>, total: Column, weekly: Column, region: bool): (r: seq<WeekRow>)
    ensures |r| == |rows|
    ensures forall k :: 0 <= k < |r| ==> r[k] == SetCell(rows[k], total, GroupCumsum(rows, k, weekly, region))
  {
    seq(|rows|, k requires 0 <= k < |rows| => SetCell(rows[k], total, GroupCumsum(rows, k, weekly, region)))
  }

  /**
   * The (total, weekly) column pairs `add_cumulative_stats` assigns, in
   * order; the component totals only without the region flag.
   */
  function CumulativePairs(region: bool): (p: seq<(Column, Column)>)
    ensures region ==> forall k :: 0 <= k < |p| ==> p[k].0 != FirstComponent && p[k].0 != SecondComponent
    ensures !region ==> (FirstComponent, WeeklyFirstComponent) in p && (SecondComponent, WeeklySecondComponent) in p
  {
    [(Recovered, WeeklyRecovered), (Deaths, WeeklyDeaths), (Infected, WeeklyInfected)]
    + (if region then [] else [(FirstComponent, WeeklyFirstComponent), (SecondComponent, WeeklySecondComponent)])
  }

  /** Column labels and rows of a frame, as values. */
  datatype FrameState = FrameState(columns: set<Column>, rows: seq<WeekRow>)

  /**
   * The assignments of `pairs` one after the other; reading a weekly column
   * the frame lacks raises KeyError and leaves the earlier assignments done.
   */
  function Assignments(s: FrameState, pairs: seq<(Column, Column)>, region: bool): (r: (Option<Exception>, FrameState))
    ensures r.0.None? || r.0 == Some(KeyError)
    ensures |r.1.rows| == |s.rows|
    decreases |pairs|
  {
    if pairs == [] then (None, s)
    else if pairs[0].1 !in s.columns then (Some(KeyError), s)
    else
      var next := FrameState(s.columns + {pairs[0].0}, WithCumsum(s.rows, pairs[0].0, pairs[0].1, region));
      Assignments(next, pairs[1..], region)
  }

  /** One column assignment `df[total] = df.groupby(...)[weekly].cumsum()`. */
  method AssignCumsum(df: Frame, total: Column, weekly: Column, region: bool) returns (raised: Option<Exception>)
    modifies df
    ensures weekly !in old(df.columns) ==> raised == Some(KeyError) && df.columns == old(df.columns) && df.rows == old(df.rows)
    ensures weekly in old(df.columns) ==>
              raised == None
              && df.columns == old(df.columns) + {total}
              && df.rows == WithCumsum(old(df.rows), total, weekly, region)
  {
    if weekly !in df.columns {
      return Some(KeyError);
    }
    df.rows := WithCumsum(df.rows, total, weekly, region);
    df.columns := df.columns + {total};
    return None;
  }

  /**
   * `add_cumulative_stats(df, region)`: each total column becomes the
   * running sum of its weekly column within the rows sharing the group key.
   */
  method AddCumulativeStats(df: Frame, region: bool) returns (raised: Option<Exception>)
    modifies df
    ensures (raised, FrameState(df.columns, df.rows))
      == Assignments(FrameState(old(df.columns), old(df.rows)), CumulativePairs(region), region)
  {
    ghost var pairs := CumulativePairs(region);
    ghost var s0 := FrameState(df.columns, df.rows);
    raised := AssignCumsum(df, Recovered, WeeklyRecovered, region);
    if raised.Some? {
      return;
    }
    assert Assignments(s0, pairs, region) == Assignments(FrameState(df.columns, df.rows), pairs[1..], region);
    ghost var s1 := FrameState(df.columns, df.rows);
    raised := AssignCumsum(df, Deaths, WeeklyDeaths, region);
    if raised.Some? {
      return;
    }
    assert Assignments(s1, pairs[1..], region) == Assignments(FrameState(df.columns, df.rows), pairs[2..], region);
    ghost var s2 := FrameState(df.columns, df.rows);
    raised := AssignCumsum(df, Infected, WeeklyInfected, region);
    if raised.Some? {
      return;
    }
    assert Assignments(s2, pairs[2..], region) == Assignments(FrameState(df.columns, df.rows), pairs[3..], region);
    if region {
      assert pairs[3..] == [];
      return;
    }
    ghost var s3 := FrameState(df.columns, df.rows);
    raised := AssignCumsum(df, FirstComponent, WeeklyFirstComponent, region);
    if raised.Some? {
      return;
    }
    assert Assignments(s3, pairs[3..], region) == Assignments(FrameState(df.columns, df.rows), pairs[4..], region);
    ghost var s4 := FrameState(df.columns, df.rows);
    raised := AssignCumsum(df, SecondComponent, WeeklySecondComponent, region);
    assert pairs[4..] == [(SecondComponent, WeeklySecondComponent)];
    assert pairs[4..][1..] == [];
    assert Assignments(s4, pairs[4..], region) == (raised, FrameState(df.columns, df.rows));
  }

  /** The columns the per-100000 statistics read from each row. */
  const Per100000Reads: set<Column> := {WeeklyInfected, WeeklyDeaths, WeeklyRecovered, Infected, Deaths, Recovered}

  /** The columns the ratio statistics read from each row, with or without the region flag. */
  const RatioReads: set<Column> := {WeeklyRecovered, WeeklyInfected, WeeklyDeaths, WeeklyVaccinations, SecondComponent}

  /**
   * `add_per_100000_stats(df)`: the computed columns are discarded and the
   * function returns None; on a non-empty frame a missing input column
   * raises KeyError from the row function.
   */
  method AddPer100000Stats(df: Frame) returns (raised: Option<Exception>, result: Option<Frame>)
    ensures result == None
    ensures raised == Some(KeyError) <==> |df.rows| > 0 && !(Per100000Reads <= df.columns)
    ensures raised.None? || raised == Some(KeyError)
  {
    if |df.rows| > 0 && !(Per100000Reads <= df.columns) {
      return Some(KeyError), None;
    }
    return None, None;
  }

  /** No row has a zero `weekly_infected`, the divisor of the weekly ratios (a null cell divides to NaN). */
  predicate NoZeroDivisor(rows: seq<WeekRow>)
  {
    forall k :: 0 <= k < |rows| ==> Cell(rows[k], WeeklyInfected) != Some(0)
  }

  /**
   * What `add_ratio_stats` raises: the row function runs row by row and
   * reads `weekly_recovered`, then `weekly_infected`, divides, and only
   * then reads the other columns; a row of mixed types holds Python
   * numbers, so dividing by a zero `weekly_infected` raises
   * ZeroDivisionError. An empty frame calls nothing.
   */
  function RatioRaised(columns: set<Column>, rows: seq<WeekRow>): (e: Option<Exception>)
    ensures e.None? <==> rows == [] || (RatioReads <= columns && NoZeroDivisor(rows))
    ensures e == Some(KeyError) ==> !(RatioReads <= columns)
    ensures e == Some(ZeroDivisionError) ==> !NoZeroDivisor(rows)
    ensures e.None? || e == Some(KeyError) || e == Some(ZeroDivisionError)
  {
    if rows == [] then None
    else if !(WeeklyRecovered in columns && WeeklyInfected in columns) then Some(KeyError)
    else if Cell(rows[0], WeeklyInfected) == Some(0) then Some(ZeroDivisionError)
    else if !(RatioReads <= columns) then Some(KeyError)
    else if !NoZeroDivisor(rows) then Some(ZeroDivisionError)
    else None
  }

  /**
   * `add_ratio_stats(df, region)`: the row function applied to each row
   * in turn; like the per-100000 statistics, nothing is kept and None is
   * returned. The row function reads the vaccination and second-component
   * columns whatever the region flag.
   */
  method AddRatioStats(df: Frame, region: bool) returns (raised: Option<Exception>, result: Option<Frame>)
    ensures result == None
    ensures raised == RatioRaised(df.columns, df.rows)
  {
    var i := 0;
    while i < |df.rows|
      invariant 0 <= i <= |df.rows|
      invariant i > 0 ==> RatioReads <= df.columns && Cell(df.rows[0], WeeklyInfected) != Some(0)
      invariant forall k :: 0 <= k < i ==> Cell(df.rows[k], WeeklyInfected) != Some(0)
    {
      if !(WeeklyRecovered in df.columns && WeeklyInfected in df.columns) {
        return Some(KeyError), None;
      }
      if Cell(df.rows[i], WeeklyInfected) == Some(0) {
        return Some(ZeroDivisionError), None;
      }
      if !(RatioReads <= df.columns) {
        return Some(KeyError), None;
      }
      i := i + 1;
    }
    return None, None;
  }

  /**
   * The columns the ratio row function evidently means to read: with the
   * region flag, only the weekly recoveries and deaths over the weekly
   * infections (the vaccination ratios are guarded by `not region` in
   * intent, as the repeated `second_component` line shows).
   */
  function RatioReadsIntended(region: bool): (c: set<Column>)
    ensures c <= RatioReads
    ensures !region ==> c == RatioReads
  {
    if region then {WeeklyRecovered, WeeklyInfected, WeeklyDeaths} else RatioReads
  }

  /** What the per-100000 statistics raise: KeyError on a non-empty frame missing a column they read. */
  function Per100000Raised(columns: set<Column>, rows: seq<WeekRow>): (e: Option<Exception>)
    ensures e.None? || e == Some(KeyError)
    ensures rows == [] ==> e.None?
    ensures e.None? <==> rows == [] || Per100000Reads <= columns
  {
    if |rows| > 0 && !(Per100000Reads <= columns) then Some(KeyError) else None
  }

  /**
   * The outcome of `apply_all_transforms` on a frame: the cumulative
   * assignments, then the first exception of the two statistics, which
   * leave the frame as the assignments left it.
   */
  function TransformsOutcome(s: FrameState, region: bool): (r: (Option<Exception>, FrameState))
    ensures r.0.None? || r.0 == Some(KeyError) || r.0 == Some(ZeroDivisionError)
  {
    var cum := Assignments(s, CumulativePairs(region), region);
    if cum.0.Some? then cum
    else if Per100000Raised(cum.1.columns, cum.1.rows).Some? then (Per100000Raised(cum.1.columns, cum.1.rows), cum.1)
    else (RatioRaised(cum.1.columns, cum.1.rows), cum.1)
  }

  /**
   * `apply_all_transforms(df, region)`: cumulative totals, then the
   * per-100000 and ratio statistics; the frame is changed in place and
   * nothing is returned. The first exception stops the chain.
   */
  method ApplyAllTransforms(df: Frame, region: bool) returns (raised: Option<Exception>)
    modifies df
    ensures (raised, FrameState(df.columns, df.rows)) == TransformsOutcome(FrameState(old(df.columns), old(df.rows)), region)
  {
    raised := AddCumulativeStats(df, region);
    if raised.Some? {
      return;
    }
    var unused: Option<Frame>;
    raised, unused := AddPer100000Stats(df);
    if raised.Some? {
      return;
    }
    raised, unused := AddRatioStats(df, region);
  }

  /** The weekly columns `add_cumulative_stats` reads under the region flag. */
  function WeeklyReads(region: bool): (c: set<Column>)
    ensures forall p :: p in CumulativePairs(region) ==> p.1 in c
  {
    {WeeklyRecovered, WeeklyDeaths, WeeklyInfected}
    + (if region then {} else {WeeklyFirstComponent, WeeklySecondComponent})
  }

  /** The total columns `add_cumulative_stats` writes under the region flag. */
  function TotalWrites(region: bool): (c: set<Column>)
    ensures forall p :: p in CumulativePairs(region) ==> p.0 in c
  {
    {Recovered, Deaths, Infected}
    + (if region then {} else {FirstComponent, SecondComponent})
  }

  /**
   * Assignments reading only weekly columns and writing only totals raise
   * exactly when a weekly column is missing, and on success add every
   * total they write.
   */
  lemma {:induction false} AssignmentsOutcome(s: FrameState, pairs: seq<(Column, Column)>, region: bool, writes: set<Column>)
    requires forall p :: p in pairs ==> p.0 in TotalWrites(false) && p.1 !in TotalWrites(false)
    requires writes == set p | p in pairs :: p.0
    ensures Assignments(s, pairs, region).0.None? <==> forall p :: p in pairs ==> p.1 in s.columns
    ensures Assignments(s, pairs, region).0.None? ==> Assignments(s, pairs, region).1.columns == s.columns + writes
    decreases |pairs|
  {
    if pairs != [] {
      assert pairs[0] in pairs;
      assert forall p :: p in pairs[1..] ==> p in pairs;
      var rest := set p | p in pairs[1..] :: p.0;
      assert writes == {pairs[0].0} + rest by {
        forall c | c in writes ensures c in {pairs[0].0} + rest {
          var p :| p in pairs && p.0 == c;
          var j :| 0 <= j < |pairs| && pairs[j] == p;
          if j > 0 {
            assert pairs[1..][j - 1] == p;
          }
        }
      }
      if pairs[0].1 in s.columns {
        var next := FrameState(s.columns + {pairs[0].0}, WithCumsum(s.rows, pairs[0].0, pairs[0].1, region));
        AssignmentsOutcome(next, pairs[1..], region, rest);
        assert forall p :: p in pairs[1..] ==> (p.1 in next.columns <==> p.1 in s.columns);
        forall p | p in pairs && p != pairs[0]
          ensures p in pairs[1..]
        {
          var j :| 0 <= j < |pairs| && pairs[j] == p;
          assert j > 0;
          assert pairs[1..][j - 1] == p;
        }
      }
    }
  }

  /**
   * `apply_all_transforms` succeeds exactly when the frame has the weekly
   * columns the totals read and, unless it is empty, the vaccination
   * column (and, with the region flag, a `second_component` column), and
   * no zero `weekly_infected`.
   */
  lemma TransformsSucceed(s: FrameState, region: bool)
    ensures TransformsOutcome(s, region).0.None? <==>
      WeeklyReads(region) <= s.columns
      && (s.rows == [] || (WeeklyVaccinations in s.columns && (region ==> SecondComponent in s.columns) && NoZeroDivisor(s.rows)))
  {
    var pairs := CumulativePairs(region);
    CumulativePairsShape(region, s.columns);
    AssignmentsOutcome(s, pairs, region, TotalWrites(region));
    var cum := Assignments(s, pairs, region);
    if cum.0.None? {
      StatsColumns(s.columns, region);
      forall k | 0 <= k < |s.rows|
        ensures Cell(cum.1.rows[k], WeeklyInfected) == Cell(s.rows[k], WeeklyInfected)
      {
        AssignmentsKeepOtherCells(s, pairs, region, k, WeeklyInfected);
      }
      assert NoZeroDivisor(cum.1.rows) <==> NoZeroDivisor(s.rows);
    }
  }

  /** The pairs read the weekly columns and write the totals of the region flag. */
  lemma CumulativePairsShape(region: bool, columns: set<Column>)
    ensures forall p :: p in CumulativePairs(region) ==> p.0 in TotalWrites(false) && p.1 !in TotalWrites(false)
    ensures TotalWrites(region) == set p | p in CumulativePairs(region) :: p.0
    ensures (forall p :: p in CumulativePairs(region) ==> p.1 in columns) <==> WeeklyReads(region) <= columns
  {
    var pairs := CumulativePairs(region);
    assert pairs[0] == (Recovered, WeeklyRecovered) && pairs[1] == (Deaths, WeeklyDeaths) && pairs[2] == (Infected, WeeklyInfected);
    if !region {
      assert pairs[3] == (FirstComponent, WeeklyFirstComponent) && pairs[4] == (SecondComponent, WeeklySecondComponent);
    }
  }

  /** After the totals are written, the per-100000 reads are present, and the ratio reads exactly when the other inputs are. */
  lemma StatsColumns(columns: set<Column>, region: bool)
    requires WeeklyReads(region) <= columns
    ensures Per100000Reads <= columns + TotalWrites(region)
    ensures RatioReads <= columns + TotalWrites(region)
      <==> WeeklyVaccinations in columns && (region ==> SecondComponent in columns)
  {
  }

  // Properties of the grouped running sums.

  /** Rows `lo .. hi - 1` contain no other member of the group of `g`. */
  ghost predicate NoGroupMember(rows: seq<WeekRow>, lo: nat, hi: nat, g: WeekRow, region: bool)
    requires lo <= hi <= |rows|
  {
    forall i :: lo <= i < hi ==> !SameGroup(rows[i], g, region)
  }

  lemma {:induction false} GroupSumSkip(rows: seq<WeekRow>, lo: nat, hi: nat, g: WeekRow, weekly: Column, region: bool)
    requires lo <= hi <= |rows|
    requires NoGroupMember(rows, lo, hi, g, region)
    ensures GroupSum(rows, hi, g, weekly, region) == GroupSum(rows, lo, g, weekly, region)
    decreases hi - lo
  {
    if hi > lo {
      GroupSumSkip(rows, lo, hi - 1, g, weekly, region);
    }
  }

  /** A group sum only depends on the group, not on which member names it. */
  lemma {:induction false} GroupSumSameGroup(rows: seq<WeekRow>, n: nat, g: WeekRow, h: WeekRow, weekly: Column, region: bool)
    requires n <= |rows|
    requires SameGroup(g, h, region)
    ensures GroupSum(rows, n, g, weekly, region) == GroupSum(rows, n, h, weekly, region)
  {
    if n > 0 {
      GroupSumSameGroup(rows, n - 1, g, h, weekly, region);
    }
  }

  /**
   * The running-sum chain: if row `j` is the previous member of row `k`'s
   * group, the total of row `k` is the total of row `j` plus the weekly
   * value of row `k`.
   */
  lemma CumsumStep(rows: seq<WeekRow>, j: nat, k: nat, weekly: Column, region: bool)
    requires j < k < |rows|
    requires SameGroup(rows[j], rows[k], region)
    requires NoGroupMember(rows, j + 1, k, rows[k], region)
    requires !(region && rows[k].region.None?)
    requires weekly in rows[j].cells && weekly in rows[k].cells
    ensures GroupCumsum(rows, k, weekly, region).Some? && GroupCumsum(rows, j, weekly, region).Some?
    ensures GroupCumsum(rows, k, weekly, region).value
      == GroupCumsum(rows, j, weekly, region).value + rows[k].cells[weekly]
  {
    GroupSumSkip(rows, j + 1, k, rows[k], weekly, region);
    GroupSumSameGroup(rows, j + 1, rows[j], rows[k], weekly, region);
  }

  lemma {:induction false} GroupSumMonotone(rows: seq<WeekRow>, m: nat, n: nat, g: WeekRow, weekly: Column, region: bool)
    requires m <= n <= |rows|
    requires forall i :: 0 <= i < |rows| ==> OrZero(Cell(rows[i], weekly)) >= 0
    ensures GroupSum(rows, m, g, weekly, region) <= GroupSum(rows, n, g, weekly, region)
    decreases n - m
  {
    if m < n {
      GroupSumMonotone(rows, m, n - 1, g, weekly, region);
    }
  }

  /** With non-negative weekly values, totals never decrease along a group. */
  lemma CumsumMonotone(rows: seq<WeekRow>, j: nat, k: nat, weekly: Column, region: bool)
    requires j < k < |rows|
    requires SameGroup(rows[j], rows[k], region)
    requires forall i :: 0 <= i < |rows| ==> OrZero(Cell(rows[i], weekly)) >= 0
    requires GroupCumsum(rows, j, weekly, region).Some? && GroupCumsum(rows, k, weekly, region).Some?
    ensures GroupCumsum(rows, j, weekly, region).value <= GroupCumsum(rows, k, weekly, region).value
  {
    GroupSumSameGroup(rows, j + 1, rows[j], rows[k], weekly, region);
    GroupSumMonotone(rows, j + 1, k + 1, rows[k], weekly, region);
  }

  /**
   * The group key includes `start_date`, so when no two rows share a group
   * (a weekly frame, one row per week and region) every total equals the
   * row's own weekly value: nothing accumulates across weeks.
   */
  lemma CumsumOfDistinctGroups(rows: seq<WeekRow>, k: nat, weekly: Column, region: bool)
    requires k < |rows|
    requires forall i, j :: 0 <= i < j < |rows| ==> !SameGroup(rows[i], rows[j], region)
    ensures GroupCumsum(rows, k, weekly, region)
      == (if (region && rows[k].region.None?) then None else Cell(rows[k], weekly))
  {
    forall i | 0 <= i < k
      ensures !SameGroup(rows[i], rows[k], region)
    {
    }
    GroupSumSkip(rows, 0, k, rows[k], weekly, region);
  }

  /** Assignments change only the total columns they name: other cells stay. */
  lemma {:induction false} AssignmentsKeepOtherCells(s: FrameState, pairs: seq<(Column, Column)>, region: bool, k: nat, c: Column)
    requires k < |s.rows|
    requires forall p :: p in pairs ==> p.0 != c
    ensures Cell(Assignments(s, pairs, region).1.rows[k], c) == Cell(s.rows[k], c)
    ensures Assignments(s, pairs, region).1.rows[k].start == s.rows[k].start
    ensures Assignments(s, pairs, region).1.rows[k].region == s.rows[k].region
    decreases |pairs|
  {
    if pairs != [] && pairs[0].1 in s.columns {
      var next := FrameState(s.columns + {pairs[0].0}, WithCumsum(s.rows, pairs[0].0, pairs[0].1, region));
      AssignmentsKeepOtherCells(next, pairs[1..], region, k, c);
    }
  }

  /** No two rows share a group, and under the region flag every row has a region. */
  ghost predicate DistinctGroups(rows: seq<WeekRow>, region: bool)
  {
    (forall i, j :: 0 <= i < j < |rows| ==> !SameGroup(rows[i], rows[j], region))
    && (region ==> forall i :: 0 <= i < |rows| ==> rows[i].region.Some?)
  }

  /** One assignment keeps the groups of every row. */
  lemma WithCumsumKeepsGroups(rows: seq<WeekRow>, total: Column, weekly: Column, region: bool)
    requires DistinctGroups(rows, region)
    ensures DistinctGroups(WithCumsum(rows, total, weekly, region), region)
  {
  }

  /** With every weekly column present, the assignments raise nothing. */
  lemma {:induction false} AssignmentsNoError(s: FrameState, pairs: seq<(Column, Column)>, region: bool)
    requires forall p :: p in pairs ==> p.1 in s.columns
    ensures Assignments(s, pairs, region).0.None?
    decreases |pairs|
  {
    if pairs != [] {
      assert forall p :: p in pairs[1..] ==> p in pairs;
      AssignmentsNoError(FrameState(s.columns + {pairs[0].0}, WithCumsum(s.rows, pairs[0].0, pairs[0].1, region)), pairs[1..], region);
    }
  }

  /**
   * When every row is a group of its own (one row per week and region, as
   * in the weekly frames), `add_cumulative_stats` copies each weekly column
   * into its total column: the totals do not accumulate across weeks.
   */
  lemma {:induction false} AssignmentsOfDistinctGroups(s: FrameState, pairs: seq<(Column, Column)>, region: bool, k: nat, i: nat)
    requires DistinctGroups(s.rows, region) && k < |s.rows| && i < |pairs|
    requires forall p :: p in pairs ==> p.1 in s.columns
    requires forall p, q :: p in pairs && q in pairs ==> p.0 != q.1
    requires forall j :: i < j < |pairs| ==> pairs[j].0 != pairs[i].0
    ensures Assignments(s, pairs, region).0.None?
    ensures Cell(Assignments(s, pairs, region).1.rows[k], pairs[i].0) == Cell(s.rows[k], pairs[i].1)
    decreases |pairs|
  {
    var next := FrameState(s.columns + {pairs[0].0}, WithCumsum(s.rows, pairs[0].0, pairs[0].1, region));
    WithCumsumKeepsGroups(s.rows, pairs[0].0, pairs[0].1, region);
    assert forall p :: p in pairs[1..] ==> p in pairs;
    if i == 0 {
      CumsumOfDistinctGroups(s.rows, k, pairs[0].1, region);
      assert Cell(next.rows[k], pairs[0].0) == Cell(s.rows[k], pairs[0].1);
      forall p | p in pairs[1..]
        ensures p.0 != pairs[0].0
      {
        var j :| 0 <= j < |pairs[1..]| && pairs[1..][j] == p;
        assert pairs[j + 1] == p;
      }
      AssignmentsKeepOtherCells(next, pairs[1..], region, k, pairs[0].0);
      AssignmentsNoError(next, pairs[1..], region);
    } else {
      assert pairs[0] in pairs && pairs[i] in pairs;
      assert Cell(next.rows[k], pairs[i].1) == Cell(s.rows[k], pairs[i].1);
      AssignmentsOfDistinctGroups(next, pairs[1..], region, k, i - 1);
    }
  }
}
