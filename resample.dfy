/**
 * pandas `frame.resample('W-MON', on='date').sum()` on daily counter rows:
 * one bucket per Monday from the week of the earliest row to the week of
 * the latest row (weeks without rows included), each bucket summing the
 * seven days that end on its Monday, with null cells counting as 0.
 */
module Resample {
  import opened Common
  import opened Calendar

  /**
   * The daily counter columns of the source frames:
   * `infection_per_day`, `death_per_day`, `recovery_per_day`,
   * `daily_vaccinations` and `daily_people_vaccinated`.
   */
  datatype Counter =
    | InfectionPerDay
    | DeathPerDay
    | RecoveryPerDay
    | DailyVaccinations
    | DailyPeopleVaccinated

  /** One daily row: its date as a day number and its counter cells (a null cell is absent). */
  datatype DayRow = DayRow(date: int, counts: map<Counter, int>)

  /** The value a sum reads from a cell: nulls are skipped, i.e. count as 0. */
  function Val(r: DayRow, c: Counter): int
  {
    if c in r.counts then r.counts[c] else 0
  }

  /** The `W-MON` bucket labelled `end` holds the days `end - 6 .. end`. */
  predicate InWeek(day: int, end: int)
  {
    end - 6 <= day <= end
  }

  /** Sum of column `c` over the rows dated inside the week ending on `end`. */
  function WindowSum(rows: seq<DayRow>, c: Counter, end: int): int
    decreases |rows|
  {
    if rows == [] then 0
    else
      var last := rows[|rows| - 1];
      WindowSum(rows[..|rows| - 1], c, end) + (if InWeek(last.date, end) then Val(last, c) else 0)
  }

  /** Sum of column `c` over all rows. */
  function Total(rows: seq<DayRow>, c: Counter): int
    decreases |rows|
  {
    if rows == [] then 0 else Total(rows[..|rows| - 1], c) + Val(rows[|rows| - 1], c)
  }

  function MinDate(rows: seq<DayRow>): (m: int)
    requires rows != []
    ensures forall r :: r in rows ==> m <= r.date
    ensures exists r :: r in rows && r.date == m
    decreases |rows|
  {
    if |rows| == 1 then rows[0].date
    else
      var m := MinDate(rows[1..]);
      assert rows[1..][0] in rows;
      if rows[0].date <= m then rows[0].date else m
  }

  function MaxDate(rows: seq<DayRow>): (m: int)
    requires rows != []
    ensures forall r :: r in rows ==> r.date <= m
    ensures exists r :: r in rows && r.date == m
    decreases |rows|
  {
    if |rows| == 1 then rows[0].date
    else
      var m := MaxDate(rows[1..]);
      assert rows[1..][0] in rows;
      if rows[0].date >= m then rows[0].date else m
  }

  /** One output row of the resample: the Monday label and the sum per column. */
  datatype Bucket = Bucket(end: int, sums: map<Counter, int>)

  /** Number of weekly buckets from the first row's week to the last row's week. */
  function BucketCount(rows: seq<DayRow>): (n: nat)
    requires rows != []
    ensures WeekEnd(MinDate(rows)) + 7 * (n - 1) == WeekEnd(MaxDate(rows))
  {
    var first, last := WeekEnd(MinDate(rows)), WeekEnd(MaxDate(rows));
    WeekEndMonotone(MinDate(rows), MaxDate(rows));
    MondaysApart(first, last);
    (last - first) / 7 + 1
  }

  /** Two Mondays lie a whole number of weeks apart. */
  lemma MondaysApart(a: int, b: int)
    requires IsMonday(a) && IsMonday(b) && a <= b
    ensures (b - a) / 7 >= 0 && a + 7 * ((b - a) / 7) == b
  {
    assert (b - a) % 7 == 0;
  }

  /**
   * `resample('W-MON', on='date').sum()` restricted to the numeric columns
   * `cols`: an empty frame gives no buckets.
   */
  function WeeklySums(rows: seq<DayRow>, cols: set<Counter>): (r: seq<Bucket>)
    ensures rows == [] ==> r == []
    ensures rows != [] ==> |r| == BucketCount(rows)
    ensures forall k :: 0 <= k < |r| ==> IsMonday(r[k].end) && r[k].sums.Keys == cols
    ensures forall k :: 0 < k < |r| ==> r[k].end == r[k - 1].end + 7
  {
    if rows == [] then []
    else
      var first := WeekEnd(MinDate(rows));
      seq(BucketCount(rows), k => Bucket(first + 7 * k, map c | c in cols :: WindowSum(rows, c, first + 7 * k)))
  }

  /** The `k`-th bucket ends `k` weeks after the first row's week. */
  lemma WeeklySumsEnd(rows: seq<DayRow>, cols: set<Counter>, k: nat)
    requires k < |WeeklySums(rows, cols)|
    ensures rows != [] && WeeklySums(rows, cols)[k].end == WeekEnd(MinDate(rows)) + 7 * k
  {
  }

  /** The `k`-th bucket ends `k` weeks after the first row's week and holds, per column, the sum over its week. */
  lemma WeeklySumsAt(rows: seq<DayRow>, cols: set<Counter>, k: nat, c: Counter)
    requires k < |WeeklySums(rows, cols)| && c in cols
    ensures rows != [] && WeeklySums(rows, cols)[k].end == WeekEnd(MinDate(rows)) + 7 * k
    ensures c in WeeklySums(rows, cols)[k].sums
    ensures WeeklySums(rows, cols)[k].sums[c] == WindowSum(rows, c, WeeklySums(rows, cols)[k].end)
  {
  }

  /** Every row lies in exactly one bucket of the resample. */
  lemma EveryRowInOneBucket(rows: seq<DayRow>, cols: set<Counter>, r: DayRow)
    requires r in rows
    ensures var b := WeeklySums(rows, cols);
      exists k :: 0 <= k < |b| && InWeek(r.date, b[k].end)
    ensures var b := WeeklySums(rows, cols);
      forall k, l :: 0 <= k < |b| && 0 <= l < |b| && InWeek(r.date, b[k].end) && InWeek(r.date, b[l].end) ==> k == l
  {
    var b := WeeklySums(rows, cols);
    var first := WeekEnd(MinDate(rows));
    var e := WeekEnd(r.date);
    WeekEndMonotone(MinDate(rows), r.date);
    WeekEndMonotone(r.date, MaxDate(rows));
    MondaysApart(first, e);
    var k := (e - first) / 7;
    assert k < |b|;
    WeeklySumsEnd(rows, cols, k);
    forall k, l | 0 <= k < |b| && 0 <= l < |b| && InWeek(r.date, b[k].end) && InWeek(r.date, b[l].end)
      ensures k == l
    {
      WeeklySumsEnd(rows, cols, k);
      WeeklySumsEnd(rows, cols, l);
    }
  }

  lemma WeekEndMonotone(a: int, b: int)
    requires a <= b
    ensures WeekEnd(a) <= WeekEnd(b)
  {
  }

  /** Sum of the buckets ending on `e0`, `e0 + 7`, ..., `e0 + 7 * (n - 1)`. */
  function BucketTotal(rows: seq<DayRow>, c: Counter, e0: int, n: nat): int
  {
    if n == 0 then 0 else BucketTotal(rows, c, e0, n - 1) + WindowSum(rows, c, e0 + 7 * (n - 1))
  }

  /** What a single row adds to `BucketTotal`: its value once per bucket containing it. */
  function Hits(x: DayRow, c: Counter, e0: int, n: nat): int
  {
    if n == 0 then 0 else Hits(x, c, e0, n - 1) + (if InWeek(x.date, e0 + 7 * (n - 1)) then Val(x, c) else 0)
  }

  lemma {:induction false} BucketTotalSnoc(rows: seq<DayRow>, x: DayRow, c: Counter, e0: int, n: nat)
    ensures BucketTotal(rows + [x], c, e0, n) == BucketTotal(rows, c, e0, n) + Hits(x, c, e0, n)
  {
    if n > 0 {
      BucketTotalSnoc(rows, x, c, e0, n - 1);
      assert (rows + [x])[..|rows + [x]| - 1] == rows;
    }
  }

  lemma {:induction false} HitsBefore(x: DayRow, c: Counter, e0: int, n: nat)
    requires x.date > e0 + 7 * (n - 1)
    ensures Hits(x, c, e0, n) == 0
  {
    if n > 0 {
      HitsBefore(x, c, e0, n - 1);
    }
  }

  /** A row inside the covered weeks is counted exactly once. */
  lemma {:induction false} HitsOnce(x: DayRow, c: Counter, e0: int, n: nat)
    requires n > 0 && e0 - 6 <= x.date <= e0 + 7 * (n - 1)
    ensures Hits(x, c, e0, n) == Val(x, c)
  {
    if x.date <= e0 + 7 * (n - 2) {
      HitsOnce(x, c, e0, n - 1);
    } else {
      HitsBefore(x, c, e0, n - 1);
    }
  }

  /**
   * Conservation: when the buckets cover every row's date, the weekly sums
   * add up to the column total of the daily rows.
   */
  lemma {:induction false} BucketsConserve(rows: seq<DayRow>, c: Counter, e0: int, n: nat)
    requires n > 0
    requires forall r :: r in rows ==> e0 - 6 <= r.date <= e0 + 7 * (n - 1)
    ensures BucketTotal(rows, c, e0, n) == Total(rows, c)
    decreases |rows|
  {
    if rows == [] {
      BucketTotalEmpty(c, e0, n);
    } else {
      var init, x := rows[..|rows| - 1], rows[|rows| - 1];
      assert rows == init + [x];
      BucketsConserve(init, c, e0, n);
      BucketTotalSnoc(init, x, c, e0, n);
      HitsOnce(x, c, e0, n);
    }
  }

  lemma {:induction false} BucketTotalEmpty(c: Counter, e0: int, n: nat)
    ensures BucketTotal([], c, e0, n) == 0
  {
    if n > 0 {
      BucketTotalEmpty(c, e0, n - 1);
    }
  }

  /** Sum of column `c` over the first `n` buckets. */
  function SumOfBuckets(b: seq<Bucket>, c: Counter, n: nat): int
    requires n <= |b|
    requires forall k :: 0 <= k < |b| ==> c in b[k].sums
  {
    if n == 0 then 0 else SumOfBuckets(b, c, n - 1) + b[n - 1].sums[c]
  }

  /**
   * The weekly resample loses nothing: for each summed column, the buckets
   * add up to the total of the daily rows.
   */
  lemma WeeklySumsConserve(rows: seq<DayRow>, cols: set<Counter>, c: Counter)
    requires rows != [] && c in cols
    ensures var b := WeeklySums(rows, cols);
      SumOfBuckets(b, c, |b|) == Total(rows, c)
  {
    var b := WeeklySums(rows, cols);
    var e0 := WeekEnd(MinDate(rows));
    var n := |b|;
    forall r | r in rows
      ensures e0 - 6 <= r.date <= e0 + 7 * (n - 1)
    {
      WeekEndMonotone(r.date, MaxDate(rows));
    }
    SumOfBucketsIsBucketTotal(rows, cols, c, n);
    BucketsConserve(rows, c, e0, n);
  }

  lemma SumOfBucketsIsBucketTotal(rows: seq<DayRow>, cols: set<Counter>, c: Counter, n: nat)
    requires rows != [] && c in cols
    requires n <= |WeeklySums(rows, cols)|
    ensures SumOfBuckets(WeeklySums(rows, cols), c, n) == BucketTotal(rows, c, WeekEnd(MinDate(rows)), n)
  {
    var b := WeeklySums(rows, cols);
    forall k | 0 <= k < n
      ensures b[k].sums[c] == WindowSum(rows, c, WeekEnd(MinDate(rows)) + 7 * k)
    {
      WeeklySumsAt(rows, cols, k, c);
    }
    SumOfWindows(b, rows, c, WeekEnd(MinDate(rows)), n);
  }

  /** Buckets holding the window sums of consecutive weeks add up to the total over those weeks. */
  lemma {:induction false} SumOfWindows(b: seq<Bucket>, rows: seq<DayRow>, c: Counter, e0: int, n: nat)
    requires n <= |b| && forall k :: 0 <= k < |b| ==> c in b[k].sums
    requires forall k :: 0 <= k < n ==> b[k].sums[c] == WindowSum(rows, c, e0 + 7 * k)
    ensures SumOfBuckets(b, c, n) == BucketTotal(rows, c, e0, n)
  {
    if n > 0 {
      SumOfWindows(b, rows, c, e0, n - 1);
    }
  }
}
