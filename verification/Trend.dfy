/**
 The statistics trend: a period split into calendar units, and its money in one bucket for each.

 A calendar date is a day number. A unit is known by the first day of the unit a day is in and by the
 first day of the next unit; a zone by the first instant of each local day, which never goes back.
 */
module Trend {
  import opened Basics

  datatype DateRange = DateRange(start: int, end: int)

  datatype Grid = Grid(startOf: int -> int, next: int -> int)

  /** A day is in its unit, after which the next unit begins. */
  predicate IsUnit(g: Grid, d: int) {
    var (first, next) := (g.startOf(d), g.next(g.startOf(d)));
    first <= d < next && g.startOf(next) == next
  }

  /** Days of one unit agree on it. */
  predicate SharesUnit(g: Grid, d: int, e: int) {
    g.startOf(d) <= e < g.next(g.startOf(d)) ==> g.startOf(e) == g.startOf(d)
  }

  ghost predicate IsGrid(g: Grid) {
    (forall d :: IsUnit(g, d)) && (forall d, e :: SharesUnit(g, d, e))
  }

  predicate StartsInOrder(startOfDay: int -> int, d: int, e: int) {
    d <= e ==> startOfDay(d) <= startOfDay(e)
  }

  ghost predicate IsZone(startOfDay: int -> int) {
    forall d, e :: StartsInOrder(startOfDay, d, e)
  }

  // ------------------------------------------------------------------ calendars are grids

  /** The first days of consecutive units: every day, every seventh, every month's or year's first. */
  ghost predicate IsCalendar(first: int -> int) {
    forall u :: EndsLater(first, u)
  }

  predicate EndsLater(first: int -> int, u: int) {
    first(u) < first(u + 1)
  }

  predicate IsUnitOf(first: int -> int, u: int, d: int) {
    first(u) <= d < first(u + 1)
  }

  lemma {:induction false} UnitsAscend(first: int -> int, u: int, v: int)
    requires IsCalendar(first) && u < v
    ensures first(u) + (v - u) <= first(v)
    decreases v - u
  {
    assert EndsLater(first, v - 1);
    if u < v - 1 {
      UnitsAscend(first, u, v - 1);
    }
  }

  lemma {:induction false} SomeUnitHas(first: int -> int, d: int, u: int) returns (v: int)
    requires IsCalendar(first) && first(u) <= d
    ensures IsUnitOf(first, v, d)
    decreases d - first(u)
  {
    if IsUnitOf(first, u, d) {
      v := u;
    } else {
      assert EndsLater(first, u);
      v := SomeUnitHas(first, d, u + 1);
    }
  }

  lemma UnitsAreApart(first: int -> int, u: int, v: int, d: int)
    requires IsCalendar(first) && IsUnitOf(first, u, d) && IsUnitOf(first, v, d)
    ensures u == v
  {
    if u + 1 < v { UnitsAscend(first, u + 1, v); }
    if v + 1 < u { UnitsAscend(first, v + 1, u); }
  }

  ghost function UnitOf(first: int -> int, d: int): int {
    if u :| IsUnitOf(first, u, d) then u else 0
  }

  ghost function GridOf(first: int -> int): Grid {
    Grid((d: int) => first(UnitOf(first, d)), (d: int) => first(UnitOf(first, d) + 1))
  }

  lemma UnitOfHasTheDay(first: int -> int, d: int)
    requires IsCalendar(first)
    ensures IsUnitOf(first, UnitOf(first, d), d)
  {
    var u := 0;
    if first(0) > d {
      u := d - first(0);
      UnitsAscend(first, u, 0);
    }
    u := SomeUnitHas(first, d, u);
  }

  lemma UnitOfItsFirstDay(first: int -> int, u: int)
    requires IsCalendar(first)
    ensures UnitOf(first, first(u)) == u
  {
    assert EndsLater(first, u);
    UnitOfHasTheDay(first, first(u));
    UnitsAreApart(first, UnitOf(first, first(u)), u, first(u));
  }

  lemma DaysOfAUnitShareIt(first: int -> int, d: int, e: int)
    requires IsCalendar(first)
    ensures SharesUnit(GridOf(first), d, e)
  {
    if GridOf(first).startOf(d) <= e < GridOf(first).next(GridOf(first).startOf(d)) {
      UnitOfItsFirstDay(first, UnitOf(first, d));
      UnitOfHasTheDay(first, e);
      UnitsAreApart(first, UnitOf(first, d), UnitOf(first, e), e);
    }
  }

  predicate IsUnitFromTo(g: Grid, from: int, to: int) {
    g.startOf(from) == from && g.next(from) == to
  }

  /** Any calendar is a grid of just its units. */
  lemma CalendarsAreGrids(first: int -> int)
    requires IsCalendar(first)
    ensures IsGrid(GridOf(first)) && forall u :: IsUnitFromTo(GridOf(first), first(u), first(u + 1))
  {
    var g := GridOf(first);
    forall d ensures IsUnit(g, d) {
      UnitOfHasTheDay(first, d);
      UnitOfItsFirstDay(first, UnitOf(first, d));
      UnitOfItsFirstDay(first, UnitOf(first, d) + 1);
    }
    forall d, e ensures SharesUnit(g, d, e) {
      DaysOfAUnitShareIt(first, d, e);
    }
    forall u ensures IsUnitFromTo(g, first(u), first(u + 1)) {
      UnitOfItsFirstDay(first, u);
    }
  }

  // ------------------------------------------------------------------ splitting a range

  /** The parts join without gaps, cover the range, and break only between units. */
  ghost predicate IsSplit(g: Grid, range: DateRange, parts: seq<DateRange>) {
    && parts != []
    && parts[0].start == range.start && parts[|parts| - 1].end == range.end
    && (forall i :: 0 <= i < |parts| ==>
                      parts[i].start <= parts[i].end && g.startOf(parts[i].start) == g.startOf(parts[i].end))
    && (forall i :: 0 < i < |parts| ==>
                      parts[i].start == parts[i - 1].end + 1 && g.startOf(parts[i].start) == parts[i].start)
  }

  method SplitRange(g: Grid, range: DateRange) returns (parts: seq<DateRange>)
    requires IsGrid(g)
    ensures range.start > range.end ==> parts == []
    ensures range.start <= range.end ==> IsSplit(g, range, parts)
  {
    parts := [];
    var start := range.start;
    while start <= range.end
      invariant parts == [] ==> start == range.start
      invariant range.start > range.end ==> parts == []
      invariant parts != [] ==>
                  && parts[0].start == range.start
                  && parts[|parts| - 1].end == Min(start - 1, range.end) && g.startOf(start) == start
                  && (start > range.end || start == parts[|parts| - 1].end + 1)
      invariant forall i :: 0 <= i < |parts| ==>
                              parts[i].start <= parts[i].end && g.startOf(parts[i].start) == g.startOf(parts[i].end)
      invariant forall i :: 0 < i < |parts| ==>
                              parts[i].start == parts[i - 1].end + 1 && g.startOf(parts[i].start) == parts[i].start
      decreases range.end - start
    {
      assert IsUnit(g, start);
      var end := g.next(g.startOf(start)) - 1;
      var clipped := if end < range.end then end else range.end;
      assert SharesUnit(g, start, clipped);
      parts := parts + [DateRange(start, clipped)];
      start := g.next(g.startOf(start));
    }
  }

  lemma {:induction false} PartsAscend(g: Grid, range: DateRange, parts: seq<DateRange>, i: nat, j: nat)
    requires IsSplit(g, range, parts) && i < j < |parts|
    ensures parts[i].end < parts[j].start
    decreases j
  {
    if i < j - 1 {
      PartsAscend(g, range, parts, i, j - 1);
      assert parts[j - 1].start <= parts[j - 1].end;
    }
    assert parts[j].start == parts[j - 1].end + 1;
  }

  lemma {:induction false} SomePartHas(g: Grid, range: DateRange, parts: seq<DateRange>, day: int,
      k: nat) returns (i: nat)
    requires IsSplit(g, range, parts) && k < |parts| && range.start <= day <= parts[k].end
    ensures i <= k && parts[i].start <= day <= parts[i].end
  {
    if parts[k].start <= day {
      i := k;
    } else {
      assert parts[k].start == parts[k - 1].end + 1;
      i := SomePartHas(g, range, parts, day, k - 1);
    }
  }

  /** Every day of the range is in one part, and only in one; no part leaves the range. */
  lemma EveryDayIsInOnePart(g: Grid, range: DateRange, parts: seq<DateRange>, day: int)
    requires IsSplit(g, range, parts)
    ensures range.start <= day <= range.end <==> exists i :: 0 <= i < |parts| && parts[i].start <= day <= parts[i].end
    ensures forall i, j :: && 0 <= i < |parts| && parts[i].start <= day <= parts[i].end
                           && 0 <= j < |parts| && parts[j].start <= day <= parts[j].end ==>
                             i == j
  {
    if range.start <= day <= range.end {
      var i := SomePartHas(g, range, parts, day, |parts| - 1);
    }
    forall i, j | 0 <= i < j < |parts| ensures parts[i].end < parts[j].start {
      PartsAscend(g, range, parts, i, j);
    }
    if i :| 0 <= i < |parts| && parts[i].start <= day <= parts[i].end {
      if i > 0 {
        PartsAscend(g, range, parts, 0, i);
        assert parts[0].start <= parts[0].end;
      }
      if i < |parts| - 1 {
        PartsAscend(g, range, parts, i, |parts| - 1);
        assert parts[|parts| - 1].start <= parts[|parts| - 1].end;
      }
    }
  }

  // ------------------------------------------------------------------ instants

  datatype TimeState = Past | Current | Future

  function StateAt(from: int, to: int, asOf: int): TimeState {
    if asOf < from then Future else if asOf > to then Past else Current
  }

  datatype Interval = Interval(from: int, to: int, state: TimeState)

  function EndOfDay(startOfDay: int -> int, day: int): int {
    startOfDay(day + 1) - 1
  }

  function IntervalOf(startOfDay: int -> int, range: DateRange, asOf: int): Interval {
    var (from, to) := (startOfDay(range.start), EndOfDay(startOfDay, range.end));
    Interval(from, to, StateAt(from, to, asOf))
  }

  /** The intervals join to the millisecond, start in order, and the future ones come last. */
  ghost predicate AreIntervals(intervals: seq<Interval>, whole: Interval, asOf: int) {
    && intervals != []
    && intervals[0].from == whole.from && intervals[|intervals| - 1].to == whole.to
    && whole.state == StateAt(whole.from, whole.to, asOf)
    && (forall i :: 0 <= i < |intervals| ==>
                      intervals[i].from <= intervals[i].to + 1
                      && intervals[i].state == StateAt(intervals[i].from, intervals[i].to, asOf))
    && (forall i :: 0 < i < |intervals| ==> FollowsOn(intervals, i))
  }

  predicate FollowsOn(intervals: seq<Interval>, i: nat)
    requires 0 < i < |intervals|
  {
    intervals[i].from == intervals[i - 1].to + 1
  }

  /** The interval is that of some days: from the first one's start to the last millisecond of the last one. */
  predicate IsIntervalOf(interval: Interval, startOfDay: int -> int, days: DateRange, asOf: int) {
    && interval.from == startOfDay(days.start) && interval.to + 1 == startOfDay(days.end + 1)
    && (interval.state == Future <==> asOf < interval.from)
    && (interval.state == Past <==> interval.from <= asOf && interval.to < asOf)
  }

  /** One interval for each part of the range. */
  ghost predicate AreOfTheParts(intervals: seq<Interval>, startOfDay: int -> int, parts: seq<DateRange>, asOf: int) {
    && |intervals| == |parts|
    && forall i :: 0 <= i < |intervals| ==> IsIntervalOf(intervals[i], startOfDay, parts[i], asOf)
  }

  method ResolveTrendIntervals(g: Grid, startOfDay: int -> int, range: DateRange, asOf: int)
    returns (intervals: seq<Interval>, ghost parts: seq<DateRange>)
    requires IsGrid(g) && IsZone(startOfDay) && range.start <= range.end
    ensures IsSplit(g, range, parts) && AreOfTheParts(intervals, startOfDay, parts, asOf)
    ensures AreIntervals(intervals, IntervalOf(startOfDay, range, asOf), asOf)
  {
    var ranges := SplitRange(g, range);
    parts := ranges;
    intervals := [];
    for k := 0 to |ranges|
      invariant |intervals| == k && forall i :: 0 <= i < k ==> intervals[i] == IntervalOf(startOfDay, parts[i], asOf)
    {
      intervals := intervals + [IntervalOf(startOfDay, ranges[k], asOf)];
    }
    forall i | 0 < i < |intervals| ensures FollowsOn(intervals, i) {
      assert parts[i].start == parts[i - 1].end + 1;
    }
    forall i | 0 <= i < |intervals| ensures intervals[i].from <= intervals[i].to + 1 {
      assert StartsInOrder(startOfDay, parts[i].start, parts[i].end + 1);
    }
  }

  lemma {:induction false} IntervalsAscend(intervals: seq<Interval>, whole: Interval, asOf: int, i: nat, j: nat)
    requires AreIntervals(intervals, whole, asOf) && i < j < |intervals|
    ensures intervals[i].from <= intervals[i].to + 1 <= intervals[j].from <= intervals[j].to + 1
    decreases j
  {
    if i < j - 1 {
      IntervalsAscend(intervals, whole, asOf, i, j - 1);
    }
    assert FollowsOn(intervals, j);
  }

  /** What has not started yet is at the end. */
  lemma FutureIsASuffix(intervals: seq<Interval>, whole: Interval, asOf: int, i: nat, j: nat)
    requires AreIntervals(intervals, whole, asOf) && i < j < |intervals| && intervals[i].state == Future
    ensures intervals[j].state == Future
  {
    IntervalsAscend(intervals, whole, asOf, i, j);
  }

  // ------------------------------------------------------------------ money

  datatype Kind = Income | Expense

  /** A record that statistics count: not of the system category. Money is in cents. */
  datatype Record = Record(timestamp: int, kind: Kind, amount: nat)

  datatype Totals = Totals(income: nat, incomeCount: nat, expense: nat, expenseCount: nat)

  const EMPTY := Totals(0, 0, 0, 0)

  function AddTotals(a: Totals, b: Totals): Totals {
    Totals(a.income + b.income, a.incomeCount + b.incomeCount, a.expense + b.expense, a.expenseCount + b.expenseCount)
  }

  function OneRecord(r: Record): Totals {
    if r.kind == Income then Totals(r.amount, 1, 0, 0) else Totals(0, 0, r.amount, 1)
  }

  /** The totals of the records from one instant to another, both included. */
  function TotalsWithin(rows: seq<Record>, from: int, to: int): Totals {
    if rows == [] then EMPTY
    else
      var (rest, r) := (TotalsWithin(rows[..|rows| - 1], from, to), rows[|rows| - 1]);
      if from <= r.timestamp <= to then AddTotals(rest, OneRecord(r)) else rest
  }

  /** CASE WHEN timestamp <= end0 THEN 0 WHEN ... ELSE last END. */
  function BucketOf(ends: seq<int>, timestamp: int): (i: nat)
    requires ends != []
    ensures i < |ends|
    ensures forall j :: 0 <= j < i ==> timestamp > ends[j]
    ensures i < |ends| - 1 ==> timestamp <= ends[i]
  {
    if |ends| == 1 || timestamp <= ends[0] then 0 else 1 + BucketOf(ends[1..], timestamp)
  }

  function BucketTotals(rows: seq<Record>, from: int, to: int, ends: seq<int>, i: nat): Totals
    requires ends != []
  {
    if rows == [] then EMPTY
    else
      var (rest, r) := (BucketTotals(rows[..|rows| - 1], from, to, ends, i), rows[|rows| - 1]);
      if from <= r.timestamp <= to && BucketOf(ends, r.timestamp) == i then AddTotals(rest, OneRecord(r)) else rest
  }

  // ------------------------------------------------------------------ the totals, plainly

  /** The records of a kind at the times that count. */
  function Taken(rows: seq<Record>, kind: Kind, when: int -> bool): seq<Record> {
    if rows == [] then []
    else
      var (rest, r) := (Taken(rows[..|rows| - 1], kind, when), rows[|rows| - 1]);
      if r.kind == kind && when(r.timestamp) then rest + [r] else rest
  }

  function SumOfAmounts(rows: seq<Record>): nat {
    if rows == [] then 0 else SumOfAmounts(rows[..|rows| - 1]) + rows[|rows| - 1].amount
  }

  /** Income and expense, each with the sum and the number of its own records. */
  predicate AreTotals(totals: Totals, rows: seq<Record>, when: int -> bool) {
    var (income, expense) := (Taken(rows, Income, when), Taken(rows, Expense, when));
    && totals.income == SumOfAmounts(income) && totals.incomeCount == |income|
    && totals.expense == SumOfAmounts(expense) && totals.expenseCount == |expense|
  }

  function During(from: int, to: int): int -> bool {
    (t: int) => from <= t <= to
  }

  /** After every earlier end and, but for the last bucket, not after its own. */
  function DuringBucket(from: int, to: int, ends: seq<int>, i: nat): int -> bool {
    (t: int) => from <= t <= to && i < |ends| && (forall j :: 0 <= j < i ==> ends[j] < t)
                && (i < |ends| - 1 ==> t <= ends[i])
  }

  lemma {:induction false} OneMoreRecord(rows: seq<Record>, r: Record, when: int -> bool, totals: Totals)
    requires AreTotals(totals, rows, when)
    ensures AreTotals(if when(r.timestamp) then AddTotals(totals, OneRecord(r)) else totals, rows + [r], when)
  {
    assert (rows + [r])[..|rows + [r]| - 1] == rows;
    var (income, expense) := (Taken(rows, Income, when), Taken(rows, Expense, when));
    assert (income + [r])[..|income + [r]| - 1] == income && (expense + [r])[..|expense + [r]| - 1] == expense;
  }

  /** The totals of a span are the sums of the records in it. */
  lemma {:induction false} TotalsAreSums(rows: seq<Record>, from: int, to: int)
    ensures AreTotals(TotalsWithin(rows, from, to), rows, During(from, to))
  {
    if rows != [] {
      var (before, r) := (rows[..|rows| - 1], rows[|rows| - 1]);
      TotalsAreSums(before, from, to);
      OneMoreRecord(before, r, During(from, to), TotalsWithin(before, from, to));
      assert before + [r] == rows;
    }
  }

  lemma BucketOfIsUnique(ends: seq<int>, t: int, i: nat)
    requires i < |ends|
    ensures BucketOf(ends, t) == i <==>
              (forall j :: 0 <= j < i ==> ends[j] < t) && (i < |ends| - 1 ==> t <= ends[i])
  {
    var b := BucketOf(ends, t);
    assert b < i ==> t <= ends[b];
    assert i < b ==> t > ends[i];
  }

  /** The grouped query gives each bucket the sums of its own records. */
  lemma {:induction false} BucketTotalsAreSums(rows: seq<Record>, from: int, to: int, ends: seq<int>, i: nat)
    requires i < |ends|
    ensures AreTotals(BucketTotals(rows, from, to, ends, i), rows, DuringBucket(from, to, ends, i))
  {
    if rows != [] {
      var (before, r) := (rows[..|rows| - 1], rows[|rows| - 1]);
      BucketTotalsAreSums(before, from, to, ends, i);
      BucketOfIsUnique(ends, r.timestamp, i);
      OneMoreRecord(before, r, DuringBucket(from, to, ends, i), BucketTotals(before, from, to, ends, i));
      assert before + [r] == rows;
    }
  }

  /** One query grouped by the CASE. */
  method GetStatisticsIntervalTotals(rows: seq<Record>, from: int, to: int, ends: seq<int>)
    returns (totals: seq<Totals>)
    requires ends != []
    ensures |totals| == |ends|
    ensures forall i :: 0 <= i < |ends| ==> totals[i] == BucketTotals(rows, from, to, ends, i)
  {
    totals := seq(|ends|, _ => EMPTY);
    for k := 0 to |rows|
      invariant |totals| == |ends|
      invariant forall i :: 0 <= i < |ends| ==> totals[i] == BucketTotals(rows[..k], from, to, ends, i)
    {
      assert rows[..k + 1][..k] == rows[..k];
      if from <= rows[k].timestamp <= to {
        var i := BucketOf(ends, rows[k].timestamp);
        totals := totals[i := AddTotals(totals[i], OneRecord(rows[k]))];
      }
    }
    assert rows[..|rows|] == rows;
  }

  function SumOf(totals: seq<Totals>): Totals {
    if totals == [] then EMPTY else AddTotals(SumOf(totals[..|totals| - 1]), totals[|totals| - 1])
  }

  function Buckets(rows: seq<Record>, from: int, to: int, ends: seq<int>, n: nat): seq<Totals>
    requires ends != []
  {
    seq(n, (i: nat) => BucketTotals(rows, from, to, ends, i))
  }

  lemma {:induction false} SumOfOneMore(a: seq<Totals>, b: seq<Totals>, i: nat, x: Totals)
    requires |a| == |b| && i < |a| && b == a[i := AddTotals(a[i], x)]
    ensures SumOf(b) == AddTotals(SumOf(a), x)
  {
    var n := |a| - 1;
    if i < n {
      SumOfOneMore(a[..n], b[..n], i, x);
    } else {
      assert a[..n] == b[..n];
    }
  }

  lemma {:induction false} SumOfNone(n: nat, totals: seq<Totals>)
    requires |totals| == n && forall i :: 0 <= i < n ==> totals[i] == EMPTY
    ensures SumOf(totals) == EMPTY
  {
    if n > 0 {
      SumOfNone(n - 1, totals[..n - 1]);
    }
  }

  /** The buckets add up to the totals of the whole scope: no record is lost or counted twice. */
  lemma {:induction false} BucketsAddUp(rows: seq<Record>, from: int, to: int, ends: seq<int>)
    requires ends != []
    ensures SumOf(Buckets(rows, from, to, ends, |ends|)) == TotalsWithin(rows, from, to)
  {
    var all := Buckets(rows, from, to, ends, |ends|);
    if rows == [] {
      SumOfNone(|ends|, all);
    } else {
      var (init, r) := (rows[..|rows| - 1], rows[|rows| - 1]);
      var before := Buckets(init, from, to, ends, |ends|);
      BucketsAddUp(init, from, to, ends);
      if from <= r.timestamp <= to {
        var i := BucketOf(ends, r.timestamp);
        assert all == before[i := AddTotals(before[i], OneRecord(r))];
        SumOfOneMore(before, all, i, OneRecord(r));
      } else {
        assert all == before;
      }
    }
  }

  lemma SumsAddUp(rows: seq<Record>, from: int, to: int, ends: seq<int>, sums: seq<Totals>)
    requires ends != [] && |sums| == |ends|
    requires forall i :: 0 <= i < |ends| ==> sums[i] == BucketTotals(rows, from, to, ends, i)
    ensures SumOf(sums) == TotalsWithin(rows, from, to)
  {
    BucketsAddUp(rows, from, to, ends);
    assert sums == Buckets(rows, from, to, ends, |ends|);
  }

  lemma {:induction false} BucketsAreIntervals(rows: seq<Record>, from: int, to: int, ends: seq<int>, i: nat,
      first: int, last: int)
    requires i < |ends|
    requires forall t :: from <= t <= to ==> (BucketOf(ends, t) == i <==> first <= t <= last)
    requires from <= first && last <= to
    ensures BucketTotals(rows, from, to, ends, i) == TotalsWithin(rows, first, last)
  {
    if rows != [] {
      BucketsAreIntervals(rows[..|rows| - 1], from, to, ends, i, first, last);
    }
  }

  // ------------------------------------------------------------------ the trend

  /** Up to when a period counts: nothing yet, all of it, or up to now. */
  function ActualTo(whole: Interval, asOf: int): Option<int> {
    match whole.state
    case Future => None
    case Past => Some(whole.to)
    case Current => Some(asOf)
  }

  /** The intervals that have started. */
  method Started(intervals: seq<Interval>, ghost whole: Interval, ghost asOf: int) returns (n: nat)
    requires AreIntervals(intervals, whole, asOf)
    ensures n <= |intervals|
    ensures forall i :: 0 <= i < |intervals| ==> (intervals[i].state != Future <==> i < n)
  {
    n := 0;
    while n < |intervals| && intervals[n].state != Future
      invariant n <= |intervals|
      invariant forall i :: 0 <= i < n ==> intervals[i].state != Future
    {
      n := n + 1;
    }
    forall i | n < i < |intervals| ensures intervals[i].state == Future {
      FutureIsASuffix(intervals, whole, asOf, n, i);
    }
  }

  function EndsOf(intervals: seq<Interval>, n: nat): (ends: seq<int>)
    requires n <= |intervals|
    ensures |ends| == n && forall i :: 0 <= i < n ==> ends[i] == intervals[i].to
  {
    seq(n, i requires 0 <= i < n => intervals[i].to)
  }

  /** The CASE picks the started interval that an instant is in. */
  lemma BucketIsTheInterval(intervals: seq<Interval>, whole: Interval, asOf: int, n: nat, i: nat, t: int)
    requires AreIntervals(intervals, whole, asOf) && i < n <= |intervals| && ActualTo(whole, asOf).Some?
    requires forall j :: 0 <= j < |intervals| ==> (intervals[j].state != Future <==> j < n)
    requires whole.from <= t <= ActualTo(whole, asOf).value
    ensures BucketOf(EndsOf(intervals, n), t) == i <==>
            intervals[i].from <= t <= Min(intervals[i].to, ActualTo(whole, asOf).value)
  {
    var b := BucketOf(EndsOf(intervals, n), t);
    LastStartedReachesFarEnough(intervals, whole, asOf, n);
    if b > 0 {
      assert t > EndsOf(intervals, n)[b - 1] && FollowsOn(intervals, b);
    }
    assert intervals[b].from <= t <= intervals[b].to;
    if i < b {
      IntervalsAscend(intervals, whole, asOf, i, b);
    } else if b < i {
      IntervalsAscend(intervals, whole, asOf, b, i);
    }
  }

  lemma LastStartedReachesFarEnough(intervals: seq<Interval>, whole: Interval, asOf: int, n: nat)
    requires AreIntervals(intervals, whole, asOf) && 0 < n <= |intervals| && ActualTo(whole, asOf).Some?
    requires forall j :: 0 <= j < |intervals| ==> (intervals[j].state != Future <==> j < n)
    ensures ActualTo(whole, asOf).value <= intervals[n - 1].to
  {
    if n < |intervals| {
      assert intervals[n].state == Future && FollowsOn(intervals, n);
      IntervalsAscend(intervals, whole, asOf, n - 1, n);
      if n < |intervals| - 1 {
        IntervalsAscend(intervals, whole, asOf, n, |intervals| - 1);
      }
    }
  }

  lemma StartedIsNotEmpty(intervals: seq<Interval>, whole: Interval, asOf: int)
    requires AreIntervals(intervals, whole, asOf)
    ensures ActualTo(whole, asOf).Some? <==> intervals[0].state != Future
  {
  }

  lemma StartedBucket(rows: seq<Record>, intervals: seq<Interval>, whole: Interval, asOf: int, n: nat, i: nat)
    requires AreIntervals(intervals, whole, asOf) && i < n <= |intervals| && ActualTo(whole, asOf).Some?
    requires forall j :: 0 <= j < |intervals| ==> (intervals[j].state != Future <==> j < n)
    ensures var to := ActualTo(whole, asOf).value;
            BucketTotals(rows, whole.from, to, EndsOf(intervals, n), i)
            == TotalsWithin(rows, intervals[i].from, Min(intervals[i].to, to))
  {
    var to := ActualTo(whole, asOf).value;
    forall t | whole.from <= t <= to
      ensures BucketOf(EndsOf(intervals, n), t) == i <==> intervals[i].from <= t <= Min(intervals[i].to, to)
    {
      BucketIsTheInterval(intervals, whole, asOf, n, i, t);
    }
    if i > 0 {
      IntervalsAscend(intervals, whole, asOf, 0, i);
    }
    BucketsAreIntervals(rows, whole.from, to, EndsOf(intervals, n), i, intervals[i].from, Min(intervals[i].to, to));
  }

  datatype Bucket = Bucket(interval: Interval, totals: Option<Totals>)

  function IntervalsOf(buckets: seq<Bucket>): (intervals: seq<Interval>)
    ensures |intervals| == |buckets| && forall i :: 0 <= i < |buckets| ==> intervals[i] == buckets[i].interval
  {
    seq(|buckets|, i requires 0 <= i < |buckets| => buckets[i].interval)
  }

  /** A started bucket holds its interval's money so far, any other none. */
  predicate HoldsItsMoney(b: Bucket, rows: seq<Record>, actualTo: Option<int>) {
    && (b.totals.Some? <==> b.interval.state != Future)
    && (b.totals.Some? ==> actualTo.Some?
                           && b.totals.value == TotalsWithin(rows, b.interval.from, Min(b.interval.to, actualTo.value)))
  }

  /** The bucket has what was earned and spent in its interval so far, once that has begun. */
  predicate TellsItsMoney(b: Bucket, rows: seq<Record>, asOf: int) {
    && (b.totals.Some? <==> b.interval.from <= asOf)
    && (b.totals.Some? ==>
          AreTotals(b.totals.value, rows, During(b.interval.from, Min(b.interval.to, asOf))))
  }

  lemma BucketTellsItsMoney(buckets: seq<Bucket>, whole: Interval, rows: seq<Record>, asOf: int, i: nat)
    requires AreIntervals(IntervalsOf(buckets), whole, asOf) && i < |buckets|
    requires HoldsItsMoney(buckets[i], rows, ActualTo(whole, asOf))
    ensures TellsItsMoney(buckets[i], rows, asOf)
  {
    var (intervals, n) := (IntervalsOf(buckets), |buckets|);
    if i < n - 1 {
      IntervalsAscend(intervals, whole, asOf, i, n - 1);
    }
    if buckets[i].totals.Some? {
      TotalsAreSums(rows, intervals[i].from, Min(intervals[i].to, asOf));
    }
  }

  lemma BucketsTellTheirMoney(buckets: seq<Bucket>, whole: Interval, rows: seq<Record>, asOf: int)
    requires AreIntervals(IntervalsOf(buckets), whole, asOf)
    requires forall i :: 0 <= i < |buckets| ==> HoldsItsMoney(buckets[i], rows, ActualTo(whole, asOf))
    ensures forall i :: 0 <= i < |buckets| ==> TellsItsMoney(buckets[i], rows, asOf)
  {
    forall i | 0 <= i < |buckets| ensures TellsItsMoney(buckets[i], rows, asOf) {
      BucketTellsItsMoney(buckets, whole, rows, asOf, i);
    }
  }

  lemma {:induction false} NothingTaken(rows: seq<Record>, kind: Kind, from: int, to: int)
    requires to < from
    ensures Taken(rows, kind, During(from, to)) == []
  {
    if rows != [] {
      NothingTaken(rows[..|rows| - 1], kind, from, to);
    }
  }

  /** The total counts the period up to now, which is nothing before it begins. */
  lemma TotalTellsTheMoney(whole: Interval, rows: seq<Record>, asOf: int, total: Totals)
    requires whole.state == StateAt(whole.from, whole.to, asOf) && whole.from <= whole.to + 1
    requires total == if ActualTo(whole, asOf).None? then EMPTY
                      else TotalsWithin(rows, whole.from, ActualTo(whole, asOf).value)
    ensures AreTotals(total, rows, During(whole.from, Min(whole.to, asOf)))
  {
    TotalsAreSums(rows, whole.from, Min(whole.to, asOf));
    if asOf < whole.from {
      NothingTaken(rows, Income, whole.from, Min(whole.to, asOf));
      NothingTaken(rows, Expense, whole.from, Min(whole.to, asOf));
    }
  }

  /** Gives the intervals that have started their sums. */
  method BucketsFrom(intervals: seq<Interval>, sums: seq<Totals>, ghost rows: seq<Record>, ghost actualTo: Option<int>)
    returns (buckets: seq<Bucket>)
    requires |sums| <= |intervals|
    requires forall i :: 0 <= i < |intervals| ==> (i < |sums| <==> intervals[i].state != Future)
    requires forall i :: 0 <= i < |sums| ==>
                           actualTo.Some?
                           && sums[i] == TotalsWithin(rows, intervals[i].from, Min(intervals[i].to, actualTo.value))
    ensures IntervalsOf(buckets) == intervals
    ensures forall i :: 0 <= i < |buckets| ==> buckets[i].totals == if i < |sums| then Some(sums[i]) else None
    ensures forall i :: 0 <= i < |buckets| ==> HoldsItsMoney(buckets[i], rows, actualTo)
  {
    buckets := seq(|intervals|, i requires 0 <= i < |intervals| =>
                     Bucket(intervals[i], if i < |sums| then Some(sums[i]) else None));
    assert IntervalsOf(buckets) == intervals;
  }

  /** The sums of the intervals that have started, up to now. */
  method StartedSums(intervals: seq<Interval>, ghost whole: Interval, ghost asOf: int, rows: seq<Record>, n: nat,
      from: int, to: int) returns (sums: seq<Totals>)
    requires AreIntervals(intervals, whole, asOf) && 0 < n <= |intervals|
    requires from == whole.from && ActualTo(whole, asOf) == Some(to)
    requires forall i :: 0 <= i < |intervals| ==> (intervals[i].state != Future <==> i < n)
    ensures |sums| == n && SumOf(sums) == TotalsWithin(rows, from, to)
    ensures forall i :: 0 <= i < n ==>
                          sums[i] == TotalsWithin(rows, intervals[i].from, Min(intervals[i].to, to))
  {
    sums := GetStatisticsIntervalTotals(rows, from, to, EndsOf(intervals, n));
    SumsAddUp(rows, from, to, EndsOf(intervals, n), sums);
    forall i | 0 <= i < n ensures sums[i] == TotalsWithin(rows, intervals[i].from, Min(intervals[i].to, to)) {
      StartedBucket(rows, intervals, whole, asOf, n, i);
    }
  }

  /** The totals of the buckets that have some. */
  function TotalsOf(buckets: seq<Bucket>): seq<Totals> {
    if buckets == [] then []
    else
      var (rest, b) := (TotalsOf(buckets[..|buckets| - 1]), buckets[|buckets| - 1]);
      if b.totals.Some? then rest + [b.totals.value] else rest
  }

  lemma {:induction false} TotalsOfStarted(buckets: seq<Bucket>, sums: seq<Totals>)
    requires |sums| <= |buckets|
    requires forall i :: 0 <= i < |buckets| ==>
                           buckets[i].totals == if i < |sums| then Some(sums[i]) else None
    ensures TotalsOf(buckets) == sums
  {
    if buckets != [] {
      var before := buckets[..|buckets| - 1];
      if |sums| == |buckets| {
        TotalsOfStarted(before, sums[..|sums| - 1]);
      } else {
        TotalsOfStarted(before, sums);
      }
    }
  }

  /** Each bucket has its interval's money so far, and the total is the period's, and the sum of the buckets. */
  ghost predicate TellsTheTrend(buckets: seq<Bucket>, total: Totals, from: int, to: int, rows: seq<Record>, asOf: int) {
    && (forall i :: 0 <= i < |buckets| ==> TellsItsMoney(buckets[i], rows, asOf))
    && AreTotals(total, rows, During(from, Min(to, asOf)))
    && total == SumOf(TotalsOf(buckets))
  }

  lemma TrendIsTold(buckets: seq<Bucket>, sums: seq<Totals>, whole: Interval, rows: seq<Record>, asOf: int)
    requires AreIntervals(IntervalsOf(buckets), whole, asOf) && |sums| <= |buckets| && whole.from <= whole.to + 1
    requires forall i :: 0 <= i < |buckets| ==> HoldsItsMoney(buckets[i], rows, ActualTo(whole, asOf))
    requires forall i :: 0 <= i < |buckets| ==> buckets[i].totals == if i < |sums| then Some(sums[i]) else None
    requires SumOf(sums) == if ActualTo(whole, asOf).None? then EMPTY
                            else TotalsWithin(rows, whole.from, ActualTo(whole, asOf).value)
    ensures TellsTheTrend(buckets, SumOf(sums), whole.from, whole.to, rows, asOf)
  {
    BucketsTellTheirMoney(buckets, whole, rows, asOf);
    TotalTellsTheMoney(whole, rows, asOf, SumOf(sums));
    TotalsOfStarted(buckets, sums);
  }

  /** The buckets of a period's intervals and the total of those that have begun. */
  method TrendOf(intervals: seq<Interval>, whole: Interval, asOf: int, rows: seq<Record>)
    returns (buckets: seq<Bucket>, total: Totals)
    requires AreIntervals(intervals, whole, asOf) && whole.from <= whole.to + 1
    ensures IntervalsOf(buckets) == intervals && TellsTheTrend(buckets, total, whole.from, whole.to, rows, asOf)
  {
    var n := Started(intervals, whole, asOf);
    StartedIsNotEmpty(intervals, whole, asOf);
    var actualTo := ActualTo(whole, asOf);
    var sums: seq<Totals> := [];
    if actualTo.Some? {
      sums := StartedSums(intervals, whole, asOf, rows, n, whole.from, actualTo.value);
    }
    total := SumOf(sums);
    buckets := BucketsFrom(intervals, sums, rows, actualTo);
    TrendIsTold(buckets, sums, whole, rows, asOf);
  }

  /** The period's buckets: each started one holds its interval's money so far, and together they are the summary's. */
  method GetTrend(g: Grid, startOfDay: int -> int, range: DateRange, asOf: int, rows: seq<Record>)
    returns (buckets: seq<Bucket>, total: Totals, ghost parts: seq<DateRange>)
    requires IsGrid(g) && IsZone(startOfDay) && range.start <= range.end
    ensures IsSplit(g, range, parts) && AreOfTheParts(IntervalsOf(buckets), startOfDay, parts, asOf)
    ensures TellsTheTrend(buckets, total, startOfDay(range.start), startOfDay(range.end + 1) - 1, rows, asOf)
  {
    var intervals;
    intervals, parts := ResolveTrendIntervals(g, startOfDay, range, asOf);
    assert StartsInOrder(startOfDay, range.start, range.end + 1);
    buckets, total := TrendOf(intervals, IntervalOf(startOfDay, range, asOf), asOf, rows);
  }
}
