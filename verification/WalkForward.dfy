/**
 The rolling windows of the walk-forward test: skopaq/backtest/walk_forward.py, on daily bars. Month
 arithmetic is pandas': the day is cut back to the length of the month it lands in.
*/
module WalkForward {

  /** `month` counts months from year 0 (January is a multiple of twelve). */
  datatype Date = Date(month: int, day: int)

  predicate LeapYear(y: int) { y % 4 == 0 && (y % 100 != 0 || y % 400 == 0) }

  function DaysIn(month: int): (n: int)
    ensures 28 <= n <= 31
  {
    var m := month % 12;
    if m == 1 then if LeapYear(month / 12) then 29 else 28
    else if m == 3 || m == 5 || m == 8 || m == 10 then 30
    else 31
  }

  predicate OnCalendar(d: Date) { 1 <= d.day <= DaysIn(d.month) }

  /** `pd.DateOffset(months=n)`. */
  function AddMonths(d: Date, n: int): Date {
    Date(d.month + n, if d.day <= DaysIn(d.month + n) then d.day else DaysIn(d.month + n))
  }

  predicate Before(a: Date, b: Date) { a.month < b.month || (a.month == b.month && a.day < b.day) }

  predicate AtMost(a: Date, b: Date) { !Before(b, a) }

  datatype Plan = Plan(inSample: nat, outOfSample: nat, step: nat)

  function InSampleEnd(current: Date, plan: Plan): Date { AddMonths(current, plan.inSample) }

  function OutSampleEnd(current: Date, plan: Plan): Date {
    AddMonths(InSampleEnd(current, plan), plan.outOfSample)
  }

  /** The bars in `[from, to)`. */
  function Slice(bars: seq<Date>, from: Date, to: Date): (r: seq<Date>)
    ensures forall d :: d in r <==> d in bars && AtMost(from, d) && Before(d, to)
  {
    if bars == [] then []
    else
      var before, last := Slice(bars[..|bars| - 1], from, to), bars[|bars| - 1];
      if AtMost(from, last) && Before(last, to) then before + [last] else before
  }

  datatype Period = Period(index: nat, inStart: Date, inEnd: Date, outEnd: Date,
                           inBars: seq<Date>, outBars: seq<Date>)

  function PeriodAt(bars: seq<Date>, plan: Plan, index: nat, current: Date): Period {
    var inEnd, outEnd := InSampleEnd(current, plan), OutSampleEnd(current, plan);
    Period(index, current, inEnd, outEnd, Slice(bars, current, inEnd), Slice(bars, inEnd, outEnd))
  }

  predicate Enough(p: Period) { |p.inBars| >= 20 && |p.outBars| >= 10 }

  /** Where the `k`-th window starts: steps are added one after another, so a shortened day stays. */
  function StartAt(start: Date, plan: Plan, k: nat): Date {
    if k == 0 then start else AddMonths(StartAt(start, plan, k - 1), plan.step)
  }

  predicate Fits(start: Date, end: Date, plan: Plan, k: nat) {
    AtMost(OutSampleEnd(StartAt(start, plan, k), plan), end)
  }

  /** The loop runs for exactly `n` windows: the first one that reaches past the data ends it. */
  ghost predicate StopsAt(start: Date, end: Date, plan: Plan, n: nat) {
    !Fits(start, end, plan, n) && forall k :: 0 <= k < n ==> Fits(start, end, plan, k)
  }

  /** The periods of the first `k` windows, numbered without the skipped ones. */
  function Periods(bars: seq<Date>, start: Date, plan: Plan, k: nat): seq<Period> {
    if k == 0 then []
    else
      var before := Periods(bars, start, plan, k - 1);
      var p := PeriodAt(bars, plan, |before|, StartAt(start, plan, k - 1));
      if Enough(p) then before + [p] else before
  }

  /** `walk_forward_test`'s loop; `start` and `end` are the first and last bar. */
  method WalkForwardTest(bars: seq<Date>, start: Date, end: Date, plan: Plan)
    returns (periods: seq<Period>)
    requires plan.step >= 1
    ensures exists n: nat :: StopsAt(start, end, plan, n) && periods == Periods(bars, start, plan, n)
  {
    hide Slice, DaysIn;
    periods := [];
    ghost var windows: nat := 0;
    var index := 0;
    var current := start;
    while true
      invariant current == StartAt(start, plan, windows) && index == |periods|
      invariant periods == Periods(bars, start, plan, windows)
      invariant forall k :: 0 <= k < windows ==> Fits(start, end, plan, k)
      invariant current.month == start.month + windows * plan.step
      decreases end.month - current.month
    {
      var inEnd := AddMonths(current, plan.inSample);
      var outEnd := AddMonths(inEnd, plan.outOfSample);
      if Before(end, outEnd) {
        assert StopsAt(start, end, plan, windows);
        break;
      }
      var inBars := Slice(bars, current, inEnd);
      var outBars := Slice(bars, inEnd, outEnd);
      if |inBars| >= 20 && |outBars| >= 10 {
        periods := periods + [Period(index, current, inEnd, outEnd, inBars, outBars)];
        index := index + 1;
      }
      windows := windows + 1;
      current := AddMonths(current, plan.step);
    }
  }

  // ---------------------------------------------------------------- the calendar

  /** The year, month by month. */
  lemma MonthHas(y: int, m: nat)
    requires m < 12
    ensures DaysIn(12 * y + m) == [31, if LeapYear(y) then 29 else 28, 31, 30, 31, 30, 31, 31, 30, 31, 30, 31][m]
    ensures LeapYear(y) <==> y % 4 == 0 && (y % 100 == 0 ==> y % 400 == 0)
  {
    assert (12 * y + m) % 12 == m && (12 * y + m) / 12 == y;
    hide LeapYear;
  }

  /** Adding months lands in the month so many later, on the same day if it has one, else on its last. */
  lemma AddMonthsLands(d: Date, n: int)
    requires OnCalendar(d)
    ensures var r := AddMonths(d, n);
      && OnCalendar(r) && r.month == d.month + n
      && (OnCalendar(Date(d.month + n, d.day)) ==> r.day == d.day)
      && (!OnCalendar(Date(d.month + n, d.day)) ==> r.day < d.day && !OnCalendar(Date(r.month, r.day + 1)))
  {}

  /** A window fits exactly when its out-of-sample part ends no later than the last bar. */
  lemma FitsExactlyWhen(start: Date, end: Date, plan: Plan, k: nat)
    ensures var last := AddMonths(AddMonths(StartAt(start, plan, k), plan.inSample), plan.outOfSample);
      Fits(start, end, plan, k) <==> last.month < end.month || (last.month == end.month && last.day <= end.day)
  {}

  // ---------------------------------------------------------------- which periods there are

  /** `r` is the bars of `[from, to)`, every one of them once and in order; `at` says where they stood. */
  ghost predicate BarsOf(r: seq<Date>, bars: seq<Date>, from: Date, to: Date, at: seq<nat>) {
    && |at| == |r|
    && (forall k :: 0 <= k < |at| ==> at[k] < |bars| && bars[at[k]] == r[k] && AtMost(from, r[k]) && Before(r[k], to))
    && Increasing(at)
    && (forall i :: 0 <= i < |bars| && AtMost(from, bars[i]) && Before(bars[i], to) ==> i in at)
  }

  lemma {:induction false} SliceIsTheBars(bars: seq<Date>, from: Date, to: Date) returns (at: seq<nat>)
    ensures BarsOf(Slice(bars, from, to), bars, from, to, at)
  {
    at := [];
    if bars != [] {
      var n := |bars| - 1;
      at := SliceIsTheBars(bars[..n], from, to);
      forall k | 0 <= k < |at| ensures bars[..n][at[k]] == bars[at[k]] {}
      forall i | 0 <= i < n && AtMost(from, bars[i]) && Before(bars[i], to) ensures i in at {
        assert bars[..n][i] == bars[i];
      }
      if AtMost(from, bars[n]) && Before(bars[n], to) {
        at := at + [n];
      }
    }
  }

  /** Period `p` is window `k`: its dates, its bars, and enough of both kinds of them. */
  ghost predicate IsWindow(bars: seq<Date>, start: Date, plan: Plan, k: nat, p: Period) {
    var current := StartAt(start, plan, k);
    var middle := AddMonths(current, plan.inSample);
    var end := AddMonths(middle, plan.outOfSample);
    && p.inStart == current && p.inEnd == middle && p.outEnd == end
    && (exists at :: BarsOf(p.inBars, bars, current, middle, at))
    && (exists at :: BarsOf(p.outBars, bars, middle, end, at))
    && |p.inBars| >= 20 && |p.outBars| >= 10
  }

  /** A window with at least 20 bars to train on and 10 to test on. */
  ghost predicate HasEnough(bars: seq<Date>, start: Date, plan: Plan, k: nat) {
    exists p :: IsWindow(bars, start, plan, k, p)
  }

  lemma WindowOf(bars: seq<Date>, start: Date, plan: Plan, k: nat, index: nat)
    ensures var p := PeriodAt(bars, plan, index, StartAt(start, plan, k));
      Enough(p) <==> IsWindow(bars, start, plan, k, p)
    ensures Enough(PeriodAt(bars, plan, index, StartAt(start, plan, k))) <==> HasEnough(bars, start, plan, k)
  {
    var p := PeriodAt(bars, plan, index, StartAt(start, plan, k));
    var ins := SliceIsTheBars(bars, p.inStart, p.inEnd);
    var outs := SliceIsTheBars(bars, p.inEnd, p.outEnd);
    hide BarsOf, Slice, AddMonths, StartAt;
    forall q | IsWindow(bars, start, plan, k, q) ensures |q.inBars| == |p.inBars| && |q.outBars| == |p.outBars| {
      var at :| BarsOf(q.inBars, bars, p.inStart, p.inEnd, at);
      SameBars(q.inBars, p.inBars, bars, p.inStart, p.inEnd, at, ins);
      var at' :| BarsOf(q.outBars, bars, p.inEnd, p.outEnd, at');
      SameBars(q.outBars, p.outBars, bars, p.inEnd, p.outEnd, at', outs);
    }
  }

  /** Bars listed in order are listed in one way only. */
  lemma SameBars(a: seq<Date>, b: seq<Date>, bars: seq<Date>, from: Date, to: Date, at: seq<nat>, bt: seq<nat>)
    requires BarsOf(a, bars, from, to, at) && BarsOf(b, bars, from, to, bt)
    ensures |a| == |b|
  {
    hide Before, AtMost;
    forall i ensures i in at <==> i in bt {
      if i in at { var k :| 0 <= k < |at| && at[k] == i; }
      if i in bt { var k :| 0 <= k < |bt| && bt[k] == i; }
    }
    SameIndices(at, bt);
  }

  ghost predicate Increasing(at: seq<nat>) { forall j, k :: 0 <= j < k < |at| ==> at[j] < at[k] }

  lemma {:induction false} SameIndices(at: seq<nat>, bt: seq<nat>)
    requires Increasing(at) && Increasing(bt) && forall i :: i in at <==> i in bt
    ensures at == bt
  {
    if at == [] {
      Headed(bt);
    } else {
      var n := |at| - 1;
      assert at[n] in at && at[n] in bt;
      var m := |bt| - 1;
      assert bt[m] in bt && bt[m] in at;
      assert at[n] == bt[m];
      InAllButLast(at);
      InAllButLast(bt);
      SameIndices(at[..n], bt[..m]);
    }
  }

  lemma Headed(at: seq<nat>)
    ensures at != [] ==> exists i :: i in at
  {
    if at != [] {
      assert at[0] in at;
    }
  }

  lemma InAllButLast(at: seq<nat>)
    requires Increasing(at) && at != []
    ensures var n := |at| - 1; Increasing(at[..n]) && forall i :: i in at[..n] <==> i in at && i != at[n]
  {
    var n := |at| - 1;
    assert at == at[..n] + [at[n]];
  }

  /**
   The periods reported are exactly the windows with enough bars, in order and numbered from zero
   without the skipped ones; `at` says which windows they are.
  */
  lemma {:induction false} PeriodsAreTheFullWindows(bars: seq<Date>, start: Date, plan: Plan, n: nat) returns (at: seq<nat>)
    ensures var periods := Periods(bars, start, plan, n);
      && |at| == |periods|
      && (forall i :: 0 <= i < |at| ==>
            at[i] < n && periods[i].index == i && IsWindow(bars, start, plan, at[i], periods[i]))
      && (forall i, j :: 0 <= i < j < |at| ==> at[i] < at[j])
      && (forall k :: 0 <= k < n && HasEnough(bars, start, plan, k) ==> k in at)
  {
    hide IsWindow, HasEnough, PeriodAt, Enough;
    at := [];
    if n > 0 {
      at := PeriodsAreTheFullWindows(bars, start, plan, n - 1);
      var before := Periods(bars, start, plan, n - 1);
      WindowOf(bars, start, plan, n - 1, |before|);
      PeriodFields(bars, plan, |before|, StartAt(start, plan, n - 1));
      if Enough(PeriodAt(bars, plan, |before|, StartAt(start, plan, n - 1))) {
        at := at + [n - 1];
      }
    }
  }

  lemma PeriodFields(bars: seq<Date>, plan: Plan, index: nat, current: Date)
    ensures PeriodAt(bars, plan, index, current).index == index
  {}

  // ---------------------------------------------------------------- what the windows keep

  /** Testing never looks back: every out-of-sample bar is later than every in-sample bar. */
  lemma {:induction false} OutOfSampleIsLater(bars: seq<Date>, start: Date, plan: Plan, k: nat, p: Period)
    requires p in Periods(bars, start, plan, k)
    ensures forall a, b :: a in p.inBars && b in p.outBars ==> Before(a, b)
    ensures Enough(p)
  {
    var before := Periods(bars, start, plan, k - 1);
    if p in before {
      OutOfSampleIsLater(bars, start, plan, k - 1, p);
    }
  }

  /** Up to day 28 nothing is ever cut back, so starts are exact. */
  lemma {:induction false} StartsAreExact(start: Date, plan: Plan, k: nat)
    requires 1 <= start.day <= 28
    ensures StartAt(start, plan, k) == Date(start.month + k * plan.step, start.day)
  {
    if k > 0 {
      StartsAreExact(start, plan, k - 1);
      assert (k - 1) * plan.step + plan.step == k * plan.step;
    }
  }

  /**
   From a start on day 28 or earlier, the out-of-sample windows of any two starts are disjoint, and
   consecutive ones join without a gap when the step is their length.
  */
  lemma OutOfSampleWindowsAreDisjoint(start: Date, plan: Plan, i: nat, j: nat)
    requires 1 <= start.day <= 28 && plan.step >= plan.outOfSample && i < j
    ensures AtMost(OutSampleEnd(StartAt(start, plan, i), plan), InSampleEnd(StartAt(start, plan, j), plan))
    ensures j == i + 1 && plan.step == plan.outOfSample ==>
      OutSampleEnd(StartAt(start, plan, i), plan) == InSampleEnd(StartAt(start, plan, j), plan)
  {
    StartsAreExact(start, plan, i);
    StartsAreExact(start, plan, j);
    StepsAdd(plan.step, i, j);
  }

  lemma StepsAdd(step: nat, i: nat, j: nat)
    requires i < j
    ensures i * step + step <= j * step
    ensures j == i + 1 ==> i * step + step == j * step
  {
    var d := j - i - 1;
    assert j * step == (i + 1 + d) * step;
    Distribute(step, i, d);
  }

  lemma Distribute(step: nat, i: nat, d: nat)
    ensures (i + 1 + d) * step == i * step + step + d * step
    ensures d * step >= 0
  {}

  /** One window and the next, from any date. */
  ghost predicate NextWindowIsLater(current: Date, plan: Plan) {
    AtMost(OutSampleEnd(current, plan), InSampleEnd(AddMonths(current, plan.step), plan))
  }

  ghost predicate SafeDay(day: int) {
    forall current: Date, plan: Plan ::
      OnCalendar(current) && current.day == day && plan.step >= 1 && plan.step >= plan.outOfSample ==>
        NextWindowIsLater(current, plan)
  }

  /** From day 29 on, a December start steps into a shorter February and stays back. */
  lemma LateStartOverlaps(day: int)
    requires 29 <= day <= 31
    ensures var current, plan := Date(2022 * 12 + 11, day), Plan(1, 2, 2);
      OnCalendar(current) && !NextWindowIsLater(current, plan)
  {}

  /** A start date keeps every pair of neighbouring windows disjoint, whatever the month and lengths,
      exactly when its day is 28 or earlier. */
  lemma SafeDaysAreTheFirst28(day: int)
    requires 1 <= day <= 31
    ensures SafeDay(day) <==> day <= 28
  {
    if day > 28 {
      LateStartOverlaps(day);
    } else {
      forall current: Date, plan: Plan
        | OnCalendar(current) && current.day == day && plan.step >= 1 && plan.step >= plan.outOfSample
        ensures NextWindowIsLater(current, plan)
      {
        OutOfSampleWindowsAreDisjoint(current, plan, 0, 1);
        assert StartAt(current, plan, 1) == AddMonths(StartAt(current, plan, 0), plan.step);
      }
    }
  }

  /** With the default lengths (6, 2, 2), data starting on 31 December tests 28 and 29 August twice. */
  lemma DefaultsCanTestABarTwice()
    ensures var start, plan := Date(2022 * 12 + 11, 31), Plan(6, 2, 2);
      var bar := Date(2023 * 12 + 7, 29);
      && AtMost(InSampleEnd(StartAt(start, plan, 0), plan), bar)
      && Before(bar, OutSampleEnd(StartAt(start, plan, 0), plan))
      && AtMost(InSampleEnd(StartAt(start, plan, 1), plan), bar)
      && Before(bar, OutSampleEnd(StartAt(start, plan, 1), plan))
  {
    var start, plan := Date(2022 * 12 + 11, 31), Plan(6, 2, 2);
    assert AddMonths(start, 2) == Date(2023 * 12 + 1, 28);
    assert StartAt(start, plan, 1) == AddMonths(StartAt(start, plan, 0), 2);
  }
}
