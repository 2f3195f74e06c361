/**
 Live CLOSING's pass loop and MONITORING's restarts: `_phase_close_live`, `_phase_monitor` and
 `_merged` in skopaq/execution/daemon.py. Times are milliseconds of the process's clock.
*/
module DaemonClosing {
  import opened Lists
  import opened Wrappers

  const CLOSING_PAUSE: int := 5000

  /** What one pass finds and how long its steps take: `work` up to the decision whether to go on,
      `overslept` beyond the pause it asks for. */
  datatype Pass = Pass(
    raises: bool,          // resuming orders or choosing what to sell raised: it escapes CLOSING
    readFails: bool,       // the broker snapshot raised
    targets: nat,          // positions to sell now
    allFilled: bool,       // every exit sent this pass filled in full
    unshown: bool,         // a confirmed BUY that positions do not show yet
    ownBlocked: bool,      // an open SELL of this session's own still covers a position
    rateWait: nat,         // wait asked by the orders-per-minute rule (0: nothing refused)
    work: nat, overslept: nat)

  /** Why a pass ends the loop. */
  datatype Stop = Escaped | ReadFailed | NothingLeft | AllSold | SecondPassDone | NoTimeForAnother

  /** What the loop does at the end of a pass. */
  datatype Decision = Finish(why: Stop) | Again(pause: nat)

  /** When a pass starts, when it decides, and what it decides. */
  datatype Record = Record(start: int, decided: int, pass: Pass, decision: Decision)

  /** The latest time an order may be placed, as seen at each moment; arming the shutdown deadline
      only ever brings it forward. */
  ghost predicate Tightening(deadline: int -> int) {
    forall t, u :: t <= u ==> deadline(u) <= deadline(t)
  }

  predicate CanPlace(deadline: int -> int, now: int, need: nat) { now + need <= deadline(now) }

  function MaxNat(x: nat, y: nat): nat { if x >= y then x else y }

  /** The end of one pass, in the order the code checks. `second` is any pass but the first. */
  function Decide(p: Pass, second: bool, now: int, deadline: int -> int, oneAttempt: nat): Decision {
    if p.raises then Finish(Escaped)
    else if p.readFails then Finish(ReadFailed)
    else if p.targets == 0 && !p.unshown && !p.ownBlocked then Finish(NothingLeft)
    else if (p.targets == 0 || p.allFilled) && !p.unshown && !p.ownBlocked then Finish(AllSold)
    else
      var rateWait := if p.targets > 0 then p.rateWait else 0;
      if second && !p.ownBlocked && rateWait == 0 then Finish(SecondPassDone)
      else if !CanPlace(deadline, now, oneAttempt + rateWait) then Finish(NoTimeForAnother)
      else
        var pause := MaxNat(CLOSING_PAUSE, rateWait);
        Again(if CanPlace(deadline, now, oneAttempt + pause) then pause else rateWait)
  }

  /** How one record leads to the next. */
  ghost predicate Follows(r: Record, next: Record) {
    r.decision.Again? && next.start == r.decided + r.decision.pause + r.pass.overslept
  }

  ghost predicate GoodRecord(r: Record, second: bool, deadline: int -> int, oneAttempt: nat) {
    && CanPlace(deadline, r.start, 0)
    && r.decided == r.start + 1 + r.pass.work
    && r.decision == Decide(r.pass, second, r.decided, deadline, oneAttempt)
  }

  /** A history the loop can leave behind. */
  ghost predicate History(log: seq<Record>, deadline: int -> int, oneAttempt: nat) {
    && (forall k :: 0 <= k < |log| ==> GoodRecord(log[k], k > 0, deadline, oneAttempt))
    && (forall k :: 0 <= k < |log| - 1 ==> Follows(log[k], log[k + 1]))
  }

  /**
   The pass loop. The clock advances in every pass, so it ends; the environment supplies a pass for
   every number. `why` is what a pass ended it with, or nothing when the time ran out.
  */
  method CloseLive(start: int, deadline: int -> int, passes: nat -> Pass, oneAttempt: nat)
    returns (log: seq<Record>, why: Option<Stop>)
    requires Tightening(deadline)
    ensures History(log, deadline, oneAttempt)
    ensures forall k :: 0 <= k < |log| ==> log[k].pass == passes(k)
    ensures log != [] ==> log[0].start == start
    ensures log == [] <==> !CanPlace(deadline, start, 0)
    ensures why.Some? ==> log != [] && log[|log| - 1].decision == Finish(why.value)
    ensures why.None? && log != [] ==>
      exists now :: GoesOnAt(log[|log| - 1], now) && !CanPlace(deadline, now, 0)
    ensures forall k :: 0 <= k < |log| ==>
      (log[k].decision.Again? <==> MustGoOn(log[k].pass, k == 0, log[k].decided, deadline, oneAttempt))
    ensures forall k :: 0 <= k < |log| && log[k].decision.Again? ==>
      log[k].decision.pause == PauseTaken(log[k].pass, log[k].decided, deadline, oneAttempt)
    ensures forall k :: 0 <= k < |log| - 1 ==>
      log[k].decision.Again? && log[k + 1].start == log[k].decided + log[k].decision.pause + log[k].pass.overslept
    ensures why.Some? ==> var r := log[|log| - 1];
      why.value == EndingOf(r.pass, |log| == 1, r.decided, deadline, oneAttempt)
  {
    hide History, GoodRecord, Decide, Follows, MustGoOn, PauseTaken, EndingOf;
    var now := start;
    log := [];
    EmptyHistory(deadline, oneAttempt);
    while CanPlace(deadline, now, 0)
      invariant History(log, deadline, oneAttempt)
      invariant forall k :: 0 <= k < |log| ==> log[k].pass == passes(k)
      invariant now >= start && (log == [] ==> now == start)
      invariant log != [] ==> log[0].start == start && CanPlace(deadline, start, 0)
      invariant log != [] ==> GoesOnAt(log[|log| - 1], now)
      decreases deadline(start) - now
    {
      assert deadline(now) <= deadline(start);
      var second := |log| > 0;
      var p := passes(|log|);
      var begun := now;
      now := now + 1 + p.work;
      var decision := Decide(p, second, now, deadline, oneAttempt);
      var record := Record(begun, now, p, decision);
      HistoryExtends(log, record, deadline, oneAttempt);
      log := log + [record];
      match decision {
        case Finish(reason) =>
          HistoryMeans(log, deadline, oneAttempt);
          return log, Some(reason);
        case Again(pause) => now := now + pause + p.overslept;
      }
    }
    why := None;
    HistoryMeans(log, deadline, oneAttempt);
  }

  /** The loop went on after `r` and the clock has reached `now`. */
  ghost predicate GoesOnAt(r: Record, now: int) {
    r.decision.Again? && now == r.decided + r.decision.pause + r.pass.overslept
  }

  lemma EmptyHistory(deadline: int -> int, oneAttempt: nat)
    ensures History([], deadline, oneAttempt)
  {}

  lemma HistoryExtends(log: seq<Record>, r: Record, deadline: int -> int, oneAttempt: nat)
    requires History(log, deadline, oneAttempt)
    requires CanPlace(deadline, r.start, 0) && r.decided == r.start + 1 + r.pass.work
    requires r.decision == Decide(r.pass, |log| > 0, r.decided, deadline, oneAttempt)
    requires log != [] ==> GoesOnAt(log[|log| - 1], r.start)
    ensures History(log + [r], deadline, oneAttempt)
  {
    hide Decide;
  }

  // ---------------------------------------------------------------- what every ending means

  /** Something is left to do: an exit that did not fill, a BUY that positions do not show, or a position
      that an own open SELL covers. */
  ghost predicate WorkLeft(p: Pass) { p.unshown || p.ownBlocked || (p.targets > 0 && !p.allFilled) }

  /** The wait the order-rate rule asks for: only if an exit was sent at all. */
  ghost function RuleWait(p: Pass): int { if p.targets == 0 then 0 else p.rateWait }

  /** When CLOSING has to try again: nothing failed, work is left, it is the first pass or there is a
      reason for a later one, and a whole attempt still fits after the rule's wait. */
  ghost predicate MustGoOn(p: Pass, first: bool, now: int, deadline: int -> int, oneAttempt: nat) {
    && !p.raises && !p.readFails && WorkLeft(p)
    && (first || p.ownBlocked || RuleWait(p) > 0)
    && now + oneAttempt + RuleWait(p) <= deadline(now)
  }

  /** Five seconds, or the rule's wait if that is longer; only the rule's wait when the five seconds would
      leave no room for an attempt. */
  ghost function PauseTaken(p: Pass, now: int, deadline: int -> int, oneAttempt: nat): int {
    if RuleWait(p) >= 5000 then RuleWait(p)
    else if now + oneAttempt + 5000 <= deadline(now) then 5000
    else RuleWait(p)
  }

  /** Why a pass that does not go on ends CLOSING. */
  ghost function EndingOf(p: Pass, first: bool, now: int, deadline: int -> int, oneAttempt: nat): Stop {
    if p.raises then Escaped
    else if p.readFails then ReadFailed
    else if !WorkLeft(p) then if p.targets == 0 then NothingLeft else AllSold
    else if !first && !p.ownBlocked && RuleWait(p) == 0 then SecondPassDone
    else NoTimeForAnother
  }

  lemma DecideMeans(p: Pass, second: bool, now: int, deadline: int -> int, oneAttempt: nat)
    ensures var d := Decide(p, second, now, deadline, oneAttempt);
      && (d.Again? <==> MustGoOn(p, !second, now, deadline, oneAttempt))
      && (d.Again? ==> d.pause == PauseTaken(p, now, deadline, oneAttempt))
      && (d.Finish? ==> d.why == EndingOf(p, !second, now, deadline, oneAttempt))
  {}

  lemma HistoryMeans(log: seq<Record>, deadline: int -> int, oneAttempt: nat)
    requires History(log, deadline, oneAttempt)
    ensures forall k :: 0 <= k < |log| ==>
      && (log[k].decision.Again? <==> MustGoOn(log[k].pass, k == 0, log[k].decided, deadline, oneAttempt))
      && (log[k].decision.Again? ==>
            log[k].decision.pause == PauseTaken(log[k].pass, log[k].decided, deadline, oneAttempt))
      && (log[k].decision.Finish? ==>
            log[k].decision.why == EndingOf(log[k].pass, k == 0, log[k].decided, deadline, oneAttempt))
    ensures forall k :: 0 <= k < |log| - 1 ==>
      log[k].decision.Again? && log[k + 1].start == log[k].decided + log[k].decision.pause + log[k].pass.overslept
  {
    hide Decide, MustGoOn, PauseTaken, EndingOf;
    forall k | 0 <= k < |log|
      ensures log[k].decision == Decide(log[k].pass, k > 0, log[k].decided, deadline, oneAttempt)
    {
      assert GoodRecord(log[k], k > 0, deadline, oneAttempt);
    }
    forall k | 0 <= k < |log|
      ensures log[k].decision.Again? <==> MustGoOn(log[k].pass, k == 0, log[k].decided, deadline, oneAttempt)
      ensures log[k].decision.Again? ==>
        log[k].decision.pause == PauseTaken(log[k].pass, log[k].decided, deadline, oneAttempt)
      ensures log[k].decision.Finish? ==>
        log[k].decision.why == EndingOf(log[k].pass, k == 0, log[k].decided, deadline, oneAttempt)
    {
      DecideMeans(log[k].pass, k > 0, log[k].decided, deadline, oneAttempt);
    }
    forall k | 0 <= k < |log| - 1
      ensures log[k].decision.Again? && log[k + 1].start == log[k].decided + log[k].decision.pause + log[k].pass.overslept
    {
      assert Follows(log[k], log[k + 1]);
    }
  }

  /** What the endings say of the last pass, for whoever reads the answer. */
  lemma EndingsAreHonest(log: seq<Record>, deadline: int -> int, oneAttempt: nat)
    requires History(log, deadline, oneAttempt) && log != [] && log[|log| - 1].decision.Finish?
    ensures var r := log[|log| - 1];
      && (r.decision.why == NothingLeft || r.decision.why == AllSold <==>
            !r.pass.raises && !r.pass.readFails && !WorkLeft(r.pass))
      && (r.decision.why == SecondPassDone ==> |log| >= 2 && WorkLeft(r.pass))
      && (r.decision.why == NoTimeForAnother ==>
            WorkLeft(r.pass) && r.decided + oneAttempt + RuleWait(r.pass) > deadline(r.decided))
  {
    HistoryMeans(log, deadline, oneAttempt);
  }

  // ---------------------------------------------------------------- what every run keeps

  /**
   There is a pass after the second only while an own open SELL still covers a position or the
   order-rate rule refused an exit.
  */
  lemma LaterPassesNeedAReason(log: seq<Record>, deadline: int -> int, oneAttempt: nat, k: nat)
    requires History(log, deadline, oneAttempt) && 2 <= k < |log|
    ensures var p := log[k - 1].pass; p.ownBlocked || (p.targets > 0 && p.rateWait > 0)
  {
    assert GoodRecord(log[k - 1], true, deadline, oneAttempt) && Follows(log[k - 1], log[k]);
  }

  /** A run whose every pass is free of both makes at most two passes. */
  lemma AtMostTwoPasses(log: seq<Record>, deadline: int -> int, oneAttempt: nat)
    requires History(log, deadline, oneAttempt)
    requires forall k :: 0 <= k < |log| ==> !log[k].pass.ownBlocked && log[k].pass.rateWait == 0
    ensures |log| <= 2
  {
    if |log| > 2 {
      LaterPassesNeedAReason(log, deadline, oneAttempt, 2);
    }
  }

  /**
   Each later pass was decided on while a whole exit attempt still fitted after the rule's wait, and
   starts with an attempt still fitting unless the sleep overran or the deadline was brought forward.
  */
  lemma LaterPassesFit(log: seq<Record>, deadline: int -> int, oneAttempt: nat, k: nat)
    requires History(log, deadline, oneAttempt) && 1 <= k < |log|
    ensures var r := log[k - 1];
      && CanPlace(deadline, r.decided, oneAttempt + (if r.pass.targets > 0 then r.pass.rateWait else 0))
      && (r.pass.overslept == 0 && deadline(log[k].start) == deadline(r.decided) ==>
            CanPlace(deadline, log[k].start, oneAttempt))
  {
    assert GoodRecord(log[k - 1], k > 1, deadline, oneAttempt) && Follows(log[k - 1], log[k]);
  }

  /** The order-rate rule is never retried before its window has room: the pause covers its wait. */
  lemma PauseCoversRateWait(log: seq<Record>, deadline: int -> int, oneAttempt: nat, k: nat)
    requires History(log, deadline, oneAttempt) && 1 <= k < |log| && log[k - 1].pass.targets > 0
    ensures log[k].start >= log[k - 1].decided + log[k - 1].pass.rateWait
  {
    assert GoodRecord(log[k - 1], k > 1, deadline, oneAttempt) && Follows(log[k - 1], log[k]);
  }

  /** Passes start at least a millisecond apart, so the deadline bounds their number. */
  lemma {:induction false} PassesAreBounded(log: seq<Record>, deadline: int -> int, oneAttempt: nat, k: nat)
    requires History(log, deadline, oneAttempt) && Tightening(deadline) && k < |log|
    ensures log[k].start >= log[0].start + k
    ensures k <= deadline(log[0].start) - log[0].start
  {
    assert GoodRecord(log[k], k > 0, deadline, oneAttempt);
    if k > 0 {
      PassesAreBounded(log, deadline, oneAttempt, k - 1);
      assert GoodRecord(log[k - 1], k > 1, deadline, oneAttempt) && Follows(log[k - 1], log[k]);
    }
    assert deadline(log[k].start) <= deadline(log[0].start);
  }

  // ---------------------------------------------------------------- MONITORING

  datatype MonitorResult = MonitorResult(
    monitored: nat, sold: nat, failed: nat, pnl: real, reasons: seq<string>, cycles: nat,
    left: seq<string>, unconfirmed: seq<string>, blocked: seq<string>, lateFills: nat)

  /** `_merged`. */
  function Merged(first: MonitorResult, then_: MonitorResult): MonitorResult {
    MonitorResult(
      MaxNat(first.monitored, then_.monitored), first.sold + then_.sold, first.failed + then_.failed,
      first.pnl + then_.pnl, first.reasons + then_.reasons, first.cycles + then_.cycles,
      then_.left, then_.unconfirmed, Unique(first.blocked + then_.blocked),
      first.lateFills + then_.lateFills)
  }

  /** Adding items one by one to a list without repeats. */
  function Added(unique: seq<string>, items: seq<string>): seq<string> {
    if items == [] then unique
    else
      var before := Added(unique, items[..|items| - 1]);
      var last := items[|items| - 1];
      if last in before then before else before + [last]
  }

  lemma {:induction false} UniqueOfJoin(a: seq<string>, b: seq<string>)
    ensures Unique(a + b) == Added(Unique(a), b)
  {
    if b == [] {
      assert a + b == a;
    } else {
      assert (a + b)[..|a + b| - 1] == a + b[..|b| - 1];
      UniqueOfJoin(a, b[..|b| - 1]);
    }
  }

  lemma {:induction false} UniqueIsIdempotent(a: seq<string>)
    ensures Unique(Unique(a)) == Unique(a)
  {
    if a != [] {
      var before, last := Unique(a[..|a| - 1]), a[|a| - 1];
      UniqueIsIdempotent(a[..|a| - 1]);
      if last !in before {
        assert (before + [last])[..|before|] == before;
      }
    }
  }

  lemma {:induction false} AddedHas(unique: seq<string>, items: seq<string>, x: string)
    ensures x in Added(unique, items) <==> x in unique || x in items
  {
    if items != [] {
      AddedHas(unique, items[..|items| - 1], x);
    }
  }

  /** Dropping repeats from what is added changes nothing. */
  lemma {:induction false} AddedUnique(unique: seq<string>, items: seq<string>)
    ensures Added(unique, Unique(items)) == Added(unique, items)
  {
    if items != [] {
      var before, last := Unique(items[..|items| - 1]), items[|items| - 1];
      AddedUnique(unique, items[..|items| - 1]);
      if last in before {
        AddedHas(unique, items[..|items| - 1], last);
      } else {
        assert (before + [last])[..|before|] == before;
      }
    }
  }

  lemma {:induction false} AddedJoin(unique: seq<string>, a: seq<string>, b: seq<string>)
    ensures Added(unique, a + b) == Added(Added(unique, a), b)
  {
    if b == [] {
      assert a + b == a;
    } else {
      assert (a + b)[..|a + b| - 1] == a + b[..|b| - 1];
      AddedJoin(unique, a, b[..|b| - 1]);
    }
  }

  lemma UniqueJoinAssociates(a: seq<string>, b: seq<string>, c: seq<string>)
    ensures Unique(Unique(a + b) + c) == Unique(a + Unique(b + c))
  {
    UniqueOfJoin(Unique(a + b), c);
    UniqueIsIdempotent(a + b);
    UniqueOfJoin(a, b);
    UniqueOfJoin(a, Unique(b + c));
    AddedUnique(Unique(a), b + c);
    AddedJoin(Unique(a), b, c);
  }

  /** It does not matter how consecutive monitor runs are grouped. */
  lemma MergedIsAssociative(x: MonitorResult, y: MonitorResult, z: MonitorResult)
    ensures Merged(Merged(x, y), z) == Merged(x, Merged(y, z))
  {
    UniqueJoinAssociates(x.blocked, y.blocked, z.blocked);
    assert (x.reasons + y.reasons) + z.reasons == x.reasons + (y.reasons + z.reasons);
  }

  function AllMerged(runs: seq<MonitorResult>): MonitorResult
    requires runs != []
  {
    if |runs| == 1 then runs[0] else Merged(AllMerged(runs[..|runs| - 1]), runs[|runs| - 1])
  }

  function Sold(runs: seq<MonitorResult>): nat {
    if runs == [] then 0 else Sold(runs[..|runs| - 1]) + runs[|runs| - 1].sold
  }

  function Failed(runs: seq<MonitorResult>): nat {
    if runs == [] then 0 else Failed(runs[..|runs| - 1]) + runs[|runs| - 1].failed
  }

  function Cycles(runs: seq<MonitorResult>): nat {
    if runs == [] then 0 else Cycles(runs[..|runs| - 1]) + runs[|runs| - 1].cycles
  }

  function LateFilled(runs: seq<MonitorResult>): nat {
    if runs == [] then 0 else LateFilled(runs[..|runs| - 1]) + runs[|runs| - 1].lateFills
  }

  function Reasons(runs: seq<MonitorResult>): seq<string> {
    if runs == [] then [] else Reasons(runs[..|runs| - 1]) + runs[|runs| - 1].reasons
  }

  function Pnl(runs: seq<MonitorResult>): real {
    if runs == [] then 0.0 else Pnl(runs[..|runs| - 1]) + runs[|runs| - 1].pnl
  }

  ghost predicate BlockedIn(runs: seq<MonitorResult>, s: string) {
    exists i :: 0 <= i < |runs| && s in runs[i].blocked
  }

  /** `x` is the most positions any run had. */
  ghost predicate MostMonitored(runs: seq<MonitorResult>, x: nat) {
    && (forall i :: 0 <= i < |runs| ==> runs[i].monitored <= x)
    && exists i :: 0 <= i < |runs| && runs[i].monitored == x
  }

  /** Merging loses no sale, failure, profit, cycle, late fill, exit reason or blocked exit, reports the
      most positions, and keeps the last run's leftovers. */
  lemma {:induction false} MergingConserves(runs: seq<MonitorResult>)
    requires runs != []
    ensures var m := AllMerged(runs);
      && m.sold == Sold(runs) && m.failed == Failed(runs) && m.pnl == Pnl(runs)
      && m.cycles == Cycles(runs) && m.lateFills == LateFilled(runs) && m.reasons == Reasons(runs)
      && MostMonitored(runs, m.monitored)
      && m.left == runs[|runs| - 1].left && m.unconfirmed == runs[|runs| - 1].unconfirmed
      && forall s :: s in m.blocked <==> BlockedIn(runs, s)
  {
    var n := |runs| - 1;
    if n == 0 {
      assert runs[..0] == [];
    } else {
      MergingConserves(runs[..n]);
      MostInOneMore(runs, AllMerged(runs[..n]).monitored);
      forall s ensures s in AllMerged(runs).blocked <==> BlockedIn(runs, s) {
        BlockedInOneMore(runs, s);
      }
    }
  }

  lemma MostInOneMore(runs: seq<MonitorResult>, x: nat)
    requires |runs| > 0 && MostMonitored(runs[..|runs| - 1], x)
    ensures MostMonitored(runs, MaxNat(x, runs[|runs| - 1].monitored))
  {
    var n := |runs| - 1;
    var i :| 0 <= i < n && runs[..n][i].monitored == x;
    assert runs[i].monitored == x;
    forall k | 0 <= k < |runs| ensures runs[k].monitored <= MaxNat(x, runs[n].monitored) {
      if k < n { assert runs[..n][k] == runs[k]; }
    }
  }

  lemma BlockedInOneMore(runs: seq<MonitorResult>, s: string)
    requires |runs| > 0
    ensures var n := |runs| - 1;
      BlockedIn(runs, s) <==> BlockedIn(runs[..n], s) || s in runs[n].blocked
  {
    var n := |runs| - 1;
    if BlockedIn(runs[..n], s) {
      var i :| 0 <= i < n && s in runs[..n][i].blocked;
      assert runs[i] == runs[..n][i];
    }
    if BlockedIn(runs, s) {
      var i :| 0 <= i < |runs| && s in runs[i].blocked;
      if i < n {
        assert runs[..n][i] == runs[i];
      }
    }
  }

  /** What `_monitor_again` sees besides the result. */
  datatype Moment = Moment(stopSet: bool, live: bool, canPlace: bool, beforeEodExit: bool)

  /** `_monitor_again`: live, no stop, before the EOD exit and the last order time, and the monitor says
      that positions are still held. */
  predicate MonitorAgain(result: MonitorResult, m: Moment) {
    result.left != [] && !m.stopSet && m.live && m.canPlace && m.beforeEodExit
  }

  /** The run left positions, and nothing stands against looking after them: no stop, a live session, still
      before the EOD exit and the last order time. */
  ghost predicate StillHeld(run: MonitorResult, m: Moment) {
    |run.left| > 0 && m.live && m.beforeEodExit && m.canPlace && !m.stopSet
  }

  lemma AgainMeans(run: MonitorResult, m: Moment)
    ensures MonitorAgain(run, m) <==> StillHeld(run, m)
  {}

  lemma SameDecision(a: MonitorResult, b: MonitorResult, m: Moment)
    requires a.left == b.left
    ensures MonitorAgain(a, m) == MonitorAgain(b, m)
  {}

  lemma OneRun(run: MonitorResult)
    ensures AllMerged([run]) == run
  {}

  lemma OneMoreRun(runs: seq<MonitorResult>, next: MonitorResult)
    requires runs != []
    ensures AllMerged(runs + [next]) == Merged(AllMerged(runs), next)
  {
    assert (runs + [next])[..|runs|] == runs;
  }

  lemma LeftIsTheLastRuns(runs: seq<MonitorResult>)
    requires runs != []
    ensures AllMerged(runs).left == runs[|runs| - 1].left
  {}

  /**
   `_phase_monitor`: run, and run again up to three times; the environment says what each run returns
   and what there is to see after it. The decision looks at the merged result, which is always the
   last run's: exactly the runs that left positions at a clear moment are followed by another.
  */
  method PhaseMonitor(runs: nat -> MonitorResult, moments: nat -> Moment)
    returns (result: MonitorResult, ghost made: seq<MonitorResult>, n: nat)
    ensures 1 <= n <= 4 && |made| == n
    ensures forall k :: 0 <= k < n ==> made[k] == runs(k)
    ensures result == AllMerged(made)
    ensures forall k :: 0 <= k < n - 1 ==> StillHeld(runs(k), moments(k))
    ensures n == 4 || !StillHeld(runs(n - 1), moments(n - 1))
  {
    hide Merged, AllMerged, MonitorAgain, StillHeld;
    result := runs(0);
    n := 1;
    made := [runs(0)];
    OneRun(runs(0));
    for restart := 0 to 3
      invariant n == restart + 1 && |made| == n
      invariant forall i :: 0 <= i < n ==> made[i] == runs(i)
      invariant result == AllMerged(made)
      invariant forall k :: 0 <= k < n - 1 ==> StillHeld(runs(k), moments(k))
    {
      LeftIsTheLastRuns(made);
      assert result.left == runs(restart).left;
      SameDecision(result, runs(restart), moments(restart));
      AgainMeans(runs(restart), moments(restart));
      if !MonitorAgain(result, moments(restart)) {
        return;
      }
      var next := runs(n);
      OneMoreRun(made, next);
      result := Merged(result, next);
      made := made + [next];
      n := n + 1;
    }
  }
}
