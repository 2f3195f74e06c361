/**
 One trading session as a state machine with failure paths: `run_session` and
 `_phase_analyze_and_trade` in skopaq/execution/daemon.py. What the scanner, the analysis graph, the
 broker, the kill switch and the stop signal do is the script of a session.
*/
module DaemonSession {

  datatype Phase = Idle | PreOpen | Scanning | Analyzing | Monitoring | Closing | Reporting | Shutdown

  function Rank(p: Phase): nat {
    match p
    case Idle => 0
    case PreOpen => 1
    case Scanning => 2
    case Analyzing => 3
    case Monitoring => 4
    case Closing => 5
    case Reporting => 6
    case Shutdown => 7
  }

  /** How an awaited step ends: normally, with an exception, or with its task cancelled, which
      `except Exception` does not catch. */
  datatype Ending = Done | Raised | Cancelled

  datatype HaltCheck = Clear | Halted | HaltRaises

  datatype Execution = Executed(unconfirmed: bool) | NotConfirmed | Refused

  /** What analysing one candidate comes to. `cut` is a cancellation while its trade is recorded. */
  datatype Analysis =
    | AnalysisRaised
    | AnalysisCancelled
    | ReturnedError
    | HoldDecision
    | SellDecision
    | BuyDecision(execution: Execution, cut: bool)

  datatype Turn = Turn(stopSet: bool, halt: HaltCheck, analysis: Analysis)

  /** The report's counters; `unconfirmedOnly` are the slots used by BUYs that never succeeded. */
  datatype Counts = Counts(analyzed: nat, tradesOpened: nat, unconfirmed: nat, unconfirmedOnly: nat,
                           rejected: nat, holds: nat, errors: nat, ignored: nat, halted: bool)

  const ZERO := Counts(0, 0, 0, 0, 0, 0, 0, 0, false)

  /** Going on to the next candidate, or out of the loop with this ending. */
  datatype Progress = Going | Over(ending: Ending)

  /** One candidate of the analysis loop. */
  function AfterTurn(c: Counts, turn: Turn, maxTrades: int): (Counts, Progress) {
    if turn.stopSet then (c, Over(Done))
    else if turn.halt == HaltRaises then (c, Over(Raised))
    else if turn.halt == Halted then (c.(halted := true), Over(Done))
    else if c.tradesOpened + c.unconfirmedOnly >= maxTrades then (c, Over(Done))
    else
      var c := c.(analyzed := c.analyzed + 1);
      match turn.analysis
      case AnalysisRaised => (c.(errors := c.errors + 1), Going)
      case AnalysisCancelled => (c, Over(Cancelled))
      case ReturnedError => (c.(errors := c.errors + 1), Going)
      case HoldDecision => (c.(holds := c.holds + 1), Going)
      case SellDecision => (c.(ignored := c.ignored + 1), Going)
      case BuyDecision(execution, cut) =>
        match execution
        case Executed(unconfirmed) =>
          (c.(tradesOpened := c.tradesOpened + 1, unconfirmed := c.unconfirmed + (if unconfirmed then 1 else 0)),
           if cut then Over(Cancelled) else Going)
        case NotConfirmed =>
          (c.(unconfirmed := c.unconfirmed + 1, unconfirmedOnly := c.unconfirmedOnly + 1), Going)
        case Refused => (c.(rejected := c.rejected + 1), Going)
  }

  /** The counters and progress after the first `k` candidates. */
  function AfterTurns(turns: seq<Turn>, maxTrades: int, k: nat): (Counts, Progress)
    requires k <= |turns|
  {
    if k == 0 then (ZERO, Going)
    else
      var (c, p) := AfterTurns(turns, maxTrades, k - 1);
      if p.Over? then (c, p) else AfterTurn(c, turns[k - 1], maxTrades)
  }

  function Considered(turns: seq<Turn>, maxCandidates: nat): nat {
    if |turns| <= maxCandidates then |turns| else maxCandidates
  }

  /** The analysis phase: its counters, and how it ends. */
  function Traded(script: Script, maxTrades: int, maxCandidates: nat): (Counts, Ending) {
    if script.riskScales != Done then (ZERO, script.riskScales)
    else
      var (c, p) := AfterTurns(script.turns, maxTrades, Considered(script.turns, maxCandidates));
      (c, if p.Over? then p.ending else Done)
  }

  /** Everything outside the daemon's control in one session. */
  datatype Script = Script(preOpen: Ending, halt: HaltCheck, scan: Ending, dryRun: bool,
                           stopAfterScan: bool, riskScales: Ending, turns: seq<Turn>,
                           stopAfterTrading: bool, monitor: Ending, close: Ending)

  /** Something was bought, or may have been. */
  predicate Exposed(c: Counts) { c.tradesOpened > 0 || c.unconfirmed > 0 }

  predicate ReachesTrading(s: Script) {
    && s.preOpen == Done && s.halt == Clear && s.scan == Done && !s.dryRun && s.turns != []
    && !s.stopAfterScan
  }

  // ---------------------------------------------------------------- the daemon

  class TradingDaemon {
    const maxTrades: int
    const maxCandidates: nat
    var phase: Phase
    var counts: Counts
    var failed: bool
    var preOpenFailed: bool
    /** Every phase entered, in order. */
    ghost var entered: seq<Phase>

    constructor (maxTrades: int, maxCandidates: nat)
      ensures this.maxTrades == maxTrades && this.maxCandidates == maxCandidates
      ensures phase == Idle && counts == ZERO && !failed && !preOpenFailed && entered == []
    {
      this.maxTrades := maxTrades;
      this.maxCandidates := maxCandidates;
      phase := Idle;
      counts := ZERO;
      failed := false;
      preOpenFailed := false;
      entered := [];
    }

    method Enter(p: Phase)
      modifies this`phase, this`entered
      ensures phase == p && entered == old(entered) + [p]
    {
      phase := p;
      entered := entered + [p];
    }

    method AnalyzeAndTrade(script: Script) returns (ending: Ending, buys: nat)
      requires counts == ZERO
      modifies this`counts
      ensures (counts, ending) == Traded(script, maxTrades, maxCandidates)
      ensures buys == counts.tradesOpened
    {
      buys := 0;
      if script.riskScales != Done {
        return script.riskScales, 0;
      }
      var buysPlaced := 0;
      var n := Considered(script.turns, maxCandidates);
      hide AfterTurns;
      assert (counts, Going) == AfterTurns(script.turns, maxTrades, 0) by { NoTurns(script.turns, maxTrades); }
      for i := 0 to n
        invariant (counts, Going) == AfterTurns(script.turns, maxTrades, i)
        invariant buys == counts.tradesOpened && buysPlaced == counts.tradesOpened + counts.unconfirmedOnly
      {
        var turn := script.turns[i];
        NextTurn(script.turns, maxTrades, i, n);
        assert AfterTurns(script.turns, maxTrades, i + 1) == AfterTurn(counts, turn, maxTrades);
        if turn.stopSet {
          return Done, buys;
        }
        if turn.halt == HaltRaises {
          return Raised, buys;
        }
        if turn.halt == Halted {
          counts := counts.(halted := true);
          return Done, buys;
        }
        if buysPlaced >= maxTrades {
          return Done, buys;
        }
        counts := counts.(analyzed := counts.analyzed + 1);
        match turn.analysis {
          case AnalysisRaised => counts := counts.(errors := counts.errors + 1);
          case AnalysisCancelled => return Cancelled, buys;
          case ReturnedError => counts := counts.(errors := counts.errors + 1);
          case HoldDecision => counts := counts.(holds := counts.holds + 1);
          case SellDecision => counts := counts.(ignored := counts.ignored + 1);
          case BuyDecision(execution, cut) =>
            match execution {
              case Executed(unconfirmed) =>
                buysPlaced := buysPlaced + 1;
                counts := counts.(tradesOpened := counts.tradesOpened + 1);
                buys := buys + 1;
                if unconfirmed {
                  counts := counts.(unconfirmed := counts.unconfirmed + 1);
                }
                if cut {
                  return Cancelled, buys;
                }
              case NotConfirmed =>
                buysPlaced := buysPlaced + 1;
                counts := counts.(unconfirmed := counts.unconfirmed + 1,
                                  unconfirmedOnly := counts.unconfirmedOnly + 1);
              case Refused =>
                counts := counts.(rejected := counts.rejected + 1);
            }
        }
      }
      return Done, buys;
    }

    /** The body of the `try`: how it ends, having entered the phases it reached. */
    method SessionBody(script: Script) returns (ending: Ending)
      requires phase == Idle && counts == ZERO && entered == []
      modifies this`phase, this`entered, this`counts
      ensures entered == BodyPhases(script, maxTrades, maxCandidates)
      ensures ending == BodyEnding(script, maxTrades, maxCandidates)
      ensures counts == SessionCounts(script, maxTrades, maxCandidates)
      ensures entered != [] && phase == entered[|entered| - 1]
    {
      hide Traded;
      Enter(PreOpen);
      if script.preOpen != Done {
        return script.preOpen;
      }
      if script.halt == HaltRaises {
        return Raised;
      }
      if script.halt == Halted {
        counts := counts.(halted := true);
        return Done;
      }
      Enter(Scanning);
      if script.scan != Done {
        return script.scan;
      }
      if script.dryRun || script.turns == [] || script.stopAfterScan {
        return Done;
      }
      Enter(Analyzing);
      var buys;
      ending, buys := AnalyzeAndTrade(script);
      if ending != Done {
        return;
      }
      if script.stopAfterTrading && buys == 0 && counts.unconfirmed == 0 {
        return Done;
      }
      if buys > 0 || counts.unconfirmed > 0 {
        Enter(Monitoring);
        if script.monitor != Done {
          return script.monitor;
        }
      }
      Enter(Closing);
      return script.close;
    }

    /** `run_session`; a cancellation is passed on to the caller after the final phases. */
    method RunSession(script: Script) returns (cancelled: bool)
      requires phase == Idle && counts == ZERO && entered == [] && !failed && !preOpenFailed
      modifies this
      ensures entered == Phases(script, maxTrades, maxCandidates)
      ensures phase == Shutdown
      ensures counts == SessionCounts(script, maxTrades, maxCandidates)
      ensures failed <==> BodyEnding(script, maxTrades, maxCandidates) == Raised
      ensures cancelled <==> BodyEnding(script, maxTrades, maxCandidates) == Cancelled
      ensures preOpenFailed <==> script.preOpen == Raised || (script.preOpen == Done && script.halt == HaltRaises)
    {
      hide Traded;
      var ending := SessionBody(script);
      cancelled := ending == Cancelled;
      if ending == Raised {
        failed := true;
        preOpenFailed := phase == PreOpen;
        var exposed := counts.tradesOpened > 0 || counts.unconfirmed > 0;
        if exposed && phase != Closing {
          Enter(Closing);
        }
      }
      Enter(Reporting);
      Enter(Shutdown);
    }
  }

  lemma NoTurns(turns: seq<Turn>, maxTrades: int)
    ensures AfterTurns(turns, maxTrades, 0) == (ZERO, Going)
  {}

  lemma NextTurn(turns: seq<Turn>, maxTrades: int, i: nat, n: nat)
    requires i < n <= |turns| && AfterTurns(turns, maxTrades, i).1 == Going
    ensures AfterTurns(turns, maxTrades, i + 1)
         == AfterTurn(AfterTurns(turns, maxTrades, i).0, turns[i], maxTrades)
    ensures AfterTurns(turns, maxTrades, i + 1).1.Over? ==>
      AfterTurns(turns, maxTrades, n) == AfterTurns(turns, maxTrades, i + 1)
  {
    hide AfterTurn;
    OverStays(turns, maxTrades, i + 1, n);
  }

  lemma {:induction false} OverStays(turns: seq<Turn>, maxTrades: int, j: nat, k: nat)
    requires j <= k <= |turns|
    ensures AfterTurns(turns, maxTrades, j).1.Over? ==>
      AfterTurns(turns, maxTrades, k) == AfterTurns(turns, maxTrades, j)
  {
    if j < k {
      OverStays(turns, maxTrades, j, k - 1);
    }
  }

  /** The phases entered before the final ones. */
  function BodyPhases(s: Script, maxTrades: int, maxCandidates: nat): seq<Phase> {
    if s.preOpen != Done || s.halt != Clear then [PreOpen]
    else if !ReachesTrading(s) then [PreOpen, Scanning]
    else
      var (c, ending) := Traded(s, maxTrades, maxCandidates);
      var traded := [PreOpen, Scanning, Analyzing];
      if ending != Done || (s.stopAfterTrading && !Exposed(c)) then traded
      else if !Exposed(c) then traded + [Closing]
      else if s.monitor != Done then traded + [Monitoring]
      else traded + [Monitoring, Closing]
  }

  /** The report's counters: a halt seen before the scan is marked like one seen while analysing. */
  function SessionCounts(s: Script, maxTrades: int, maxCandidates: nat): Counts {
    if ReachesTrading(s) then Traded(s, maxTrades, maxCandidates).0
    else if s.preOpen == Done && s.halt == Halted then ZERO.(halted := true)
    else ZERO
  }

  function BodyEnding(s: Script, maxTrades: int, maxCandidates: nat): Ending {
    if s.preOpen != Done then s.preOpen
    else if s.halt != Clear then if s.halt == HaltRaises then Raised else Done
    else if s.scan != Done then s.scan
    else if !ReachesTrading(s) then Done
    else
      var (c, ending) := Traded(s, maxTrades, maxCandidates);
      if ending != Done then ending
      else if s.stopAfterTrading && !Exposed(c) then Done
      else if Exposed(c) && s.monitor != Done then s.monitor
      else s.close
  }

  /** Every phase of a session; after a failure CLOSING is added when something may be held. */
  function Phases(s: Script, maxTrades: int, maxCandidates: nat): seq<Phase> {
    var body := BodyPhases(s, maxTrades, maxCandidates);
    var counts := SessionCounts(s, maxTrades, maxCandidates);
    body
    + (if BodyEnding(s, maxTrades, maxCandidates) == Raised && Exposed(counts) && Closing !in body
       then [Closing] else [])
    + [Reporting, Shutdown]
  }

  // ---------------------------------------------------------------- what every session keeps

  /** A cancellation cut the session short after it had bought, before CLOSING began. */
  ghost predicate CutShort(s: Script, maxTrades: int, maxCandidates: nat) {
    var (c, ending) := Traded(s, maxTrades, maxCandidates);
    ending == Cancelled || (ending == Done && s.monitor == Cancelled)
  }

  /**
   The safety net: a session that opened a trade, or left a BUY unconfirmed, enters CLOSING before
   SHUTDOWN whatever raised, halted or stopped it, except exactly when its task was cancelled during
   trading or monitoring: `except Exception` does not see a cancellation.
  */
  lemma ExposedSessionsClose(s: Script, maxTrades: int, maxCandidates: nat)
    requires ReachesTrading(s) && Exposed(Traded(s, maxTrades, maxCandidates).0)
    ensures Closing in Phases(s, maxTrades, maxCandidates) <==> !CutShort(s, maxTrades, maxCandidates)
  {
    hide Traded;
    var (c, ending) := Traded(s, maxTrades, maxCandidates);
    var body := BodyPhases(s, maxTrades, maxCandidates);
    var traded := [PreOpen, Scanning, Analyzing];
    assert Closing !in traded && Closing !in traded + [Monitoring] && Closing !in [Reporting, Shutdown];
    assert Closing in traded + [Monitoring, Closing];
  }

  ghost predicate Forward(phases: seq<Phase>) {
    forall i, j :: 0 <= i < j < |phases| ==> Rank(phases[i]) < Rank(phases[j])
  }

  /** Phases only move forward, and every session ends by reporting and shutting down. */
  lemma PhasesMoveForward(s: Script, maxTrades: int, maxCandidates: nat)
    ensures var p := Phases(s, maxTrades, maxCandidates);
      && Forward(p) && |p| >= 3 && p[|p| - 2] == Reporting && p[|p| - 1] == Shutdown
  {
    hide Traded, Forward, BodyPhases, BodyEnding, ReachesTrading;
    var body := BodyPhases(s, maxTrades, maxCandidates);
    BodyMovesForward(s, maxTrades, maxCandidates);
    var net := Phases(s, maxTrades, maxCandidates)[..|Phases(s, maxTrades, maxCandidates)| - 2];
    assert net == body || (Closing !in body && net == body + [Closing]);
    if net != body {
      OneForward(Closing);
      JoinForward(body, [Closing], 4);
    }
    FinalForward();
    JoinForward(net, [Reporting, Shutdown], 5);
  }

  lemma BodyMovesForward(s: Script, maxTrades: int, maxCandidates: nat)
    ensures var body := BodyPhases(s, maxTrades, maxCandidates);
      && Forward(body) && |body| >= 1 && UpTo(body, 5) && (Closing !in body ==> UpTo(body, 4))
  {
    hide Traded;
    var traded := [PreOpen, Scanning, Analyzing];
    assert Closing in traded + [Closing] && Closing in traded + [Monitoring, Closing];
  }

  ghost predicate UpTo(phases: seq<Phase>, rank: nat) {
    forall i :: 0 <= i < |phases| ==> Rank(phases[i]) <= rank
  }

  lemma OneForward(p: Phase)
    ensures Forward([p]) && UpTo([p], Rank(p))
  {}

  lemma FinalForward()
    ensures Forward([Reporting, Shutdown])
  {}

  lemma JoinForward(a: seq<Phase>, b: seq<Phase>, rank: nat)
    requires Forward(a) && Forward(b) && UpTo(a, rank)
    requires forall i :: 0 <= i < |b| ==> Rank(b[i]) > rank
    ensures Forward(a + b)
    ensures forall r :: r >= rank && UpTo(b, r) ==> UpTo(a + b, r)
  {}

  /** Every analysed candidate ends up in exactly one counter, except one cut off by a cancellation. */
  ghost predicate Tallied(c: Counts, p: Progress) {
    var placed := c.tradesOpened + c.unconfirmedOnly + c.rejected + c.holds + c.errors + c.ignored;
    && placed <= c.analyzed <= placed + 1
    && (p != Over(Cancelled) ==> c.analyzed == placed)
    && c.unconfirmedOnly <= c.unconfirmed <= c.tradesOpened + c.unconfirmedOnly
  }

  /**
   BUYs that succeeded and BUYs left unconfirmed together never exceed the trade limit, and the
   counters account for every candidate analysed.
  */
  lemma {:induction false} SlotsAreBounded(turns: seq<Turn>, maxTrades: int, k: nat)
    requires k <= |turns|
    ensures var (c, p) := AfterTurns(turns, maxTrades, k);
      && c.tradesOpened + c.unconfirmedOnly <= (if maxTrades > 0 then maxTrades else 0)
      && c.analyzed <= k && Tallied(c, p)
  {
    if k > 0 {
      SlotsAreBounded(turns, maxTrades, k - 1);
      LastTurn(turns, maxTrades, k);
      hide AfterTurn, AfterTurns, Tallied;
      var (c, p) := AfterTurns(turns, maxTrades, k - 1);
      if p == Going {
        TurnKeepsTally(c, turns[k - 1], maxTrades);
      }
    } else {
      assert Tallied(ZERO, Going);
    }
  }

  lemma LastTurn(turns: seq<Turn>, maxTrades: int, k: nat)
    requires 0 < k <= |turns|
    ensures var (c, p) := AfterTurns(turns, maxTrades, k - 1);
      AfterTurns(turns, maxTrades, k) == if p.Over? then (c, p) else AfterTurn(c, turns[k - 1], maxTrades)
  {
    hide AfterTurn;
  }

  lemma TurnKeepsTally(c: Counts, turn: Turn, maxTrades: int)
    requires Tallied(c, Going)
    requires c.tradesOpened + c.unconfirmedOnly <= if maxTrades > 0 then maxTrades else 0
    ensures var (c', p) := AfterTurn(c, turn, maxTrades);
      && Tallied(c', p) && c'.analyzed <= c.analyzed + 1
      && c'.tradesOpened + c'.unconfirmedOnly <= (if maxTrades > 0 then maxTrades else 0)
  {}

  // ---------------------------------------------------------------- which candidates are analysed

  /** The slots that analysing this candidate would take: an executed or unconfirmed BUY. */
  function SlotsOf(turn: Turn): nat {
    if turn.analysis.BuyDecision? && !turn.analysis.execution.Refused? then 1 else 0
  }

  function Slots(turns: seq<Turn>): nat {
    if turns == [] then 0 else Slots(turns[..|turns| - 1]) + SlotsOf(turns[|turns| - 1])
  }

  predicate Quiet(turn: Turn) { !turn.stopSet && turn.halt == Clear }

  predicate Cancels(turn: Turn) {
    turn.analysis.AnalysisCancelled?
    || (turn.analysis.BuyDecision? && turn.analysis.execution.Executed? && turn.analysis.cut)
  }

  /** Nothing stopped the session before candidate `k` was reached. */
  ghost predicate ReachedWith(turns: seq<Turn>, maxTrades: int, k: nat)
    requires k <= |turns|
  {
    && (forall j :: 0 <= j < k ==> Quiet(turns[j]) && !Cancels(turns[j]))
    && (forall j :: 0 <= j < k ==> Slots(turns[..j]) < maxTrades)
  }

  ghost predicate Analysed(turns: seq<Turn>, maxTrades: int, k: nat)
    requires k < |turns|
  {
    AfterTurns(turns, maxTrades, k + 1).0.analyzed > AfterTurns(turns, maxTrades, k).0.analyzed
  }

  lemma TurnGoesOn(c: Counts, turn: Turn, maxTrades: int)
    ensures var (c', p) := AfterTurn(c, turn, maxTrades);
      var free := Quiet(turn) && c.tradesOpened + c.unconfirmedOnly < maxTrades;
      && (c'.analyzed > c.analyzed <==> free)
      && (p == Going <==> free && !Cancels(turn))
      && (free ==> c'.tradesOpened + c'.unconfirmedOnly == c.tradesOpened + c.unconfirmedOnly + SlotsOf(turn))
  {}

  lemma {:induction false} GoingExactlyWhen(turns: seq<Turn>, maxTrades: int, k: nat)
    requires k <= |turns|
    ensures AfterTurns(turns, maxTrades, k).1 == Going <==> ReachedWith(turns, maxTrades, k)
    ensures ReachedWith(turns, maxTrades, k) ==>
      var c := AfterTurns(turns, maxTrades, k).0; c.tradesOpened + c.unconfirmedOnly == Slots(turns[..k])
  {
    if k > 0 {
      GoingExactlyWhen(turns, maxTrades, k - 1);
      LastTurn(turns, maxTrades, k);
      TurnGoesOn(AfterTurns(turns, maxTrades, k - 1).0, turns[k - 1], maxTrades);
      assert turns[..k][..k - 1] == turns[..k - 1];
      hide AfterTurn, AfterTurns, Quiet, Cancels, SlotsOf;
    }
  }

  /**
   Over the whole run of candidates, candidate `k` is analysed exactly when nobody stopped or halted
   trading at it or before, no earlier one was cut off by a cancellation, and the BUYs placed or left
   unconfirmed by the candidates before it leave a slot.
  */
  lemma AnalysedExactlyWhen(turns: seq<Turn>, maxTrades: int, k: nat)
    requires k < |turns|
    ensures Analysed(turns, maxTrades, k) <==>
      && (forall j :: 0 <= j <= k ==> Quiet(turns[j]))
      && (forall j :: 0 <= j < k ==> !Cancels(turns[j]))
      && Slots(turns[..k]) < maxTrades
  {
    GoingExactlyWhen(turns, maxTrades, k);
    LastTurn(turns, maxTrades, k + 1);
    TurnGoesOn(AfterTurns(turns, maxTrades, k).0, turns[k], maxTrades);
    hide AfterTurn, AfterTurns, Quiet, Cancels;
    forall j | 0 <= j < k ensures Slots(turns[..j]) <= Slots(turns[..k]) {
      SlotsGrow(turns, j, k);
    }
  }

  lemma {:induction false} SlotsGrow(turns: seq<Turn>, j: nat, k: nat)
    requires j <= k <= |turns|
    ensures Slots(turns[..j]) <= Slots(turns[..k])
  {
    if j < k {
      SlotsGrow(turns, j, k - 1);
      assert turns[..k][..k - 1] == turns[..k - 1];
    }
  }

  // ---------------------------------------------------------------- what the report's counters count

  datatype Kind = Executions | OpenExecutions | NotConfirmations | Refusals | Holds | Failures | Sells

  predicate OfKind(turn: Turn, kind: Kind) {
    match kind
    case Executions => turn.analysis.BuyDecision? && turn.analysis.execution.Executed?
    case OpenExecutions =>
      turn.analysis.BuyDecision? && turn.analysis.execution.Executed? && turn.analysis.execution.unconfirmed
    case NotConfirmations => turn.analysis.BuyDecision? && turn.analysis.execution.NotConfirmed?
    case Refusals => turn.analysis.BuyDecision? && turn.analysis.execution.Refused?
    case Holds => turn.analysis.HoldDecision?
    case Failures => turn.analysis.AnalysisRaised? || turn.analysis.ReturnedError?
    case Sells => turn.analysis.SellDecision?
  }

  function HowMany(turns: seq<Turn>, kind: Kind): nat {
    if turns == [] then 0
    else HowMany(turns[..|turns| - 1], kind) + (if OfKind(turns[|turns| - 1], kind) then 1 else 0)
  }

  /** Every counter is the number of analysed candidates of its kind. */
  ghost predicate Counted(c: Counts, analysed: seq<Turn>) {
    && c.analyzed == |analysed|
    && c.tradesOpened == HowMany(analysed, Executions)
    && c.unconfirmedOnly == HowMany(analysed, NotConfirmations)
    && c.unconfirmed == HowMany(analysed, OpenExecutions) + HowMany(analysed, NotConfirmations)
    && c.rejected == HowMany(analysed, Refusals) && c.holds == HowMany(analysed, Holds)
    && c.errors == HowMany(analysed, Failures) && c.ignored == HowMany(analysed, Sells)
  }

  /** How the loop ended at candidate `n`, which it did not analyse, or at the last one it did. */
  ghost predicate EndedAs(turns: seq<Turn>, maxTrades: int, n: nat, halted: bool, p: Progress)
    requires n <= |turns|
  {
    if n > 0 && Cancels(turns[n - 1]) then p == Over(Cancelled) && !halted
    else if n == |turns| then p == Going && !halted
    else if turns[n].stopSet then p == Over(Done) && !halted
    else match turns[n].halt
      case HaltRaises => p == Over(Raised) && !halted
      case Halted => p == Over(Done) && halted
      case Clear => p == Over(Done) && !halted && Slots(turns[..n]) >= maxTrades
  }

  lemma OneMoreAnalysed(turns: seq<Turn>, n: nat, c: Counts, maxTrades: int)
    requires n < |turns| && Counted(c, turns[..n]) && Quiet(turns[n])
    requires c.tradesOpened + c.unconfirmedOnly < maxTrades
    ensures var (c', p) := AfterTurn(c, turns[n], maxTrades);
      && Counted(c', turns[..n + 1]) && c'.halted == c.halted
      && p == if Cancels(turns[n]) then Over(Cancelled) else Going
  {
    var before, after := turns[..n], turns[..n + 1];
    assert after[..n] == before && after[n] == turns[n];
  }

  lemma NotAnalysed(turns: seq<Turn>, n: nat, c: Counts, maxTrades: int)
    requires n < |turns| && Counted(c, turns[..n]) && !c.halted
    requires !Quiet(turns[n]) || Slots(turns[..n]) >= maxTrades
    requires c.tradesOpened + c.unconfirmedOnly == Slots(turns[..n])
    requires n > 0 ==> !Cancels(turns[n - 1])
    ensures var (c', p) := AfterTurn(c, turns[n], maxTrades);
      Counted(c', turns[..n]) && EndedAs(turns, maxTrades, n, c'.halted, p) && p.Over?
  {
    hide HowMany, Slots;
  }

  /**
   The report after the loop over any candidates: every counter is the number of candidates of its kind
   among the first ones, those analysed; and how the loop ended is what stood at the next candidate, or
   a cancellation in the last.
  */
  lemma {:induction false} CountersCount(turns: seq<Turn>, maxTrades: int, k: nat)
    requires k <= |turns|
    ensures var (c, p) := AfterTurns(turns, maxTrades, k);
      c.analyzed <= k && Counted(c, turns[..c.analyzed]) && EndedAs(turns[..k], maxTrades, c.analyzed, c.halted, p)
  {
    if k == 0 {
      assert turns[..0] == [];
    } else {
      CountersCount(turns, maxTrades, k - 1);
      GoingExactlyWhen(turns, maxTrades, k - 1);
      LastTurn(turns, maxTrades, k);
      var (c, p) := AfterTurns(turns, maxTrades, k - 1);
      hide AfterTurn, AfterTurns, Counted, Quiet, Cancels;
      var n := c.analyzed;
      assert turns[..k - 1][..n] == turns[..k][..n] == turns[..n];
      if p == Going {
        assert n == k - 1 by { GoingMeansAll(turns, maxTrades, k - 1, c, p); }
        assert turns[..k][..k - 1] == turns[..k - 1] && turns[..k][k - 1] == turns[k - 1];
        if Quiet(turns[k - 1]) && Slots(turns[..k - 1]) < maxTrades {
          OneMoreAnalysed(turns, k - 1, c, maxTrades);
          assert turns[..k][..k] == turns[..k];
        } else {
          NotAnalysed(turns[..k], k - 1, c, maxTrades);
        }
      }
    }
  }

  lemma GoingMeansAll(turns: seq<Turn>, maxTrades: int, k: nat, c: Counts, p: Progress)
    requires k <= |turns| && c.analyzed <= k && p == Going
    requires EndedAs(turns[..k], maxTrades, c.analyzed, c.halted, p)
    ensures c.analyzed == k && !c.halted
    ensures k > 0 ==> !Cancels(turns[k - 1])
  {}

  /** The first candidates, as many as the daemon may look at. */
  ghost function FirstOnes(turns: seq<Turn>, maxCandidates: nat): seq<Turn> {
    if maxCandidates < |turns| then turns[..maxCandidates] else turns
  }

  /** The whole analysis phase: nothing when the risk scales could not be computed; else the counters and
      the ending of the loop over the first candidates. */
  lemma AnalysisMeans(s: Script, maxTrades: int, maxCandidates: nat)
    ensures var (c, ending) := Traded(s, maxTrades, maxCandidates);
      if s.riskScales != Done then c == ZERO && ending == s.riskScales
      else
        var first := FirstOnes(s.turns, maxCandidates);
        && c.analyzed <= |first| && Counted(c, first[..c.analyzed])
        && exists p: Progress :: EndedAs(first, maxTrades, c.analyzed, c.halted, p)
             && ending == (match p case Going => Done case Over(e) => e)
  {
    var n := Considered(s.turns, maxCandidates);
    CountersCount(s.turns, maxTrades, n);
    assert FirstOnes(s.turns, maxCandidates) == s.turns[..n];
    hide Counted, EndedAs, AfterTurns;
    var (c, p) := AfterTurns(s.turns, maxTrades, n);
    assert s.turns[..n][..c.analyzed] == s.turns[..c.analyzed];
  }

  // ---------------------------------------------------------------- which phases a session enters

  /** The session gets as far as analysing candidates. */
  ghost predicate Analyses(s: Script) {
    && s.preOpen == Done && s.halt == Clear && s.scan == Done
    && |s.turns| > 0 && !s.dryRun && !s.stopAfterScan
  }

  /** After trading: monitoring goes before closing when something was bought; without a purchase the
      session goes straight to closing, unless it was stopped. */
  ghost predicate ClosesInOrder(s: Script, bought: bool) {
    if bought then s.monitor == Done else !s.stopAfterTrading
  }

  /**
   Every phase and the outcome of every session, from its script and what trading came to: scanning needs a
   clean start, monitoring a purchase, and closing comes in order or, after a failure, for what was bought.
  */
  lemma PhasesExactlyWhen(s: Script, maxTrades: int, maxCandidates: nat)
    ensures var p, (c, ending) := Phases(s, maxTrades, maxCandidates), Traded(s, maxTrades, maxCandidates);
      var bought := c.tradesOpened + c.unconfirmed > 0;
      && PreOpen in p && Idle !in p
      && (Scanning in p <==> s.preOpen == Done && s.halt == Clear)
      && (Analyzing in p <==> Analyses(s))
      && (Monitoring in p <==> Analyses(s) && ending == Done && bought)
      && (Closing in p <==>
            && Analyses(s)
            && (|| (ending == Done && ClosesInOrder(s, bought))
                || (bought && (ending == Raised || (ending == Done && s.monitor == Raised)))))
      && (Closing in BodyPhases(s, maxTrades, maxCandidates) <==>
            Analyses(s) && ending == Done && ClosesInOrder(s, bought))
  {
    hide Traded;
    var (c, ending) := Traded(s, maxTrades, maxCandidates);
    var p := BodyPhases(s, maxTrades, maxCandidates);
    var traded := [PreOpen, Scanning, Analyzing];
    assert PreOpen in traded && Scanning in traded && Analyzing in traded && Idle !in traded;
    assert Monitoring !in traded && Closing !in traded;
    assert Monitoring in traded + [Monitoring] && Monitoring in traded + [Monitoring, Closing];
    assert Closing in traded + [Closing] && Closing in traded + [Monitoring, Closing];
    assert forall x :: x in traded ==> x in traded + [Monitoring] && x in traded + [Closing] && x in traded + [Monitoring, Closing];
    var q := Phases(s, maxTrades, maxCandidates);
    assert forall x :: x in q <==> x in p || x in q[|p|..];
  }

  /** The report is marked halted exactly when the kill switch was seen before the scan or while analysing,
      and it counts nothing unless candidates were analysed. */
  lemma HaltIsMarked(s: Script, maxTrades: int, maxCandidates: nat)
    ensures var counts, (c, ending) := SessionCounts(s, maxTrades, maxCandidates), Traded(s, maxTrades, maxCandidates);
      && (counts.halted <==>
            (s.preOpen == Done && s.halt == Halted) || (Analyses(s) && c.halted))
      && (Analyses(s) ==> counts == c)
      && (!Analyses(s) ==> counts.analyzed == counts.tradesOpened == counts.unconfirmed == counts.errors == 0)
  {
    hide Traded;
  }

  /** One step after another: the first that does not end normally decides. */
  ghost function Then(step: Ending, rest: Ending): Ending { if step == Done then rest else step }

  /** How the body of a session ends: with whatever first raised or was cancelled, in the order of its steps. */
  lemma EndsExactlyAs(s: Script, maxTrades: int, maxCandidates: nat)
    ensures var (c, trading) := Traded(s, maxTrades, maxCandidates);
      var bought := c.tradesOpened + c.unconfirmed > 0;
      var leaving := if bought then Then(s.monitor, s.close) else if s.stopAfterTrading then Done else s.close;
      var dealing := if Analyses(s) then Then(trading, leaving) else Done;
      var looking := match s.halt case Clear => Then(s.scan, dealing) case Halted => Done case HaltRaises => Raised;
      BodyEnding(s, maxTrades, maxCandidates) == Then(s.preOpen, looking)
  {
    hide Traded;
    assert ReachesTrading(s) <==> Analyses(s);
    if Analyses(s) {
      var (c, trading) := Traded(s, maxTrades, maxCandidates);
      assert Exposed(c) <==> c.tradesOpened + c.unconfirmed > 0;
    }
  }
}
