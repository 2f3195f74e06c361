/**
 The strategy backtest: skopaq/backtest/engine.py, on bars that are already aligned with their
 signals. Prices and money are exact (`real`), dates are day numbers.
*/
module BacktestEngine {
  import opened Wrappers

  datatype Config = Config(
    initialCapital: real, commissionPct: real, slippagePct: real, riskPerTradePct: real,
    stopLossPct: real, targetPct: real, trailingStopPct: real, circuitLimitPct: real)

  /** One row of the joined frame; `signal` is 1 (BUY), -1 (SELL) or anything else (HOLD). */
  datatype Bar = Bar(date: int, high: real, low: real, close: real, signal: int)

  datatype ExitReason = StopLoss | Target | TrailingStop | SellSignal | EndOfData

  datatype Trade = Trade(entryDate: int, exitDate: int, entryPrice: real, exitPrice: real,
                         quantity: int, pnl: real, reason: ExitReason, holdingDays: int)

  /** The loop's variables. */
  datatype Account = Account(capital: real, position: int, entryPrice: real, entryDate: int,
                             highWater: real, trades: seq<Trade>, equity: seq<real>)

  // ---------------------------------------------------------------- what one bar does

  function Start(c: Config): Account {
    Account(c.initialCapital, 0, 0.0, 0, 0.0, [], [])
  }

  function Abs(x: real): real { if x < 0.0 then -x else x }

  predicate CircuitTripped(c: Config, prevClose: real, close: real) {
    prevClose > 0.0 && Abs(close - prevClose) / prevClose > c.circuitLimitPct
  }

  function MaxReal(x: real, y: real): real { if x >= y then x else y }

  function Value(quantity: int, price: real): real { quantity as real * price }

  function Times(x: real, y: real): real { x * y }

  /** What a SELL at `price` really fetches per share. */
  function Slipped(c: Config, price: real): real { price * (1.0 - c.slippagePct) }

  function ExitCommission(c: Config, exitPrice: real, quantity: int): real {
    exitPrice * quantity as real * c.commissionPct
  }

  function Gain(entryPrice: real, exitPrice: real, quantity: int): real {
    (exitPrice - entryPrice) * quantity as real
  }

  /** Sell the whole position at `price` less slippage, paying the exit commission. */
  function Exited(c: Config, a: Account, price: real, date: int, reason: ExitReason): Account {
    var exitPrice := Slipped(c, price);
    var commission := ExitCommission(c, exitPrice, a.position);
    var pnl := Gain(a.entryPrice, exitPrice, a.position) - commission;
    a.(capital := a.capital + (Value(a.position, exitPrice) - commission),
       trades := a.trades + [Trade(a.entryDate, date, a.entryPrice, exitPrice, a.position, pnl,
                                   reason, date - a.entryDate)],
       position := 0, entryPrice := 0.0)
  }

  function StopPrice(c: Config, entryPrice: real): real { entryPrice * (1.0 - c.stopLossPct) }

  function TargetPrice(c: Config, entryPrice: real): real { entryPrice * (1.0 + c.targetPct) }

  function TrailPrice(c: Config, highWater: real): real { highWater * (1.0 - c.trailingStopPct) }

  /** The rule that closes a held position on this bar and its trigger price, in the order the code
      tries them. */
  function ExitRule(c: Config, bar: Bar, entryPrice: real, highWater: real): Option<(real, ExitReason)> {
    if bar.low <= StopPrice(c, entryPrice) then Some((StopPrice(c, entryPrice), StopLoss))
    else if c.targetPct > 0.0 then
      if bar.high >= TargetPrice(c, entryPrice) then Some((TargetPrice(c, entryPrice), Target)) else None
    else if c.trailingStopPct > 0.0 && highWater > entryPrice then
      if bar.low <= TrailPrice(c, highWater) then Some((TrailPrice(c, highWater), TrailingStop)) else None
    else if bar.signal == -1 then Some((bar.close, SellSignal))
    else None
  }

  function Managed(c: Config, bar: Bar, a: Account): Account {
    if a.position <= 0 then a
    else
      var h := a.(highWater := MaxReal(a.highWater, bar.high));
      match ExitRule(c, bar, h.entryPrice, h.highWater)
      case None => h
      case Some((price, reason)) => Exited(c, h, price, bar.date, reason)
  }

  /** How many stop-outs of `distance` the budget covers, at least one. (`int` truncates, which the
      maximum makes the same as `Floor`.) */
  function SharesWithin(budget: real, distance: real): int
    requires distance > 0.0
  {
    var n := (budget / distance).Floor;
    if n > 1 then n else 1
  }

  /** Shares bought: the risk budget over the stop distance. */
  function Quantity(c: Config, capital: real, close: real): int {
    var distance := Times(close, c.stopLossPct);
    if distance > 0.0 then SharesWithin(Times(capital, c.riskPerTradePct), distance) else 1
  }

  function EntryCost(c: Config, close: real, quantity: int): real {
    close * quantity as real * (1.0 + c.slippagePct + c.commissionPct)
  }

  function EntryPrice(c: Config, close: real): real { close * (1.0 + c.slippagePct) }

  function Entered(c: Config, bar: Bar, a: Account): Account {
    if a.position != 0 || bar.signal != 1 then a
    else
      var quantity := Quantity(c, a.capital, bar.close);
      var cost := EntryCost(c, bar.close, quantity);
      if cost <= a.capital then
        a.(entryPrice := EntryPrice(c, bar.close), entryDate := bar.date,
           highWater := EntryPrice(c, bar.close), capital := a.capital - cost, position := quantity)
      else a
  }

  function Marked(a: Account, close: real): Account {
    a.(equity := a.equity + [a.capital + Value(a.position, close)])
  }

  function AfterBar(c: Config, prev: Option<Bar>, bar: Bar, a: Account): Account {
    if prev.Some? && CircuitTripped(c, prev.value.close, bar.close) then Marked(a, bar.close)
    else Marked(Entered(c, bar, Managed(c, bar, a)), bar.close)
  }

  /** The account after the first `k` bars. */
  function AccountAt(c: Config, bars: seq<Bar>, k: nat): Account
    requires k <= |bars|
  {
    if k == 0 then Start(c)
    else AfterBar(c, if k == 1 then None else Some(bars[k - 2]), bars[k - 1], AccountAt(c, bars, k - 1))
  }

  /** The position still open at the end is closed at the last close, free of charges. */
  function ClosedOut(a: Account, last: Bar): Account {
    if a.position > 0 then
      a.(capital := a.capital + Value(a.position, last.close),
         trades := a.trades + [Trade(a.entryDate, last.date, a.entryPrice, last.close, a.position,
                                     Gain(a.entryPrice, last.close, a.position), EndOfData, 0)],
         position := 0)
    else a
  }

  function Outcome(c: Config, bars: seq<Bar>): Account
    requires bars != []
  {
    ClosedOut(AccountAt(c, bars, |bars|), bars[|bars| - 1])
  }

  datatype Report = Report(trades: seq<Trade>, equity: seq<real>, finalCapital: real)

  lemma NextAccount(c: Config, bars: seq<Bar>, i: nat)
    requires i < |bars|
    ensures AccountAt(c, bars, i + 1)
         == if i > 0 && CircuitTripped(c, bars[i - 1].close, bars[i].close)
            then Marked(AccountAt(c, bars, i), bars[i].close)
            else Marked(Entered(c, bars[i], Managed(c, bars[i], AccountAt(c, bars, i))), bars[i].close)
  {
    hide CircuitTripped, Managed, Entered;
  }

  lemma NothingYet(c: Config, bars: seq<Bar>)
    ensures AccountAt(c, bars, 0) == Start(c)
  {}

  /** `run_backtest`; an empty frame raises (`data.index[0]`). */
  method RunBacktest(c: Config, bars: seq<Bar>) returns (r: Option<Report>)
    ensures r.None? <==> bars == []
    ensures bars != [] ==>
      r.value == Report(Outcome(c, bars).trades, Outcome(c, bars).equity, Outcome(c, bars).capital)
  {
    hide Value, Slipped, ExitCommission, Gain, EntryCost, EntryPrice, StopPrice, TargetPrice,
         TrailPrice, Quantity, CircuitTripped, MaxReal, AccountAt;
    var capital := c.initialCapital;
    var position := 0;
    var entryPrice := 0.0;
    var entryDate := 0;
    var highWater := 0.0;
    var trades: seq<Trade> := [];
    var equity: seq<real> := [];

    NothingYet(c, bars);
    for i := 0 to |bars|
      invariant |equity| == i
      invariant Account(capital, position, entryPrice, entryDate, highWater, trades, equity)
             == AccountAt(c, bars, i)
    {
      var bar := bars[i];
      var close, high, low, signal := bar.close, bar.high, bar.low, bar.signal;
      ghost var before := AccountAt(c, bars, i);
      NextAccount(c, bars, i);

      if |equity| > 0 {
        var prevClose := bars[if |equity| - 1 > 0 then |equity| - 1 else 0].close;
        if CircuitTripped(c, prevClose, close) {
          equity := equity + [capital + Value(position, close)];
          continue;
        }
      }

      if position > 0 {
        highWater := MaxReal(highWater, high);
        var stopPrice := StopPrice(c, entryPrice);
        var exit: Option<(real, ExitReason)> := None;
        if low <= stopPrice {
          exit := Some((stopPrice, StopLoss));
        } else if c.targetPct > 0.0 {
          var targetPrice := TargetPrice(c, entryPrice);
          if high >= targetPrice {
            exit := Some((targetPrice, Target));
          }
        } else if c.trailingStopPct > 0.0 && highWater > entryPrice {
          var trailPrice := TrailPrice(c, highWater);
          if low <= trailPrice {
            exit := Some((trailPrice, TrailingStop));
          }
        } else if signal == -1 && position > 0 {
          exit := Some((close, SellSignal));
        }
        assert exit == ExitRule(c, bar, entryPrice, highWater);
        if exit.Some? {
          var exitPrice := Slipped(c, exit.value.0);
          var pnl := Gain(entryPrice, exitPrice, position);
          var commission := ExitCommission(c, exitPrice, position);
          pnl := pnl - commission;
          capital := capital + (Value(position, exitPrice) - commission);
          trades := trades + [Trade(entryDate, bar.date, entryPrice, exitPrice, position, pnl,
                                    exit.value.1, bar.date - entryDate)];
          position := 0;
          entryPrice := 0.0;
        }
      }
      assert Account(capital, position, entryPrice, entryDate, highWater, trades, equity)
          == Managed(c, bar, before);

      if position == 0 && signal == 1 {
        var quantity := Quantity(c, capital, close);
        var cost := EntryCost(c, close, quantity);
        if cost <= capital {
          entryPrice := EntryPrice(c, close);
          entryDate := bar.date;
          highWater := entryPrice;
          capital := capital - cost;
          position := quantity;
        }
      }
      assert Account(capital, position, entryPrice, entryDate, highWater, trades, equity)
          == Entered(c, bar, Managed(c, bar, before));
      equity := equity + [capital + Value(position, close)];
    }

    if bars == [] {
      return None;
    }
    if position > 0 {
      var last := bars[|bars| - 1];
      var exitPrice := last.close;
      var pnl := Gain(entryPrice, exitPrice, position);
      capital := capital + Value(position, exitPrice);
      trades := trades + [Trade(entryDate, last.date, entryPrice, exitPrice, position, pnl,
                                EndOfData, 0)];
      position := 0;
    }
    r := Some(Report(trades, equity, capital));
  }

  // ---------------------------------------------------------------- no look-ahead

  /** Two histories that agree on their first `k` bars reach the same account after them. */
  lemma {:induction false} NoLookAhead(c: Config, bars: seq<Bar>, other: seq<Bar>, k: nat)
    requires k <= |bars| && k <= |other| && bars[..k] == other[..k]
    ensures AccountAt(c, bars, k) == AccountAt(c, other, k)
  {
    if k > 0 {
      assert bars[..k][..k - 1] == bars[..k - 1] && other[..k][..k - 1] == other[..k - 1];
      NoLookAhead(c, bars, other, k - 1);
      assert bars[..k][k - 1] == bars[k - 1] && other[..k][k - 1] == other[k - 1];
      if k > 1 {
        assert bars[..k][k - 2] == bars[k - 2] && other[..k][k - 2] == other[k - 2];
      }
    }
  }

  lemma BarAppends(c: Config, prev: Option<Bar>, bar: Bar, a: Account)
    ensures |AfterBar(c, prev, bar, a).equity| == |a.equity| + 1
    ensures a.equity <= AfterBar(c, prev, bar, a).equity
    ensures a.trades <= AfterBar(c, prev, bar, a).trades
  {}

  lemma {:induction false} HistoryGrows(c: Config, bars: seq<Bar>, j: nat, k: nat)
    requires j <= k <= |bars|
    ensures |AccountAt(c, bars, j).equity| == j && |AccountAt(c, bars, k).equity| == k
    ensures AccountAt(c, bars, j).equity <= AccountAt(c, bars, k).equity
    ensures AccountAt(c, bars, j).trades <= AccountAt(c, bars, k).trades
  {
    if k > 0 {
      HistoryGrows(c, bars, if j < k then j else k - 1, k - 1);
      BarAppends(c, if k == 1 then None else Some(bars[k - 2]), bars[k - 1], AccountAt(c, bars, k - 1));
    }
  }

  lemma OneEquityPerBar(c: Config, bars: seq<Bar>, k: nat)
    requires k <= |bars|
    ensures |AccountAt(c, bars, k).equity| == k
  {
    HistoryGrows(c, bars, k, k);
  }

  /**
   Backtesting any prefix of the bars gives that prefix of the equity curve, and the same closed
   trades except the one its own end of data adds.
  */
  lemma PrefixOfBarsGivesPrefixOfResult(c: Config, bars: seq<Bar>, k: nat)
    requires 0 < k <= |bars|
    ensures |Outcome(c, bars).equity| == |bars|
    ensures Outcome(c, bars[..k]).equity == Outcome(c, bars).equity[..k]
    ensures var short, closed := Outcome(c, bars[..k]).trades, AccountAt(c, bars, k).trades;
      && closed <= Outcome(c, bars).trades && closed <= short
      && (short == closed || (|short| == |closed| + 1 && short[|closed|].reason == EndOfData))
  {
    assert bars[..k][..k] == bars[..k];
    NoLookAhead(c, bars[..k], bars, k);
    HistoryGrows(c, bars, k, |bars|);
  }

  // ---------------------------------------------------------------- conservation

  /** The commission that was taken out of capital when this trade was entered. */
  function EntryFee(c: Config, entryPrice: real, quantity: int): real
    requires c.slippagePct >= 0.0
  {
    entryPrice / (1.0 + c.slippagePct) * quantity as real * c.commissionPct
  }

  /** What the closed trades changed in the cash: their P&L less the entry fees it leaves out. */
  function Booked(c: Config, trades: seq<Trade>): real
    requires c.slippagePct >= 0.0
  {
    if trades == [] then 0.0
    else
      var t := trades[|trades| - 1];
      Booked(c, trades[..|trades| - 1]) + t.pnl - EntryFee(c, t.entryPrice, t.quantity)
  }

  lemma BookedAppend(c: Config, trades: seq<Trade>, t: Trade)
    requires c.slippagePct >= 0.0
    ensures Booked(c, trades + [t]) == Booked(c, trades) + t.pnl - EntryFee(c, t.entryPrice, t.quantity)
  {
    assert (trades + [t])[..|trades|] == trades;
  }

  /** Cash plus the position at cost is the initial capital plus everything booked, less the fee
      of the open entry. */
  ghost predicate Conserved(c: Config, a: Account)
    requires c.slippagePct >= 0.0
  {
    && a.position >= 0 && (a.position == 0 ==> a.entryPrice == 0.0)
    && a.capital + a.position as real * a.entryPrice
       == c.initialCapital + Booked(c, a.trades) - EntryFee(c, a.entryPrice, a.position)
  }

  lemma ExitConserves(c: Config, a: Account, price: real, date: int, reason: ExitReason)
    requires c.slippagePct >= 0.0 && Conserved(c, a)
    ensures Conserved(c, Exited(c, a, price, date, reason))
  {
    var e := Exited(c, a, price, date, reason);
    BookedAppend(c, a.trades, e.trades[|a.trades|]);
    ZeroFee(c);
  }

  lemma ZeroFee(c: Config)
    requires c.slippagePct >= 0.0
    ensures EntryFee(c, 0.0, 0) == 0.0
  {}

  lemma EntryConserves(c: Config, bar: Bar, a: Account)
    requires c.slippagePct >= 0.0 && Conserved(c, a)
    ensures Conserved(c, Entered(c, bar, a))
  {
    var e := Entered(c, bar, a);
    if e != a {
      ZeroFee(c);
      EntrySplitsCost(c, bar.close, e.position as real);
    }
  }

  /** An entry's cost is the position at its entry price plus the entry fee. */
  lemma EntrySplitsCost(c: Config, close: real, q: real)
    requires c.slippagePct >= 0.0
    ensures close * q * (1.0 + c.slippagePct + c.commissionPct)
         == q * (close * (1.0 + c.slippagePct)) + close * q * c.commissionPct
    ensures close * (1.0 + c.slippagePct) / (1.0 + c.slippagePct) == close
  {}

  lemma ManagedConserves(c: Config, bar: Bar, a: Account)
    requires c.slippagePct >= 0.0 && Conserved(c, a)
    ensures Conserved(c, Managed(c, bar, a))
  {
    if a.position > 0 {
      var h := a.(highWater := MaxReal(a.highWater, bar.high));
      var rule := ExitRule(c, bar, h.entryPrice, h.highWater);
      if rule.Some? {
        ExitConserves(c, h, rule.value.0, bar.date, rule.value.1);
      }
    }
  }

  lemma BarConserves(c: Config, prev: Option<Bar>, bar: Bar, a: Account)
    requires c.slippagePct >= 0.0 && Conserved(c, a)
    ensures Conserved(c, AfterBar(c, prev, bar, a))
  {
    hide Managed, Entered;
    ManagedConserves(c, bar, a);
    EntryConserves(c, bar, Managed(c, bar, a));
    MarkConserves(c, a, bar.close);
    MarkConserves(c, Entered(c, bar, Managed(c, bar, a)), bar.close);
  }

  lemma MarkConserves(c: Config, a: Account, close: real)
    requires c.slippagePct >= 0.0 && Conserved(c, a)
    ensures Conserved(c, Marked(a, close))
  {}

  lemma {:induction false} ConservedAt(c: Config, bars: seq<Bar>, k: nat)
    requires c.slippagePct >= 0.0 && k <= |bars|
    ensures Conserved(c, AccountAt(c, bars, k))
  {
    if k == 0 {
      ZeroFee(c);
    } else {
      hide AfterBar, Conserved;
      ConservedAt(c, bars, k - 1);
      BarConserves(c, if k == 1 then None else Some(bars[k - 2]), bars[k - 1], AccountAt(c, bars, k - 1));
    }
  }

  /**
   The last equity value, the final cash, and initial capital plus the trades' P&L less their entry
   commissions are one number: reported P&L leaves out exactly the entry commissions.
  */
  lemma FinalEquityIsBooked(c: Config, bars: seq<Bar>)
    requires c.slippagePct >= 0.0 && bars != []
    ensures var o := Outcome(c, bars);
      && |o.equity| == |bars|
      && o.equity[|bars| - 1] == o.capital == c.initialCapital + Booked(c, o.trades)
  {
    hide AfterBar, Conserved, Booked;
    var n := |bars|;
    ConservedAt(c, bars, n);
    OneEquityPerBar(c, bars, n);
    OneEquityPerBar(c, bars, n - 1);
    ClosingOutConserves(c, AccountAt(c, bars, n), bars[n - 1]);
    LastMark(c, if n == 1 then None else Some(bars[n - 2]), bars[n - 1], AccountAt(c, bars, n - 1));
  }

  lemma ClosingOutConserves(c: Config, a: Account, last: Bar)
    requires c.slippagePct >= 0.0 && Conserved(c, a)
    ensures var o := ClosedOut(a, last);
      && o.capital == a.capital + Value(a.position, last.close)
      && o.capital == c.initialCapital + Booked(c, o.trades)
  {
    ZeroFee(c);
    if a.position > 0 {
      BookedAppend(c, a.trades, ClosedOut(a, last).trades[|a.trades|]);
    }
  }

  lemma LastMark(c: Config, prev: Option<Bar>, bar: Bar, a: Account)
    ensures var r := AfterBar(c, prev, bar, a);
      r.equity[|a.equity|] == r.capital + Value(r.position, bar.close)
  {
    hide Managed, Entered;
    var e := Entered(c, bar, Managed(c, bar, a));
    KeepsEquity(c, bar, a);
  }

  lemma KeepsEquity(c: Config, bar: Bar, a: Account)
    ensures Entered(c, bar, Managed(c, bar, a)).equity == a.equity
  {}

  // ---------------------------------------------------------------- never in debt

  ghost predicate Percentages(c: Config) {
    && c.initialCapital >= 0.0 && 0.0 <= c.commissionPct <= 1.0 && 0.0 <= c.slippagePct <= 1.0
    && 0.0 <= c.stopLossPct <= 1.0 && 0.0 <= c.trailingStopPct <= 1.0
  }

  ghost predicate Priced(bar: Bar) {
    0.0 <= bar.low <= bar.close && 0.0 <= bar.high
  }

  ghost predicate Solvent(a: Account) {
    a.capital >= 0.0 && a.position >= 0 && a.entryPrice >= 0.0 && a.highWater >= 0.0
  }

  lemma ExitSolvent(c: Config, a: Account, price: real, date: int, reason: ExitReason)
    requires Percentages(c) && Solvent(a) && price >= 0.0
    ensures Solvent(Exited(c, a, price, date, reason))
  {
    var exitPrice := price * (1.0 - c.slippagePct);
    Product(price, 1.0 - c.slippagePct);
    Product(exitPrice, a.position as real);
    Product(exitPrice * a.position as real, 1.0 - c.commissionPct);
    assert Exited(c, a, price, date, reason).capital
        == a.capital + exitPrice * a.position as real * (1.0 - c.commissionPct);
  }

  lemma Product(x: real, y: real)
    requires x >= 0.0 && y >= 0.0
    ensures x * y >= 0.0
  {}

  lemma BarSolvent(c: Config, prev: Option<Bar>, bar: Bar, a: Account)
    requires Percentages(c) && Priced(bar) && Solvent(a)
    ensures Solvent(AfterBar(c, prev, bar, a))
    ensures AfterBar(c, prev, bar, a).equity == a.equity + [AfterBar(c, prev, bar, a).equity[|a.equity|]]
    ensures AfterBar(c, prev, bar, a).equity[|a.equity|] >= 0.0
  {
    hide Managed, Entered, CircuitTripped, Value;
    ManagedSolvent(c, bar, a);
    EnteredSolvent(c, bar, Managed(c, bar, a));
    KeepsEquity(c, bar, a);
    MarkSolvent(a, bar.close);
    MarkSolvent(Entered(c, bar, Managed(c, bar, a)), bar.close);
  }

  lemma EnteredSolvent(c: Config, bar: Bar, a: Account)
    requires Percentages(c) && Priced(bar) && Solvent(a)
    ensures Solvent(Entered(c, bar, a))
  {
    hide EntryCost;
    Product(bar.close, 1.0 + c.slippagePct);
  }

  lemma MarkSolvent(a: Account, close: real)
    requires Solvent(a) && close >= 0.0
    ensures Solvent(Marked(a, close)) && Marked(a, close).equity[|a.equity|] >= 0.0
  {
    Product(a.position as real, close);
  }

  /** Every rule triggers at a price no lower than the stop, so never a negative one. */
  lemma RulePrice(c: Config, bar: Bar, entryPrice: real, highWater: real)
    requires Percentages(c) && Priced(bar) && entryPrice >= 0.0
    requires ExitRule(c, bar, entryPrice, highWater).Some?
    ensures ExitRule(c, bar, entryPrice, highWater).value.0 >= StopPrice(c, entryPrice) >= 0.0
  {
    Product(entryPrice, 1.0 - c.stopLossPct);
    Product(entryPrice, c.stopLossPct);
    if c.targetPct > 0.0 {
      Product(entryPrice, c.targetPct);
    }
  }

  lemma ManagedSolvent(c: Config, bar: Bar, a: Account)
    requires Percentages(c) && Priced(bar) && Solvent(a)
    ensures Solvent(Managed(c, bar, a))
  {
    if a.position > 0 {
      var h := a.(highWater := MaxReal(a.highWater, bar.high));
      var rule := ExitRule(c, bar, h.entryPrice, h.highWater);
      if rule.Some? {
        RulePrice(c, bar, h.entryPrice, h.highWater);
        ExitSolvent(c, h, rule.value.0, bar.date, rule.value.1);
      }
    }
  }

  /** With non-negative prices and sane percentages, neither cash nor equity is ever negative. */
  lemma {:induction false} NeverInDebt(c: Config, bars: seq<Bar>, k: nat)
    requires Percentages(c) && k <= |bars|
    requires forall i :: 0 <= i < |bars| ==> Priced(bars[i])
    ensures Solvent(AccountAt(c, bars, k))
    ensures forall i :: 0 <= i < |AccountAt(c, bars, k).equity| ==> AccountAt(c, bars, k).equity[i] >= 0.0
  {
    if k > 0 {
      NeverInDebt(c, bars, k - 1);
      BarSolvent(c, if k == 1 then None else Some(bars[k - 2]), bars[k - 1], AccountAt(c, bars, k - 1));
    }
  }

  // ---------------------------------------------------------------- bounded loss

  /** The fraction of the entry value a stopped-out position loses. */
  function WorstFraction(c: Config): real {
    1.0 - (1.0 - c.stopLossPct) * (1.0 - c.slippagePct) * (1.0 - c.commissionPct)
  }

  /** The cash of a flat account after these trades. */
  function Cash(c: Config, trades: seq<Trade>): real
    requires c.slippagePct >= 0.0
  {
    c.initialCapital + Booked(c, trades)
  }

  /** Cash on hand when trade `i` was entered: everything was flat. */
  function CashBefore(c: Config, trades: seq<Trade>, i: nat): real
    requires c.slippagePct >= 0.0 && i <= |trades|
  {
    Cash(c, trades[..i])
  }

  ghost predicate SizedByRisk(c: Config, cash: real, entryPrice: real, quantity: int)
    requires c.slippagePct >= 0.0
  {
    quantity > 1 ==>
      quantity as real * entryPrice * c.stopLossPct <= cash * c.riskPerTradePct * (1.0 + c.slippagePct)
  }

  /** A trade left at or above its stop, its entry sized by the risk rule. */
  ghost predicate Bounded(c: Config, cash: real, t: Trade)
    requires c.slippagePct >= 0.0
  {
    && t.quantity >= 1 && t.entryPrice >= 0.0
    && SizedByRisk(c, cash, t.entryPrice, t.quantity)
    && t.exitPrice >= t.entryPrice * (1.0 - c.stopLossPct) * (1.0 - c.slippagePct)
    && t.pnl == (t.exitPrice - t.entryPrice) * t.quantity as real
                - t.exitPrice * t.quantity as real * c.commissionPct
  }

  ghost predicate AllBounded(c: Config, a: Account)
    requires c.slippagePct >= 0.0
  {
    && (forall i :: 0 <= i < |a.trades| ==> Bounded(c, CashBefore(c, a.trades, i), a.trades[i]))
    && (a.position > 0 ==>
          SizedByRisk(c, Cash(c, a.trades), a.entryPrice, a.position))
  }

  lemma SizeRespectsRisk(c: Config, capital: real, close: real)
    requires Percentages(c) && close >= 0.0
    ensures Quantity(c, capital, close) >= 1
    ensures SizedByRisk(c, capital, close * (1.0 + c.slippagePct), Quantity(c, capital, close))
  {
    var q := Quantity(c, capital, close);
    if q > 1 {
      var distance := close * c.stopLossPct;
      var budget := capital * c.riskPerTradePct;
      SizeIsLargestWithinRisk(budget, distance);
      var f := 1.0 + c.slippagePct;
      Product(budget - q as real * distance, f);
      assert q as real * (close * f) * c.stopLossPct == q as real * distance * f;
    }
  }

  /** The size is exact: the most shares whose stop-out stays within the risk budget, or one. */
  lemma SizeIsLargestWithinRisk(budget: real, distance: real)
    requires distance > 0.0
    ensures var q := SharesWithin(budget, distance);
      && q >= 1 && (q > 1 ==> Value(q, distance) <= budget) && Value(q + 1, distance) > budget
  {
    var q := SharesWithin(budget, distance);
    if q > 1 { MultiplyOut(q as real, budget, distance); }
    MultiplyOver((q + 1) as real, budget, distance);
  }

  lemma MultiplyOver(q: real, x: real, d: real)
    requires d > 0.0 && q > x / d
    ensures q * d > x
  {
    assert (x / d) * d == x;
    assert (q - x / d) * d > 0.0;
  }

  lemma MultiplyOut(q: real, x: real, d: real)
    requires d > 0.0 && q <= x / d
    ensures q * d <= x
  {
    Product(x / d - q, d);
  }

  lemma ExitStaysBounded(c: Config, a: Account, price: real, date: int, reason: ExitReason)
    requires Percentages(c) && Solvent(a) && AllBounded(c, a) && a.position > 0
    requires price >= StopPrice(c, a.entryPrice)
    ensures AllBounded(c, Exited(c, a, price, date, reason))
  {
    var e := Exited(c, a, price, date, reason);
    var n := |a.trades|;
    ExitTradeBounded(c, a, price, date, reason);
    assert e.trades[..n] == a.trades;
    hide Bounded, Booked, Exited;
    forall i | 0 <= i < |e.trades|
      ensures Bounded(c, CashBefore(c, e.trades, i), e.trades[i])
    {
      if i < n {
        assert e.trades[..i] == a.trades[..i];
        assert Bounded(c, CashBefore(c, a.trades, i), a.trades[i]);
      }
    }
  }

  lemma ExitTradeBounded(c: Config, a: Account, price: real, date: int, reason: ExitReason)
    requires Percentages(c) && Solvent(a) && a.position > 0
    requires SizedByRisk(c, Cash(c, a.trades), a.entryPrice, a.position)
    requires price >= StopPrice(c, a.entryPrice)
    ensures var e := Exited(c, a, price, date, reason);
      && e.trades[..|a.trades|] == a.trades && |e.trades| == |a.trades| + 1 && e.position == 0
      && Bounded(c, Cash(c, a.trades), e.trades[|a.trades|])
  {
    hide Booked, SizedByRisk;
    Product(price - StopPrice(c, a.entryPrice), 1.0 - c.slippagePct);
  }

  lemma ManagedStaysBounded(c: Config, bar: Bar, a: Account)
    requires Percentages(c) && Priced(bar) && Solvent(a) && AllBounded(c, a)
    ensures AllBounded(c, Managed(c, bar, a))
  {
    if a.position > 0 {
      var h := a.(highWater := MaxReal(a.highWater, bar.high));
      assert AllBounded(c, h) && Solvent(h);
      var rule := ExitRule(c, bar, h.entryPrice, h.highWater);
      if rule.Some? {
        hide StopPrice, TargetPrice, TrailPrice, Exited, ExitRule;
        RulePrice(c, bar, h.entryPrice, h.highWater);
        ExitStaysBounded(c, h, rule.value.0, bar.date, rule.value.1);
      }
    }
  }

  lemma EntryStaysBounded(c: Config, bar: Bar, a: Account)
    requires Percentages(c) && Priced(bar) && Solvent(a) && AllBounded(c, a) && Conserved(c, a)
    ensures AllBounded(c, Entered(c, bar, a))
  {
    if a.position == 0 {
      ZeroFee(c);
      SizeRespectsRisk(c, a.capital, bar.close);
    }
  }

  lemma BarStaysBounded(c: Config, prev: Option<Bar>, bar: Bar, a: Account)
    requires Percentages(c) && Priced(bar) && Solvent(a) && AllBounded(c, a) && Conserved(c, a)
    ensures AllBounded(c, AfterBar(c, prev, bar, a))
  {
    ManagedStaysBounded(c, bar, a);
    ManagedSolvent(c, bar, a);
    ManagedConserves(c, bar, a);
    EntryStaysBounded(c, bar, Managed(c, bar, a));
  }

  lemma {:induction false} BoundedAt(c: Config, bars: seq<Bar>, k: nat)
    requires Percentages(c) && k <= |bars|
    requires forall i :: 0 <= i < |bars| ==> Priced(bars[i])
    ensures AllBounded(c, AccountAt(c, bars, k))
  {
    if k > 0 {
      BoundedAt(c, bars, k - 1);
      NeverInDebt(c, bars, k - 1);
      ConservedAt(c, bars, k - 1);
      BarStaysBounded(c, if k == 1 then None else Some(bars[k - 2]), bars[k - 1],
                      AccountAt(c, bars, k - 1));
    }
  }

  lemma ExitAboveStop(c: Config, cash: real, t: Trade)
    requires Percentages(c) && Bounded(c, cash, t)
    ensures t.exitPrice >= t.entryPrice * (1.0 - c.stopLossPct) * (1.0 - c.slippagePct)
  {}

  lemma BoundedLoss(c: Config, cash: real, t: Trade)
    requires Percentages(c) && Bounded(c, cash, t)
    ensures t.pnl >= -(t.quantity as real * t.entryPrice * WorstFraction(c))
  {
    var q := t.quantity as real;
    var floor := t.entryPrice * (1.0 - c.stopLossPct) * (1.0 - c.slippagePct);
    Product(t.exitPrice - floor, 1.0 - c.commissionPct);
    Product((t.exitPrice - floor) * (1.0 - c.commissionPct), q);
    assert t.pnl == q * (t.exitPrice * (1.0 - c.commissionPct) - t.entryPrice);
    assert floor * (1.0 - c.commissionPct) == t.entryPrice * (1.0 - WorstFraction(c));
  }

  lemma FractionIsPositive(c: Config)
    requires Percentages(c)
    ensures WorstFraction(c) >= 0.0
  {
    var x, y, z := 1.0 - c.stopLossPct, 1.0 - c.slippagePct, 1.0 - c.commissionPct;
    FractionOf(x, y);
    FractionOf(x * y, z);
  }

  lemma FractionOf(x: real, y: real)
    requires 0.0 <= x <= 1.0 && 0.0 <= y <= 1.0
    ensures 0.0 <= x * y <= 1.0
  {
    Product(x, y);
    Product(x, 1.0 - y);
    assert x * (1.0 - y) == x - x * y;
  }

  lemma ScaleLoss(pnl: real, value: real, stop: real, budget: real, fraction: real)
    requires stop >= 0.0 && fraction >= 0.0
    requires pnl >= -(value * fraction) && value * stop <= budget
    ensures pnl * stop >= -(budget * fraction)
  {
    Product(pnl + value * fraction, stop);
    Product(budget - value * stop, fraction);
  }

  lemma LossWithinRisk(c: Config, cash: real, t: Trade)
    requires Percentages(c) && Bounded(c, cash, t) && t.quantity > 1
    requires t.pnl >= -(t.quantity as real * t.entryPrice * WorstFraction(c))
    ensures t.pnl * c.stopLossPct >= -(cash * c.riskPerTradePct * (1.0 + c.slippagePct) * WorstFraction(c))
  {
    FractionIsPositive(c);
    assert SizedByRisk(c, cash, t.entryPrice, t.quantity);
    hide Bounded, WorstFraction;
    ScaleLoss(t.pnl, t.quantity as real * t.entryPrice, c.stopLossPct,
              cash * c.riskPerTradePct * (1.0 + c.slippagePct), WorstFraction(c));
  }

  /** It left at or above its stop less slippage, it lost at most `WorstFraction` of its entry value,
      and if more than one share was bought, at most the configured risk (scaled) of the cash. */
  ghost predicate LossBounded(c: Config, cash: real, t: Trade) {
    && t.exitPrice >= t.entryPrice * (1.0 - c.stopLossPct) * (1.0 - c.slippagePct)
    && t.pnl >= -(t.quantity as real * t.entryPrice * WorstFraction(c))
    && (t.quantity > 1 ==>
          t.pnl * c.stopLossPct >= -(cash * c.riskPerTradePct * (1.0 + c.slippagePct) * WorstFraction(c)))
  }

  lemma BoundedMeansLossBounded(c: Config, cash: real, t: Trade)
    requires Percentages(c) && Bounded(c, cash, t)
    ensures LossBounded(c, cash, t)
  {
    hide Bounded, WorstFraction;
    ExitAboveStop(c, cash, t);
    BoundedLoss(c, cash, t);
    if t.quantity > 1 {
      LossWithinRisk(c, cash, t);
    }
  }

  /** Every trade a rule closed, on every run, has a bounded loss. */
  lemma EveryLossIsBounded(c: Config, bars: seq<Bar>, i: nat)
    requires Percentages(c)
    requires forall j :: 0 <= j < |bars| ==> Priced(bars[j])
    requires i < |AccountAt(c, bars, |bars|).trades|
    ensures var trades := AccountAt(c, bars, |bars|).trades;
      LossBounded(c, CashBefore(c, trades, i), trades[i])
  {
    hide AccountAt, CashBefore, Bounded, LossBounded;
    EachTradeBounded(c, bars, i);
    var trades := AccountAt(c, bars, |bars|).trades;
    BoundedMeansLossBounded(c, CashBefore(c, trades, i), trades[i]);
  }

  lemma EachTradeBounded(c: Config, bars: seq<Bar>, i: nat)
    requires Percentages(c)
    requires forall j :: 0 <= j < |bars| ==> Priced(bars[j])
    requires i < |AccountAt(c, bars, |bars|).trades|
    ensures var trades := AccountAt(c, bars, |bars|).trades;
      Bounded(c, CashBefore(c, trades, i), trades[i])
  {
    hide AccountAt, Bounded, CashBefore;
    BoundedAt(c, bars, |bars|);
  }

  // ---------------------------------------------------------------- one position at a time

  ghost predicate Chronological(bars: seq<Bar>) {
    forall i, j :: 0 <= i < j < |bars| ==> bars[i].date < bars[j].date
  }

  /** Each trade spans time forwards, starts no earlier than the one before ended, and all of it is
      over by `now`. */
  ghost predicate Disjoint(trades: seq<Trade>, now: int) {
    forall i :: 0 <= i < |trades| ==>
      && trades[i].entryDate < trades[i].exitDate <= now
      && trades[i].holdingDays == trades[i].exitDate - trades[i].entryDate
      && (i > 0 ==> trades[i - 1].exitDate <= trades[i].entryDate)
  }

  ghost predicate InOrder(a: Account, now: int) {
    && Disjoint(a.trades, now)
    && (a.position > 0 ==>
          a.entryDate <= now && (a.trades != [] ==> a.trades[|a.trades| - 1].exitDate <= a.entryDate))
  }

  lemma ManagedInOrder(c: Config, bar: Bar, a: Account, now: int)
    requires InOrder(a, now) && now < bar.date
    ensures InOrder(Managed(c, bar, a), bar.date)
  {
    var m := Managed(c, bar, a);
    forall i | 0 <= i < |m.trades|
      ensures m.trades[i].entryDate < m.trades[i].exitDate <= bar.date
      ensures m.trades[i].holdingDays == m.trades[i].exitDate - m.trades[i].entryDate
      ensures i > 0 ==> m.trades[i - 1].exitDate <= m.trades[i].entryDate
    {
      if i < |a.trades| {
        assert m.trades[i] == a.trades[i];
      }
    }
  }

  lemma {:induction false} InOrderAt(c: Config, bars: seq<Bar>, k: nat)
    requires Chronological(bars) && 0 < k <= |bars|
    ensures InOrder(AccountAt(c, bars, k), bars[k - 1].date)
  {
    if k == 1 {
      assert AccountAt(c, bars, 0) == Start(c);
    } else {
      InOrderAt(c, bars, k - 1);
      assert bars[k - 2].date < bars[k - 1].date;
      ManagedInOrder(c, bars[k - 1], AccountAt(c, bars, k - 1), bars[k - 2].date);
    }
  }

  /** Every trade of a whole backtest, the end-of-data one included: a rule's exit comes on a later day
      than its entry, and no trade starts before the one before it ended. */
  ghost predicate OneAtATime(trades: seq<Trade>) {
    forall i :: 0 <= i < |trades| ==>
      && trades[i].entryDate <= trades[i].exitDate
      && (trades[i].reason != EndOfData ==>
            trades[i].entryDate < trades[i].exitDate && trades[i].holdingDays == trades[i].exitDate - trades[i].entryDate)
      && (i > 0 ==> trades[i - 1].exitDate <= trades[i].entryDate)
  }

  lemma TradesNeverOverlap(c: Config, bars: seq<Bar>)
    requires Chronological(bars) && bars != []
    ensures OneAtATime(Outcome(c, bars).trades)
  {
    hide AccountAt;
    InOrderAt(c, bars, |bars|);
  }

  // ---------------------------------------------------------------- the high-water mark

  /** The circuit breaker skipped bar `j` altogether. */
  predicate Skipped(c: Config, bars: seq<Bar>, j: nat)
    requires j < |bars|
  {
    j > 0 && CircuitTripped(c, bars[j - 1].close, bars[j].close)
  }

  /** A bar is skipped exactly when its close is further from the previous positive close, up or down, than
      the circuit limit allows. */
  lemma SkippedExactlyWhen(c: Config, bars: seq<Bar>, j: nat)
    requires j < |bars|
    ensures Skipped(c, bars, j) <==>
      j > 0 && bars[j - 1].close > 0.0 &&
      var moved, allowed := bars[j].close - bars[j - 1].close, c.circuitLimitPct * bars[j - 1].close;
      moved > allowed || -moved > allowed
  {
    if j > 0 && bars[j - 1].close > 0.0 {
      var d := Abs(bars[j].close - bars[j - 1].close);
      RatioExceeds(d, bars[j - 1].close, c.circuitLimitPct);
    }
  }

  lemma RatioExceeds(d: real, base: real, limit: real)
    requires base > 0.0
    ensures d / base > limit <==> d > limit * base
  {
    var q := d / base;
    assert q * base == d;
    if q > limit { assert (q - limit) * base > 0.0; }
    if q <= limit { Product(limit - q, base); }
  }

  /** `mark` is the highest of the entry price and the highs of the bars in `(e, k)` that were not
      skipped. */
  ghost predicate HighestSince(c: Config, bars: seq<Bar>, e: nat, k: nat, entryPrice: real, mark: real)
    requires e < k <= |bars|
  {
    && mark >= entryPrice
    && (forall j :: e < j < k && !Skipped(c, bars, j) ==> bars[j].high <= mark)
    && (mark == entryPrice || exists j :: e < j < k && !Skipped(c, bars, j) && bars[j].high == mark)
  }

  /**
   While a position is held, the high-water mark the trailing stop hangs from is the highest of its
   entry price and every later high the loop looked at: a bar the circuit breaker skips raises nothing.
  */
  lemma {:induction false} HighWaterIsHighest(c: Config, bars: seq<Bar>, k: nat) returns (e: nat)
    requires k <= |bars| && AccountAt(c, bars, k).position > 0
    ensures e < k && AccountAt(c, bars, k).entryDate == bars[e].date
    ensures AccountAt(c, bars, k).entryPrice == EntryPrice(c, bars[e].close)
    ensures HighestSince(c, bars, e, k, AccountAt(c, bars, k).entryPrice, AccountAt(c, bars, k).highWater)
  {
    hide Value, Slipped, ExitCommission, Gain, EntryCost, EntryPrice, StopPrice, TargetPrice,
         TrailPrice, Quantity, CircuitTripped;
    NextAccount(c, bars, k - 1);
    var a, r, bar := AccountAt(c, bars, k - 1), AccountAt(c, bars, k), bars[k - 1];
    if Skipped(c, bars, k - 1) {
      e := HighWaterIsHighest(c, bars, k - 1);
    } else if a.position > 0 && Managed(c, bar, a).position > 0 {
      e := HighWaterIsHighest(c, bars, k - 1);
      if r.highWater != a.highWater {
        assert bars[k - 1].high == r.highWater;
      }
    } else {
      e := k - 1;
    }
  }

  // ---------------------------------------------------------------- which exits can happen

  /**
   The documented trailing stop and SELL-signal exits hang behind `elif target_pct > 0`: with a
   target configured, as it is by default, no run ever takes either.
  */
  lemma {:induction false} TargetDisablesLaterExits(c: Config, bars: seq<Bar>, k: nat)
    requires c.targetPct > 0.0 && k <= |bars|
    ensures forall t :: t in AccountAt(c, bars, k).trades ==> t.reason == StopLoss || t.reason == Target
  {
    if k > 0 {
      TargetDisablesLaterExits(c, bars, k - 1);
    }
  }

  /** A SELL signal closes a held position exactly when neither a stop, nor a configured target, nor
      an armed trailing stop stands before it. */
  lemma SellSignalClosesExactlyWhen(c: Config, bar: Bar, a: Account)
    requires a.position > 0 && bar.signal == -1
    ensures (exists t :: t in Managed(c, bar, a).trades[|a.trades|..] && t.reason == SellSignal) <==>
            && bar.low > StopPrice(c, a.entryPrice)
            && c.targetPct <= 0.0
            && (c.trailingStopPct <= 0.0 || MaxReal(a.highWater, bar.high) <= a.entryPrice)
  {
    var m := Managed(c, bar, a);
    if |m.trades| > |a.trades| {
      assert m.trades[|a.trades|..] == [m.trades[|a.trades|]];
    }
  }

  /** A trailing stop that is reached closes the position exactly when the stop was not, no target is
      configured, and the mark has risen above the entry price: not merely when it is configured. */
  lemma TrailingStopClosesExactlyWhen(c: Config, bar: Bar, a: Account)
    requires a.position > 0 && bar.low <= TrailPrice(c, MaxReal(a.highWater, bar.high))
    ensures (exists t :: t in Managed(c, bar, a).trades[|a.trades|..] && t.reason == TrailingStop) <==>
            && bar.low > StopPrice(c, a.entryPrice)
            && c.targetPct <= 0.0
            && c.trailingStopPct > 0.0 && MaxReal(a.highWater, bar.high) > a.entryPrice
  {
    var m := Managed(c, bar, a);
    if |m.trades| > |a.trades| {
      assert m.trades[|a.trades|..] == [m.trades[|a.trades|]];
    }
  }

  // ---------------------------------------------------------------- every trade, in the bars' own numbers

  /** The size the risk rule wants: the most shares whose stop-outs the budget covers, at least one. */
  ghost predicate Covers(budget: real, distance: real, quantity: int) {
    && quantity >= 1
    && (distance <= 0.0 ==> quantity == 1)
    && (distance > 0.0 ==>
          && (quantity > 1 ==> quantity as real * distance <= budget)
          && (quantity + 1) as real * distance > budget)
  }

  ghost predicate RightSize(c: Config, cash: real, close: real, quantity: int) {
    Covers(Times(cash, c.riskPerTradePct), Times(close, c.stopLossPct), quantity)
  }

  /** What `quantity` shares at this close cost, with slippage and commission. */
  ghost function CostAt(c: Config, close: real, quantity: int): real {
    close * quantity as real * (1.0 + c.slippagePct + c.commissionPct)
  }

  /** A flat account with this cash buys on this bar. */
  ghost predicate Buys(c: Config, bar: Bar, cash: real, quantity: int) {
    bar.signal == 1 && RightSize(c, cash, bar.close, quantity) && CostAt(c, bar.close, quantity) <= cash
  }

  ghost predicate CanBuy(c: Config, bar: Bar, cash: real) { exists quantity :: Buys(c, bar, cash, quantity) }

  ghost predicate StopHit(c: Config, bar: Bar, entry: real) {
    bar.low <= entry * (1.0 - c.stopLossPct)
  }

  ghost predicate TargetHit(c: Config, bar: Bar, entry: real) {
    !StopHit(c, bar, entry) && c.targetPct > 0.0 && bar.high >= entry * (1.0 + c.targetPct)
  }

  /** `mark` is the highest price since the entry, this bar included. */
  ghost predicate TrailHit(c: Config, bar: Bar, entry: real, mark: real) {
    && !StopHit(c, bar, entry) && c.targetPct <= 0.0
    && c.trailingStopPct > 0.0 && mark > entry && bar.low <= mark * (1.0 - c.trailingStopPct)
  }

  ghost predicate SignalHit(c: Config, bar: Bar, entry: real, mark: real) {
    && !StopHit(c, bar, entry) && c.targetPct <= 0.0
    && (c.trailingStopPct <= 0.0 || mark <= entry) && bar.signal == -1
  }

  /** A bar gives this reason to leave. */
  ghost predicate Leaves(c: Config, bar: Bar, entry: real, mark: real, reason: ExitReason) {
    match reason
    case StopLoss => StopHit(c, bar, entry)
    case Target => TargetHit(c, bar, entry)
    case TrailingStop => TrailHit(c, bar, entry, mark)
    case SellSignal => SignalHit(c, bar, entry, mark)
    case EndOfData => false
  }

  /** The price a position is sold at for this reason, before slippage. */
  ghost function LeftAt(c: Config, bar: Bar, entry: real, mark: real, reason: ExitReason): real {
    match reason
    case StopLoss => entry * (1.0 - c.stopLossPct)
    case Target => entry * (1.0 + c.targetPct)
    case TrailingStop => mark * (1.0 - c.trailingStopPct)
    case _ => bar.close
  }

  ghost predicate Holds(c: Config, bar: Bar, entry: real, mark: real) {
    forall reason :: !Leaves(c, bar, entry, mark, reason)
  }

  lemma RuleMeans(c: Config, bar: Bar, entry: real, mark: real)
    ensures var rule := ExitRule(c, bar, entry, mark);
      && (rule.None? <==> Holds(c, bar, entry, mark))
      && (rule.Some? ==> Leaves(c, bar, entry, mark, rule.value.1)
                         && rule.value.0 == LeftAt(c, bar, entry, mark, rule.value.1))
      && forall reason :: Leaves(c, bar, entry, mark, reason) ==> rule.Some? && rule.value.1 == reason
  {
    var rule := ExitRule(c, bar, entry, mark);
    assert rule.Some? ==> Leaves(c, bar, entry, mark, rule.value.1);
  }

  /** The price a position is entered at on this close. */
  ghost function Paid(c: Config, bar: Bar): real { bar.close * (1.0 + c.slippagePct) }

  /** The highest of the entry price on bar `e` and the highs of the bars after it, up to `k`, that the
      circuit breaker let through. */
  ghost function Highest(c: Config, bars: seq<Bar>, e: nat, k: nat): real
    requires e < k <= |bars|
  {
    if k == e + 1 then Paid(c, bars[e])
    else
      var before, high := Highest(c, bars, e, k - 1), bars[k - 1].high;
      if Skipped(c, bars, k - 1) || high <= before then before else high
  }

  /** A position bought on bar `e` with this cash and still held after bar `k - 1`: no bar since that the
      circuit breaker let through gave a reason to leave. */
  ghost predicate OpenFrom(c: Config, bars: seq<Bar>, e: nat, k: nat, cash: real, quantity: int)
    requires e < k <= |bars|
  {
    && !Skipped(c, bars, e) && Buys(c, bars[e], cash, quantity)
    && forall y :: e < y < k && !Skipped(c, bars, y) ==>
         Holds(c, bars[y], Paid(c, bars[e]), Highest(c, bars, e, y + 1))
  }

  /** The trade that a rule closed on bar `x`, at exactly its price. */
  ghost predicate RuleTrade(c: Config, bars: seq<Bar>, e: nat, x: nat, cash: real, t: Trade)
    requires e < x < |bars|
  {
    var entry := Paid(c, bars[e]);
    && OpenFrom(c, bars, e, x, cash, t.quantity) && !Skipped(c, bars, x)
    && t.entryDate == bars[e].date && t.exitDate == bars[x].date && t.entryPrice == entry
    && t.holdingDays == bars[x].date - bars[e].date
    && t.pnl == (t.exitPrice - entry) * t.quantity as real - t.exitPrice * t.quantity as real * c.commissionPct
    && Leaves(c, bars[x], entry, Highest(c, bars, e, x + 1), t.reason)
    && t.exitPrice == LeftAt(c, bars[x], entry, Highest(c, bars, e, x + 1), t.reason) * (1.0 - c.slippagePct)
  }

  /** The trade that the end of the data closed, free of charges. */
  ghost predicate LastTrade(c: Config, bars: seq<Bar>, e: nat, cash: real, t: Trade)
    requires e < |bars|
  {
    var last := bars[|bars| - 1];
    && OpenFrom(c, bars, e, |bars|, cash, t.quantity) && t.reason == EndOfData
    && t.entryDate == bars[e].date && t.exitDate == last.date && t.entryPrice == Paid(c, bars[e])
    && t.exitPrice == last.close && t.pnl == (last.close - Paid(c, bars[e])) * t.quantity as real
    && t.holdingDays == 0
  }

  // ---------------------------------------------------------------- what the account is, bar by bar

  ghost predicate HeldSince(c: Config, bars: seq<Bar>, e: nat, k: nat, a: Account)
    requires c.slippagePct >= 0.0 && e < k <= |bars|
  {
    var cash := Cash(c, a.trades);
    && a.position >= 1 && OpenFrom(c, bars, e, k, cash, a.position)
    && a.entryPrice == Paid(c, bars[e]) && a.entryDate == bars[e].date
    && a.highWater == Highest(c, bars, e, k)
    && a.capital == cash - CostAt(c, bars[e].close, a.position)
  }

  ghost predicate Flat(c: Config, a: Account)
    requires c.slippagePct >= 0.0
  {
    a.position == 0 && a.capital == Cash(c, a.trades)
  }

  lemma SizeMeans(c: Config, cash: real, close: real)
    ensures RightSize(c, cash, close, Quantity(c, cash, close))
    ensures EntryCost(c, close, Quantity(c, cash, close)) == CostAt(c, close, Quantity(c, cash, close))
  {
    hide SharesWithin, Times, Covers;
    CoversIs(Times(cash, c.riskPerTradePct), Times(close, c.stopLossPct), Quantity(c, cash, close));
  }

  lemma CoversIs(budget: real, distance: real, quantity: int)
    requires if distance > 0.0 then quantity == SharesWithin(budget, distance) else quantity == 1
    ensures Covers(budget, distance, quantity)
  {
    if distance > 0.0 {
      SharesMean(budget, distance);
    }
  }

  lemma SharesMean(budget: real, distance: real)
    requires distance > 0.0
    ensures Covers(budget, distance, SharesWithin(budget, distance))
  {
    SizeIsLargestWithinRisk(budget, distance);
    hide SharesWithin;
  }

  /** There is only one right size. */
  lemma OneRightSize(c: Config, cash: real, close: real, q: int, q': int)
    requires RightSize(c, cash, close, q) && RightSize(c, cash, close, q')
    ensures q == q'
  {
    var distance := Times(close, c.stopLossPct);
    if distance > 0.0 && q != q' {
      var low, high := if q < q' then q else q', if q < q' then q' else q;
      Product((high - (low + 1)) as real, distance);
    }
  }

  /** A flat account enters exactly when the bar says BUY and the right size is affordable. */
  lemma EntersExactlyWhen(c: Config, bars: seq<Bar>, k: nat, a: Account)
    requires c.slippagePct >= 0.0 && k < |bars| && Flat(c, a) && !Skipped(c, bars, k)
    ensures var n := Entered(c, bars[k], a);
      && n.trades == a.trades
      && (n.position > 0 <==> CanBuy(c, bars[k], a.capital))
      && (if n.position > 0 then HeldSince(c, bars, k, k + 1, n) else n == a)
  {
    var bar := bars[k];
    var size := Quantity(c, a.capital, bar.close);
    SizeMeans(c, a.capital, bar.close);
    hide Quantity, RightSize, EntryCost, CostAt, Cash, Holds, Skipped, Times;
    if q :| Buys(c, bar, a.capital, q) {
      OneRightSize(c, a.capital, bar.close, q, size);
    }
    if Entered(c, bar, a) != a {
      assert Buys(c, bar, a.capital, size);
    }
  }

  /** A bar the circuit breaker skips leaves a held position as it was. */
  lemma SkipKeepsHeld(c: Config, bars: seq<Bar>, e: nat, k: nat, a: Account)
    requires c.slippagePct >= 0.0 && e < k < |bars| && HeldSince(c, bars, e, k, a) && Skipped(c, bars, k)
    ensures HeldSince(c, bars, e, k + 1, a)
  {
    hide Buys, Holds, Cash, CostAt, Skipped;
  }

  /** A bar that is looked at keeps the position exactly when it gives no reason to leave; else it is
      closed as one trade at the price of that reason. */
  lemma LeavesExactlyWhen(c: Config, bars: seq<Bar>, e: nat, k: nat, a: Account)
    requires c.slippagePct >= 0.0 && e < k < |bars| && HeldSince(c, bars, e, k, a) && !Skipped(c, bars, k)
    ensures var m, mark := Managed(c, bars[k], a), Highest(c, bars, e, k + 1);
      if Holds(c, bars[k], Paid(c, bars[e]), mark) then
        m.trades == a.trades && HeldSince(c, bars, e, k + 1, m)
      else
        && m.position == 0 && |m.trades| == |a.trades| + 1 && m.trades[..|a.trades|] == a.trades
        && RuleTrade(c, bars, e, k, Cash(c, a.trades), m.trades[|a.trades|])
  {
    var mark, entry := Highest(c, bars, e, k + 1), Paid(c, bars[e]);
    assert MaxReal(a.highWater, bars[k].high) == mark;
    RuleMeans(c, bars[k], entry, mark);
    hide ExitRule, Leaves, LeftAt, Holds, Cash, CostAt, Buys, Skipped, Paid, Highest;
    var rule := ExitRule(c, bars[k], entry, mark);
    if rule.Some? {
      ExitIsTrade(c, bars, e, k, a.(highWater := mark), rule.value.0, rule.value.1);
    }
  }

  lemma ExitIsTrade(c: Config, bars: seq<Bar>, e: nat, k: nat, h: Account, price: real, reason: ExitReason)
    requires c.slippagePct >= 0.0 && e < k < |bars| && !Skipped(c, bars, k)
    requires OpenFrom(c, bars, e, k, Cash(c, h.trades), h.position)
    requires h.entryPrice == Paid(c, bars[e]) && h.entryDate == bars[e].date
    requires var mark := Highest(c, bars, e, k + 1);
      Leaves(c, bars[k], Paid(c, bars[e]), mark, reason) && price == LeftAt(c, bars[k], Paid(c, bars[e]), mark, reason)
    ensures var m := Exited(c, h, price, bars[k].date, reason);
      && m.position == 0 && |m.trades| == |h.trades| + 1 && m.trades[..|h.trades|] == h.trades
      && RuleTrade(c, bars, e, k, Cash(c, h.trades), m.trades[|h.trades|])
  {
    hide OpenFrom, Leaves, LeftAt, Cash, Skipped, Paid, Highest;
  }

  /** The account after `k` bars is flat or holds a position of this history. */
  ghost predicate Tracked(c: Config, bars: seq<Bar>, k: nat, a: Account)
    requires c.slippagePct >= 0.0 && k <= |bars|
  {
    Flat(c, a) || exists e: nat :: e < k && HeldSince(c, bars, e, k, a)
  }

  /** Every trade so far is a rule's trade, entered with the cash there was. */
  ghost predicate AllByRules(c: Config, bars: seq<Bar>, k: nat, trades: seq<Trade>)
    requires c.slippagePct >= 0.0 && k <= |bars|
  {
    forall i :: 0 <= i < |trades| ==> ByRule(c, bars, k, CashBefore(c, trades, i), trades[i])
  }

  ghost predicate ByRule(c: Config, bars: seq<Bar>, k: nat, cash: real, t: Trade)
    requires k <= |bars|
  {
    exists e: nat, x: nat :: e < x < k && RuleTrade(c, bars, e, x, cash, t)
  }

  lemma OneMoreByRule(c: Config, bars: seq<Bar>, k: nat, before: seq<Trade>, t: Trade)
    requires c.slippagePct >= 0.0 && k < |bars| && AllByRules(c, bars, k, before)
    requires ByRule(c, bars, k + 1, Cash(c, before), t)
    ensures AllByRules(c, bars, k + 1, before + [t])
  {
    hide ByRule, Cash;
    var after := before + [t];
    forall i | 0 <= i < |after| ensures ByRule(c, bars, k + 1, CashBefore(c, after, i), after[i]) {
      if i < |before| {
        assert after[..i] == before[..i];
        assert ByRule(c, bars, k, CashBefore(c, before, i), before[i]);
        StillByRule(c, bars, k, CashBefore(c, before, i), before[i]);
      } else {
        assert after[..i] == before;
      }
    }
  }

  lemma StillByRule(c: Config, bars: seq<Bar>, k: nat, cash: real, t: Trade)
    requires k < |bars| && ByRule(c, bars, k, cash, t)
    ensures ByRule(c, bars, k + 1, cash, t)
  {
    hide RuleTrade;
  }

  /** What the looked-at bar `k` does to a position held since `e`: it is kept, or closed as one trade. */
  ghost predicate HeldMeans(c: Config, bars: seq<Bar>, e: nat, k: nat, a: Account, r: Account)
    requires c.slippagePct >= 0.0 && e < k < |bars|
  {
    if Holds(c, bars[k], Paid(c, bars[e]), Highest(c, bars, e, k + 1))
    then r.trades == a.trades && HeldSince(c, bars, e, k + 1, r)
    else |r.trades| == |a.trades| + 1 && r.trades[..|a.trades|] == a.trades
         && RuleTrade(c, bars, e, k, Cash(c, a.trades), r.trades[|a.trades|])
  }

  /** What a bar that finds or leaves the account flat does next: it buys exactly when the bar says so and
      the right size is affordable. */
  ghost predicate FlatMeans(c: Config, bars: seq<Bar>, k: nat, r: Account)
    requires c.slippagePct >= 0.0 && k < |bars|
  {
    && (r.position > 0 <==> CanBuy(c, bars[k], Cash(c, r.trades)))
    && (if r.position > 0 then HeldSince(c, bars, k, k + 1, r) else Flat(c, r))
  }

  /**
   What bar `k` does to the account, exactly: a bar the circuit breaker skips changes nothing but the
   equity; any other closes a held position for a reason or keeps it, and a flat account then buys or
   does not.
  */
  ghost predicate BarMeans(c: Config, bars: seq<Bar>, k: nat, a: Account, r: Account)
    requires c.slippagePct >= 0.0 && k < |bars|
  {
    if Skipped(c, bars, k) then r == a.(equity := r.equity)
    else
      && (forall e: nat :: e < k && HeldSince(c, bars, e, k, a) ==> HeldMeans(c, bars, e, k, a, r))
      && (Flat(c, a) ==> r.trades == a.trades)
      && (Flat(c, a) || r.trades != a.trades ==> FlatMeans(c, bars, k, r))
  }

  lemma FlatWhenConserved(c: Config, a: Account)
    requires c.slippagePct >= 0.0 && Conserved(c, a)
    ensures a.position == 0 ==> Flat(c, a)
  {
    ZeroFee(c);
  }

  /** The looked-at bar, before its equity is noted. */
  lemma LookHeld(c: Config, bars: seq<Bar>, e: nat, k: nat, a: Account)
    requires c.slippagePct >= 0.0 && e < k < |bars| && HeldSince(c, bars, e, k, a) && !Skipped(c, bars, k)
    requires Conserved(c, a)
    ensures var r := Entered(c, bars[k], Managed(c, bars[k], a));
      && HeldMeans(c, bars, e, k, a, r)
      && (r.trades != a.trades ==> FlatMeans(c, bars, k, r))
  {
    LeavesExactlyWhen(c, bars, e, k, a);
    ManagedConserves(c, bars[k], a);
    var m := Managed(c, bars[k], a);
    FlatWhenConserved(c, m);
    hide Managed, Conserved, OpenFrom, RuleTrade, Buys, Holds, Highest, Paid, Cash, CostAt, Skipped;
    if m.position == 0 {
      EntersExactlyWhen(c, bars, k, m);
    }
  }

  lemma LookFlat(c: Config, bars: seq<Bar>, k: nat, a: Account)
    requires c.slippagePct >= 0.0 && k < |bars| && Flat(c, a) && !Skipped(c, bars, k)
    ensures var r := Entered(c, bars[k], Managed(c, bars[k], a));
      r.trades == a.trades && FlatMeans(c, bars, k, r)
  {
    hide Cash, Buys, HeldSince, Skipped;
    EntersExactlyWhen(c, bars, k, a);
  }

  lemma MarkingKeeps(c: Config, bars: seq<Bar>, e: nat, k: nat, a: Account, r: Account, close: real)
    requires c.slippagePct >= 0.0 && k < |bars|
    ensures FlatMeans(c, bars, k, r) ==> FlatMeans(c, bars, k, Marked(r, close))
    ensures e < k && HeldMeans(c, bars, e, k, a, r) ==> HeldMeans(c, bars, e, k, a, Marked(r, close))
    ensures e < k + 1 && HeldSince(c, bars, e, k + 1, r) ==> HeldSince(c, bars, e, k + 1, Marked(r, close))
  {
    hide Cash, Buys, Holds, OpenFrom, RuleTrade, Highest, Paid, CostAt;
  }

  lemma LookStep(c: Config, bars: seq<Bar>, k: nat, a: Account)
    requires c.slippagePct >= 0.0 && k < |bars| && Tracked(c, bars, k, a) && Conserved(c, a) && !Skipped(c, bars, k)
    ensures var r := Marked(Entered(c, bars[k], Managed(c, bars[k], a)), bars[k].close);
      BarMeans(c, bars, k, a, r) && Tracked(c, bars, k + 1, r)
  {
    var n := Entered(c, bars[k], Managed(c, bars[k], a));
    var r := Marked(n, bars[k].close);
    assert r.trades == n.trades;
    hide Managed, Entered, Conserved, HeldSince, HeldMeans, FlatMeans, Skipped;
    forall e: nat | e < k && HeldSince(c, bars, e, k, a)
      ensures HeldMeans(c, bars, e, k, a, r) && (r.trades != a.trades ==> FlatMeans(c, bars, k, r))
    {
      LookHeld(c, bars, e, k, a);
      MarkingKeeps(c, bars, e, k, a, n, bars[k].close);
    }
    if Flat(c, a) {
      LookFlat(c, bars, k, a);
      MarkingKeeps(c, bars, 0, k, a, n, bars[k].close);
    }
    AfterLookTracked(c, bars, k, a, r);
  }

  lemma AfterLookTracked(c: Config, bars: seq<Bar>, k: nat, a: Account, r: Account)
    requires c.slippagePct >= 0.0 && k < |bars| && Tracked(c, bars, k, a)
    requires !Skipped(c, bars, k) && BarMeans(c, bars, k, a, r)
    ensures Tracked(c, bars, k + 1, r)
  {
    hide HeldSince, RuleTrade, Holds, Cash, Skipped, Highest, Paid, Buys;
    if !Flat(c, a) {
      var e: nat :| e < k && HeldSince(c, bars, e, k, a);
      assert HeldMeans(c, bars, e, k, a, r);
    }
  }

  lemma SkipStep(c: Config, bars: seq<Bar>, k: nat, a: Account)
    requires c.slippagePct >= 0.0 && k < |bars| && Tracked(c, bars, k, a) && Skipped(c, bars, k)
    ensures var r := Marked(a, bars[k].close);
      BarMeans(c, bars, k, a, r) && Tracked(c, bars, k + 1, r)
  {
    hide HeldSince, Skipped, Cash;
    if !Flat(c, a) {
      var e: nat :| e < k && HeldSince(c, bars, e, k, a);
      SkipKeepsHeld(c, bars, e, k, a);
      MarkingKeeps(c, bars, e, k, a, a, bars[k].close);
    }
  }

  /** Every bar of every run, in the bars' and the configuration's own numbers. */
  lemma {:induction false} EveryBarMeans(c: Config, bars: seq<Bar>, k: nat)
    requires c.slippagePct >= 0.0 && k < |bars|
    ensures var a, r := AccountAt(c, bars, k), AccountAt(c, bars, k + 1);
      && Tracked(c, bars, k, a) && Tracked(c, bars, k + 1, r) && BarMeans(c, bars, k, a, r)
      && r.equity == a.equity + [r.capital + Value(r.position, bars[k].close)]
  {
    var a := AccountAt(c, bars, k);
    hide BarMeans, Tracked, Conserved, Managed, Entered, CircuitTripped, Skipped;
    if k == 0 {
      StartIsTracked(c, bars);
    } else {
      EveryBarMeans(c, bars, k - 1);
    }
    ConservedAt(c, bars, k);
    BarMarks(c, bars, k);
    if Skipped(c, bars, k) {
      SkipStep(c, bars, k, a);
    } else {
      LookStep(c, bars, k, a);
    }
  }

  lemma StartIsTracked(c: Config, bars: seq<Bar>)
    requires c.slippagePct >= 0.0
    ensures Tracked(c, bars, 0, AccountAt(c, bars, 0))
  {}

  lemma BarMarks(c: Config, bars: seq<Bar>, k: nat)
    requires k < |bars|
    ensures var a, r := AccountAt(c, bars, k), AccountAt(c, bars, k + 1);
      && (if Skipped(c, bars, k) then r == Marked(a, bars[k].close)
          else r == Marked(Entered(c, bars[k], Managed(c, bars[k], a)), bars[k].close))
      && r.equity == a.equity + [r.capital + Value(r.position, bars[k].close)]
  {
    NextAccount(c, bars, k);
    KeepsEquity(c, bars[k], AccountAt(c, bars, k));
    hide Managed, Entered, CircuitTripped, AccountAt, Value;
  }

  lemma {:induction false} TradesByRules(c: Config, bars: seq<Bar>, k: nat)
    requires c.slippagePct >= 0.0 && k <= |bars|
    ensures AllByRules(c, bars, k, AccountAt(c, bars, k).trades)
  {
    hide AccountAt, AllByRules, HeldSince, Skipped, Cash, FlatMeans, BarMeans, Tracked;
    if k > 0 {
      TradesByRules(c, bars, k - 1);
      EveryBarMeans(c, bars, k - 1);
      BarKeepsByRules(c, bars, k - 1, AccountAt(c, bars, k - 1), AccountAt(c, bars, k));
    } else {
      StartIsEmpty(c, bars);
    }
  }

  lemma StartIsEmpty(c: Config, bars: seq<Bar>)
    requires c.slippagePct >= 0.0
    ensures AllByRules(c, bars, 0, AccountAt(c, bars, 0).trades)
  {}

  lemma BarKeepsByRules(c: Config, bars: seq<Bar>, k: nat, a: Account, r: Account)
    requires c.slippagePct >= 0.0 && k < |bars|
    requires Tracked(c, bars, k, a) && BarMeans(c, bars, k, a, r) && AllByRules(c, bars, k, a.trades)
    ensures AllByRules(c, bars, k + 1, r.trades)
  {
    hide HeldSince, Skipped, Cash, FlatMeans, RuleTrade, Holds, Highest, Paid;
    if r.trades == a.trades {
      SameByRules(c, bars, k, a.trades);
    } else {
      var e: nat :| e < k && HeldSince(c, bars, e, k, a);
      assert HeldMeans(c, bars, e, k, a, r);
      var t := r.trades[|a.trades|];
      assert r.trades == a.trades + [t];
      assert RuleTrade(c, bars, e, k, Cash(c, a.trades), t);
      OneMoreByRule(c, bars, k, a.trades, t);
    }
  }

  lemma SameByRules(c: Config, bars: seq<Bar>, k: nat, trades: seq<Trade>)
    requires c.slippagePct >= 0.0 && k < |bars| && AllByRules(c, bars, k, trades)
    ensures AllByRules(c, bars, k + 1, trades)
  {
    hide ByRule, Cash;
    forall i | 0 <= i < |trades| ensures ByRule(c, bars, k + 1, CashBefore(c, trades, i), trades[i]) {
      StillByRule(c, bars, k, CashBefore(c, trades, i), trades[i]);
    }
  }

  /** What trade `i` was: a rule's trade, or the last one, closed because the data ended. */
  ghost predicate Explained(c: Config, bars: seq<Bar>, trades: seq<Trade>, i: nat)
    requires c.slippagePct >= 0.0 && bars != [] && i < |trades|
  {
    if trades[i].reason == EndOfData then
      i == |trades| - 1 && exists e: nat :: e < |bars| && LastTrade(c, bars, e, CashBefore(c, trades, i), trades[i])
    else ByRule(c, bars, |bars|, CashBefore(c, trades, i), trades[i])
  }

  /**
   Every trade a backtest reports: bought on a BUY bar with the right size for the cash there was, held
   over bars none of which gave a reason to leave, and sold on the first that did, for exactly that
   reason and price; or closed at the last price when the data ended first, as the last trade.
  */
  lemma EveryTradeIsExplained(c: Config, bars: seq<Bar>)
    requires c.slippagePct >= 0.0 && bars != []
    ensures var trades := Outcome(c, bars).trades;
      forall i :: 0 <= i < |trades| ==> Explained(c, bars, trades, i)
  {
    hide AccountAt, AllByRules, Tracked, BarMeans, Explained, ClosedOut;
    TradesByRules(c, bars, |bars|);
    EveryBarMeans(c, bars, |bars| - 1);
    ClosingExplains(c, bars, AccountAt(c, bars, |bars|));
  }

  lemma ClosingExplains(c: Config, bars: seq<Bar>, a: Account)
    requires c.slippagePct >= 0.0 && bars != []
    requires Tracked(c, bars, |bars|, a) && AllByRules(c, bars, |bars|, a.trades)
    ensures var trades := ClosedOut(a, bars[|bars| - 1]).trades;
      forall i :: 0 <= i < |trades| ==> Explained(c, bars, trades, i)
  {
    var trades := ClosedOut(a, bars[|bars| - 1]).trades;
    assert a.trades <= trades && |trades| == |a.trades| + (if a.position > 0 then 1 else 0);
    hide ClosedOut, Explained, AllByRules, Tracked, Cash;
    forall i | 0 <= i < |trades| ensures Explained(c, bars, trades, i) {
      if i < |a.trades| {
        RuleTradeIsExplained(c, bars, a.trades, trades, i);
      } else {
        LastTradeIsExplained(c, bars, a);
      }
    }
  }

  lemma RuleTradeIsExplained(c: Config, bars: seq<Bar>, before: seq<Trade>, after: seq<Trade>, i: nat)
    requires c.slippagePct >= 0.0 && bars != [] && AllByRules(c, bars, |bars|, before)
    requires before <= after && i < |before|
    ensures Explained(c, bars, after, i)
  {
    hide ByRule, Cash, LastTrade;
    assert after[..i] == before[..i] && after[i] == before[i];
    AtIndex(c, bars, before, i);
    RulesNameAReason(c, bars, CashBefore(c, before, i), before[i]);
  }

  lemma LastTradeIsExplained(c: Config, bars: seq<Bar>, a: Account)
    requires c.slippagePct >= 0.0 && bars != [] && Tracked(c, bars, |bars|, a) && a.position > 0
    ensures Explained(c, bars, ClosedOut(a, bars[|bars| - 1]).trades, |a.trades|)
  {
    LastIsExplained(c, bars, a);
    var trades := ClosedOut(a, bars[|bars| - 1]).trades;
    assert |trades| == |a.trades| + 1 && trades[..|a.trades|] == a.trades;
    hide LastTrade, Cash, ByRule, Tracked, ClosedOut;
    var e: nat :| e < |bars| && LastTrade(c, bars, e, Cash(c, a.trades), trades[|a.trades|]);
    assert LastTrade(c, bars, e, CashBefore(c, trades, |a.trades|), trades[|a.trades|]);
  }

  lemma AtIndex(c: Config, bars: seq<Bar>, trades: seq<Trade>, i: nat)
    requires c.slippagePct >= 0.0 && AllByRules(c, bars, |bars|, trades) && i < |trades|
    ensures ByRule(c, bars, |bars|, CashBefore(c, trades, i), trades[i])
  {}

  lemma LastIsExplained(c: Config, bars: seq<Bar>, a: Account)
    requires c.slippagePct >= 0.0 && bars != [] && Tracked(c, bars, |bars|, a) && a.position > 0
    ensures var t := ClosedOut(a, bars[|bars| - 1]).trades[|a.trades|];
      t.reason == EndOfData && exists e: nat :: e < |bars| && LastTrade(c, bars, e, Cash(c, a.trades), t)
  {
    hide Cash, OpenFrom, Paid, Highest, CostAt;
    var e: nat :| e < |bars| && HeldSince(c, bars, e, |bars|, a);
    assert LastTrade(c, bars, e, Cash(c, a.trades), ClosedOut(a, bars[|bars| - 1]).trades[|a.trades|]);
  }

  lemma RulesNameAReason(c: Config, bars: seq<Bar>, cash: real, t: Trade)
    requires ByRule(c, bars, |bars|, cash, t)
    ensures t.reason != EndOfData
  {
    hide OpenFrom, Highest, Paid, Skipped;
  }
}
