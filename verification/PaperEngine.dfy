/**
 The paper-trading ledger: skopaq/broker/paper_engine.py. Money and quantities are exact (`real`);
 the two explicit roundings (fill price and averaged cost, to paise) round half to even.
*/
module PaperEngine {
  import opened Rounding
  import opened Wrappers

  datatype Side = Buy | Sell
  datatype OrderType = Market | Limit | StopLimit | StopMarket

  datatype Quote = Quote(ltp: real, bid: real, ask: real)

  datatype OrderRequest = OrderRequest(symbol: string, side: Side, quantity: real, orderType: OrderType,
                                       price: Option<real>, triggerPrice: Option<real>)

  datatype Position = Position(quantity: real, averagePrice: real, lastPrice: real,
                               buyQuantity: real, sellQuantity: real)

  datatype Execution =
    | Filled(fillPrice: real, slippage: real, brokerage: real)
    | NoQuote
    | ConditionsNotMet
    | InsufficientFunds(need: real)

  /** What the ledger holds: the engine's `_cash`, `_positions` and `_day_pnl`. */
  datatype Books = Books(cash: real, positions: map<string, Position>, dayPnl: real)

  /** One executed order. */
  datatype Fill = Fill(symbol: string, side: Side, quantity: real, price: real, fee: real)

  function Times(x: real, y: real): real { x * y }

  // ---------------------------------------------------------------- prices

  function DetermineFillPrice(order: OrderRequest, quote: Quote): Option<real> {
    match order.orderType
    case Market =>
      if order.side == Buy then Some(if quote.ask > 0.0 then quote.ask else quote.ltp)
      else Some(if quote.bid > 0.0 then quote.bid else quote.ltp)
    case Limit =>
      if order.price.None? then None
      else if order.side == Buy && quote.ltp <= order.price.value then Some(quote.ltp)
      else if order.side == Sell && quote.ltp >= order.price.value then Some(quote.ltp)
      else None
    case _ =>
      if order.triggerPrice.None? then None
      else if (order.side == Buy && quote.ltp >= order.triggerPrice.value) ||
              (order.side == Sell && quote.ltp <= order.triggerPrice.value) then
        Some(if order.price.Some? && order.price.value != 0.0 then order.price.value else quote.ltp)
      else None
  }

  /** Base price, slippage against the order, jitter, rounding, floor of one paisa. */
  function FillPrice(base: real, side: Side, slippagePct: real, jitter: real): (p: real)
    ensures p >= 0.01
  {
    var p := RoundPaise(Moved(base, side, slippagePct, jitter));
    if p > 0.01 then p else 0.01
  }

  function Moved(base: real, side: Side, slippagePct: real, jitter: real): real {
    var slip := Times(Times(base, slippagePct), if side == Buy then 1.0 else -1.0);
    base + slip + Times(slip, jitter)
  }

  /** The slippage goes against the order, and the jitter makes it a fraction more or less. */
  lemma MovedIs(base: real, side: Side, slippagePct: real, jitter: real)
    ensures var slip := Times(Times(base, slippagePct), 1.0 + jitter);
      Moved(base, side, slippagePct, jitter) == if side == Buy then base + slip else base - slip
    ensures slippagePct == 0.0 ==> Moved(base, side, slippagePct, jitter) == base
  {
    Spread(Times(base, slippagePct), jitter);
    NoneOf(base);
    NoneOf(jitter);
    hide Times;
  }

  lemma Spread(slip: real, jitter: real)
    ensures Times(slip, 1.0) == slip && Times(slip, -1.0) == -slip
    ensures slip + Times(slip, jitter) == Times(slip, 1.0 + jitter)
    ensures -slip + Times(-slip, jitter) == -Times(slip, 1.0 + jitter)
  {}

  lemma NoneOf(x: real)
    ensures Times(x, 0.0) == 0.0 && Times(0.0, x) == 0.0
  {}

  /** Slippage never helps: up to rounding (and the one-paisa floor) a BUY pays at least the base price
      and a SELL gets at most it, whatever jitter of up to a fifth is drawn. */
  lemma SlippageIsAgainstTheOrder(base: real, side: Side, slippagePct: real, jitter: real)
    requires base >= 0.0 && slippagePct >= 0.0 && -0.2 <= jitter <= 0.2
    ensures side == Buy ==> FillPrice(base, side, slippagePct, jitter) >= base - 0.005
    ensures side == Sell ==>
      var p := FillPrice(base, side, slippagePct, jitter); p <= base + 0.005 || p == 0.01
  {
    MovedIs(base, side, slippagePct, jitter);
    NotNegative(base, slippagePct);
    NotNegative(Times(base, slippagePct), 1.0 + jitter);
    hide Moved, RoundPaise, Times;
  }

  lemma NotNegative(x: real, y: real)
    requires x >= 0.0 && y >= 0.0
    ensures Times(x, y) >= 0.0
  {}

  /** A LIMIT order is only ever based on a price at least as good as its limit. */
  lemma LimitIsRespected(order: OrderRequest, quote: Quote)
    requires order.orderType == Limit && DetermineFillPrice(order, quote).Some?
    ensures order.side == Buy ==> DetermineFillPrice(order, quote).value <= order.price.value
    ensures order.side == Sell ==> DetermineFillPrice(order, quote).value >= order.price.value
  {}

  /** The market has come to where this order fills: always for a MARKET order, at its limit or better
      for a LIMIT order, at its trigger or beyond for a stop order. */
  ghost predicate Reached(order: OrderRequest, quote: Quote) {
    match order.orderType
    case Market => true
    case Limit =>
      order.price.Some? &&
      ((order.side == Buy && quote.ltp <= order.price.value) || (order.side == Sell && order.price.value <= quote.ltp))
    case _ =>
      order.triggerPrice.Some? &&
      ((order.side == Buy && order.triggerPrice.value <= quote.ltp)
       || (order.side == Sell && quote.ltp <= order.triggerPrice.value))
  }

  /** Where an order that fills is priced before slippage: across the spread for a MARKET order, at the
      last price for a LIMIT order, at its own price, if it has one, for a stop order. */
  ghost predicate BasedOn(order: OrderRequest, quote: Quote, base: real) {
    && (order.orderType == Market && order.side == Buy ==>
          (quote.ask > 0.0 ==> base == quote.ask) && (quote.ask <= 0.0 ==> base == quote.ltp))
    && (order.orderType == Market && order.side == Sell ==>
          (quote.bid > 0.0 ==> base == quote.bid) && (quote.bid <= 0.0 ==> base == quote.ltp))
    && (order.orderType == Limit ==> base == quote.ltp)
    && (order.orderType == StopLimit || order.orderType == StopMarket ==>
          (if order.price.Some? && order.price.value != 0.0 then base == order.price.value else base == quote.ltp))
  }

  lemma BaseExactlyWhen(order: OrderRequest, quote: Quote)
    ensures DetermineFillPrice(order, quote).Some? <==> Reached(order, quote)
    ensures Reached(order, quote) ==> BasedOn(order, quote, DetermineFillPrice(order, quote).value)
  {}

  /** `p` is `x` to half a paisa, or one paisa if that is more. */
  ghost predicate InPaise(p: real, x: real) {
    -0.005 <= p - x <= 0.005 || (p == 0.01 && x <= 0.015)
  }

  /** The price of a fill: its base, moved against the order by the slippage, itself up to a fifth
      stronger or weaker; to the paisa and never below one. */
  lemma FillPriceIs(base: real, side: Side, slippagePct: real, jitter: real)
    ensures var moved := Times(Times(base, slippagePct), 1.0 + jitter);
      InPaise(FillPrice(base, side, slippagePct, jitter), if side == Buy then base + moved else base - moved)
    ensures slippagePct == 0.0 ==> InPaise(FillPrice(base, side, slippagePct, jitter), base)
  {
    MovedIs(base, side, slippagePct, jitter);
    hide Moved, RoundPaise, Times;
  }

  // ---------------------------------------------------------------- one fill

  /** The average cost after buying `f` on top of `p`, before rounding. */
  function Averaged(p: Position, f: Fill): real
    requires p.quantity + f.quantity > 0.0
  {
    (p.averagePrice * p.quantity + f.price * f.quantity) / (p.quantity + f.quantity)
  }

  function FillValue(f: Fill): real { Times(f.price, f.quantity) }

  function BoughtOnTop(p: Position, f: Fill): Position
    requires p.quantity + f.quantity > 0.0
  {
    Position(p.quantity + f.quantity, RoundPaise(Averaged(p, f)), f.price,
             p.buyQuantity + f.quantity, p.sellQuantity)
  }

  function NewPosition(f: Fill): Position {
    Position(f.quantity, f.price, f.price, f.quantity, 0.0)
  }

  function SoldFrom(p: Position, f: Fill): Position {
    Position(p.quantity - f.quantity, p.averagePrice, f.price, p.buyQuantity, p.sellQuantity + f.quantity)
  }

  function Realised(p: Position, f: Fill): real { (f.price - p.averagePrice) * f.quantity }

  /** What `_apply_fill` does to the ledger. */
  function Applied(b: Books, f: Fill): Books
    requires f.quantity > 0.0
  {
    match f.side
    case Buy =>
      var cash := b.cash - (FillValue(f) + f.fee);
      if f.symbol in b.positions && b.positions[f.symbol].quantity > 0.0 then
        Books(cash, b.positions[f.symbol := BoughtOnTop(b.positions[f.symbol], f)], b.dayPnl)
      else
        Books(cash, b.positions[f.symbol := NewPosition(f)], b.dayPnl)
    case Sell =>
      var cash := b.cash + (FillValue(f) - f.fee);
      if f.symbol in b.positions then
        var p := b.positions[f.symbol];
        var left := if p.quantity - f.quantity <= 0.0 then b.positions - {f.symbol}
                    else b.positions[f.symbol := SoldFrom(p, f)];
        Books(cash, left, b.dayPnl + Realised(p, f))
      else Books(cash, b.positions, b.dayPnl)
  }

  // ---------------------------------------------------------------- the engine

  class Engine {
    const initialCapital: real
    const slippagePct: real
    const brokerage: real
    const brokeragePct: real
    var cash: real
    var positions: map<string, Position>
    var quotes: map<string, Quote>
    var orders: seq<Fill>
    var dayPnl: real
    var tradeCount: nat
    /** Every fill since the start, and the profit realised on days already reset. */
    ghost var fills: seq<Fill>
    ghost var earlierPnl: real

    /** The engine holds exactly what its fills, one after another, leave of the initial capital. */
    ghost predicate Valid()
      reads this
    {
      && Tradeable(fills)
      && Books(cash, positions, earlierPnl + dayPnl) == After(Books(initialCapital, map[], 0.0), fills)
    }

    constructor (initialCapital: real, slippagePct: real, brokerage: real, brokeragePct: real)
      ensures this.initialCapital == initialCapital && this.slippagePct == slippagePct
      ensures this.brokerage == brokerage && this.brokeragePct == brokeragePct
      ensures Ledger() == Books(initialCapital, map[], 0.0)
      ensures quotes == map[] && orders == [] && tradeCount == 0
      ensures Valid() && fills == [] && earlierPnl == 0.0
    {
      this.initialCapital := initialCapital;
      this.slippagePct := slippagePct;
      this.brokerage := brokerage;
      this.brokeragePct := brokeragePct;
      cash := initialCapital;
      positions := map[];
      quotes := map[];
      orders := [];
      dayPnl := 0.0;
      tradeCount := 0;
      fills := [];
      earlierPnl := 0.0;
    }

    function Ledger(): Books
      reads this
    {
      Books(cash, positions, dayPnl)
    }

    method UpdateQuote(symbol: string, quote: Quote)
      modifies this`quotes
      ensures quotes == old(quotes)[symbol := quote]
      ensures Ledger() == old(Ledger()) && orders == old(orders) && tradeCount == old(tradeCount)
    {
      quotes := quotes[symbol := quote];
    }

    function BrokerageOn(value: real): real {
      if brokeragePct > 0.0 then Times(value, brokeragePct) else brokerage
    }

    /** The fill an order would get at `base`. */
    function Proposed(order: OrderRequest, base: real, jitter: real): Fill {
      var price := FillPrice(base, order.side, slippagePct, jitter);
      Fill(order.symbol, order.side, order.quantity, price, BrokerageOn(Times(price, order.quantity)))
    }

    lemma BaseWhenQuoted(order: OrderRequest)
      ensures order.symbol in quotes ==>
        (DetermineFillPrice(order, quotes[order.symbol]).Some? <==> Reached(order, quotes[order.symbol]))
    {
      if order.symbol in quotes {
        BaseExactlyWhen(order, quotes[order.symbol]);
      }
    }

    /** `price` is what the order pays or gets per share: its base, less favourable by the slippage. */
    ghost predicate PricedAt(order: OrderRequest, quote: Quote, jitter: real, base: real, price: real) {
      && Reached(order, quote) && BasedOn(order, quote, base) && price >= 0.01
      && (var moved := Times(Times(base, slippagePct), 1.0 + jitter);
          InPaise(price, if order.side == Buy then base + moved else base - moved))
      && (slippagePct == 0.0 ==> InPaise(price, base))
    }

    /** The whole of an answer with a price: what the order pays or gets, its fee, whether the cash is
        enough for it, and the slippage it is told. */
    ghost predicate Explained(order: OrderRequest, quote: Quote, jitter: real, cash: real, r: Execution) {
      exists base, price :: PricedAt(order, quote, jitter, base, price) && Settled(order, base, price, cash, r)
    }

    ghost predicate Settled(order: OrderRequest, base: real, price: real, cash: real, r: Execution) {
      var value := Times(price, order.quantity);
      var fee := if brokeragePct > 0.0 then Times(value, brokeragePct) else brokerage;
      match r
      case InsufficientFunds(need) => order.side == Buy && need == value + fee && need > cash
      case Filled(fillPrice, slippage, charged) =>
        && (order.side == Buy ==> value + fee <= cash)
        && fillPrice == price && charged == fee && -0.005 <= slippage - (price - base) <= 0.005
      case _ => false
    }

    /** Slippage that is not negative, with a jitter of at most a fifth. */
    ghost predicate Usual(jitter: real) { slippagePct >= 0.0 && -0.2 <= jitter <= 0.2 }

    /** Without slippage an order fills at its base price, and a MARKET order never fills inside the spread. */
    lemma ExplainedMeans(order: OrderRequest, quote: Quote, jitter: real, cash: real, r: Execution)
      requires Explained(order, quote, jitter, cash, r) && r.Filled?
      ensures slippagePct == 0.0 ==> forall base :: BasedOn(order, quote, base) ==> InPaise(r.fillPrice, base)
      ensures order.orderType == Market && Usual(jitter) ==>
        && (order.side == Buy ==> r.fillPrice >= (if quote.ask > 0.0 then quote.ask else quote.ltp) - 0.005)
        && (order.side == Sell && (quote.bid > 0.0 || quote.ltp >= 0.0) ==>
              r.fillPrice <= (if quote.bid > 0.0 then quote.bid else quote.ltp) + 0.005 || r.fillPrice == 0.01)
    {
      hide Times;
      var base, price :| PricedAt(order, quote, jitter, base, price) && Settled(order, base, price, cash, r);
      if order.orderType == Market && Usual(jitter) && base >= 0.0 {
        NotNegative(base, slippagePct);
        NotNegative(Times(base, slippagePct), 1.0 + jitter);
      }
    }

    lemma AnswerIsExplained(order: OrderRequest, quote: Quote, base: real, jitter: real, cash: real)
      requires DetermineFillPrice(order, quote) == Some(base)
      ensures var f := Proposed(order, base, jitter);
        var r := if order.side == Buy && FillValue(f) + f.fee > cash then InsufficientFunds(FillValue(f) + f.fee)
                 else Filled(f.price, RoundPaise(f.price - base), f.fee);
        Explained(order, quote, jitter, cash, r)
    {
      var f := Proposed(order, base, jitter);
      ProposedIsPriced(order, quote, base, jitter);
      hide FillPrice, DetermineFillPrice, PricedAt, Times;
      var r := if order.side == Buy && FillValue(f) + f.fee > cash then InsufficientFunds(FillValue(f) + f.fee)
               else Filled(f.price, RoundPaise(f.price - base), f.fee);
      hide RoundPaise;
      assert Settled(order, base, f.price, cash, r);
    }

    lemma ProposedIsPriced(order: OrderRequest, quote: Quote, base: real, jitter: real)
      requires DetermineFillPrice(order, quote) == Some(base)
      ensures PricedAt(order, quote, jitter, base, Proposed(order, base, jitter).price)
    {
      BaseExactlyWhen(order, quote);
      FillPriceIs(base, order.side, slippagePct, jitter);
      hide FillPrice, DetermineFillPrice, InPaise, Reached, BasedOn;
    }

    /** What `execute_order` answers. */
    function Answer(order: OrderRequest, jitter: real): Execution
      reads this
    {
      if order.symbol !in quotes then NoQuote
      else match DetermineFillPrice(order, quotes[order.symbol])
        case None => ConditionsNotMet
        case Some(base) =>
          var f := Proposed(order, base, jitter);
          if order.side == Buy && FillValue(f) + f.fee > cash then InsufficientFunds(FillValue(f) + f.fee)
          else Filled(f.price, RoundPaise(f.price - base), f.fee)
    }

    /**
     `execute_order`: a rejected order changes nothing, an executed one changes the ledger by exactly
     its fill, and a BUY never spends more than the cash.
    */
    method ExecuteOrder(order: OrderRequest, jitter: real) returns (r: Execution)
      requires Valid() && order.quantity > 0.0
      modifies this
      ensures Valid() && quotes == old(quotes) && earlierPnl == old(earlierPnl)
      ensures r == old(Answer(order, jitter))
      ensures !r.Filled? ==>
        Ledger() == old(Ledger()) && orders == old(orders) && tradeCount == old(tradeCount) && fills == old(fills)
      ensures r.Filled? ==>
        var f := Fill(order.symbol, order.side, order.quantity, r.fillPrice, r.brokerage);
        && r.fillPrice >= 0.01
        && Ledger() == Applied(old(Ledger()), f)
        && orders == old(orders) + [f] && tradeCount == old(tradeCount) + 1 && fills == old(fills) + [f]
      ensures r.Filled? && order.side == Buy ==> cash >= 0.0
      ensures r == NoQuote <==> order.symbol !in quotes
      ensures r == ConditionsNotMet <==> order.symbol in quotes && !Reached(order, quotes[order.symbol])
      ensures r.InsufficientFunds? || r.Filled? ==>
        Explained(order, quotes[order.symbol], jitter, old(cash), r)
      ensures r.Filled? && slippagePct == 0.0 ==>
        forall base :: BasedOn(order, quotes[order.symbol], base) ==> InPaise(r.fillPrice, base)
      ensures r.Filled? && order.orderType == Market && Usual(jitter) ==>
        var quote := quotes[order.symbol];
        && (order.side == Buy ==>
              r.fillPrice >= (if quote.ask > 0.0 then quote.ask else quote.ltp) - 0.005)
        && (order.side == Sell && (quote.bid > 0.0 || quote.ltp >= 0.0) ==>
              r.fillPrice <= (if quote.bid > 0.0 then quote.bid else quote.ltp) + 0.005 || r.fillPrice == 0.01)
    {
      BaseWhenQuoted(order);
      hide FillPrice, RoundPaise, DetermineFillPrice, Reached, FillValue, Explained, After, Applied;
      if order.symbol !in quotes {
        return NoQuote;
      }
      var base := DetermineFillPrice(order, quotes[order.symbol]);
      if base.None? {
        return ConditionsNotMet;
      }
      var fill := Proposed(order, base.value, jitter);
      AnswerIsExplained(order, quotes[order.symbol], base.value, jitter, cash);
      if order.side == Buy {
        var need := FillValue(fill) + fill.fee;
        if need > cash {
          return InsufficientFunds(need);
        }
      }
      FillFollows(initialCapital, fills, Ledger(), earlierPnl, fill);
      ApplyFill(fill);
      fills := fills + [fill];
      orders := orders + [fill];
      tradeCount := tradeCount + 1;
      r := Filled(fill.price, RoundPaise(fill.price - base.value), fill.fee);
      ExplainedMeans(order, quotes[order.symbol], jitter, old(cash), r);
      hide BasedOn, InPaise, Usual;
    }

    method ApplyFill(f: Fill)
      requires f.quantity > 0.0
      modifies this`cash, this`positions, this`dayPnl
      ensures Ledger() == Applied(old(Ledger()), f)
    {
      hide RoundPaise, Averaged, FillValue, Realised;
      if f.side == Buy {
        cash := cash - (FillValue(f) + f.fee);
        if f.symbol in positions && positions[f.symbol].quantity > 0.0 {
          var p := positions[f.symbol];
          var average := Averaged(p, f);
          positions := positions[f.symbol :=
            Position(p.quantity + f.quantity, RoundPaise(average), f.price,
                     p.buyQuantity + f.quantity, p.sellQuantity)];
        } else {
          positions := positions[f.symbol := Position(f.quantity, f.price, f.price, f.quantity, 0.0)];
        }
      } else {
        cash := cash + (FillValue(f) - f.fee);
        if f.symbol in positions {
          var p := positions[f.symbol];
          var left := p.quantity - f.quantity;
          dayPnl := dayPnl + Realised(p, f);
          if left <= 0.0 {
            positions := positions - {f.symbol};
          } else {
            positions := positions[f.symbol :=
              Position(left, p.averagePrice, f.price, p.buyQuantity, p.sellQuantity + f.quantity)];
          }
        }
      }
    }

    /** Cash plus every position at its latest price: `get_snapshot().total_value`. */
    method TotalValue() returns (total: real)
      ensures total == cash + Worth(positions, quotes)
    {
      total := cash;
      hide WorthOf;
      var left := positions;
      while left.Keys != {}
        invariant total + Worth(left, quotes) == cash + Worth(positions, quotes)
        decreases |left.Keys|
      {
        var symbol :| symbol in left.Keys;
        total := total + WorthOf(quotes)(symbol, left[symbol]);
        TotalWithout(left, WorthOf(quotes), symbol);
        left := left - {symbol};
      }
    }

    method ResetDay()
      requires Valid()
      modifies this
      ensures Valid() && fills == old(fills) && earlierPnl == old(earlierPnl) + old(dayPnl)
      ensures dayPnl == 0.0 && tradeCount == 0 && orders == []
      ensures cash == old(cash) && positions == old(positions) && quotes == old(quotes)
    {
      earlierPnl := earlierPnl + dayPnl;
      dayPnl := 0.0;
      tradeCount := 0;
      orders := [];
    }

    /**
     The books of a running engine, whatever orders it was given and however many days were reset:
     cash plus positions at cost is initial capital plus all realised profit less fees, plus the cost
     of what was oversold, to half a paisa per share of each averaging BUY.
    */
    lemma BooksBalance()
      requires Valid()
      ensures var start := Books(initialCapital, map[], 0.0);
        var drift := cash + Cost(positions) - (initialCapital + earlierPnl + dayPnl - Fees(fills));
        var allowance, oversold := Allowance(start, fills), Oversold(start, fills);
        && oversold - allowance <= drift <= oversold + allowance
        && (oversold == 0.0 <==> NeverOversells(start, fills))
      ensures Consistent(Ledger())
    {
      InventedMoneyIsOversold(initialCapital, fills);
      LedgerConserves(initialCapital, fills);
    }
  }

  lemma AfterOneMore(initialCapital: real, fills: seq<Fill>, f: Fill)
    requires Tradeable(fills) && f.quantity > 0.0
    ensures var start := Books(initialCapital, map[], 0.0);
      After(start, fills + [f]) == Applied(After(start, fills), f)
  {
    assert (fills + [f])[..|fills|] == fills;
  }

  lemma CashAfterBuy(b: Books, f: Fill)
    requires f.quantity > 0.0 && f.side == Buy
    ensures Applied(b, f).cash == b.cash - (FillValue(f) + f.fee)
  {
    hide FillValue, BoughtOnTop, NewPosition;
  }

  /** The books with all profit so far follow from the fills, and still do after one more. */
  lemma FillFollows(initialCapital: real, fills: seq<Fill>, b: Books, earlier: real, f: Fill)
    requires Tradeable(fills) && f.quantity > 0.0
    requires b.(dayPnl := earlier + b.dayPnl) == After(Books(initialCapital, map[], 0.0), fills)
    ensures (forall i :: 0 <= i < |fills + [f]| ==> (fills + [f])[i].quantity > 0.0)
    ensures var r := Applied(b, f);
      r.(dayPnl := earlier + r.dayPnl) == After(Books(initialCapital, map[], 0.0), fills + [f])
      && (f.side == Buy ==> r.cash == b.cash - (FillValue(f) + f.fee))
  {
    if f.side == Buy { CashAfterBuy(b, f); }
    AfterOneMore(initialCapital, fills, f);
    PnlShifts(b, earlier, f);
    hide Applied, After;
  }

  /** A fill changes the books the same way whatever profit was realised before. */
  lemma PnlShifts(b: Books, earlier: real, f: Fill)
    requires f.quantity > 0.0
    ensures var r, shifted := Applied(b, f), Applied(b.(dayPnl := earlier + b.dayPnl), f);
      shifted == r.(dayPnl := earlier + r.dayPnl)
  {
    hide RoundPaise, Averaged, FillValue, Realised;
  }

  // ---------------------------------------------------------------- sums over the positions

  ghost function Total(m: map<string, Position>, value: (string, Position) -> real): real
    decreases |m.Keys|
  {
    if m.Keys == {} then 0.0
    else
      var k :| k in m.Keys;
      value(k, m[k]) + Total(m - {k}, value)
  }

  lemma {:induction false} TotalWithout(m: map<string, Position>, value: (string, Position) -> real, k: string)
    requires k in m
    ensures Total(m, value) == value(k, m[k]) + Total(m - {k}, value)
    decreases |m.Keys|
  {
    var j :| j in m.Keys && Total(m, value) == value(j, m[j]) + Total(m - {j}, value);
    if j != k {
      TotalWithout(m - {j}, value, k);
      TotalWithout(m - {k}, value, j);
      assert m - {j} - {k} == m - {k} - {j};
    }
  }

  lemma TotalWith(m: map<string, Position>, value: (string, Position) -> real, k: string, p: Position)
    ensures Total(m[k := p], value) == value(k, p) + Total(m - {k}, value)
  {
    TotalWithout(m[k := p], value, k);
    assert m[k := p] - {k} == m - {k};
  }

  lemma {:induction false} TotalDifference(m: map<string, Position>, f: (string, Position) -> real,
                                           g: (string, Position) -> real, h: (string, Position) -> real)
    requires forall k, p :: h(k, p) == f(k, p) - g(k, p)
    ensures Total(m, h) == Total(m, f) - Total(m, g)
    decreases |m.Keys|
  {
    if m.Keys != {} {
      var k :| k in m.Keys;
      TotalDifference(m - {k}, f, g, h);
      TotalWithout(m, f, k);
      TotalWithout(m, g, k);
      TotalWithout(m, h, k);
    }
  }

  function CostOf(symbol: string, p: Position): real { p.quantity * p.averagePrice }

  function LastPrice(quotes: map<string, Quote>, symbol: string, p: Position): real {
    if symbol in quotes then quotes[symbol].ltp else p.lastPrice
  }

  function WorthOf(quotes: map<string, Quote>): (string, Position) -> real {
    (symbol: string, p: Position) => LastPrice(quotes, symbol, p) * p.quantity
  }

  /** Profit not yet realised, at the latest price. */
  function GainOf(quotes: map<string, Quote>): (string, Position) -> real {
    (symbol: string, p: Position) => (LastPrice(quotes, symbol, p) - p.averagePrice) * p.quantity
  }

  /** The positions at cost. */
  ghost function Cost(m: map<string, Position>): real { Total(m, CostOf) }

  /** The positions at their latest price. */
  ghost function Worth(m: map<string, Position>, quotes: map<string, Quote>): real {
    Total(m, WorthOf(quotes))
  }

  /** Each position counts once, at its quote's last price if there is one, else at the price it last
      filled at. */
  lemma WorthCountsEachPosition(m: map<string, Position>, quotes: map<string, Quote>, symbol: string)
    requires symbol in m
    ensures Worth(map[], quotes) == 0.0
    ensures Worth(m, quotes) - Worth(m - {symbol}, quotes)
         == m[symbol].quantity * (if symbol in quotes then quotes[symbol].ltp else m[symbol].lastPrice)
  {
    TotalWithout(m, WorthOf(quotes), symbol);
  }

  // ---------------------------------------------------------------- conservation

  /** Shares of `f` that are in a held position. */
  function Held(b: Books, symbol: string): real {
    if symbol in b.positions then b.positions[symbol].quantity else 0.0
  }

  ghost predicate Consistent(b: Books) {
    forall s :: s in b.positions ==>
      var p := b.positions[s];
      p.quantity == p.buyQuantity - p.sellQuantity && p.quantity > 0.0 && p.averagePrice > 0.0
  }

  predicate ProperFill(f: Fill) {
    f.quantity > 0.0 && f.price >= 0.01
  }

  /** How much the books are worth at cost beyond what fills and fees explain: zero when nothing is
      lost or invented. */
  ghost function Drift(b: Books, initialCapital: real, fees: real): real {
    b.cash + Cost(b.positions) - (initialCapital + b.dayPnl - fees)
  }

  function RoundingError(x: real): real { RoundPaise(x) - x }

  /** What rounding the averaged cost adds to a position's cost. */
  function RoundingGain(p: Position, f: Fill): real
    requires p.quantity + f.quantity > 0.0
  {
    Times(p.quantity + f.quantity, RoundingError(Averaged(p, f)))
  }

  /** The carrying cost of the shares sold beyond the position. */
  function OversoldCost(p: Position, f: Fill): real {
    p.averagePrice * (f.quantity - p.quantity)
  }

  /** The drift one fill adds: rounding an averaged cost, or selling what is not held. */
  function AddedDrift(b: Books, f: Fill): real
    requires f.quantity > 0.0
  {
    if f.side == Buy then
      if f.symbol in b.positions && b.positions[f.symbol].quantity > 0.0
      then RoundingGain(b.positions[f.symbol], f) else 0.0
    else if f.symbol !in b.positions then FillValue(f)
    else if f.quantity > b.positions[f.symbol].quantity then OversoldCost(b.positions[f.symbol], f)
    else 0.0
  }

  lemma AveragedCost(p: Position, f: Fill)
    requires p.quantity > 0.0 && f.quantity > 0.0
    ensures (p.quantity + f.quantity) * Averaged(p, f) == p.averagePrice * p.quantity + f.price * f.quantity
  {}

  lemma BuyOnTop(k: string, p: Position, f: Fill)
    requires p.quantity > 0.0 && f.quantity > 0.0
    ensures CostOf(k, BoughtOnTop(p, f)) == CostOf(k, p) + FillValue(f) + RoundingGain(p, f)
  {
    AveragedCost(p, f);
  }

  lemma BuyNew(k: string, f: Fill)
    ensures CostOf(k, NewPosition(f)) == FillValue(f)
  {}

  lemma SellSome(k: string, p: Position, f: Fill)
    ensures CostOf(k, SoldFrom(p, f)) == CostOf(k, p) + Realised(p, f) - FillValue(f)
  {}

  lemma SellAll(k: string, p: Position, f: Fill)
    ensures Realised(p, f) == FillValue(f) - CostOf(k, p) - OversoldCost(p, f)
    ensures f.quantity == p.quantity ==> OversoldCost(p, f) == 0.0
  {}

  /** Exactly how each fill moves the drift. */
  lemma FillDrift(b: Books, f: Fill, initialCapital: real, fees: real)
    requires Consistent(b) && ProperFill(f)
    ensures Drift(Applied(b, f), initialCapital, fees + f.fee)
         == Drift(b, initialCapital, fees) + AddedDrift(b, f)
  {
    if f.symbol in b.positions {
      FillHeldDrift(b, f);
    } else {
      FillNewDrift(b, f);
    }
  }

  ghost predicate DriftsBy(b: Books, f: Fill)
    requires f.quantity > 0.0
  {
    var b' := Applied(b, f);
    b'.cash + Cost(b'.positions) - b'.dayPnl + f.fee
    == b.cash + Cost(b.positions) - b.dayPnl + AddedDrift(b, f)
  }

  lemma FillNewDrift(b: Books, f: Fill)
    requires f.symbol !in b.positions && ProperFill(f)
    ensures DriftsBy(b, f)
  {
    hide FillValue, NewPosition;
    if f.side == Buy {
      BuyNew(f.symbol, f);
      TotalWith(b.positions, CostOf, f.symbol, NewPosition(f));
      assert b.positions - {f.symbol} == b.positions;
    }
  }

  lemma FillHeldDrift(b: Books, f: Fill)
    requires Consistent(b) && f.symbol in b.positions && ProperFill(f)
    ensures DriftsBy(b, f)
  {
    var p := b.positions[f.symbol];
    hide FillValue, BoughtOnTop, SoldFrom, Realised, CostOf, RoundingGain, OversoldCost;
    TotalWithout(b.positions, CostOf, f.symbol);
    if f.side == Buy {
      BuyOnTop(f.symbol, p, f);
      TotalWith(b.positions, CostOf, f.symbol, BoughtOnTop(p, f));
    } else if f.quantity < p.quantity {
      SellSome(f.symbol, p, f);
      TotalWith(b.positions, CostOf, f.symbol, SoldFrom(p, f));
    } else {
      SellAll(f.symbol, p, f);
    }
  }

  /** A SELL conserves value exactly when every share it sells is held. */
  lemma SellConservesExactlyWhenHeld(b: Books, f: Fill)
    requires Consistent(b) && ProperFill(f) && f.side == Sell
    ensures AddedDrift(b, f) == 0.0 <==> f.quantity <= Held(b, f.symbol)
    ensures AddedDrift(b, f) >= 0.0
  {
    if f.symbol !in b.positions {
      Positive(f.price, f.quantity);
    } else if f.quantity > b.positions[f.symbol].quantity {
      Positive(b.positions[f.symbol].averagePrice, f.quantity - b.positions[f.symbol].quantity);
    }
  }

  lemma Positive(x: real, y: real)
    requires x > 0.0 && y > 0.0
    ensures x * y > 0.0
  {}

  /** What rounding may add: half a paisa per share of the resulting position. */
  function RoundingAllowance(b: Books, f: Fill): real {
    if f.side == Buy && f.symbol in b.positions then 0.005 * (b.positions[f.symbol].quantity + f.quantity)
    else 0.0
  }

  lemma RoundingIsSmall(p: Position, f: Fill)
    requires p.quantity + f.quantity > 0.0
    ensures -0.005 * (p.quantity + f.quantity) <= RoundingGain(p, f) <= 0.005 * (p.quantity + f.quantity)
  {
    hide Times, Averaged;
    Scaled(p.quantity + f.quantity, RoundingError(Averaged(p, f)), 0.005);
  }

  lemma AddedDriftIsRounding(b: Books, f: Fill)
    requires Consistent(b) && ProperFill(f)
    requires f.side == Sell ==> f.quantity <= Held(b, f.symbol)
    ensures -RoundingAllowance(b, f) <= AddedDrift(b, f) <= RoundingAllowance(b, f)
  {
    hide RoundingGain;
    if f.side == Buy && f.symbol in b.positions {
      RoundingIsSmall(b.positions[f.symbol], f);
    }
  }

  lemma Scaled(x: real, e: real, bound: real)
    requires x >= 0.0 && -bound <= e <= bound
    ensures -(bound * x) <= Times(x, e) <= bound * x
  {}

  lemma AverageStaysPositive(p: Position, f: Fill)
    requires p.quantity > 0.0 && p.averagePrice >= 0.01 && ProperFill(f)
    ensures Averaged(p, f) >= 0.01
  {
    var total := p.quantity + f.quantity;
    assert p.averagePrice * p.quantity + f.price * f.quantity >= 0.01 * total;
  }

  ghost predicate Priced(b: Books) {
    forall s :: s in b.positions ==> b.positions[s].averagePrice >= 0.01
  }

  /** Every stored position stays positive and equals its buys less its sells. */
  lemma FillKeepsConsistent(b: Books, f: Fill)
    requires Consistent(b) && Priced(b) && ProperFill(f)
    ensures Consistent(Applied(b, f)) && Priced(Applied(b, f))
  {
    hide RoundPaise;
    if f.side == Buy && f.symbol in b.positions {
      AverageStaysPositive(b.positions[f.symbol], f);
      RoundingKeepsPaisa(Averaged(b.positions[f.symbol], f));
    }
  }

  /** What one fill moves, field by field: the cash by the value and the fee, the day's profit by what a
      held SELL realised, the one position by its shares; and nothing else. */
  lemma FillMoves(b: Books, f: Fill)
    requires Consistent(b) && f.quantity > 0.0
    ensures var b', p := Applied(b, f), f.symbol;
      && (f.side == Buy ==>
            && b'.cash == b.cash - f.price * f.quantity - f.fee && b'.dayPnl == b.dayPnl
            && p in b'.positions && b'.positions[p].quantity == Held(b, p) + f.quantity)
      && (f.side == Sell ==>
            && b'.cash == b.cash + f.price * f.quantity - f.fee
            && (p !in b.positions ==> b'.dayPnl == b.dayPnl && b'.positions == b.positions)
            && (p in b.positions ==>
                  && b'.dayPnl == b.dayPnl + (f.price - b.positions[p].averagePrice) * f.quantity
                  && (p in b'.positions <==> f.quantity < b.positions[p].quantity)
                  && (p in b'.positions ==>
                        && b'.positions[p].quantity == b.positions[p].quantity - f.quantity
                        && b'.positions[p].averagePrice == b.positions[p].averagePrice)))
      && (p in b'.positions && (f.side == Buy || p in b.positions) ==> b'.positions[p].lastPrice == f.price)
      && forall s :: s != p ==>
           (s in b'.positions <==> s in b.positions) && (s in b.positions ==> b'.positions[s] == b.positions[s])
  {
    hide RoundPaise, Averaged;
  }

  // ---------------------------------------------------------------- whole days

  ghost predicate Tradeable(fills: seq<Fill>) {
    forall i :: 0 <= i < |fills| ==> ProperFill(fills[i])
  }

  function After(b: Books, fills: seq<Fill>): Books
    requires forall i :: 0 <= i < |fills| ==> fills[i].quantity > 0.0
  {
    if fills == [] then b
    else Applied(After(b, fills[..|fills| - 1]), fills[|fills| - 1])
  }

  function Fees(fills: seq<Fill>): real {
    if fills == [] then 0.0 else Fees(fills[..|fills| - 1]) + fills[|fills| - 1].fee
  }

  /** No SELL of the run sells more than is held when it fills. */
  ghost predicate NeverOversells(b: Books, fills: seq<Fill>)
    requires forall i :: 0 <= i < |fills| ==> fills[i].quantity > 0.0
  {
    fills != [] ==>
      var n := |fills| - 1;
      && NeverOversells(b, fills[..n])
      && (fills[n].side == Sell ==> fills[n].quantity <= Held(After(b, fills[..n]), fills[n].symbol))
  }

  function Allowance(b: Books, fills: seq<Fill>): real
    requires forall i :: 0 <= i < |fills| ==> fills[i].quantity > 0.0
  {
    if fills == [] then 0.0
    else
      var n := |fills| - 1;
      Allowance(b, fills[..n]) + RoundingAllowance(After(b, fills[..n]), fills[n])
  }

  /**
   Over any run of fills that sells only what is held, cash plus positions at cost is the initial
   capital plus realised P&L less fees, to within half a paisa per share of each averaging BUY; and
   every stored position is what was bought less what was sold, never zero or negative.
  */
  lemma {:induction false} LedgerConserves(initialCapital: real, fills: seq<Fill>)
    requires Tradeable(fills)
    ensures var b := After(Books(initialCapital, map[], 0.0), fills);
      && Consistent(b) && Priced(b)
      && (NeverOversells(Books(initialCapital, map[], 0.0), fills) ==>
           var allowance := Allowance(Books(initialCapital, map[], 0.0), fills);
           -allowance <= Drift(b, initialCapital, Fees(fills)) <= allowance)
  {
    var start := Books(initialCapital, map[], 0.0);
    if fills != [] {
      var n := |fills| - 1;
      var b, f := After(start, fills[..n]), fills[n];
      LedgerConserves(initialCapital, fills[..n]);
      FillKeepsConsistent(b, f);
      FillDrift(b, f, initialCapital, Fees(fills[..n]));
      if NeverOversells(start, fills) {
        AddedDriftIsRounding(b, f);
      }
    }
  }

  ghost function Oversold(b: Books, fills: seq<Fill>): real
    requires forall i :: 0 <= i < |fills| ==> fills[i].quantity > 0.0
  {
    if fills == [] then 0.0
    else
      var n := |fills| - 1;
      Oversold(b, fills[..n]) +
      (if fills[n].side == Sell then AddedDrift(After(b, fills[..n]), fills[n]) else 0.0)
  }

  /**
   With or without overselling, the money the books invent is, to the same rounding, exactly what
   the oversold shares were carried at; and it is zero exactly when nothing was oversold.
  */
  lemma {:induction false} InventedMoneyIsOversold(initialCapital: real, fills: seq<Fill>)
    requires Tradeable(fills)
    ensures var start := Books(initialCapital, map[], 0.0);
      var allowance, oversold := Allowance(start, fills), Oversold(start, fills);
      && oversold - allowance <= Drift(After(start, fills), initialCapital, Fees(fills)) <= oversold + allowance
      && oversold >= 0.0 && (oversold == 0.0 <==> NeverOversells(start, fills))
  {
    var start := Books(initialCapital, map[], 0.0);
    if fills != [] {
      var n := |fills| - 1;
      var b, f := After(start, fills[..n]), fills[n];
      InventedMoneyIsOversold(initialCapital, fills[..n]);
      LedgerConserves(initialCapital, fills[..n]);
      FillDrift(b, f, initialCapital, Fees(fills[..n]));
      if f.side == Sell {
        SellConservesExactlyWhenHeld(b, f);
      } else {
        AddedDriftIsRounding(b, f);
      }
    }
  }

  // ---------------------------------------------------------------- total value

  /** The snapshot's total value is initial capital plus realised and unrealised profit less fees,
      plus the drift. */
  lemma TotalValueIsProfit(b: Books, quotes: map<string, Quote>, initialCapital: real, fees: real)
    ensures b.cash + Worth(b.positions, quotes)
         == initialCapital + b.dayPnl + Total(b.positions, GainOf(quotes)) - fees
            + Drift(b, initialCapital, fees)
  {
    TotalDifference(b.positions, WorthOf(quotes), CostOf, GainOf(quotes));
  }
}
