/**
 Why the book is read before the positions: skopaq/broker/book_snapshot.py against a broker that
 fills, cancels and accepts orders between any two reads.
*/
module SellProtocol {
  import opened Wrappers
  import opened OrderStatus
  import opened BookSnapshot

  // ---------------------------------------------------------------- the broker

  datatype Order = Order(side: Side, symbol: string, requested: real, traded: real, live: bool) {
    function Left(): real { requested - traded }
  }

  /** The broker's own truth: today's orders, net positions, and delivery holdings. */
  datatype Broker = Broker(orders: seq<Order>, net: map<string, real>, holdings: map<string, real>)

  function At(m: map<string, real>, symbol: string): real {
    if symbol in m then m[symbol] else 0.0
  }

  datatype Event =
    | Fill(order: nat, qty: real)
    | Cancel(order: nat)
    | PlaceBuy(symbol: string, qty: real)
    | PlaceSell(symbol: string, qty: real)

  ghost predicate Sane(b: Broker) {
    forall i :: 0 <= i < |b.orders| ==>
      0.0 <= b.orders[i].traded <= b.orders[i].requested &&
      b.orders[i].requested > 0.0 &&
      (b.orders[i].live ==> b.orders[i].traded < b.orders[i].requested)
  }

  ghost predicate Enabled(b: Broker, e: Event) {
    match e
    case Fill(i, qty) => i < |b.orders| && b.orders[i].live && 0.0 < qty <= b.orders[i].Left()
    case Cancel(i) => i < |b.orders| && b.orders[i].live
    case PlaceBuy(_, qty) => qty > 0.0
    case PlaceSell(_, qty) => qty > 0.0
  }

  function Filled(o: Order, qty: real): Order {
    o.(traded := o.traded + qty, live := o.traded + qty < o.requested)
  }

  ghost function Apply(b: Broker, e: Event): Broker
    requires Enabled(b, e)
  {
    match e
    case Fill(i, qty) =>
      var o := b.orders[i];
      var moved := if o.side == Buy then qty else -qty;
      b.(orders := b.orders[i := Filled(o, qty)],
         net := b.net[o.symbol := At(b.net, o.symbol) + moved])
    case Cancel(i) => b.(orders := b.orders[i := b.orders[i].(live := false)])
    case PlaceBuy(symbol, qty) => b.(orders := b.orders + [Order(Buy, symbol, qty, 0.0, true)])
    case PlaceSell(symbol, qty) => b.(orders := b.orders + [Order(Sell, symbol, qty, 0.0, true)])
  }

  /** What an order can still sell of `symbol`. */
  function OpenSell(o: Order, symbol: string): real {
    if o.live && o.side == Sell && o.symbol == symbol then o.Left() else 0.0
  }

  function OpenSells(orders: seq<Order>, symbol: string): real {
    if orders == [] then 0.0
    else OpenSells(orders[..|orders| - 1], symbol) + OpenSell(orders[|orders| - 1], symbol)
  }

  /** What could be sold now without ever going short, even if every open SELL fills. */
  function TrueSellable(b: Broker, symbol: string): real {
    At(b.holdings, symbol) + At(b.net, symbol) - OpenSells(b.orders, symbol)
  }

  // ---------------------------------------------------------------- one step

  lemma {:induction false} OpenSellsUpdate(orders: seq<Order>, i: nat, o: Order, symbol: string)
    requires i < |orders|
    ensures OpenSells(orders[i := o], symbol)
         == OpenSells(orders, symbol) - OpenSell(orders[i], symbol) + OpenSell(o, symbol)
  {
    var n := |orders| - 1;
    if i < n {
      assert orders[i := o][..n] == orders[..n][i := o];
      OpenSellsUpdate(orders[..n], i, o, symbol);
    } else {
      assert orders[i := o][..n] == orders[..n];
    }
  }

  lemma OpenSellsAppend(orders: seq<Order>, o: Order, symbol: string)
    ensures OpenSells(orders + [o], symbol) == OpenSells(orders, symbol) + OpenSell(o, symbol)
  {
    assert (orders + [o])[..|orders|] == orders;
  }

  lemma {:induction false} OpenSellsNonNegative(orders: seq<Order>, symbol: string)
    requires forall i :: 0 <= i < |orders| && orders[i].live ==> orders[i].Left() > 0.0
    ensures OpenSells(orders, symbol) >= 0.0
  {
    if orders != [] {
      OpenSellsNonNegative(orders[..|orders| - 1], symbol);
    }
  }

  /** The open SELL quantity of `symbol` an event fills or cancels. */
  function Released(b: Broker, e: Event, symbol: string): real {
    match e
    case Fill(i, qty) =>
      if i < |b.orders| && b.orders[i].side == Sell && b.orders[i].symbol == symbol then qty else 0.0
    case Cancel(i) => if i < |b.orders| then OpenSell(b.orders[i], symbol) else 0.0
    case PlaceBuy(_, _) => 0.0
    case PlaceSell(_, _) => 0.0
  }

  function Placed(e: Event, symbol: string): real {
    if e.PlaceSell? && e.symbol == symbol then e.qty else 0.0
  }

  /** Shares of `symbol` an event buys (negative: sells). */
  function Bought(b: Broker, e: Event, symbol: string): real {
    if e.Fill? && e.order < |b.orders| && b.orders[e.order].symbol == symbol then
      if b.orders[e.order].side == Buy then e.qty else -e.qty
    else 0.0
  }

  lemma StepStaysSane(b: Broker, e: Event)
    requires Sane(b) && Enabled(b, e)
    ensures Sane(Apply(b, e))
  {
    var before, after := b.orders, Apply(b, e).orders;
    forall i | 0 <= i < |after|
      ensures 0.0 <= after[i].traded <= after[i].requested && after[i].requested > 0.0
      ensures after[i].live ==> after[i].traded < after[i].requested
    {
      if i < |before| {
        assert 0.0 <= before[i].traded <= before[i].requested;
      }
    }
  }

  lemma StepOpenSells(b: Broker, e: Event, symbol: string)
    requires Sane(b) && Enabled(b, e)
    ensures OpenSells(Apply(b, e).orders, symbol)
         == OpenSells(b.orders, symbol) - Released(b, e, symbol) + Placed(e, symbol)
    ensures Released(b, e, symbol) >= 0.0
  {
    match e {
      case Fill(i, qty) => OpenSellsUpdate(b.orders, i, Filled(b.orders[i], qty), symbol);
      case Cancel(i) => OpenSellsUpdate(b.orders, i, b.orders[i].(live := false), symbol);
      case PlaceBuy(s, qty) => OpenSellsAppend(b.orders, Order(Buy, s, qty, 0.0, true), symbol);
      case PlaceSell(s, qty) => OpenSellsAppend(b.orders, Order(Sell, s, qty, 0.0, true), symbol);
    }
  }

  /** Every step's effect on the open SELLs, the position and what is truly sellable. */
  lemma StepEffect(b: Broker, e: Event, symbol: string)
    requires Sane(b) && Enabled(b, e)
    ensures Sane(Apply(b, e))
    ensures OpenSells(Apply(b, e).orders, symbol)
         == OpenSells(b.orders, symbol) - Released(b, e, symbol) + Placed(e, symbol)
    ensures At(Apply(b, e).net, symbol) == At(b.net, symbol) + Bought(b, e, symbol)
    ensures Released(b, e, symbol) >= 0.0
    ensures TrueSellable(Apply(b, e), symbol) >= TrueSellable(b, symbol) - Placed(e, symbol)
  {
    StepStaysSane(b, e);
    StepOpenSells(b, e, symbol);
  }

  // ---------------------------------------------------------------- runs of the broker

  ghost predicate Run(b: Broker, events: seq<Event>)
    decreases |events|
  {
    events == [] || (Enabled(b, events[0]) && Run(Apply(b, events[0]), events[1..]))
  }

  ghost function After(b: Broker, events: seq<Event>): Broker
    requires Run(b, events)
    decreases |events|
  {
    if events == [] then b else After(Apply(b, events[0]), events[1..])
  }

  ghost function ReleasedBy(b: Broker, events: seq<Event>, symbol: string): real
    requires Run(b, events)
    decreases |events|
  {
    if events == [] then 0.0
    else Released(b, events[0], symbol) + ReleasedBy(Apply(b, events[0]), events[1..], symbol)
  }

  ghost function BoughtBy(b: Broker, events: seq<Event>, symbol: string): real
    requires Run(b, events)
    decreases |events|
  {
    if events == [] then 0.0
    else Bought(b, events[0], symbol) + BoughtBy(Apply(b, events[0]), events[1..], symbol)
  }

  ghost predicate NoNewSell(events: seq<Event>, symbol: string) {
    forall i :: 0 <= i < |events| ==> Placed(events[i], symbol) == 0.0
  }

  lemma {:induction false} RunEffect(b: Broker, events: seq<Event>, symbol: string)
    requires Sane(b) && Run(b, events) && NoNewSell(events, symbol)
    ensures Sane(After(b, events)) && After(b, events).holdings == b.holdings
    ensures OpenSells(After(b, events).orders, symbol)
         == OpenSells(b.orders, symbol) - ReleasedBy(b, events, symbol)
    ensures At(After(b, events).net, symbol) == At(b.net, symbol) + BoughtBy(b, events, symbol)
    ensures ReleasedBy(b, events, symbol) >= 0.0
    ensures TrueSellable(After(b, events), symbol) >= TrueSellable(b, symbol)
    decreases |events|
  {
    if events != [] {
      assert Placed(events[0], symbol) == 0.0;
      StepEffect(b, events[0], symbol);
      forall i | 0 <= i < |events[1..]| ensures Placed(events[1..][i], symbol) == 0.0 {
        assert events[1..][i] == events[i + 1];
      }
      RunEffect(Apply(b, events[0]), events[1..], symbol);
    }
  }

  // ---------------------------------------------------------------- what the broker reports

  /** A book row tells the truth about its order, and calls it final only when it is dead. */
  ghost predicate Reports(row: Row, o: Order, extra: set<string>) {
    && row.orderId != "" && row.side == Some(o.side) && row.symbol == o.symbol
    && row.requested == Some(o.requested) && row.traded == Some(o.traded)
    && (FinalStatus(NormaliseStatus(row.status), extra) ==> !o.live)
  }

  /** ... and calls every dead order final as well. */
  ghost predicate Prompt(row: Row, o: Order, extra: set<string>) {
    !o.live ==> FinalStatus(NormaliseStatus(row.status), extra)
  }

  ghost predicate BookReports(rows: seq<Row>, b: Broker, extra: set<string>) {
    |rows| == |b.orders| && forall i :: 0 <= i < |rows| ==> Reports(rows[i], b.orders[i], extra)
  }

  ghost predicate BookPrompt(rows: seq<Row>, b: Broker, extra: set<string>) {
    |rows| == |b.orders| && forall i :: 0 <= i < |rows| ==> Prompt(rows[i], b.orders[i], extra)
  }

  lemma RowHoldsBack(row: Row, o: Order, extra: set<string>, symbol: string, orderQty: real)
    requires Reports(row, o, extra)
    requires 0.0 <= o.traded <= o.requested && o.requested > 0.0
    requires o.live ==> o.traded < o.requested
    ensures ParseOrderRow(row, extra).Some?
    ensures HeldBack(ParseOrderRow(row, extra).value, symbol, orderQty) >= OpenSell(o, symbol)
    ensures Prompt(row, o, extra) ==>
      HeldBack(ParseOrderRow(row, extra).value, symbol, orderQty) == OpenSell(o, symbol)
  {
    OpenExactlyWhen(NormaliseStatus(row.status), row.traded, row.requested, extra);
  }

  lemma {:induction false} BookHoldsBack(rows: seq<Row>, b: Broker, extra: set<string>,
                                         symbol: string, orderQty: real)
    requires Sane(b) && BookReports(rows, b, extra)
    ensures PendingSells(ParsedBook(rows, extra), symbol, orderQty) >= OpenSells(b.orders, symbol)
    ensures BookPrompt(rows, b, extra) ==>
      PendingSells(ParsedBook(rows, extra), symbol, orderQty) == OpenSells(b.orders, symbol)
    decreases |rows|
  {
    if rows != [] {
      var n := |rows| - 1;
      var b' := b.(orders := b.orders[..n]);
      BookHoldsBack(rows[..n], b', extra, symbol, orderQty);
      RowHoldsBack(rows[n], b.orders[n], extra, symbol, orderQty);
      var before, snap := ParsedBook(rows[..n], extra), ParseOrderRow(rows[n], extra).value;
      assert (before + [snap])[..|before|] == before;
      if BookPrompt(rows, b, extra) {
        assert BookPrompt(rows[..n], b', extra);
        assert Prompt(rows[n], b.orders[n], extra);
      }
    }
  }

  // ---------------------------------------------------------------- the read order

  /** A position or holding read that tells the truth about `symbol`. */
  ghost predicate ShowsStock(rows: seq<Stock>, m: map<string, real>, symbol: string) {
    StockOf(rows, symbol) == At(m, symbol)
  }

  /** A snapshot of `b` at the book read, then of `b'` at the positions read. */
  ghost predicate SnapshotOf(snap: BrokerSnapshot, rows: seq<Row>, b: Broker, b': Broker,
                             extra: set<string>, symbol: string)
  {
    && snap.bookError == "" && BookReports(rows, b, extra) && snap.orders == ParsedBook(rows, extra)
    && ShowsStock(snap.positions, b'.net, symbol) && ShowsStock(snap.holdings, b'.holdings, symbol)
  }

  /**
   Book first: whatever the broker does between the reads, short of accepting a new SELL, the
   snapshot never overstates what can be sold once the positions are read. With prompt statuses
   the shortfall is exactly the open SELL quantity filled or cancelled in between.
  */
  lemma BookFirstNeverOverstates(b: Broker, between: seq<Event>, snap: BrokerSnapshot, rows: seq<Row>,
                                 extra: set<string>, symbol: string, orderQty: real)
    requires Sane(b) && Run(b, between) && NoNewSell(between, symbol)
    requires SnapshotOf(snap, rows, b, After(b, between), extra, symbol)
    ensures Sellable(snap, symbol, orderQty)
         <= TrueSellable(After(b, between), symbol) - ReleasedBy(b, between, symbol)
         <= TrueSellable(After(b, between), symbol)
    ensures BookPrompt(rows, b, extra) ==>
      TrueSellable(After(b, between), symbol) - Sellable(snap, symbol, orderQty)
      == ReleasedBy(b, between, symbol)
  {
    RunEffect(b, between, symbol);
    BookHoldsBack(rows, b, extra, symbol, orderQty);
  }

  /** The broker's book at one read: if it comes as rows, they tell the truth. */
  ghost predicate ShowsBook(answer: BookAnswer, b: Broker, extra: set<string>) {
    answer.Rows? ==> BookReports(answer.rows, b, extra)
  }

  /**
   The whole read, against a broker that moves on: `b` and `retried` are the broker at the first and
   second book read, `later` and `last` its events from then until the positions are read. A snapshot
   without an error never overstates what can be sold once the positions are read.
  */
  method ReadSellable(book: seq<BookAnswer>, wall: seq<int>, positions: Result<seq<Stock>, string>,
                      holdings: Result<seq<Stock>, string>, extra: set<string>, symbol: string, orderQty: real,
                      ghost b: Broker, ghost between: seq<Event>, ghost later: seq<Event>)
    returns (snap: Option<BrokerSnapshot>)
    requires |book| == 2 && |wall| == 2
    requires Sane(b) && Run(b, between) && NoNewSell(between, symbol)
    requires Run(After(b, between), later) && NoNewSell(later, symbol)
    requires ShowsBook(book[0], b, extra) && ShowsBook(book[1], After(b, between), extra)
    requires var seen := After(After(b, between), later);
      && (positions.Success? ==> ShowsStock(positions.value, seen.net, symbol))
      && (holdings.Success? ==> ShowsStock(holdings.value, seen.holdings, symbol))
      && At(seen.holdings, symbol) >= 0.0
    ensures snap.Some? <==> positions.Success? && (book[0].Rows? || book[1].Rows?)
    ensures snap.Some? ==>
      Sellable(snap.value, symbol, orderQty) <= TrueSellable(After(After(b, between), later), symbol)
  {
    var r, calls := ReadBrokerSnapshot(book, wall, positions, holdings, true, extra);
    if r.Failure? || r.value.bookError != "" {
      return None;
    }
    RunEffect(b, between, symbol);
    RunEffect(After(b, between), later, symbol);
    if book[0].Rows? {
      BookHoldsBack(book[0].rows, b, extra, symbol, orderQty);
    } else {
      BookHoldsBack(book[1].rows, After(b, between), extra, symbol, orderQty);
    }
    return Some(r.value);
  }

  /**
   Positions first: the same sum over-counts by exactly the net quantity sold between the reads,
   so it overstates exactly when more was sold than bought.
  */
  lemma PositionsFirstOverstates(b: Broker, between: seq<Event>, snap: BrokerSnapshot, rows: seq<Row>,
                                 extra: set<string>, symbol: string, orderQty: real)
    requires Sane(b) && Run(b, between) && NoNewSell(between, symbol)
    requires SnapshotOf(snap, rows, After(b, between), b, extra, symbol)
    requires BookPrompt(rows, After(b, between), extra)
    ensures Sellable(snap, symbol, orderQty) - TrueSellable(After(b, between), symbol)
         == -BoughtBy(b, between, symbol)
    ensures Sellable(snap, symbol, orderQty) > TrueSellable(After(b, between), symbol)
       <==> BoughtBy(b, between, symbol) < 0.0
  {
    RunEffect(b, between, symbol);
    BookHoldsBack(rows, After(b, between), extra, symbol, orderQty);
  }

  /** A book that could not be read shows no orders: it overstates by every open SELL. */
  lemma UnreadBookOverstates(b: Broker, snap: BrokerSnapshot, symbol: string, orderQty: real)
    requires Sane(b) && snap.bookError != "" && snap.orders == []
    requires ShowsStock(snap.positions, b.net, symbol) && ShowsStock(snap.holdings, b.holdings, symbol)
    ensures Sellable(snap, symbol, orderQty) - TrueSellable(b, symbol) == OpenSells(b.orders, symbol)
    ensures Sellable(snap, symbol, orderQty) <= TrueSellable(b, symbol)
       <==> OpenSells(b.orders, symbol) == 0.0
  {
    OpenSellsNonNegative(b.orders, symbol);
  }

  // ---------------------------------------------------------------- whole sessions

  /** How far the one seller of a symbol has got (one per symbol: it holds the SELL lock). */
  datatype Phase =
    | Idle
    | HasBook(orders: seq<OrderSnapshot>)
    | HasSnapshot(snap: BrokerSnapshot)

  datatype System = System(broker: Broker, sellers: map<string, Phase>)

  function PhaseOf(s: System, symbol: string): Phase {
    if symbol in s.sellers then s.sellers[symbol] else Idle
  }

  datatype Action =
    | BrokerActs(event: Event)
    | TakeBook(symbol: string, rows: seq<Row>)
    | TakeRest(symbol: string, snap: BrokerSnapshot)
    | SendSell(symbol: string, qty: real)
    | GiveUp(symbol: string)

  /** A seller sends no more than its own snapshot says is sellable. */
  ghost predicate Allowed(s: System, a: Action, extra: set<string>) {
    match a
    case BrokerActs(e) => Enabled(s.broker, e) && !e.PlaceSell?
    case TakeBook(symbol, rows) => PhaseOf(s, symbol) == Idle && BookReports(rows, s.broker, extra)
    case TakeRest(symbol, snap) =>
      && PhaseOf(s, symbol).HasBook?
      && snap.bookError == "" && snap.orders == PhaseOf(s, symbol).orders
      && ShowsStock(snap.positions, s.broker.net, symbol)
      && (ShowsStock(snap.holdings, s.broker.holdings, symbol) ||
          (snap.holdingsError != "" && snap.holdings == []))
    case SendSell(symbol, qty) =>
      PhaseOf(s, symbol).HasSnapshot? && 0.0 < qty <= Sellable(PhaseOf(s, symbol).snap, symbol, qty)
    case GiveUp(symbol) => true
  }

  ghost function Do(s: System, a: Action, extra: set<string>): System
    requires Allowed(s, a, extra)
  {
    match a
    case BrokerActs(e) => s.(broker := Apply(s.broker, e))
    case TakeBook(symbol, rows) =>
      s.(sellers := s.sellers[symbol := HasBook(ParsedBook(rows, extra))])
    case TakeRest(symbol, snap) => s.(sellers := s.sellers[symbol := HasSnapshot(snap)])
    case SendSell(symbol, qty) =>
      System(Apply(s.broker, PlaceSell(symbol, qty)), s.sellers[symbol := Idle])
    case GiveUp(symbol) => s.(sellers := s.sellers[symbol := Idle])
  }

  ghost predicate SellerCovered(s: System, symbol: string) {
    match PhaseOf(s, symbol)
    case Idle => true
    case HasBook(orders) =>
      forall q :: PendingSells(orders, symbol, q) >= OpenSells(s.broker.orders, symbol)
    case HasSnapshot(snap) =>
      forall q :: Sellable(snap, symbol, q) <= TrueSellable(s.broker, symbol)
  }

  /** Nothing is oversold, and no seller believes more than the truth. */
  ghost predicate Covered(s: System) {
    && Sane(s.broker)
    && (forall symbol :: At(s.broker.holdings, symbol) >= 0.0)
    && (forall symbol :: TrueSellable(s.broker, symbol) >= 0.0)
    && (forall symbol :: SellerCovered(s, symbol))
  }

  lemma StepKeepsCovered(s: System, a: Action, extra: set<string>)
    requires Covered(s) && Allowed(s, a, extra)
    ensures Covered(Do(s, a, extra))
  {
    var s' := Do(s, a, extra);
    forall symbol ensures TrueSellable(s'.broker, symbol) >= 0.0 && SellerCovered(s', symbol) {
      StepKeepsSymbol(s, a, extra, symbol);
    }
    if a.BrokerActs? {
      StepEffect(s.broker, a.event, "");
    } else if a.SendSell? {
      StepEffect(s.broker, PlaceSell(a.symbol, a.qty), "");
    }
  }

  lemma StepKeepsSymbol(s: System, a: Action, extra: set<string>, symbol: string)
    requires Covered(s) && Allowed(s, a, extra)
    ensures TrueSellable(Do(s, a, extra).broker, symbol) >= 0.0
    ensures SellerCovered(Do(s, a, extra), symbol)
  {
    var s' := Do(s, a, extra);
    assert SellerCovered(s, symbol) && TrueSellable(s.broker, symbol) >= 0.0;
    assert At(s.broker.holdings, symbol) >= 0.0;
    match a {
      case BrokerActs(e) =>
        StepEffect(s.broker, e, symbol);
      case TakeBook(sym, rows) =>
        if sym == symbol {
          forall q ensures PendingSells(ParsedBook(rows, extra), symbol, q) >= OpenSells(s.broker.orders, symbol) {
            BookHoldsBack(rows, s.broker, extra, symbol, q);
          }
        }
      case TakeRest(sym, snap) =>
      case SendSell(sym, qty) =>
        StepEffect(s.broker, PlaceSell(sym, qty), symbol);
      case GiveUp(sym) =>
    }
  }

  ghost predicate Session(s: System, actions: seq<Action>, extra: set<string>)
    decreases |actions|
  {
    actions == [] ||
    (Allowed(s, actions[0], extra) && Session(Do(s, actions[0], extra), actions[1..], extra))
  }

  ghost function EndOf(s: System, actions: seq<Action>, extra: set<string>): System
    requires Session(s, actions, extra)
    decreases |actions|
  {
    if actions == [] then s else EndOf(Do(s, actions[0], extra), actions[1..], extra)
  }

  /**
   No interleaving of fills, cancels, BUYs, reads and SELLs, over any number of symbols, ever
   leaves an account short: every share sold was held.
  */
  lemma {:induction false} NeverShort(s: System, actions: seq<Action>, extra: set<string>)
    requires Covered(s) && Session(s, actions, extra)
    ensures Covered(EndOf(s, actions, extra))
    ensures forall symbol ::
      At(EndOf(s, actions, extra).broker.holdings, symbol) + At(EndOf(s, actions, extra).broker.net, symbol) >= 0.0
    decreases |actions|
  {
    if actions == [] {
      forall symbol ensures At(s.broker.holdings, symbol) + At(s.broker.net, symbol) >= 0.0 {
        OpenSellsNonNegative(s.broker.orders, symbol);
        assert TrueSellable(s.broker, symbol) >= 0.0;
      }
    } else {
      StepKeepsCovered(s, actions[0], extra);
      NeverShort(Do(s, actions[0], extra), actions[1..], extra);
    }
  }

  /**
   The reads the other way round: ten held, ten in an open SELL that fills between the reads. The
   sum still says ten, and the SELL of those ten leaves the account ten short.
  */
  lemma PositionsFirstGoesShort()
    ensures var b := ShortStart();
      && Covered(System(b, map[])) && Run(b, [Fill(0, 10.0)])
      && At(b.net, "X") - OpenSells(After(b, [Fill(0, 10.0)]).orders, "X") == 10.0
      && Run(b, [Fill(0, 10.0), PlaceSell("X", 10.0), Fill(1, 10.0)])
      && At(After(b, [Fill(0, 10.0), PlaceSell("X", 10.0), Fill(1, 10.0)]).net, "X") == -10.0
  {
    var b := ShortStart();
    var e0, e1, e2 := Fill(0, 10.0), PlaceSell("X", 10.0), Fill(1, 10.0);
    ShortStartIsCovered();
    var m, n := Apply(b, e0), Apply(Apply(b, e0), e1);
    FillEmptiesShortStart();
    hide Apply, Covered, OpenSells, ShortStart;
    OneEvent(b, e0);
    OneEvent(n, e2);
    FirstEvent(m, e1, [e2]);
    FirstEvent(b, e0, [e1, e2]);
    assert [e1] + [e2] == [e1, e2] && [e0] + [e1, e2] == [e0, e1, e2];
  }

  lemma FillEmptiesShortStart()
    ensures var b := ShortStart();
      && Enabled(b, Fill(0, 10.0)) && At(b.net, "X") == 10.0
      && var m := Apply(b, Fill(0, 10.0));
         && OpenSells(m.orders, "X") == 0.0 && Enabled(m, PlaceSell("X", 10.0))
         && var n := Apply(m, PlaceSell("X", 10.0));
            Enabled(n, Fill(1, 10.0)) && At(Apply(n, Fill(1, 10.0)).net, "X") == -10.0
  {
    var m := Apply(ShortStart(), Fill(0, 10.0));
    assert m.orders == [Order(Sell, "X", 10.0, 10.0, false)] && m.orders[..0] == [];
  }

  lemma FirstEvent(b: Broker, e: Event, rest: seq<Event>)
    requires Enabled(b, e) && Run(Apply(b, e), rest)
    ensures Run(b, [e] + rest) && After(b, [e] + rest) == After(Apply(b, e), rest)
  {
    hide Apply, Enabled;
    assert ([e] + rest)[1..] == rest;
  }

  ghost function ShortStart(): Broker {
    Broker([Order(Sell, "X", 10.0, 0.0, true)], map["X" := 10.0], map[])
  }

  lemma ShortStartIsCovered()
    ensures Covered(System(ShortStart(), map[]))
  {
    var b := ShortStart();
    forall symbol ensures TrueSellable(b, symbol) >= 0.0 && SellerCovered(System(b, map[]), symbol) {
      assert b.orders[..0] == [];
      assert OpenSells(b.orders, symbol) == OpenSell(b.orders[0], symbol);
    }
  }

  lemma OneEvent(b: Broker, e: Event)
    requires Enabled(b, e)
    ensures Run(b, [e]) && After(b, [e]) == Apply(b, e)
  {
    assert [e][1..] == [];
  }
}
