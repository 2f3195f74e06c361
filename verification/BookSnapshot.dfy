/** One read of the order book, positions and holdings: skopaq/broker/book_snapshot.py. */
module BookSnapshot {
  import opened Lists
  import opened Wrappers
  import opened OrderStatus

  /** What one `get_order_book` call can come back with. */
  datatype BookAnswer =
    | Rows(rows: seq<Row>)
    | NotAList(typeName: string)
    | Raised(exception: string, text: string)

  /** A quantity of one instrument, as a position row or a holding row. */
  datatype Stock = Stock(symbol: string, quantity: real)

  datatype BrokerSnapshot = BrokerSnapshot(
    orders: seq<OrderSnapshot>, positions: seq<Stock>, holdings: seq<Stock>,
    readAt: int, bookError: string, holdingsError: string)

  /** The calls a read makes, in the order it makes them. */
  datatype Call = ReadBook | Pause | ReadPositions | ReadHoldings

  /** The rows that carry an order id, parsed, in book order. */
  function ParsedBook(rows: seq<Row>, extraTerminal: set<string>): (parsed: seq<OrderSnapshot>)
    ensures |parsed| <= |rows|
  {
    if rows == [] then []
    else
      var before := ParsedBook(rows[..|rows| - 1], extraTerminal);
      match ParseOrderRow(rows[|rows| - 1], extraTerminal)
      case Some(snap) => before + [snap]
      case None => before
  }

  /** `parse_order_book`: a row without an order id is dropped, the rest are kept. */
  method ParseOrderBook(rows: seq<Row>, extraTerminal: set<string>) returns (parsed: seq<OrderSnapshot>)
    ensures parsed == ParsedBook(rows, extraTerminal)
  {
    parsed := [];
    for i := 0 to |rows|
      invariant parsed == ParsedBook(rows[..i], extraTerminal)
    {
      assert rows[..i + 1][..i] == rows[..i];
      var snap := ParseOrderRow(rows[i], extraTerminal);
      if snap.Some? {
        parsed := parsed + [snap.value];
      }
    }
    assert rows[..|rows|] == rows;
  }

  ghost predicate HasId(row: Row) { row.orderId != "" }

  /** The parsed book is the rows with an order id, each once and in book order: `at` says where every
      one of them stood, and no such row is missing. */
  lemma {:induction false} BookKeepsEveryRow(rows: seq<Row>, extraTerminal: set<string>) returns (at: seq<nat>)
    ensures Picks(at, rows, HasId) && |at| == |ParsedBook(rows, extraTerminal)|
    ensures forall k :: 0 <= k < |at| ==>
      at[k] < |rows| && ParseOrderRow(rows[at[k]], extraTerminal) == Some(ParsedBook(rows, extraTerminal)[k])
  {
    hide Picks;
    if rows == [] {
      at := [];
      PickNone(HasId);
    } else {
      var n := |rows| - 1;
      at := BookKeepsEveryRow(rows[..n], extraTerminal);
      PickOneMore(at, rows[..n], HasId, rows[n]);
      assert rows == rows[..n] + [rows[n]];
      IdIsNeeded(rows[n], extraTerminal);
      hide ParseOrderRow;
      if HasId(rows[n]) {
        at := at + [n];
      }
    }
  }

  lemma IdIsNeeded(row: Row, extraTerminal: set<string>)
    ensures ParseOrderRow(row, extraTerminal).Some? <==> HasId(row)
  {}

  /** The text recorded for a book read that failed. */
  function BookErrorText(answer: BookAnswer): string
    requires !answer.Rows?
  {
    match answer
    case NotAList(name) => "TypeError: order book is a " + name + ", not a list of rows"
    case Raised(exception, text) => exception + ": " + text
  }

  /**
   Order book (one retry after a pause), then positions, then holdings. A positions error
   escapes; a book or holdings error is reported in the snapshot.
  */
  method ReadBrokerSnapshot(book: seq<BookAnswer>, wall: seq<int>,
                            positions: Result<seq<Stock>, string>,
                            holdings: Result<seq<Stock>, string>,
                            needHoldings: bool, extraTerminal: set<string>)
    returns (r: Result<BrokerSnapshot, string>, calls: seq<Call>)
    requires |book| == 2 && |wall| == 2
    ensures calls == (if book[0].Rows? then [ReadBook] else [ReadBook, Pause, ReadBook])
                     + [ReadPositions]
                     + (if positions.Success? && needHoldings then [ReadHoldings] else [])
    ensures r.Failure? <==> positions.Failure?
    ensures r.Failure? ==> r.error == positions.error
    ensures r.Success? ==> r.value.positions == positions.value
    ensures r.Success? ==> (r.value.bookError == "" <==> book[0].Rows? || book[1].Rows?)
    ensures r.Success? && book[0].Rows? ==>
      r.value.orders == ParsedBook(book[0].rows, extraTerminal) && r.value.readAt == wall[0]
    ensures r.Success? && !book[0].Rows? ==> r.value.readAt == wall[1]
    ensures r.Success? && !book[0].Rows? && book[1].Rows? ==>
      r.value.orders == ParsedBook(book[1].rows, extraTerminal)
    ensures r.Success? && !book[0].Rows? && !book[1].Rows? ==>
      r.value.orders == [] && r.value.bookError == BookErrorText(book[1])
    ensures r.Success? && !book[0].Rows? && book[1].Raised? ==>
      r.value.bookError == book[1].exception + ": " + book[1].text
    ensures r.Success? && !book[0].Rows? && book[1].NotAList? ==>
      r.value.bookError == "TypeError: order book is a " + book[1].typeName + ", not a list of rows"
    ensures r.Success? && needHoldings && holdings.Success? ==>
      r.value.holdings == holdings.value && r.value.holdingsError == ""
    ensures r.Success? && needHoldings && holdings.Failure? ==>
      r.value.holdings == [] && r.value.holdingsError == holdings.error
    ensures r.Success? && !needHoldings ==> r.value.holdings == [] && r.value.holdingsError == ""
  {
    var orders: seq<OrderSnapshot> := [];
    var bookError := "";
    var readAt := wall[0];
    calls := [];
    var attempt := 0;
    while attempt < 2
      invariant 0 <= attempt <= 2
      invariant attempt == 0 ==> orders == [] && bookError == "" && calls == []
      invariant attempt == 1 ==> !book[0].Rows? && orders == [] && calls == [ReadBook, Pause]
      invariant attempt == 2 ==> !book[0].Rows? && !book[1].Rows? && orders == [] &&
                                 readAt == wall[1] && bookError == BookErrorText(book[1]) &&
                                 calls == [ReadBook, Pause, ReadBook]
    {
      readAt := wall[attempt];
      calls := calls + [ReadBook];
      if book[attempt].Rows? {
        orders := ParseOrderBook(book[attempt].rows, extraTerminal);
        bookError := "";
        break;
      }
      bookError := BookErrorText(book[attempt]);
      if attempt == 0 {
        calls := calls + [Pause];
      }
      attempt := attempt + 1;
    }

    calls := calls + [ReadPositions];
    if positions.Failure? {
      return Failure(positions.error), calls;
    }
    var held: seq<Stock> := [];
    var holdingsError := "";
    if needHoldings {
      calls := calls + [ReadHoldings];
      match holdings {
        case Success(rows) => held := rows;
        case Failure(error) => holdingsError := error;
      }
    }
    r := Success(BrokerSnapshot(orders, positions.value, held, readAt, bookError, holdingsError));
  }

  // ---------------------------------------------------------------- what is left to sell

  function StockOf(rows: seq<Stock>, symbol: string): real {
    if rows == [] then 0.0
    else StockOf(rows[..|rows| - 1], symbol)
         + (if rows[|rows| - 1].symbol == symbol then rows[|rows| - 1].quantity else 0.0)
  }

  /** What one book row holds back from a SELL; an unknown remainder holds back a whole order. */
  function HeldBack(o: OrderSnapshot, symbol: string, orderQty: real): real {
    if o.side == Some(Buy) || o.symbol != symbol || !IsOpen(o.state) then 0.0
    else match o.RemainingQty()
      case None => orderQty
      case Some(left) => left
  }

  /** In the row's own fields: only an order that may still sell this symbol holds anything back, which a
      side the broker did not name may; what it holds back is what has not traded, or a whole order when
      the requested quantity is unknown. */
  lemma HeldBackIs(o: OrderSnapshot, symbol: string, orderQty: real)
    ensures var q := HeldBack(o, symbol, orderQty);
      if o.side == Some(Buy) || o.symbol != symbol || (o.state != Working && o.state != Unrecognised) then q == 0.0
      else match o.requested
        case None => q == orderQty
        case Some(requested) =>
          q >= 0.0 && (o.traded.None? && requested >= 0.0 ==> q == requested)
          && (o.traded.Some? && o.traded.value <= requested ==> q == requested - o.traded.value)
          && (o.traded.Some? && o.traded.value > requested ==> q == 0.0)
  {}

  function PendingSells(orders: seq<OrderSnapshot>, symbol: string, orderQty: real): real {
    if orders == [] then 0.0
    else PendingSells(orders[..|orders| - 1], symbol, orderQty)
         + HeldBack(orders[|orders| - 1], symbol, orderQty)
  }

  /** A row more in the book, or a line more in the positions, counts for exactly what it holds. */
  lemma OneMoreRow(orders: seq<OrderSnapshot>, o: OrderSnapshot, stocks: seq<Stock>, line: Stock,
                   symbol: string, orderQty: real)
    ensures PendingSells([], symbol, orderQty) == 0.0 && StockOf([], symbol) == 0.0
    ensures PendingSells(orders + [o], symbol, orderQty)
         == PendingSells(orders, symbol, orderQty) + HeldBack(o, symbol, orderQty)
    ensures StockOf(stocks + [line], symbol)
         == StockOf(stocks, symbol) + (if line.symbol == symbol then line.quantity else 0.0)
  {
    assert (orders + [o])[..|orders|] == orders && (stocks + [line])[..|stocks|] == stocks;
  }

  /** Holdings plus positions less the open remainder of SELLs, from one snapshot. */
  function Sellable(snap: BrokerSnapshot, symbol: string, orderQty: real): real {
    StockOf(snap.holdings, symbol) + StockOf(snap.positions, symbol)
    - PendingSells(snap.orders, symbol, orderQty)
  }
}
