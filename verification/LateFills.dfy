/**
 Booking shares the broker confirms after an order was reported: `_record_late_fill` in
 skopaq/cli/main.py, on BUY rows that exits close or split in between.
*/
module LateFills {
  import opened Rounding
  import opened Wrappers

  const FLAT_FEE := 20.0

  /** A BUY row of the trade table. `lot` is the order that bought its shares: a late-fill row records
      it as `late_fill_of`, a remainder inherits it through `split_from`. */
  datatype BuyRow = BuyRow(orderId: Option<string>, lot: string, quantity: real, fillPrice: Option<real>,
                           closed: bool, brokerage: real)

  /** Shares of a stuck exit that filled later, booked as an exit of their own. */
  datatype Exit = Exit(order: string, quantity: real, price: real, fee: real)

  datatype Side = Buy | Sell

  /** What the process still knows about the order: its id and the prices it may fall back on. */
  datatype Order = Order(id: string, side: Side, limit: Option<real>, reference: Option<real>)

  /** What has been reported so far, and what the broker confirms now. */
  datatype Reported = Reported(filled: real, average: Option<real>)
  datatype Confirmation = Confirmation(filled: Option<real>, average: Option<real>)

  /** The trade table as a booking finds it. */
  datatype Repository = NotConfigured | Unreachable | Ready(writes: bool)

  /** Python's `x or y` on optional numbers. */
  predicate Truthy(x: Option<real>) { x.Some? && x.value != 0.0 }

  function Or(x: Option<real>, y: Option<real>): Option<real> { if Truthy(x) then x else y }

  // ---------------------------------------------------------------- the price of the new shares

  function RawDelta(averageNow: real, filledNow: real, averageBefore: real, filledBefore: real): real
    requires filledNow > filledBefore
  {
    (averageNow * filledNow - averageBefore * filledBefore) / (filledNow - filledBefore)
  }

  /** `_delta_price`. */
  function DeltaPrice(now: Option<real>, filledNow: real, before: Option<real>, filledBefore: real): Option<real>
    requires filledNow > filledBefore
  {
    if now.None? then None
    else if before.None? || filledBefore == 0.0 then now
    else
      var raw := RawDelta(now.value, filledNow, before.value, filledBefore);
      if raw > 0.0 then Some(RoundFour(raw)) else now
  }

  function Times(x: real, y: real): real { x * y }

  /** The value the new shares add, given both averages. */
  lemma RawDeltaIsDifference(p: real, f: real, p0: real, f0: real)
    requires f > f0
    ensures Times(f - f0, RawDelta(p, f, p0, f0)) == Times(p, f) - Times(p0, f0)
  {}

  lemma TimesError(x: real, y: real, z: real)
    requires x >= 0.0 && -0.00005 <= y - z <= 0.00005
    ensures -0.00005 * x <= Times(x, y) - Times(x, z) <= 0.00005 * x
  {
    var e := y - z;
    assert x * (0.00005 - e) >= 0.0 && x * (e + 0.00005) >= 0.0;
  }

  /** Priced at the delta price, the new shares account for the change in average times quantity. */
  lemma DeltaTelescopes(p: real, f: real, p0: Option<real>, f0: real)
    requires f > f0 >= 0.0 && (f0 > 0.0 ==> p0.Some? && RawDelta(p, f, p0.value, f0) > 0.0)
    ensures var price := DeltaPrice(Some(p), f, p0, f0).value;
      var change := Times(p, f) - (if f0 == 0.0 then 0.0 else Times(p0.value, f0));
      -0.00005 * (f - f0) <= Times(f - f0, price) - change <= 0.00005 * (f - f0)
  {
    if f0 > 0.0 {
      hide RawDelta, Times, RoundFour;
      RawDeltaIsDifference(p, f, p0.value, f0);
      var raw := RawDelta(p, f, p0.value, f0);
      TimesError(f - f0, RoundFour(raw), raw);
    } else {
      assert f - f0 == f && Times(f, p) == Times(p, f);
    }
  }

  /**
   When the raw delta is not positive the current average is used instead, and the new shares are
   over-valued by more than their whole price: the telescoping holds exactly when it is positive.
  */
  lemma NonPositiveDeltaOvervalues(p: real, f: real, p0: real, f0: real)
    requires f > f0 > 0.0 && p > 0.00005
    ensures var price := DeltaPrice(Some(p), f, Some(p0), f0).value;
      var change := Times(p, f) - Times(p0, f0);
      -0.00005 * (f - f0) <= Times(f - f0, price) - change <= 0.00005 * (f - f0)
      <==> RawDelta(p, f, p0, f0) > 0.0
  {
    if RawDelta(p, f, p0, f0) > 0.0 {
      DeltaTelescopes(p, f, Some(p0), f0);
    } else {
      RawDeltaIsDifference(p, f, p0, f0);
      NonPositiveProduct(f - f0, RawDelta(p, f, p0, f0));
      PositiveGap(f - f0, p);
    }
  }

  lemma NonPositiveProduct(x: real, y: real)
    requires x > 0.0 && y <= 0.0
    ensures Times(x, y) <= 0.0
  {}

  lemma PositiveGap(x: real, p: real)
    requires x > 0.0 && p > 0.00005
    ensures Times(x, p) > 0.00005 * x
  {}

  /** The price of the new shares, by what is known: none without an average, the average itself when there
      is nothing to subtract or the difference is not positive, else the difference, to four decimals. */
  lemma DeltaPriceMeans(now: Option<real>, f: real, before: Option<real>, f0: real)
    requires f > f0
    ensures var price := DeltaPrice(now, f, before, f0);
      && (price.None? <==> now.None?)
      && (now.Some? && (before.None? || f0 == 0.0) ==> price == now)
      && (now.Some? && before.Some? && f0 != 0.0 ==>
            var raw := RawDelta(now.value, f, before.value, f0);
            if raw > 0.0 then -0.00005 <= price.value - raw <= 0.00005 else price == now)
  {}

  // ---------------------------------------------------------------- booking

  /** The row carrying this order's own id: `find_by_order_id`. */
  function Find(rows: seq<BuyRow>, id: string): (i: Option<nat>)
    ensures i.Some? ==> i.value < |rows| && rows[i.value].orderId == Some(id)
    ensures i.None? ==> forall k :: 0 <= k < |rows| ==> rows[k].orderId != Some(id)
  {
    if rows == [] then None
    else if rows[0].orderId == Some(id) then Some(0)
    else match Find(rows[1..], id)
      case None => None
      case Some(k) => Some(k + 1)
  }

  predicate IsNew(c: Confirmation, r: Reported) {
    c.filled.Some? && c.filled.value > r.filled
  }

  /** The cost basis of the whole order: the broker's average, else the limit, else the reference. */
  function Basis(o: Order, c: Confirmation): Option<real> {
    if Truthy(c.average) then c.average else if Truthy(Or(o.limit, o.reference)) then Or(o.limit, o.reference)
    else c.average
  }

  function NewPrice(o: Order, r: Reported, c: Confirmation): Option<real>
    requires IsNew(c, r)
  {
    var price := DeltaPrice(c.average, c.filled.value, r.average, r.filled);
    if !Truthy(c.average) && Truthy(Or(o.limit, o.reference)) then Or(price, Or(o.limit, o.reference))
    else price
  }

  function FeeNow(r: Reported): real { if r.filled != 0.0 then 0.0 else FLAT_FEE }

  /** The BUY rows after a booking that the table accepted. */
  function BookedRows(rows: seq<BuyRow>, o: Order, r: Reported, c: Confirmation): seq<BuyRow>
    requires IsNew(c, r)
  {
    var filled := c.filled.value;
    var basis := Basis(o, c);
    match Find(rows, o.id)
    case Some(i) =>
      if !rows[i].closed then
        var price := if Truthy(c.average) || (Truthy(basis) && !Truthy(rows[i].fillPrice)) then basis
                     else rows[i].fillPrice;
        rows[i := rows[i].(quantity := filled, fillPrice := price)]
      else rows + [BuyRow(None, o.id, filled - r.filled, NewPrice(o, r, c), false, 0.0)]
    case None => rows + [BuyRow(Some(o.id), o.id, filled, basis, false, FeeNow(r))]
  }

  /** The exit a late SELL fill is booked as; nothing when it has no price at all. */
  function LateExit(o: Order, r: Reported, c: Confirmation): Option<Exit>
    requires IsNew(c, r)
  {
    var delta := c.filled.value - r.filled;
    var price := Or(DeltaPrice(c.average, c.filled.value, r.average, r.filled), Or(o.reference, o.limit));
    if Truthy(price) then Some(Exit(o.id, delta, price.value, FeeNow(r))) else None
  }

  /** One order being followed after it was reported. */
  class TrackedOrder {
    const order: Order
    var filledReported: real
    var averageReported: Option<real>

    constructor (order: Order, filled: real, average: Option<real>)
      ensures this.order == order && Report() == Reported(filled, average)
    {
      this.order := order;
      filledReported := filled;
      averageReported := average;
    }

    function Report(): Reported
      reads this
    {
      Reported(filledReported, averageReported)
    }
  }

  class TradeBook {
    var rows: seq<BuyRow>
    var exits: seq<Exit>

    constructor (rows: seq<BuyRow>)
      ensures this.rows == rows && exits == []
    {
      this.rows := rows;
      exits := [];
    }

    /**
     `_record_late_fill`: books only shares beyond what was reported, in the rows for a BUY and as an
     exit for a SELL; answers whether the shares need no further booking.
    */
    method RecordLateFill(tracked: TrackedOrder, c: Confirmation, repo: Repository) returns (handled: bool)
      modifies this
      ensures tracked.Report() == old(tracked.Report())
      ensures c.filled.None? || c.filled.value <= tracked.filledReported ==>
        handled && rows == old(rows) && exits == old(exits)
      ensures c.filled.Some? && c.filled.value > tracked.filledReported && tracked.order.side == Buy ==>
        && exits == old(exits)
        && (handled <==> repo == NotConfigured || repo == Ready(true))
        && rows == if repo == Ready(true) then BookedRows(old(rows), tracked.order, tracked.Report(), c)
                   else old(rows)
      ensures c.filled.Some? && c.filled.value > tracked.filledReported && tracked.order.side == Sell ==>
        var exit := LateExit(tracked.order, tracked.Report(), c);
        && rows == old(rows)
        && (handled <==> exit.None? || repo == NotConfigured || repo == Ready(true))
        && exits == if exit.Some? && repo == Ready(true) then old(exits) + [exit.value] else old(exits)
    {
      hide DeltaPrice;
      var o := tracked.order;
      var r := Reported(tracked.filledReported, tracked.averageReported);
      if c.filled.None? || c.filled.value <= r.filled {
        return true;
      }
      var filled := c.filled.value;
      var delta := filled - r.filled;
      var price := DeltaPrice(c.average, filled, r.average, r.filled);
      var fee := if r.filled != 0.0 then 0.0 else FLAT_FEE;

      if o.side == Sell {
        if !Truthy(price) {
          var estimate := Or(o.reference, o.limit);
          if !Truthy(estimate) {
            return true;
          }
          price := estimate;
        }
        if repo == Ready(true) {
          exits := exits + [Exit(o.id, delta, price.value, fee)];
        }
        return repo == NotConfigured || repo == Ready(true);
      }

      if repo == NotConfigured {
        return true;
      }
      if repo != Ready(true) {
        return false;
      }
      var average := c.average;
      if !Truthy(average) {
        var estimate := Or(o.limit, o.reference);
        if Truthy(estimate) {
          average := estimate;
          price := Or(price, average);
        }
      }
      var found := Find(rows, o.id);
      if found.Some? && !rows[found.value].closed {
        var row := rows[found.value].(quantity := filled);
        if Truthy(c.average) || (Truthy(average) && !Truthy(row.fillPrice)) {
          row := row.(fillPrice := average);
        }
        rows := rows[found.value := row];
      } else if found.Some? {
        rows := rows + [BuyRow(None, o.id, delta, price, false, 0.0)];
      } else {
        rows := rows + [BuyRow(Some(o.id), o.id, filled, average, false, fee)];
      }
      return true;
    }

    /** The caller's half: what was handled becomes the new reported total. */
    method Persist(tracked: TrackedOrder, c: Confirmation, repo: Repository) returns (handled: bool)
      requires c.filled.Some?
      modifies this, tracked
      ensures handled && c.filled.value > old(tracked.filledReported) ==>
        tracked.Report() == Reported(c.filled.value, c.average)
      ensures !handled || c.filled.value <= old(tracked.filledReported) ==>
        tracked.Report() == old(tracked.Report()) && rows == old(rows) && exits == old(exits)
      ensures handled && repo == Ready(true) && tracked.order.side == Buy && IsNew(c, old(tracked.Report())) ==>
        rows == BookedRows(old(rows), tracked.order, old(tracked.Report()), c)
      ensures tracked.order.side == Sell && IsNew(c, old(tracked.Report())) ==>
        var exit := LateExit(tracked.order, old(tracked.Report()), c);
        && (handled <==> exit.None? || repo == NotConfigured || repo == Ready(true))
        && exits == if exit.Some? && repo == Ready(true) then old(exits) + [exit.value] else old(exits)
    {
      if c.filled.value <= tracked.filledReported {
        return true;
      }
      handled := RecordLateFill(tracked, c, repo);
      if handled {
        tracked.filledReported := c.filled.value;
        tracked.averageReported := c.average;
      }
    }
  }

  // ---------------------------------------------------------------- sums over one order's rows

  function Sum(rows: seq<BuyRow>, value: BuyRow -> real): real {
    if rows == [] then 0.0 else Sum(rows[..|rows| - 1], value) + value(rows[|rows| - 1])
  }

  lemma SumAppend(rows: seq<BuyRow>, row: BuyRow, value: BuyRow -> real)
    ensures Sum(rows + [row], value) == Sum(rows, value) + value(row)
  {
    assert (rows + [row])[..|rows|] == rows;
  }

  lemma {:induction false} SumUpdate(rows: seq<BuyRow>, i: nat, row: BuyRow, value: BuyRow -> real)
    requires i < |rows|
    ensures Sum(rows[i := row], value) == Sum(rows, value) - value(rows[i]) + value(row)
  {
    var n := |rows| - 1;
    if i < n {
      assert rows[i := row][..n] == rows[..n][i := row];
      SumUpdate(rows[..n], i, row, value);
    } else {
      assert rows[i := row][..n] == rows[..n];
    }
  }

  /** Only the rows where `value` is not zero matter. */
  lemma {:induction false} SumOfNone(rows: seq<BuyRow>, value: BuyRow -> real)
    requires forall i :: 0 <= i < |rows| ==> value(rows[i]) == 0.0
    ensures Sum(rows, value) == 0.0
  {
    if rows != [] {
      SumOfNone(rows[..|rows| - 1], value);
    }
  }

  lemma {:induction false} SumOfOne(rows: seq<BuyRow>, i: nat, value: BuyRow -> real)
    requires i < |rows|
    requires forall k :: 0 <= k < |rows| && k != i ==> value(rows[k]) == 0.0
    ensures Sum(rows, value) == value(rows[i])
  {
    var n := |rows| - 1;
    if i < n {
      SumOfOne(rows[..n], i, value);
    } else {
      SumOfNone(rows[..n], value);
    }
  }

  function QuantityOf(lot: string): BuyRow -> real {
    (row: BuyRow) => if row.lot == lot then row.quantity else 0.0
  }

  function PriceOf(row: BuyRow): real { if row.fillPrice.Some? then row.fillPrice.value else 0.0 }

  function ValueOf(lot: string): BuyRow -> real {
    (row: BuyRow) => if row.lot == lot then Times(row.quantity, PriceOf(row)) else 0.0
  }

  function FeeOf(lot: string): BuyRow -> real {
    (row: BuyRow) => if row.lot == lot then row.brokerage else 0.0
  }

  // ---------------------------------------------------------------- one order, any run

  /** The rows belong to `lot` as the bookings and the exits leave them. */
  ghost predicate Orderly(rows: seq<BuyRow>, lot: string) {
    && (forall i :: 0 <= i < |rows| && rows[i].orderId == Some(lot) ==> rows[i].lot == lot)
    && (forall i, j | 0 <= i < |rows| && 0 <= j < |rows| && i != j ::
          rows[i].orderId == Some(lot) && rows[j].lot == lot ==>
            rows[i].closed && rows[j].orderId != Some(lot))
    && ((forall i :: 0 <= i < |rows| ==> rows[i].orderId != Some(lot)) ==>
          forall i :: 0 <= i < |rows| ==> rows[i].lot != lot)
  }

  ghost predicate NoRows(rows: seq<BuyRow>, lot: string) {
    forall i :: 0 <= i < |rows| ==> rows[i].lot != lot
  }

  /** Everything reported is in the rows, or no row was ever written. */
  ghost predicate Accounted(rows: seq<BuyRow>, lot: string, r: Reported) {
    Orderly(rows, lot) && r.filled >= 0.0 &&
    (NoRows(rows, lot) || Sum(rows, QuantityOf(lot)) == r.filled)
  }

  /** The rows' cost is the reported average times quantity, to the delta price's rounding. */
  ghost predicate Valued(rows: seq<BuyRow>, lot: string, r: Reported) {
    NoRows(rows, lot) ||
    (r.average.Some? &&
     -0.00005 * r.filled <= Sum(rows, ValueOf(lot)) - Times(r.average.value, r.filled) <= 0.00005 * r.filled)
  }

  /** What can happen to the table between two confirmations. */
  datatype Event =
    | CloseRow(row: nat)
    | SplitRow(row: nat, sold: real)
    | OtherBooking(order: Order, reported: Reported, confirmed: Confirmation)
    | Confirm(confirmed: Confirmation, writes: bool)

  datatype State = State(rows: seq<BuyRow>, reported: Reported)

  /** An exit of part of a row: it closes with the sold part, the rest goes on as a row of its own. */
  function Split(rows: seq<BuyRow>, i: nat, sold: real): seq<BuyRow>
    requires i < |rows|
  {
    rows[i := rows[i].(quantity := sold, closed := true)]
    + [BuyRow(None, rows[i].lot, rows[i].quantity - sold, rows[i].fillPrice, false, 0.0)]
  }

  ghost predicate Possible(s: State, o: Order, e: Event) {
    match e
    case CloseRow(i) => i < |s.rows|
    case SplitRow(i, sold) => i < |s.rows| && !s.rows[i].closed && 0.0 < sold < s.rows[i].quantity
    case OtherBooking(o', r, c) => o'.id != o.id && IsNew(c, r) && Orderly(s.rows, o'.id)
    case Confirm(c, _) => true
  }

  ghost function Next(s: State, o: Order, e: Event): State
    requires Possible(s, o, e)
  {
    match e
    case CloseRow(i) => s.(rows := s.rows[i := s.rows[i].(closed := true)])
    case SplitRow(i, sold) => s.(rows := Split(s.rows, i, sold))
    case OtherBooking(o', r, c) => s.(rows := BookedRows(s.rows, o', r, c))
    case Confirm(c, writes) =>
      if writes && IsNew(c, s.reported) then
        State(BookedRows(s.rows, o, s.reported, c), Reported(c.filled.value, c.average))
      else s
  }

  lemma SplitKeepsSum(rows: seq<BuyRow>, i: nat, sold: real, value: BuyRow -> real)
    requires i < |rows|
    ensures Sum(Split(rows, i, sold), value)
         == Sum(rows, value) - value(rows[i]) + value(rows[i].(quantity := sold, closed := true))
            + value(BuyRow(None, rows[i].lot, rows[i].quantity - sold, rows[i].fillPrice, false, 0.0))
  {
    var row := rows[i].(quantity := sold, closed := true);
    SumUpdate(rows, i, row, value);
    SumAppend(rows[i := row], BuyRow(None, rows[i].lot, rows[i].quantity - sold, rows[i].fillPrice, false, 0.0), value);
  }

  /** Closing or splitting rows moves no shares, value or fees between orders. */
  lemma ExitsKeepSums(s: State, o: Order, e: Event)
    requires Possible(s, o, e) && (e.CloseRow? || e.SplitRow?)
    ensures Sum(Next(s, o, e).rows, QuantityOf(o.id)) == Sum(s.rows, QuantityOf(o.id))
    ensures Sum(Next(s, o, e).rows, ValueOf(o.id)) == Sum(s.rows, ValueOf(o.id))
    ensures Sum(Next(s, o, e).rows, FeeOf(o.id)) == Sum(s.rows, FeeOf(o.id))
    ensures Orderly(s.rows, o.id) ==> Orderly(Next(s, o, e).rows, o.id)
    ensures NoRows(Next(s, o, e).rows, o.id) <==> NoRows(s.rows, o.id)
  {
    var i := e.row;
    match e {
      case CloseRow(_) =>
        var row := s.rows[i].(closed := true);
        SumUpdate(s.rows, i, row, QuantityOf(o.id));
        SumUpdate(s.rows, i, row, ValueOf(o.id));
        SumUpdate(s.rows, i, row, FeeOf(o.id));
        CloseKeepsOrderly(s.rows, i, o.id);
      case SplitRow(_, sold) =>
        SplitKeepsSum(s.rows, i, sold, QuantityOf(o.id));
        SplitKeepsSum(s.rows, i, sold, ValueOf(o.id));
        SplitKeepsSum(s.rows, i, sold, FeeOf(o.id));
        SplitTimes(sold, s.rows[i].quantity, PriceOf(s.rows[i]));
        SplitKeepsOrderly(s.rows, i, sold, o.id);
    }
  }

  lemma SplitTimes(sold: real, quantity: real, price: real)
    ensures Times(sold, price) + Times(quantity - sold, price) == Times(quantity, price)
  {}

  lemma CloseKeepsOrderly(rows: seq<BuyRow>, i: nat, lot: string)
    requires i < |rows|
    ensures var r := rows[i := rows[i].(closed := true)];
      (Orderly(rows, lot) ==> Orderly(r, lot)) && (NoRows(r, lot) <==> NoRows(rows, lot))
  {
    var r := rows[i := rows[i].(closed := true)];
    assert forall k :: 0 <= k < |rows| ==> r[k].orderId == rows[k].orderId && r[k].lot == rows[k].lot;
  }

  lemma SplitKeepsOrderly(rows: seq<BuyRow>, i: nat, sold: real, lot: string)
    requires i < |rows|
    ensures (Orderly(rows, lot) ==> Orderly(Split(rows, i, sold), lot))
    ensures NoRows(Split(rows, i, sold), lot) <==> NoRows(rows, lot)
  {
    var r, n := Split(rows, i, sold), |rows|;
    assert forall k :: 0 <= k < n ==> r[k].orderId == rows[k].orderId && r[k].lot == rows[k].lot;
    assert r[n].orderId == None && r[n].lot == rows[i].lot;
    if Orderly(rows, lot) {
      forall p, q | 0 <= p < |r| && 0 <= q < |r| && r[p].orderId == Some(lot) && r[q].lot == lot && p != q
        ensures r[p].closed && r[q].orderId != Some(lot)
      {
        if q == n && p != i {
          assert rows[p].orderId == Some(lot) && rows[i].lot == lot;
        }
      }
    }
  }

  /** A booking touches only rows of its own order. */
  lemma BookingIsLocal(rows: seq<BuyRow>, o: Order, r: Reported, c: Confirmation, lot: string,
                       value: BuyRow -> real)
    requires IsNew(c, r) && o.id != lot && Orderly(rows, o.id)
    requires forall row: BuyRow :: row.lot != lot ==> value(row) == 0.0
    ensures Sum(BookedRows(rows, o, r, c), value) == Sum(rows, value)
    ensures Orderly(rows, lot) ==> Orderly(BookedRows(rows, o, r, c), lot)
    ensures NoRows(BookedRows(rows, o, r, c), lot) <==> NoRows(rows, lot)
  {
    hide DeltaPrice, Basis, NewPrice;
    var b := BookedRows(rows, o, r, c);
    match Find(rows, o.id) {
      case Some(i) =>
        assert rows[i].lot == o.id;
        if rows[i].closed {
          SumAppend(rows, b[|rows|], value);
        } else {
          SumUpdate(rows, i, b[i], value);
        }
      case None =>
        SumAppend(rows, b[|rows|], value);
    }
    BookingKeepsOthers(rows, o, r, c, lot);
  }

  lemma BookingKeepsOthers(rows: seq<BuyRow>, o: Order, r: Reported, c: Confirmation, lot: string)
    requires IsNew(c, r) && o.id != lot && Orderly(rows, o.id)
    ensures Orderly(rows, lot) ==> Orderly(BookedRows(rows, o, r, c), lot)
    ensures NoRows(BookedRows(rows, o, r, c), lot) <==> NoRows(rows, lot)
  {
    hide DeltaPrice, Basis, NewPrice, FeeNow;
    var b, n := BookedRows(rows, o, r, c), |rows|;
    forall k | 0 <= k < n
      ensures b[k].orderId == rows[k].orderId && b[k].lot == rows[k].lot && b[k].closed == rows[k].closed
    {
      if b[k] != rows[k] {
        assert Find(rows, o.id) == Some(k);
      }
    }
    assert |b| == n || (|b| == n + 1 && b[n].lot == o.id && b[n].orderId != Some(lot));
    if NoRows(b, lot) {
      forall k | 0 <= k < n ensures rows[k].lot != lot { assert b[k].lot != lot; }
    }
    if Orderly(rows, lot) {
      forall i, j | 0 <= i < |b| && 0 <= j < |b| && i != j && b[i].orderId == Some(lot) && b[j].lot == lot
        ensures b[i].closed && b[j].orderId != Some(lot)
      {
        assert i < n && j < n;
      }
      if forall i :: 0 <= i < |b| ==> b[i].orderId != Some(lot) {
        forall i | 0 <= i < n ensures rows[i].orderId != Some(lot) { assert b[i].orderId != Some(lot); }
      }
    }
  }

  /** After an accepted booking the rows hold exactly the confirmed shares, wherever the row was. */
  lemma BookingAccounts(rows: seq<BuyRow>, o: Order, r: Reported, c: Confirmation)
    requires IsNew(c, r) && Accounted(rows, o.id, r)
    ensures Accounted(BookedRows(rows, o, r, c), o.id, Reported(c.filled.value, c.average))
    ensures Sum(BookedRows(rows, o, r, c), QuantityOf(o.id)) == c.filled.value
    ensures !NoRows(BookedRows(rows, o, r, c), o.id)
  {
    BookingKeepsOwnOrder(rows, o, r, c);
    BookingSums(rows, o, r, c);
    hide BookedRows, Orderly, Sum;
  }

  lemma BookingKeepsOwnOrder(rows: seq<BuyRow>, o: Order, r: Reported, c: Confirmation)
    requires IsNew(c, r) && Orderly(rows, o.id)
    ensures Orderly(BookedRows(rows, o, r, c), o.id) && !NoRows(BookedRows(rows, o, r, c), o.id)
  {
    BookingOpensOnly(rows, o, r, c);
    var b, n := BookedRows(rows, o, r, c), |rows|;
    var found := Find(rows, o.id);
    assert found.Some? ==> b[found.value].lot == o.id;
    assert found.None? ==> |b| == n + 1 && b[n].lot == o.id && NoRows(rows, o.id);
    hide BookedRows;
  }

  lemma BookingSums(rows: seq<BuyRow>, o: Order, r: Reported, c: Confirmation)
    requires IsNew(c, r) && Accounted(rows, o.id, r)
    ensures Sum(BookedRows(rows, o, r, c), QuantityOf(o.id)) == c.filled.value
  {
    hide DeltaPrice, Basis, NewPrice, Sum;
    BookingAccountsExactlyWhen(rows, o, r, c);
    match Find(rows, o.id) {
      case Some(i) =>
        if !rows[i].closed {
          SumOfOne(rows, i, QuantityOf(o.id));
        }
      case None =>
        SumOfNone(rows, QuantityOf(o.id));
    }
  }

  /** The shares booked before that the booking of `o` finds: its own open row's, what was reported for a
      closed one, and none when no row carries its id. */
  function FoundShares(rows: seq<BuyRow>, o: Order, r: Reported): real {
    match Find(rows, o.id)
    case Some(i) => if rows[i].closed then r.filled else rows[i].quantity
    case None => 0.0
  }

  /**
   Whatever the table looks like: after a booking the order's rows hold the confirmed shares exactly
   when they held no other shares than those the booking finds. The rest is what is booked too much.
  */
  lemma BookingAccountsExactlyWhen(rows: seq<BuyRow>, o: Order, r: Reported, c: Confirmation)
    requires IsNew(c, r)
    requires forall i :: 0 <= i < |rows| && rows[i].orderId == Some(o.id) ==> rows[i].lot == o.id
    ensures Sum(BookedRows(rows, o, r, c), QuantityOf(o.id)) - c.filled.value
         == Sum(rows, QuantityOf(o.id)) - FoundShares(rows, o, r)
    ensures Sum(BookedRows(rows, o, r, c), QuantityOf(o.id)) == c.filled.value <==>
            Sum(rows, QuantityOf(o.id)) == FoundShares(rows, o, r)
  {
    hide DeltaPrice, Basis, NewPrice, Sum;
    var b := BookedRows(rows, o, r, c);
    match Find(rows, o.id) {
      case Some(i) =>
        if rows[i].closed {
          SumAppend(rows, b[|rows|], QuantityOf(o.id));
        } else {
          SumUpdate(rows, i, b[i], QuantityOf(o.id));
        }
      case None =>
        SumAppend(rows, b[|rows|], QuantityOf(o.id));
    }
  }

  /** An order whose shares are on a row that joins several ids is not found by its own: everything
      already reported for it is booked a second time. */
  lemma JoinedIdsBookTwice(rows: seq<BuyRow>, o: Order, r: Reported, c: Confirmation)
    requires IsNew(c, r) && forall i :: 0 <= i < |rows| ==> rows[i].orderId != Some(o.id)
    requires Sum(rows, QuantityOf(o.id)) == r.filled
    ensures Sum(BookedRows(rows, o, r, c), QuantityOf(o.id)) == c.filled.value + r.filled
  {
    BookingAccountsExactlyWhen(rows, o, r, c);
  }

  /** A confirmation whose delta can be priced from the averages. */
  ghost predicate PricedDelta(r: Reported, c: Confirmation) {
    IsNew(c, r) ==>
      && c.average.Some? && c.average.value > 0.0
      && (r.filled > 0.0 ==>
            r.average.Some? && RawDelta(c.average.value, c.filled.value, r.average.value, r.filled) > 0.0)
  }

  lemma BookingValues(rows: seq<BuyRow>, o: Order, r: Reported, c: Confirmation)
    requires IsNew(c, r) && Accounted(rows, o.id, r) && Valued(rows, o.id, r) && PricedDelta(r, c)
    ensures Valued(BookedRows(rows, o, r, c), o.id, Reported(c.filled.value, c.average))
  {
    var b, f, p := BookedRows(rows, o, r, c), c.filled.value, c.average.value;
    match Find(rows, o.id) {
      case Some(i) =>
        assert rows[i].lot == o.id;
        if rows[i].closed {
          ClosedRowValues(rows, o, r, c);
        } else {
          SumOfOne(b, i, ValueOf(o.id));
          assert b[i].fillPrice == Some(p) && b[i].quantity == f;
          assert Times(f, p) == Times(p, f);
        }
      case None =>
        assert NoRows(rows, o.id);
        SumOfOne(b, |rows|, ValueOf(o.id));
        assert Times(f, p) == Times(p, f);
    }
  }

  lemma ClosedRowValues(rows: seq<BuyRow>, o: Order, r: Reported, c: Confirmation)
    requires IsNew(c, r) && Accounted(rows, o.id, r) && Valued(rows, o.id, r) && PricedDelta(r, c)
    requires Find(rows, o.id).Some? && rows[Find(rows, o.id).value].closed
    requires !NoRows(rows, o.id)
    ensures Valued(BookedRows(rows, o, r, c), o.id, Reported(c.filled.value, c.average))
  {
    var f := c.filled.value;
    var price := DeltaPrice(c.average, f, r.average, r.filled);
    var row := BuyRow(None, o.id, f - r.filled, price, false, 0.0);
    assert BookedRows(rows, o, r, c) == rows + [row];
    DeltaTelescopes(c.average.value, f, r.average, r.filled);
    SumAppend(rows, row, ValueOf(o.id));
    NothingAtZero(r);
    hide DeltaPrice, RawDelta, RoundFour, NewPrice, Basis, BookedRows, Times, Orderly, Sum;
    ErrorsAdd(Sum(rows, ValueOf(o.id)), Worth(r), ValueOf(o.id)(row), Times(c.average.value, f), r.filled, f);
  }

  lemma NothingAtZero(r: Reported)
    requires r.average.Some?
    ensures Worth(r) == Times(r.average.value, r.filled)
  {}

  lemma ErrorsAdd(v: real, w: real, d: real, w': real, f: real, f': real)
    requires -0.00005 * f <= v - w <= 0.00005 * f
    requires -0.00005 * (f' - f) <= d - (w' - w) <= 0.00005 * (f' - f)
    ensures -0.00005 * f' <= v + d - w' <= 0.00005 * f'
  {}

  lemma BookingFees(rows: seq<BuyRow>, o: Order, r: Reported, c: Confirmation)
    requires IsNew(c, r) && Orderly(rows, o.id)
    ensures Sum(BookedRows(rows, o, r, c), FeeOf(o.id))
         == Sum(rows, FeeOf(o.id)) + (if NoRows(rows, o.id) then FeeNow(r) else 0.0)
  {
    hide DeltaPrice, Basis, NewPrice, FeeNow;
    var b := BookedRows(rows, o, r, c);
    match Find(rows, o.id) {
      case Some(i) =>
        assert rows[i].lot == o.id;
        if rows[i].closed {
          SumAppend(rows, b[|rows|], FeeOf(o.id));
        } else {
          SumUpdate(rows, i, b[i], FeeOf(o.id));
        }
      case None =>
        assert NoRows(rows, o.id);
        SumAppend(rows, b[|rows|], FeeOf(o.id));
    }
  }

  /** A price the broker gave, or that the code counts as one: present and not zero. */
  ghost predicate Given(x: Option<real>) { match x case Some(v) => v != 0.0 case None => false }

  /** The estimate for an order without a broker price: its limit, else its reference price. */
  ghost predicate Estimates(o: Order, x: Option<real>) {
    if Given(o.limit) then x == o.limit else if Given(o.reference) then x == o.reference else !Given(x)
  }

  /**
   The cost basis a booking writes. The whole order's row: the broker's average, else what it already had,
   else the limit, else the reference. A row for the new shares alone: their delta price, else the same
   estimates. And a new order's row is charged the fee only if nothing had been reported.
  */
  lemma BookingPrices(rows: seq<BuyRow>, o: Order, r: Reported, c: Confirmation)
    requires IsNew(c, r)
    ensures var b := BookedRows(rows, o, r, c);
      match Find(rows, o.id)
      case Some(i) =>
        if !rows[i].closed then
          && (Given(c.average) ==> b[i].fillPrice == c.average)
          && (!Given(c.average) && Given(rows[i].fillPrice) ==> b[i].fillPrice == rows[i].fillPrice)
          && (!Given(c.average) && !Given(rows[i].fillPrice) ==> Estimates(o, b[i].fillPrice))
        else
          var delta := DeltaPrice(c.average, c.filled.value, r.average, r.filled);
          && (Given(delta) || Given(c.average) ==> b[|rows|].fillPrice == delta)
          && (!Given(delta) && !Given(c.average) ==> Estimates(o, b[|rows|].fillPrice))
          && b[|rows|].brokerage == 0.0
      case None =>
        && (Given(c.average) ==> b[|rows|].fillPrice == c.average)
        && (!Given(c.average) ==> Estimates(o, b[|rows|].fillPrice))
        && b[|rows|].brokerage == (if r.filled == 0.0 then 20.0 else 0.0)
  {
    hide DeltaPrice;
  }

  /** A late exit: all the new shares, at their delta price, else the reference price, else the limit; and
      none at all exactly when there is no price of any kind. */
  lemma LateExitMeans(o: Order, r: Reported, c: Confirmation)
    requires IsNew(c, r)
    ensures var delta, exit := DeltaPrice(c.average, c.filled.value, r.average, r.filled), LateExit(o, r, c);
      && (exit.None? <==> !Given(delta) && !Given(o.reference) && !Given(o.limit))
      && (exit.Some? ==>
            && exit.value.order == o.id && exit.value.quantity == c.filled.value - r.filled
            && exit.value.fee == (if r.filled == 0.0 then 20.0 else 0.0)
            && Some(exit.value.price) ==
               if Given(delta) then delta else if Given(o.reference) then o.reference else o.limit)
  {
    hide DeltaPrice;
  }

  // ---------------------------------------------------------------- shares still to be sold

  function OpenOf(lot: string): BuyRow -> real {
    (row: BuyRow) => if row.lot == lot && !row.closed then row.quantity else 0.0
  }

  /** The order's shares that no exit has closed yet. */
  function OpenShares(rows: seq<BuyRow>, lot: string): real { Sum(rows, OpenOf(lot)) }

  /** A booking closes and reopens nothing, and whatever it adds is open and the order's own. */
  lemma BookingOpensOnly(rows: seq<BuyRow>, o: Order, r: Reported, c: Confirmation)
    requires IsNew(c, r)
    ensures var b := BookedRows(rows, o, r, c);
      && |rows| <= |b| <= |rows| + 1
      && (forall i :: 0 <= i < |rows| ==>
            && b[i].closed == rows[i].closed && b[i].orderId == rows[i].orderId && b[i].lot == rows[i].lot
            && b[i].brokerage == rows[i].brokerage
            && (rows[i].closed || rows[i].orderId != Some(o.id) ==> b[i] == rows[i]))
      && (|b| > |rows| ==> !b[|rows|].closed && b[|rows|].lot == o.id
                           && (b[|rows|].orderId == Some(o.id) || b[|rows|].orderId == None))
      && (|b| > |rows| && b[|rows|].orderId == Some(o.id) <==>
            forall i :: 0 <= i < |rows| ==> rows[i].orderId != Some(o.id))
  {
    hide DeltaPrice, Basis, NewPrice, FeeNow;
  }

  /** After a booking the order has exactly the newly confirmed shares more to sell, or all of them when
      it had no row. */
  lemma BookingOpensNewShares(rows: seq<BuyRow>, o: Order, r: Reported, c: Confirmation)
    requires IsNew(c, r) && Accounted(rows, o.id, r)
    ensures OpenShares(BookedRows(rows, o, r, c), o.id) - OpenShares(rows, o.id)
         == c.filled.value - (if NoRows(rows, o.id) then 0.0 else r.filled)
  {
    hide DeltaPrice, Basis, NewPrice, FeeNow, Sum, Orderly;
    OwnRowHoldsAll(rows, o, r);
    var b := BookedRows(rows, o, r, c);
    match Find(rows, o.id) {
      case Some(i) =>
        if rows[i].closed {
          SumAppend(rows, b[|rows|], OpenOf(o.id));
        } else {
          SumUpdate(rows, i, b[i], OpenOf(o.id));
        }
      case None =>
        SumAppend(rows, b[|rows|], OpenOf(o.id));
    }
  }

  /** Where the order's shares are before a booking: all in its open row, if it has one; nowhere without
      any row of its own. */
  lemma OwnRowHoldsAll(rows: seq<BuyRow>, o: Order, r: Reported)
    requires Accounted(rows, o.id, r)
    ensures match Find(rows, o.id)
      case Some(i) =>
        rows[i].lot == o.id && !NoRows(rows, o.id) && (!rows[i].closed ==> rows[i].quantity == r.filled)
      case None => NoRows(rows, o.id)
  {
    hide Sum;
    var found := Find(rows, o.id);
    if found.Some? && !rows[found.value].closed {
      SumOfOne(rows, found.value, QuantityOf(o.id));
    }
  }

  /** The order's own shares that an event closes. */
  function ClosedBy(s: State, o: Order, e: Event): real {
    match e
    case CloseRow(i) => if i < |s.rows| then OpenOf(o.id)(s.rows[i]) else 0.0
    case SplitRow(i, sold) => if i < |s.rows| && s.rows[i].lot == o.id then sold else 0.0
    case _ => 0.0
  }

  ghost function ClosedIn(s: State, o: Order, events: seq<Event>): real
    requires Run(s, o, events)
    decreases |events|
  {
    if events == [] then 0.0
    else ClosedBy(s, o, events[0]) + ClosedIn(Next(s, o, events[0]), o, events[1..])
  }

  /** What has been booked for the order: everything reported, once it has a row. */
  function BookedShares(s: State, o: Order): real {
    if exists i :: 0 <= i < |s.rows| && s.rows[i].lot == o.id then s.reported.filled else 0.0
  }

  lemma StepOpens(s: State, o: Order, e: Event)
    requires Accounted(s.rows, o.id, s.reported) && Possible(s, o, e)
    ensures OpenShares(Next(s, o, e).rows, o.id) - OpenShares(s.rows, o.id)
         == BookedShares(Next(s, o, e), o) - BookedShares(s, o) - ClosedBy(s, o, e)
  {
    match e {
      case CloseRow(i) =>
        SumUpdate(s.rows, i, s.rows[i].(closed := true), OpenOf(o.id));
        ExitsKeepSums(s, o, e);
      case SplitRow(i, sold) =>
        SplitKeepsSum(s.rows, i, sold, OpenOf(o.id));
        ExitsKeepSums(s, o, e);
      case OtherBooking(o', r, c) =>
        BookingIsLocal(s.rows, o', r, c, o.id, OpenOf(o.id));
      case Confirm(c, writes) =>
        if writes && IsNew(c, s.reported) {
          BookingOpensNewShares(s.rows, o, s.reported, c);
          BookingAccounts(s.rows, o, s.reported, c);
        }
    }
    hide BookedRows, Split, OpenOf;
  }

  /**
   Over any run the order's shares still to be sold are its booked shares less those its own exits
   closed: no confirmation, failed write, split or other order's booking loses or frees a share.
  */
  lemma {:induction false} OpenSharesFollow(s: State, o: Order, events: seq<Event>)
    requires Accounted(s.rows, o.id, s.reported) && Run(s, o, events)
    ensures OpenShares(End(s, o, events).rows, o.id) - OpenShares(s.rows, o.id)
         == BookedShares(End(s, o, events), o) - BookedShares(s, o) - ClosedIn(s, o, events)
    decreases |events|
  {
    if events != [] {
      StepAccounts(s, o, events[0]);
      StepOpens(s, o, events[0]);
      OpenSharesFollow(Next(s, o, events[0]), o, events[1..]);
    }
  }

  // ---------------------------------------------------------------- whole runs

  ghost predicate Run(s: State, o: Order, events: seq<Event>)
    decreases |events|
  {
    events == [] || (Possible(s, o, events[0]) && Run(Next(s, o, events[0]), o, events[1..]))
  }

  ghost function End(s: State, o: Order, events: seq<Event>): State
    requires Run(s, o, events)
    decreases |events|
  {
    if events == [] then s else End(Next(s, o, events[0]), o, events[1..])
  }

  lemma StepAccounts(s: State, o: Order, e: Event)
    requires Accounted(s.rows, o.id, s.reported) && Possible(s, o, e)
    ensures Accounted(Next(s, o, e).rows, o.id, Next(s, o, e).reported)
    ensures !NoRows(s.rows, o.id) ==> !NoRows(Next(s, o, e).rows, o.id)
  {
    match e {
      case OtherBooking(o', r, c) => BookingIsLocal(s.rows, o', r, c, o.id, QuantityOf(o.id));
      case Confirm(c, writes) =>
        if writes && IsNew(c, s.reported) { BookingAccounts(s.rows, o, s.reported, c); }
      case _ => ExitsKeepSums(s, o, e);
    }
  }

  /**
   Over any run of growing confirmations, failed writes, closings, splits and other orders' bookings,
   once the order has a row its rows always hold exactly the shares reported for it.
  */
  lemma {:induction false} RowsHoldTheFill(s: State, o: Order, events: seq<Event>)
    requires Accounted(s.rows, o.id, s.reported) && Run(s, o, events)
    ensures var end := End(s, o, events);
      Accounted(end.rows, o.id, end.reported) && (!NoRows(s.rows, o.id) ==> !NoRows(end.rows, o.id))
    decreases |events|
  {
    if events != [] {
      StepAccounts(s, o, events[0]);
      RowsHoldTheFill(Next(s, o, events[0]), o, events[1..]);
    }
  }

  ghost predicate AllPriced(s: State, o: Order, events: seq<Event>)
    requires Run(s, o, events)
    decreases |events|
  {
    events == [] ||
    ((events[0].Confirm? ==> PricedDelta(s.reported, events[0].confirmed))
     && AllPriced(Next(s, o, events[0]), o, events[1..]))
  }

  lemma StepValues(s: State, o: Order, e: Event)
    requires Accounted(s.rows, o.id, s.reported) && Valued(s.rows, o.id, s.reported) && Possible(s, o, e)
    requires e.Confirm? ==> PricedDelta(s.reported, e.confirmed)
    ensures Valued(Next(s, o, e).rows, o.id, Next(s, o, e).reported)
  {
    match e {
      case OtherBooking(o', r, c) => BookingIsLocal(s.rows, o', r, c, o.id, ValueOf(o.id));
      case Confirm(c, writes) =>
        if writes && IsNew(c, s.reported) { BookingValues(s.rows, o, s.reported, c); }
      case _ => ExitsKeepSums(s, o, e);
    }
  }

  /**
   With known averages and positive deltas, the cost booked on all the order's rows is its average
   price times its filled quantity, to half a ten-thousandth per share, however often it was split.
  */
  lemma {:induction false} RowsCostTheAverage(s: State, o: Order, events: seq<Event>)
    requires Accounted(s.rows, o.id, s.reported) && Valued(s.rows, o.id, s.reported)
    requires Run(s, o, events) && AllPriced(s, o, events)
    ensures Valued(End(s, o, events).rows, o.id, End(s, o, events).reported)
    decreases |events|
  {
    if events != [] {
      StepAccounts(s, o, events[0]);
      StepValues(s, o, events[0]);
      RowsCostTheAverage(Next(s, o, events[0]), o, events[1..]);
    }
  }

  /** Rows without a fee yet, or with it once: the fee can still be booked only while none exist. */
  ghost predicate FeeAtMostOnce(s: State, lot: string) {
    && Sum(s.rows, FeeOf(lot)) in {0.0, FLAT_FEE}
    && (NoRows(s.rows, lot) ==> Sum(s.rows, FeeOf(lot)) == 0.0)
  }

  lemma {:induction false} FlatFeeBookedAtMostOnce(s: State, o: Order, events: seq<Event>)
    requires Accounted(s.rows, o.id, s.reported) && FeeAtMostOnce(s, o.id) && Run(s, o, events)
    ensures FeeAtMostOnce(End(s, o, events), o.id)
    ensures Sum(s.rows, FeeOf(o.id)) == FLAT_FEE ==>
      Sum(End(s, o, events).rows, FeeOf(o.id)) == FLAT_FEE
    ensures s.reported.filled != 0.0 ==>
      Sum(End(s, o, events).rows, FeeOf(o.id)) == Sum(s.rows, FeeOf(o.id))
    decreases |events|
  {
    if events != [] {
      var e := events[0];
      StepAccounts(s, o, e);
      match e {
        case OtherBooking(o', r, c) => BookingIsLocal(s.rows, o', r, c, o.id, FeeOf(o.id));
        case Confirm(c, writes) =>
          if writes && IsNew(c, s.reported) {
            BookingFees(s.rows, o, s.reported, c);
            BookingAccounts(s.rows, o, s.reported, c);
          }
        case _ => ExitsKeepSums(s, o, e);
      }
      FlatFeeBookedAtMostOnce(Next(s, o, e), o, events[1..]);
    }
  }

  // ---------------------------------------------------------------- late SELL fills

  /** The exits a run of confirmations of one SELL books, each after the one before. */
  function LateExits(o: Order, r: Reported, cs: seq<Confirmation>): seq<Exit>
    requires Growing(r, cs)
    decreases |cs|
  {
    if cs == [] then []
    else
      var exit := LateExit(o, r, cs[0]);
      (if exit.Some? then [exit.value] else [])
      + LateExits(o, Reported(cs[0].filled.value, cs[0].average), cs[1..])
  }

  predicate Growing(r: Reported, cs: seq<Confirmation>)
    decreases |cs|
  {
    cs == [] || (IsNew(cs[0], r) && Growing(Reported(cs[0].filled.value, cs[0].average), cs[1..]))
  }

  /** Every delta comes from known averages and rounds to a price above zero. */
  ghost predicate Prices(r: Reported, cs: seq<Confirmation>)
    requires Growing(r, cs)
    decreases |cs|
  {
    cs == [] ||
    (PricedDelta(r, cs[0]) && DeltaPrice(cs[0].average, cs[0].filled.value, r.average, r.filled).value > 0.0
     && Prices(Reported(cs[0].filled.value, cs[0].average), cs[1..]))
  }

  function Shares(exits: seq<Exit>): real {
    if exits == [] then 0.0 else exits[0].quantity + Shares(exits[1..])
  }

  function Proceeds(exits: seq<Exit>): real {
    if exits == [] then 0.0 else Times(exits[0].quantity, exits[0].price) + Proceeds(exits[1..])
  }

  function ExitFees(exits: seq<Exit>): real {
    if exits == [] then 0.0 else exits[0].fee + ExitFees(exits[1..])
  }

  function Worth(r: Reported): real {
    if r.filled == 0.0 || r.average.None? then 0.0 else Times(r.average.value, r.filled)
  }

  function Last(r: Reported, cs: seq<Confirmation>): Reported
    requires Growing(r, cs)
    decreases |cs|
  {
    if cs == [] then r else Last(Reported(cs[0].filled.value, cs[0].average), cs[1..])
  }

  /**
   A stuck exit that fills in pieces: its late exits add up to the shares beyond those reported, their
   proceeds to the change in average times quantity, and the flat fee is charged once, and only if
   nothing had been reported.
  */
  lemma {:induction false} LateExitsTelescope(o: Order, r: Reported, cs: seq<Confirmation>)
    requires r.filled >= 0.0 && Growing(r, cs) && Prices(r, cs)
    ensures var exits, last := LateExits(o, r, cs), Last(r, cs);
      && Shares(exits) == last.filled - r.filled >= 0.0
      && -0.00005 * Shares(exits) <= Proceeds(exits) - (Worth(last) - Worth(r)) <= 0.00005 * Shares(exits)
      && ExitFees(exits) == (if cs != [] && r.filled == 0.0 then 20.0 else 0.0)
    decreases |cs|
  {
    if cs != [] {
      var c := cs[0];
      var r', f := Reported(c.filled.value, c.average), c.filled.value;
      LateExitsTelescope(o, r', cs[1..]);
      DeltaTelescopes(c.average.value, f, r.average, r.filled);
      hide DeltaPrice, RawDelta, RoundFour, Times;
      var exit, rest := LateExit(o, r, c).value, LateExits(o, r', cs[1..]);
      assert ([exit] + rest)[1..] == rest;
    }
  }
}
