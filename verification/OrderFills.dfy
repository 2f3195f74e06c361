/** The fills of one order: `parse_fills` in skopaq/broker/order_status.py. */
module OrderFills {
  import opened Lists
  import opened Wrappers

  /** A fill row after its keys have been looked up; `isDict` is false for anything but an object. */
  datatype FillRow = FillRow(isDict: bool, quantity: Option<real>, price: Option<real>)

  datatype FillSummary = FillSummary(qty: real, vwap: Option<real>, count: nat)

  /** A row that counts: an object with a positive quantity. */
  predicate Counts(r: FillRow) { r.isDict && r.quantity.Some? && r.quantity.value > 0.0 }

  predicate Priced(r: FillRow) { r.price.Some? && r.price.value > 0.0 }

  function Counting(rows: seq<FillRow>): (r: seq<FillRow>)
    ensures forall f :: f in r <==> f in rows && Counts(f)
  {
    if rows == [] then []
    else Counting(rows[..|rows| - 1]) + (if Counts(rows[|rows| - 1]) then [rows[|rows| - 1]] else [])
  }

  function Quantity(fills: seq<FillRow>): real
    requires forall f :: f in fills ==> Counts(f)
  {
    if fills == [] then 0.0
    else
      var f := fills[|fills| - 1];
      assert f in fills && Counts(f);
      Quantity(fills[..|fills| - 1]) + f.quantity.value
  }

  function CostOf(f: FillRow): real
    requires Counts(f)
  {
    if Priced(f) then f.quantity.value * f.price.value else 0.0
  }

  /** Quantity times price over the priced fills. */
  function Value(fills: seq<FillRow>): real
    requires forall f :: f in fills ==> Counts(f)
  {
    if fills == [] then 0.0
    else
      var f := fills[|fills| - 1];
      assert f in fills && Counts(f);
      Value(fills[..|fills| - 1]) + CostOf(f)
  }

  /** `parse_fills`: a volume-weighted price only when there is a fill and every fill has a price. */
  method ParseFills(rows: seq<FillRow>) returns (s: FillSummary)
    ensures s.count == |Counting(rows)| && s.qty == Quantity(Counting(rows))
    ensures s.vwap.Some? <==> Counting(rows) != [] && forall f :: f in Counting(rows) ==> Priced(f)
    ensures s.vwap.Some? ==> s.qty > 0.0 && s.vwap.value == Value(Counting(rows)) / s.qty
    ensures s.vwap.Some? <==>
      && (exists i :: 0 <= i < |rows| && IsFill(rows[i]))
      && forall i :: 0 <= i < |rows| && IsFill(rows[i]) ==> rows[i].price.Some? && rows[i].price.value > 0.0
  {
    hide Counting, Quantity, Value;
    NoneYet(rows);
    var qty, value := 0.0, 0.0;
    var priced := true;
    var count := 0;
    for i := 0 to |rows|
      invariant count == |Counting(rows[..i])|
      invariant qty == Quantity(Counting(rows[..i])) && value == Value(Counting(rows[..i]))
      invariant priced <==> forall f :: f in Counting(rows[..i]) ==> Priced(f)
    {
      var row := rows[i];
      OneMore(rows, i);
      if !Counts(row) {
        continue;
      }
      qty := qty + row.quantity.value;
      count := count + 1;
      if !Priced(row) {
        priced := false;
      } else {
        value := value + CostOf(row);
      }
    }
    assert rows[..|rows|] == rows;
    QuantityIsPositive(Counting(rows));
    CountingHas(rows);
    s := FillSummary(qty, if count > 0 && priced then Some(value / qty) else None, count);
  }

  /** A row that reports shares: an object with a quantity above zero. */
  ghost predicate IsFill(r: FillRow) {
    r.isDict && match r.quantity case Some(q) => q > 0.0 case None => false
  }

  lemma CountingHas(rows: seq<FillRow>)
    ensures Counting(rows) != [] <==> exists i :: 0 <= i < |rows| && IsFill(rows[i])
    ensures (forall f :: f in Counting(rows) ==> Priced(f)) <==>
      forall i :: 0 <= i < |rows| && IsFill(rows[i]) ==> rows[i].price.Some? && rows[i].price.value > 0.0
  {
    if Counting(rows) != [] {
      assert Counting(rows)[0] in rows;
    }
    forall i | 0 <= i < |rows| && IsFill(rows[i]) ensures rows[i] in Counting(rows) {
      assert rows[i] in rows;
    }
  }

  /** The fills that are summed: exactly the rows that report shares, each once and in order. */
  lemma {:induction false} CountingIsTheFills(rows: seq<FillRow>) returns (at: seq<nat>)
    ensures Picks(at, rows, IsFill) && |at| == |Counting(rows)|
    ensures forall k :: 0 <= k < |at| ==> at[k] < |rows| && rows[at[k]] == Counting(rows)[k]
  {
    hide Picks;
    if rows == [] {
      at := [];
      PickNone(IsFill);
    } else {
      var n := |rows| - 1;
      at := CountingIsTheFills(rows[..n]);
      PickOneMore(at, rows[..n], IsFill, rows[n]);
      assert rows == rows[..n] + [rows[n]];
      if IsFill(rows[n]) {
        at := at + [n];
      }
    }
  }

  lemma NoneYet(rows: seq<FillRow>)
    ensures Counting(rows[..0]) == [] && Quantity([]) == 0.0 && Value([]) == 0.0
  {}

  lemma OneMore(rows: seq<FillRow>, i: nat)
    requires i < |rows|
    ensures var before, after := Counting(rows[..i]), Counting(rows[..i + 1]);
      after == if Counts(rows[i]) then before + [rows[i]] else before
    ensures var before, after := Counting(rows[..i]), Counting(rows[..i + 1]);
      Counts(rows[i]) ==>
        && Quantity(after) == Quantity(before) + rows[i].quantity.value
        && Value(after) == Value(before) + CostOf(rows[i])
  {
    var before := Counting(rows[..i]);
    assert rows[..i + 1][..i] == rows[..i];
    if Counts(rows[i]) {
      assert (before + [rows[i]])[..|before|] == before;
    }
  }

  lemma {:induction false} QuantityIsPositive(fills: seq<FillRow>)
    requires forall f :: f in fills ==> Counts(f)
    ensures fills != [] ==> Quantity(fills) > 0.0
  {
    if fills != [] {
      assert fills[|fills| - 1] in fills;
      QuantityIsPositive(fills[..|fills| - 1]);
    }
  }

  function Times(x: real, y: real): real { x * y }

  lemma {:induction false} ValueBetween(fills: seq<FillRow>, low: real, high: real)
    requires AllWithin(fills, low, high)
    ensures Times(low, Quantity(fills)) <= Value(fills) <= Times(high, Quantity(fills))
  {
    if fills != [] {
      var n := |fills| - 1;
      var f := fills[n];
      assert f in fills;
      Weighted(f, low, high);
      hide Times, CostOf, Priced;
      ValueBetween(fills[..n], low, high);
      LastOne(fills);
      AddUp(low, Quantity(fills[..n]), f.quantity.value);
      AddUp(high, Quantity(fills[..n]), f.quantity.value);
    }
  }

  lemma LastOne(fills: seq<FillRow>)
    requires fills != [] && forall f :: f in fills ==> Counts(f)
    ensures var n := |fills| - 1;
      && Counts(fills[n]) && (forall f :: f in fills[..n] ==> Counts(f))
      && Quantity(fills) == Quantity(fills[..n]) + fills[n].quantity.value
      && Value(fills) == Value(fills[..n]) + CostOf(fills[n])
  {
    hide Counts, CostOf;
    assert fills[|fills| - 1] in fills;
  }

  lemma Weighted(f: FillRow, low: real, high: real)
    requires Counts(f) && Priced(f) && low <= f.price.value <= high
    ensures Times(low, f.quantity.value) <= CostOf(f) <= Times(high, f.quantity.value)
  {}

  lemma AddUp(x: real, q: real, q': real)
    ensures Times(x, q + q') == Times(x, q) + Times(x, q')
  {}

  /** Every fill counts, has a price, and that price lies in the range. */
  ghost predicate AllWithin(fills: seq<FillRow>, low: real, high: real) {
    forall f :: f in fills ==> Counts(f) && Priced(f) && low <= f.price.value <= high
  }

  /** The volume-weighted price never leaves the range of the fill prices. */
  lemma VwapWithinFillPrices(fills: seq<FillRow>, low: real, high: real)
    requires fills != [] && AllWithin(fills, low, high)
    ensures Quantity(fills) > 0.0 && low <= Value(fills) / Quantity(fills) <= high
  {
    QuantityIsPositive(fills);
    ValueBetween(fills, low, high);
    var q, v := Quantity(fills), Value(fills);
    hide Value, Quantity, AllWithin, Counts, Priced;
    DivideBounds(v, q, low, high);
  }

  lemma DivideBounds(v: real, q: real, low: real, high: real)
    requires q > 0.0 && Times(low, q) <= v <= Times(high, q)
    ensures low <= v / q <= high
  {
    var x := v / q;
    assert x * q == v;
    OrderOf(low, x, q);
    OrderOf(x, high, q);
  }

  lemma OrderOf(a: real, b: real, q: real)
    requires q > 0.0 && a * q <= b * q
    ensures a <= b
  {
    if a > b { Positive(a - b, q); }
  }

  lemma Positive(x: real, y: real)
    requires x > 0.0 && y > 0.0
    ensures x * y > 0.0
  {}
}
