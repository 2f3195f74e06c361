/** The resumable analysis sweep: tradingagents/backtest.py. Dates are day numbers. */
module Sweep {
  import opened Lists
  import opened Wrappers

  // ---------------------------------------------------------------- the grid

  datatype GridError = BadStep | EndsBeforeStart

  function MinInt(x: int, y: int): int { if x <= y then x else y }

  /** How many steps of `every` days fit between `start` and `last`. */
  function GridSize(start: int, last: int, every: int): nat
    requires every >= 1
  {
    if last < start then 0 else (last - start) / every + 1
  }

  /** `iter_grid`: from `start` in steps of `every`, never past `end` or today. */
  method IterGrid(start: int, end: int, every: int, today: int) returns (r: Result<seq<int>, GridError>)
    ensures r == Failure(BadStep) <==> every < 1
    ensures r == Failure(EndsBeforeStart) <==> every >= 1 && end < start
    ensures r.Success? ==>
      && |r.value| == GridSize(start, MinInt(end, today), every)
      && forall k :: 0 <= k < |r.value| ==> r.value[k] == start + k * every
  {
    if every < 1 {
      return Failure(BadStep);
    }
    if end < start {
      return Failure(EndsBeforeStart);
    }
    var last := MinInt(end, today);
    var dates: seq<int> := [];
    var cursor := start;
    while cursor <= last
      invariant cursor == start + |dates| * every
      invariant forall k :: 0 <= k < |dates| ==> dates[k] == start + k * every <= last
      decreases last + every - cursor
    {
      dates := dates + [cursor];
      cursor := cursor + every;
    }
    SizeIs(start, last, every, |dates|);
    return Success(dates);
  }

  lemma SizeIs(start: int, last: int, every: int, n: nat)
    requires every >= 1 && last < start + n * every
    requires n > 0 ==> start + (n - 1) * every <= last
    ensures n == GridSize(start, last, every)
  {
    if n > 0 {
      Quotient(last - start, every, n - 1);
    }
  }

  lemma Quotient(x: int, d: int, q: int)
    requires d >= 1 && q * d <= x < (q + 1) * d
    ensures x / d == q
  {
    MultiplesInOrder(x / d + 1, q, d);
    MultiplesInOrder(q + 1, x / d, d);
  }

  lemma MultiplesInOrder(a: int, b: int, d: int)
    requires d >= 1
    ensures a <= b ==> a * d <= b * d
  {
    if a <= b { assert (b - a) * d >= 0; }
  }

  /** The grid holds exactly the step dates up to `end` and today. */
  lemma GridIsExact(start: int, last: int, every: int, k: nat)
    requires every >= 1
    ensures k < GridSize(start, last, every) <==> start + k * every <= last
  {
    var q := (last - start) / every;
    MultiplesInOrder(k, q, every);
    MultiplesInOrder(q + 1, k, every);
    MultiplesInOrder(0, k, every);
  }

  // ---------------------------------------------------------------- one run of the sweep

  /** One analysis: a ticker on a date. */
  datatype Cell = Cell(ticker: string, date: int)

  function RowOf(ticker: string, dates: seq<int>): seq<Cell> {
    seq(|dates|, i requires 0 <= i < |dates| => Cell(ticker, dates[i]))
  }

  /** Every ticker on every date, tickers outermost. */
  function Cells(tickers: seq<string>, dates: seq<int>): seq<Cell> {
    if tickers == [] then [] else Cells(tickers[..|tickers| - 1], dates) + RowOf(tickers[|tickers| - 1], dates)
  }

  lemma {:induction false} CellsHave(tickers: seq<string>, dates: seq<int>, c: Cell)
    ensures c in Cells(tickers, dates) <==> c.ticker in tickers && c.date in dates
  {
    if tickers != [] {
      var n := |tickers| - 1;
      CellsHave(tickers[..n], dates, c);
      RowHas(tickers[n], dates, c);
      assert tickers == tickers[..n] + [tickers[n]];
    }
  }

  lemma RowHas(ticker: string, dates: seq<int>, c: Cell)
    ensures c in RowOf(ticker, dates) <==> c.ticker == ticker && c.date in dates
  {
    var row := RowOf(ticker, dates);
    if c.ticker == ticker && c.date in dates {
      var i :| 0 <= i < |dates| && dates[i] == c.date;
      assert row[i] == c;
    }
  }

  /** Ticker by ticker, and for each of them date by date. */
  lemma {:induction false} CellsAreInOrder(tickers: seq<string>, dates: seq<int>, i: nat, j: nat)
    requires i < |tickers| && j < |dates|
    ensures |Cells(tickers, dates)| == |tickers| * |dates| && i * |dates| + j < |tickers| * |dates|
    ensures Cells(tickers, dates)[i * |dates| + j] == Cell(tickers[i], dates[j])
  {
    CellsLength(tickers, dates);
    MultiplesInOrder(i + 1, |tickers|, |dates|);
    var n := |tickers| - 1;
    CellsLength(tickers[..n], dates);
    assert (i + 1) * |dates| == i * |dates| + |dates|;
    if i < n {
      CellsAreInOrder(tickers[..n], dates, i, j);
    } else {
      assert Cells(tickers, dates)[n * |dates| + j] == RowOf(tickers[n], dates)[j];
    }
  }

  lemma {:induction false} CellsLength(tickers: seq<string>, dates: seq<int>)
    ensures |Cells(tickers, dates)| == |tickers| * |dates|
  {
    if tickers != [] {
      var n := |tickers| - 1;
      CellsLength(tickers[..n], dates);
      assert |tickers| * |dates| == n * |dates| + |dates|;
    }
  }

  lemma {:induction false} CellsAreDistinct(tickers: seq<string>, dates: seq<int>)
    requires NoRepeats(tickers) && NoRepeats(dates)
    ensures NoRepeats(Cells(tickers, dates))
  {
    if tickers != [] {
      var n := |tickers| - 1;
      var before, row := Cells(tickers[..n], dates), RowOf(tickers[n], dates);
      CellsAreDistinct(tickers[..n], dates);
      assert tickers[n] !in tickers[..n];
      forall i, j | 0 <= i < j < |before + row| ensures (before + row)[i] != (before + row)[j] {
        if i < |before| <= j {
          CellsHave(tickers[..n], dates, before[i]);
          assert before[i] in before;
        }
      }
    }
  }

  /** The cells not logged yet, in order. */
  function Todo(cells: seq<Cell>, done: set<Cell>): (r: seq<Cell>)
    ensures forall c :: c in r <==> c in cells && c !in done
    ensures |r| <= |cells|
  {
    if cells == [] then []
    else
      var before := Todo(cells[..|cells| - 1], done);
      var last := cells[|cells| - 1];
      if last in done then before else before + [last]
  }

  /** What is left to do keeps the order of the cells. */
  lemma {:induction false} TodoIsInOrder(cells: seq<Cell>, done: set<Cell>) returns (at: seq<nat>)
    ensures TakenInOrder(Todo(cells, done), cells, at)
  {
    at := [];
    if cells != [] {
      var n := |cells| - 1;
      at := TodoIsInOrder(cells[..n], done);
      assert cells == cells[..n] + [cells[n]];
      hide TakenInOrder;
      TakeOneMore(Todo(cells[..n], done), cells[..n], at, cells[n]);
      if cells[n] !in done {
        at := at + [n];
      }
    }
  }

  lemma {:induction false} TodoKeepsDistinct(cells: seq<Cell>, done: set<Cell>)
    requires NoRepeats(cells)
    ensures NoRepeats(Todo(cells, done))
  {
    if cells != [] {
      var n := |cells| - 1;
      TodoKeepsDistinct(cells[..n], done);
      if cells[n] !in done {
        forall i | 0 <= i < |Todo(cells[..n], done)| ensures Todo(cells[..n], done)[i] != cells[n] {
          assert Todo(cells[..n], done)[i] in cells[..n];
        }
      }
    }
  }

  datatype Report = Report(cellsRun: nat, skipped: nat, failures: seq<Cell>)

  /** The memory log of one run id: one entry for each analysis that succeeded. */
  class MemoryLog {
    var entries: seq<Cell>

    constructor ()
      ensures entries == []
    {
      entries := [];
    }

    /** `graph.propagate`: a success is logged, a failure is not. */
    method Propagate(c: Cell, succeeds: bool) returns (ok: bool)
      modifies this
      ensures ok == succeeds && entries == old(entries) + (if succeeds then [c] else [])
    {
      if succeeds {
        entries := entries + [c];
      }
      return succeeds;
    }

    /** `run_backtest`: analyses every cell not in the log; the environment says which succeed. */
    method RunBacktest(tickers: seq<string>, dates: seq<int>, succeeds: Cell -> bool) returns (r: Report)
      modifies this
      ensures var cells := Cells(Unique(tickers), Unique(dates));
        var todo := Todo(cells, set c | c in old(entries));
        && entries == old(entries) + Succeeded(todo, succeeds)
        && r.cellsRun == |Succeeded(todo, succeeds)|
        && r.failures == Failed(todo, succeeds)
        && r.skipped == |cells| - |todo|
    {
      hide Unique, Cells, Todo, Succeeded, Failed;
      var done := set c | c in entries;
      var cells := Cells(Unique(tickers), Unique(dates));
      var todo := Todo(cells, done);
      var skipped := |cells| - |todo|;
      var cellsRun := 0;
      var failures: seq<Cell> := [];
      NoneYet(todo, succeeds);
      for i := 0 to |todo|
        invariant entries == old(entries) + Succeeded(todo[..i], succeeds)
        invariant cellsRun == |Succeeded(todo[..i], succeeds)|
        invariant failures == Failed(todo[..i], succeeds)
      {
        OneMore(todo, i, succeeds);
        var ok := Propagate(todo[i], succeeds(todo[i]));
        if ok {
          cellsRun := cellsRun + 1;
        } else {
          failures := failures + [todo[i]];
        }
      }
      assert todo[..|todo|] == todo;
      r := Report(cellsRun, skipped, failures);
    }
  }

  function Succeeded(todo: seq<Cell>, succeeds: Cell -> bool): (r: seq<Cell>)
    ensures forall c :: c in r <==> c in todo && succeeds(c)
  {
    if todo == [] then []
    else
      var n := |todo| - 1;
      Succeeded(todo[..n], succeeds) + (if succeeds(todo[n]) then [todo[n]] else [])
  }

  function Failed(todo: seq<Cell>, succeeds: Cell -> bool): (r: seq<Cell>)
    ensures forall c :: c in r <==> c in todo && !succeeds(c)
    ensures |r| + |Succeeded(todo, succeeds)| == |todo|
  {
    if todo == [] then []
    else
      var n := |todo| - 1;
      Failed(todo[..n], succeeds) + (if succeeds(todo[n]) then [] else [todo[n]])
  }

  lemma NoneYet(todo: seq<Cell>, succeeds: Cell -> bool)
    ensures Succeeded(todo[..0], succeeds) == [] && Failed(todo[..0], succeeds) == []
  {}

  lemma OneMore(todo: seq<Cell>, i: nat, succeeds: Cell -> bool)
    requires i < |todo|
    ensures Succeeded(todo[..i + 1], succeeds)
         == Succeeded(todo[..i], succeeds) + (if succeeds(todo[i]) then [todo[i]] else [])
    ensures Failed(todo[..i + 1], succeeds)
         == Failed(todo[..i], succeeds) + (if succeeds(todo[i]) then [] else [todo[i]])
  {
    assert todo[..i + 1][..i] == todo[..i];
  }

  /** The log keeps the order in which the cells were run, and so do the failures. */
  lemma {:induction false} SucceededIsInOrder(todo: seq<Cell>, succeeds: Cell -> bool) returns (at: seq<nat>)
    ensures TakenInOrder(Succeeded(todo, succeeds), todo, at)
  {
    at := [];
    if todo != [] {
      var n := |todo| - 1;
      at := SucceededIsInOrder(todo[..n], succeeds);
      assert todo == todo[..n] + [todo[n]];
      hide TakenInOrder;
      TakeOneMore(Succeeded(todo[..n], succeeds), todo[..n], at, todo[n]);
      if succeeds(todo[n]) {
        at := at + [n];
      }
    }
  }

  lemma {:induction false} FailedIsSucceededOpposite(todo: seq<Cell>, succeeds: Cell -> bool, fails: Cell -> bool)
    requires forall c :: fails(c) <==> !succeeds(c)
    ensures Failed(todo, succeeds) == Succeeded(todo, fails)
  {
    if todo != [] {
      FailedIsSucceededOpposite(todo[..|todo| - 1], succeeds, fails);
    }
  }

  lemma FailedIsInOrder(todo: seq<Cell>, succeeds: Cell -> bool) returns (at: seq<nat>)
    ensures TakenInOrder(Failed(todo, succeeds), todo, at)
  {
    var fails := (c: Cell) => !succeeds(c);
    FailedIsSucceededOpposite(todo, succeeds, fails);
    at := SucceededIsInOrder(todo, fails);
  }

  lemma {:induction false} SucceededKeepsDistinct(todo: seq<Cell>, succeeds: Cell -> bool)
    requires NoRepeats(todo)
    ensures NoRepeats(Succeeded(todo, succeeds))
  {
    if todo != [] {
      var n := |todo| - 1;
      SucceededKeepsDistinct(todo[..n], succeeds);
      forall i | 0 <= i < |Succeeded(todo[..n], succeeds)|
        ensures Succeeded(todo[..n], succeeds)[i] != todo[n]
      {
        assert Succeeded(todo[..n], succeeds)[i] in todo[..n];
      }
    }
  }

  // ---------------------------------------------------------------- any sequence of runs

  datatype Request = Request(tickers: seq<string>, dates: seq<int>, succeeds: Cell -> bool)

  function Logged(entries: seq<Cell>): set<Cell> { set c | c in entries }

  function CellsOf(q: Request): seq<Cell> { Cells(Unique(q.tickers), Unique(q.dates)) }

  /** The log after one run, as `RunBacktest` leaves it. */
  function AfterRun(entries: seq<Cell>, q: Request): seq<Cell> {
    entries + Succeeded(Todo(CellsOf(q), Logged(entries)), q.succeeds)
  }

  function AfterRuns(entries: seq<Cell>, qs: seq<Request>): seq<Cell> {
    if qs == [] then entries else AfterRun(AfterRuns(entries, qs[..|qs| - 1]), qs[|qs| - 1])
  }

  lemma RunKeepsDistinct(entries: seq<Cell>, q: Request)
    requires NoRepeats(entries)
    ensures NoRepeats(AfterRun(entries, q))
  {
    var todo := Todo(CellsOf(q), Logged(entries));
    CellsAreDistinct(Unique(q.tickers), Unique(q.dates));
    TodoKeepsDistinct(CellsOf(q), Logged(entries));
    SucceededKeepsDistinct(todo, q.succeeds);
    var added := Succeeded(todo, q.succeeds);
    forall i, j | 0 <= i < j < |entries + added| ensures (entries + added)[i] != (entries + added)[j] {
      if i < |entries| <= j {
        assert added[j - |entries|] in todo && entries[i] in Logged(entries);
      }
    }
  }

  /** Whatever is asked and whatever fails, over any sequence of runs no cell is logged twice. */
  lemma {:induction false} NoCellIsLoggedTwice(qs: seq<Request>)
    ensures NoRepeats(AfterRuns([], qs))
  {
    if qs != [] {
      NoCellIsLoggedTwice(qs[..|qs| - 1]);
      RunKeepsDistinct(AfterRuns([], qs[..|qs| - 1]), qs[|qs| - 1]);
    }
  }

  /**
   Every distinct cell of a run is skipped, run or failed, once; a run is free of failures exactly when
   it leaves every cell logged, and repeating it then does nothing at all.
  */
  lemma RunAccountsForItsCells(entries: seq<Cell>, q: Request, again: Request)
    ensures var cells, todo := CellsOf(q), Todo(CellsOf(q), Logged(entries));
      && |cells| - |todo| + |Succeeded(todo, q.succeeds)| + |Failed(todo, q.succeeds)| == |cells|
      && NoRepeats(cells)
      && (Failed(todo, q.succeeds) == [] <==> forall c :: c in cells ==> c in AfterRun(entries, q))
      && (Failed(todo, q.succeeds) == [] && again.tickers == q.tickers && again.dates == q.dates ==>
            Todo(CellsOf(again), Logged(AfterRun(entries, q))) == [] &&
            AfterRun(AfterRun(entries, q), again) == AfterRun(entries, q))
  {
    var cells, todo := CellsOf(q), Todo(CellsOf(q), Logged(entries));
    CellsAreDistinct(Unique(q.tickers), Unique(q.dates));
    var after, failed := AfterRun(entries, q), Failed(todo, q.succeeds);
    if failed == [] {
      forall c | c in cells ensures c in after {
        if c !in Logged(entries) {
          assert c in todo && c !in failed;
        }
      }
      NothingTodo(cells, Logged(after));
    } else {
      var c := failed[0];
      assert c in failed && c in todo && !q.succeeds(c);
      assert c !in entries && c !in Succeeded(todo, q.succeeds);
    }
  }

  lemma {:induction false} NothingTodo(cells: seq<Cell>, done: set<Cell>)
    requires forall c :: c in cells ==> c in done
    ensures Todo(cells, done) == []
  {
    if cells != [] {
      NothingTodo(cells[..|cells| - 1], done);
    }
  }
}
