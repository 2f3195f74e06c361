/**
 Reshuffled trade sequences: skopaq/backtest/monte_carlo.py. The shuffles are the random generator's;
 each is a permutation of the trade returns. Money is exact.
*/
module MonteCarlo {

  function Sum(xs: seq<real>): real {
    if xs == [] then 0.0 else Sum(xs[..|xs| - 1]) + xs[|xs| - 1]
  }

  function MinReal(x: real, y: real): real { if x <= y then x else y }

  function MaxReal(x: real, y: real): real { if x >= y then x else y }

  /** Equity after the first `k` trades. */
  function Equity(initial: real, trades: seq<real>, k: nat): real
    requires k <= |trades|
  {
    initial + Sum(trades[..k])
  }

  /** `np.maximum.accumulate`. */
  function Peak(initial: real, trades: seq<real>, k: nat): (p: real)
    requires k <= |trades|
    ensures p >= initial
  {
    if k == 0 then MaxReal(Equity(initial, trades, 0), initial)
    else MaxReal(Peak(initial, trades, k - 1), Equity(initial, trades, k))
  }

  function Drawdown(initial: real, trades: seq<real>, k: nat): real
    requires k <= |trades| && initial > 0.0
  {
    (Equity(initial, trades, k) - Peak(initial, trades, k)) / Peak(initial, trades, k)
  }

  /** The lowest drawdown among the first `k + 1` points. */
  function WorstDrawdown(initial: real, trades: seq<real>, k: nat): real
    requires k <= |trades| && initial > 0.0
  {
    if k == 0 then Drawdown(initial, trades, 0)
    else MinReal(WorstDrawdown(initial, trades, k - 1), Drawdown(initial, trades, k))
  }

  function LowestEquity(initial: real, trades: seq<real>, k: nat): real
    requires k <= |trades|
  {
    if k == 0 then Equity(initial, trades, 0)
    else MinReal(LowestEquity(initial, trades, k - 1), Equity(initial, trades, k))
  }

  /** One simulated path, with the percentages the report lists. */
  datatype Path = Path(finalReturn: real, maxDrawdown: real, ruined: bool, lost: bool)

  function PathOf(initial: real, trades: seq<real>): Path
    requires initial > 0.0
  {
    var n := |trades|;
    Path((Equity(initial, trades, n) / initial - 1.0) * 100.0,
         WorstDrawdown(initial, trades, n) * 100.0,
         LowestEquity(initial, trades, n) < initial * 0.5,
         Equity(initial, trades, n) < initial)
  }

  method Simulate(initial: real, shuffled: seq<real>) returns (path: Path)
    requires initial > 0.0
    ensures path == PathOf(initial, shuffled)
  {
    hide Drawdown;
    var n := |shuffled|;
    var equity := new real[n + 1];
    equity[0] := initial;
    assert shuffled[..0] == [];
    for i := 0 to n
      invariant forall k :: 0 <= k <= i ==> equity[k] == Equity(initial, shuffled, k)
    {
      equity[i + 1] := equity[i] + shuffled[i];
      assert shuffled[..i + 1][..i] == shuffled[..i];
    }
    var finalReturn := (equity[n] / initial - 1.0) * 100.0;

    var peak, lowest := equity[0], equity[0];
    var worst := (equity[0] - peak) / peak;
    assert worst == Drawdown(initial, shuffled, 0) by { DrawdownIs(initial, shuffled, 0); }
    for k := 1 to n + 1
      invariant peak == Peak(initial, shuffled, k - 1)
      invariant lowest == LowestEquity(initial, shuffled, k - 1)
      invariant worst == WorstDrawdown(initial, shuffled, k - 1)
      invariant forall j :: 0 <= j <= n ==> equity[j] == Equity(initial, shuffled, j)
    {
      peak := MaxReal(peak, equity[k]);
      lowest := MinReal(lowest, equity[k]);
      DrawdownIs(initial, shuffled, k);
      worst := MinReal(worst, (equity[k] - peak) / peak);
    }
    path := Path(finalReturn, worst * 100.0, lowest < initial * 0.5, equity[n] < initial);
  }

  lemma DrawdownIs(initial: real, trades: seq<real>, k: nat)
    requires k <= |trades| && initial > 0.0
    ensures Drawdown(initial, trades, k)
         == (Equity(initial, trades, k) - Peak(initial, trades, k)) / Peak(initial, trades, k)
  {}

  datatype Outcome =
    | TooFewTrades
    | NoSimulations
    | Report(finalReturns: seq<real>, maxDrawdowns: seq<real>, losses: nat, ruins: nat)

  function Losses(initial: real, shuffles: seq<seq<real>>): nat
    requires initial > 0.0
  {
    if shuffles == [] then 0
    else Losses(initial, shuffles[..|shuffles| - 1])
         + (if PathOf(initial, shuffles[|shuffles| - 1]).lost then 1 else 0)
  }

  function Ruins(initial: real, shuffles: seq<seq<real>>): nat
    requires initial > 0.0
  {
    if shuffles == [] then 0
    else Ruins(initial, shuffles[..|shuffles| - 1])
         + (if PathOf(initial, shuffles[|shuffles| - 1]).ruined then 1 else 0)
  }

  /** `run_monte_carlo`: fewer than five trades are not simulated, and no simulations divide by zero. */
  method RunMonteCarlo(trades: seq<real>, initial: real, shuffles: seq<seq<real>>) returns (r: Outcome)
    requires initial > 0.0
    ensures r.TooFewTrades? <==> |trades| < 5
    ensures r.NoSimulations? <==> |trades| >= 5 && shuffles == []
    ensures r.Report? ==>
      && |r.finalReturns| == |r.maxDrawdowns| == |shuffles|
      && (forall k :: 0 <= k < |shuffles| ==> r.finalReturns[k] == PathOf(initial, shuffles[k]).finalReturn)
      && (forall k :: 0 <= k < |shuffles| ==> r.maxDrawdowns[k] == PathOf(initial, shuffles[k]).maxDrawdown)
      && r.losses == Losses(initial, shuffles) && r.ruins == Ruins(initial, shuffles)
  {
    hide PathOf;
    if |trades| < 5 {
      return TooFewTrades;
    }
    var finals: seq<real> := [];
    var drawdowns: seq<real> := [];
    var losses, ruins := 0, 0;
    for i := 0 to |shuffles|
      invariant |finals| == i && |drawdowns| == i
      invariant forall k :: 0 <= k < i ==> finals[k] == PathOf(initial, shuffles[k]).finalReturn
      invariant forall k :: 0 <= k < i ==> drawdowns[k] == PathOf(initial, shuffles[k]).maxDrawdown
      invariant losses == Losses(initial, shuffles[..i]) && ruins == Ruins(initial, shuffles[..i])
    {
      var path := Simulate(initial, shuffles[i]);
      assert shuffles[..i + 1][..i] == shuffles[..i];
      finals := finals + [path.finalReturn];
      drawdowns := drawdowns + [path.maxDrawdown];
      if path.ruined { ruins := ruins + 1; }
      if path.lost { losses := losses + 1; }
    }
    assert shuffles[..|shuffles|] == shuffles;
    if shuffles == [] {
      return NoSimulations;
    }
    r := Report(finals, drawdowns, losses, ruins);
  }

  // ---------------------------------------------------------------- what the figures mean

  /** A path is ruined exactly when some point of it, the start included, is below half the capital. */
  lemma RuinedExactlyWhen(initial: real, trades: seq<real>)
    requires initial > 0.0
    ensures PathOf(initial, trades).ruined <==>
      exists k :: 0 <= k <= |trades| && Equity(initial, trades, k) < initial / 2.0
  {
    var n := |trades|;
    var j := LowestIsReached(initial, trades, n);
    assert PathOf(initial, trades).ruined <==> LowestEquity(initial, trades, n) < initial / 2.0;
    hide PathOf, Equity;
    forall k | 0 <= k <= n ensures LowestEquity(initial, trades, n) <= Equity(initial, trades, k) {
      LowestIsLowest(initial, trades, k, n);
    }
  }

  /** It loses exactly when its trades together do, and its return is their gain in percent of the capital. */
  lemma ReturnIsTheGain(initial: real, trades: seq<real>)
    requires initial > 0.0
    ensures PathOf(initial, trades).lost <==> Sum(trades) < 0.0
    ensures PathOf(initial, trades).finalReturn * initial == 100.0 * Sum(trades)
  {
    hide WorstDrawdown, LowestEquity, Sum, Drawdown;
    assert trades[..|trades|] == trades;
    PathFields(initial, trades);
    hide PathOf;
    ReturnIs(initial + Sum(trades), initial, Sum(trades));
  }

  lemma PathFields(initial: real, trades: seq<real>)
    requires initial > 0.0
    ensures var end := Equity(initial, trades, |trades|);
      && PathOf(initial, trades).finalReturn == (end / initial - 1.0) * 100.0
      && (PathOf(initial, trades).lost <==> end < initial)
  {
    hide WorstDrawdown, LowestEquity, Equity;
  }

  lemma ReturnIs(end: real, initial: real, gain: real)
    requires initial > 0.0 && end == initial + gain
    ensures (end / initial - 1.0) * 100.0 * initial == 100.0 * gain
  {
    var x := end / initial;
    assert x * initial == end;
  }

  lemma {:induction false} LowestIsLowest(initial: real, trades: seq<real>, j: nat, k: nat)
    requires j <= k <= |trades|
    ensures LowestEquity(initial, trades, k) <= Equity(initial, trades, j)
  {
    if j < k {
      LowestIsLowest(initial, trades, j, k - 1);
    }
  }

  /** The ruin count is the number of ruined simulations. */
  lemma {:induction false} RuinsAreCounted(initial: real, shuffles: seq<seq<real>>)
    requires initial > 0.0
    ensures Ruins(initial, shuffles) == |set k | 0 <= k < |shuffles| && PathOf(initial, shuffles[k]).ruined|
  {
    hide PathOf;
    var ruined := set k | 0 <= k < |shuffles| && PathOf(initial, shuffles[k]).ruined;
    if shuffles == [] {
      assert ruined == {};
    } else {
      var n := |shuffles| - 1;
      RuinsAreCounted(initial, shuffles[..n]);
      var before := set k | 0 <= k < n && PathOf(initial, shuffles[..n][k]).ruined;
      assert n !in before;
      if PathOf(initial, shuffles[n]).ruined {
        assert ruined == before + {n};
      } else {
        assert ruined == before;
      }
    }
  }

  // ---------------------------------------------------------------- order does not change the end

  lemma {:induction false} SumWithout(xs: seq<real>, i: nat)
    requires i < |xs|
    ensures Sum(xs) == xs[i] + Sum(xs[..i] + xs[i + 1..])
  {
    var n := |xs| - 1;
    if i == n {
      assert xs[..i] + xs[i + 1..] == xs[..n];
    } else {
      var rest := xs[..i] + xs[i + 1..];
      assert rest[..|rest| - 1] == xs[..n][..i] + xs[..n][i + 1..];
      SumWithout(xs[..n], i);
    }
  }

  lemma {:induction false} SumOfPermutation(xs: seq<real>, ys: seq<real>)
    requires multiset(xs) == multiset(ys)
    ensures Sum(xs) == Sum(ys)
    decreases |xs|
  {
    if xs == [] {
      assert |ys| == |multiset(ys)| == 0;
    } else {
      var n := |xs| - 1;
      var x := xs[n];
      assert x in multiset(ys);
      var i :| 0 <= i < |ys| && ys[i] == x;
      assert xs == xs[..n] + [x];
      assert ys == ys[..i] + [x] + ys[i + 1..];
      assert multiset(xs) == multiset(xs[..n]) + multiset{x};
      assert multiset(ys) == multiset(ys[..i] + ys[i + 1..]) + multiset{x};
      assert multiset(xs[..n]) == multiset(xs) - multiset{x};
      SumOfPermutation(xs[..n], ys[..i] + ys[i + 1..]);
      SumWithout(ys, i);
    }
  }

  ghost predicate AllPermutations(trades: seq<real>, shuffles: seq<seq<real>>) {
    forall k :: 0 <= k < |shuffles| ==> multiset(shuffles[k]) == multiset(trades)
  }

  lemma ShuffleEndsWhereTradesEnd(initial: real, trades: seq<real>, shuffled: seq<real>)
    requires multiset(shuffled) == multiset(trades)
    ensures Equity(initial, shuffled, |shuffled|) == initial + Sum(trades)
  {
    SumOfPermutation(shuffled, trades);
    assert shuffled[..|shuffled|] == shuffled;
  }

  /**
   Reshuffling cannot change where a path ends: every simulation reports the same final return, and
   the loss count is all of them or none, exactly as the trades together lose money or not.
  */
  lemma {:induction false} LossIsAllOrNothing(initial: real, trades: seq<real>, shuffles: seq<seq<real>>)
    requires initial > 0.0 && AllPermutations(trades, shuffles)
    ensures Losses(initial, shuffles) == if Sum(trades) < 0.0 then |shuffles| else 0
    ensures forall k :: 0 <= k < |shuffles| ==>
      PathOf(initial, shuffles[k]).finalReturn == ((initial + Sum(trades)) / initial - 1.0) * 100.0
  {
    var n := |shuffles|;
    if n > 0 {
      LossIsAllOrNothing(initial, trades, shuffles[..n - 1]);
      ShuffleEndsWhereTradesEnd(initial, trades, shuffles[n - 1]);
      forall k | 0 <= k < n
        ensures PathOf(initial, shuffles[k]).finalReturn == ((initial + Sum(trades)) / initial - 1.0) * 100.0
      {
        if k < n - 1 { assert shuffles[..n - 1][k] == shuffles[k]; }
      }
    }
  }

  // ---------------------------------------------------------------- drawdowns

  lemma {:induction false} PeakIsHighest(initial: real, trades: seq<real>, i: nat, j: nat)
    requires i <= j <= |trades|
    ensures Equity(initial, trades, i) <= Peak(initial, trades, j)
  {
    if i < j {
      PeakIsHighest(initial, trades, i, j - 1);
    } else if j == 0 {
      assert trades[..0] == [];
    }
  }

  lemma {:induction false} PeakIsReached(initial: real, trades: seq<real>, j: nat) returns (i: nat)
    requires j <= |trades|
    ensures i <= j && Equity(initial, trades, i) == Peak(initial, trades, j)
  {
    assert trades[..0] == [];
    if j == 0 {
      i := 0;
    } else if Peak(initial, trades, j) == Equity(initial, trades, j) {
      i := j;
    } else {
      i := PeakIsReached(initial, trades, j - 1);
    }
  }

  lemma {:induction false} WorstIsLowest(initial: real, trades: seq<real>, j: nat, k: nat)
    requires initial > 0.0 && j <= k <= |trades|
    ensures WorstDrawdown(initial, trades, k) <= Drawdown(initial, trades, j)
  {
    hide Drawdown;
    if j < k {
      WorstIsLowest(initial, trades, j, k - 1);
    }
  }

  lemma {:induction false} WorstIsReached(initial: real, trades: seq<real>, k: nat) returns (j: nat)
    requires initial > 0.0 && k <= |trades|
    ensures j <= k && WorstDrawdown(initial, trades, k) == Drawdown(initial, trades, j)
  {
    hide Drawdown;
    if k == 0 || WorstDrawdown(initial, trades, k) == Drawdown(initial, trades, k) {
      j := k;
    } else {
      j := WorstIsReached(initial, trades, k - 1);
    }
  }

  /** Falling from a higher point is falling further. */
  lemma FallFromHigher(low: real, from: real, peak: real)
    requires low >= 0.0 && 0.0 < from <= peak
    ensures (low - peak) / peak <= (low - from) / from
  {
    var x, y := (low - peak) / peak, (low - from) / from;
    assert x * peak == low - peak && y * from == low - from;
    assert (x + 1.0) * peak == low == (y + 1.0) * from;
    if x > y {
      assert y + 1.0 >= 0.0 by { if y + 1.0 < 0.0 { Negative(y + 1.0, from); } }
      Larger(x + 1.0, from, peak);
      Positive(x - y, from);
    }
  }

  lemma Negative(x: real, y: real)
    requires x < 0.0 && y > 0.0
    ensures x * y < 0.0
  {}

  lemma Positive(x: real, y: real)
    requires x > 0.0 && y > 0.0
    ensures x * y > 0.0
  {}

  lemma NegativeFactor(x: real, y: real)
    requires y > 0.0 && x * y < 0.0
    ensures x < 0.0
  {
    if x > 0.0 { Positive(x, y); }
  }

  lemma Larger(x: real, y: real, z: real)
    requires x >= 0.0 && y <= z
    ensures x * y <= x * z
  {}

  /** The fall from point `i` to a later point `j`, as a fraction of the equity at `i`. */
  function Fall(initial: real, trades: seq<real>, i: nat, j: nat): real
    requires i <= j <= |trades| && Equity(initial, trades, i) != 0.0
  {
    (Equity(initial, trades, j) - Equity(initial, trades, i)) / Equity(initial, trades, i)
  }

  /**
   The running-peak loop finds the deepest fall between two points in time order: some pair falls
   exactly that far, and no pair falls further that starts above zero and does not end below it.
  */
  lemma WorstDrawdownIsDeepestFall(initial: real, trades: seq<real>)
    requires initial > 0.0
    ensures exists i, j | 0 <= i <= j <= |trades| && Equity(initial, trades, i) > 0.0 ::
      PathOf(initial, trades).maxDrawdown == 100.0 * Fall(initial, trades, i, j)
    ensures forall i, j | 0 <= i <= j <= |trades| ::
      Equity(initial, trades, i) > 0.0 && Equity(initial, trades, j) >= 0.0 ==>
        PathOf(initial, trades).maxDrawdown <= 100.0 * Fall(initial, trades, i, j)
  {
    var j := WorstIsReached(initial, trades, |trades|);
    var i := PeakIsReached(initial, trades, j);
    assert PathOf(initial, trades).maxDrawdown == 100.0 * Fall(initial, trades, i, j);
    forall i: nat, j: nat | i <= j <= |trades| && Equity(initial, trades, i) > 0.0 && Equity(initial, trades, j) >= 0.0
      ensures PathOf(initial, trades).maxDrawdown <= 100.0 * Fall(initial, trades, i, j)
    {
      WorstIsLowest(initial, trades, j, |trades|);
      PeakIsHighest(initial, trades, i, j);
      FallFromHigher(Equity(initial, trades, j), Equity(initial, trades, i), Peak(initial, trades, j));
    }
  }

  lemma {:induction false} LowestIsReached(initial: real, trades: seq<real>, k: nat) returns (j: nat)
    requires k <= |trades|
    ensures j <= k && LowestEquity(initial, trades, k) == Equity(initial, trades, j)
  {
    if k == 0 || LowestEquity(initial, trades, k) == Equity(initial, trades, k) {
      j := k;
    } else {
      j := LowestIsReached(initial, trades, k - 1);
    }
  }

  lemma HalfOfInitial(low: real, initial: real, peak: real)
    requires low < initial * 0.5 && 0.0 < initial <= peak
    ensures (low - peak) / peak < -0.5
  {
    var x := (low - peak) / peak;
    assert x * peak == low - peak;
    var gap := x + 0.5;
    assert gap * peak == low - 0.5 * peak;
    NegativeFactor(gap, peak);
  }

  /** A ruined path shows a drawdown beyond half; and no path that ends solvent shows a drawdown
      shallower than its final loss. */
  lemma RuinAndLossShowInDrawdown(initial: real, trades: seq<real>)
    requires initial > 0.0
    ensures var p := PathOf(initial, trades);
      && (p.ruined ==> p.maxDrawdown < -50.0)
      && (Equity(initial, trades, |trades|) >= 0.0 ==> p.maxDrawdown <= p.finalReturn)
  {
    var n := |trades|;
    var j := LowestIsReached(initial, trades, n);
    WorstIsLowest(initial, trades, j, n);
    if PathOf(initial, trades).ruined {
      HalfOfInitial(Equity(initial, trades, j), initial, Peak(initial, trades, j));
    }
    if Equity(initial, trades, n) >= 0.0 {
      WorstIsLowest(initial, trades, n, n);
      FallFromHigher(Equity(initial, trades, n), initial, Peak(initial, trades, n));
      FinalAsFall(Equity(initial, trades, n), initial);
    }
  }

  lemma FinalAsFall(end: real, initial: real)
    requires initial > 0.0
    ensures (end - initial) / initial == end / initial - 1.0
  {
    var x, y := (end - initial) / initial, end / initial;
    assert x * initial == end - initial && y * initial == end;
    var gap := x - (y - 1.0);
    assert gap * initial == 0.0;
    if gap > 0.0 { Positive(gap, initial); } else if gap < 0.0 { Negative(gap, initial); }
  }
}
