/** `list(dict.fromkeys(items))`, as the source drops repeats from a list. */
module Lists {

  ghost predicate NoRepeats<T>(items: seq<T>) {
    forall i, j :: 0 <= i < j < |items| ==> items[i] != items[j]
  }

  /** Where `x` first occurs. */
  function First<T(==)>(items: seq<T>, x: T): (k: nat)
    requires x in items
    ensures k < |items| && items[k] == x && x !in items[..k]
  {
    var n := |items| - 1;
    if x in items[..n] then First(items[..n], x) else n
  }

  /** The first occurrence of each item, in order. */
  function Unique<T(==, !new)>(items: seq<T>): (r: seq<T>)
    ensures forall x :: x in r <==> x in items
    ensures NoRepeats(r)
    ensures forall i, j :: 0 <= i < j < |r| ==> First(items, r[i]) < First(items, r[j])
  {
    if items == [] then []
    else
      var before := Unique(items[..|items| - 1]);
      var last := items[|items| - 1];
      if last in before then before else before + [last]
  }

  /** `r` is some of `items`, in their order; `at` says where each stood. */
  ghost predicate TakenInOrder<T>(r: seq<T>, items: seq<T>, at: seq<nat>) {
    && |at| == |r|
    && (forall k :: 0 <= k < |at| ==> at[k] < |items| && items[at[k]] == r[k])
    && (forall j, k :: 0 <= j < k < |at| ==> at[j] < at[k])
  }

  /** One more item, taken or not. */
  lemma TakeOneMore<T>(r: seq<T>, items: seq<T>, at: seq<nat>, x: T)
    requires TakenInOrder(r, items, at)
    ensures TakenInOrder(r, items + [x], at)
    ensures TakenInOrder(r + [x], items + [x], at + [|items|])
  {}

  /** `at` is where the items that are kept stand: every one of them, in order. */
  ghost predicate Picks<T>(at: seq<nat>, items: seq<T>, keep: T -> bool) {
    && (forall k :: 0 <= k < |at| ==> at[k] < |items| && keep(items[at[k]]))
    && (forall j, k :: 0 <= j < k < |at| ==> at[j] < at[k])
    && (forall i :: 0 <= i < |items| && keep(items[i]) ==> i in at)
  }

  lemma PickNone<T>(keep: T -> bool)
    ensures Picks([], [], keep)
  {}

  lemma PickOneMore<T>(at: seq<nat>, items: seq<T>, keep: T -> bool, x: T)
    requires Picks(at, items, keep)
    ensures Picks(if keep(x) then at + [|items|] else at, items + [x], keep)
  {
    var at' := if keep(x) then at + [|items|] else at;
    forall i | 0 <= i < |items + [x]| && keep((items + [x])[i]) ensures i in at' {
      if i < |items| {
        assert i in at;
      } else {
        assert at'[|at|] == i;
      }
    }
  }

  lemma PickedInRange<T>(at: seq<nat>, items: seq<T>, keep: T -> bool)
    requires Picks(at, items, keep)
    ensures forall k :: 0 <= k < |at| ==> at[k] < |items|
  {}
}
