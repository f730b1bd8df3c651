/** The tuning constants of the master and the small types its modules share. */
module Limits {
  const WORKER_MAX_CONCURRENCY: nat := 50
  const ELITE_BURST_SLOTS: nat := 50
  const PRO_BURST_SLOTS: nat := 20

  datatype Option<+T> = None | Some(value: T)

  /** A request's tier. `Free` stands for every string but "elite" and "pro". */
  datatype Tier = Elite | Pro | Free

  /** How far above the limit a tier may still be admitted without queuing. */
  function Burst(tier: Tier): nat {
    match tier
    case Elite => ELITE_BURST_SLOTS
    case Pro => PRO_BURST_SLOTS
    case Free => 0
  }

  function Max(x: int, y: int): int {
    if x < y then y else x
  }

  function Min(x: int, y: int): int {
    if x < y then x else y
  }

  /** Products are named where proofs about sums need not look inside them. */
  function Times(x: real, y: real): real {
    x * y
  }

  /** The last `n` elements, or all of them while there are fewer. */
  function Last<T>(history: seq<T>, n: nat): seq<T> {
    if |history| <= n then history else history[|history| - n..]
  }

  /** Their number and their places. */
  lemma LastAre<T>(history: seq<T>, n: nat)
    ensures var end := Last(history, n);
      && |end| == Min(|history|, n)
      && forall i :: 0 <= i < |end| ==> end[i] == history[|history| - |end| + i]
  {
  }

  ghost predicate Distinct<T>(xs: seq<T>) {
    forall i, j :: 0 <= i < j < |xs| ==> xs[i] != xs[j]
  }

  lemma {:induction false} DistinctSize<T>(xs: seq<T>)
    requires Distinct(xs)
    ensures |set x | x in xs| == |xs|
  {
    if xs == [] {
    } else {
      var rest, last := xs[..|xs| - 1], xs[|xs| - 1];
      DistinctSize(rest);
      assert (set x | x in xs) == (set x | x in rest) + {last};
    }
  }

  /** A set that one element may have joined. */
  lemma JoinedSize(before: set<nat>, after: set<nat>, n: nat, joins: bool)
    requires n !in before && forall k: nat :: k in after <==> k in before || (joins && k == n)
    ensures |after| == |before| + if joins then 1 else 0
  {
    assert after == if joins then before + {n} else before;
  }

  lemma SameSize<T>(s: seq<T>, t: seq<T>)
    requires multiset(s) == multiset(t)
    ensures |s| == |t|
  {
    assert |multiset(s)| == |s| && |multiset(t)| == |t|;
  }
}
