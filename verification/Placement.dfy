/**
 Spreading workers over agents by always taking an agent with the fewest: the
 result is the best any placement can do.
 */
module Placement {
  import opened Limits

  function Sum(c: seq<int>): int {
    if c == [] then 0 else Sum(c[..|c| - 1]) + c[|c| - 1]
  }

  function MaxOf(c: seq<int>): int
    requires c != []
  {
    if |c| == 1 then c[0] else Max(MaxOf(c[..|c| - 1]), c[|c| - 1])
  }

  function MinOf(c: seq<int>): int
    requires c != []
  {
    if |c| == 1 then c[0] else Min(MinOf(c[..|c| - 1]), c[|c| - 1])
  }

  /** The quotient rounded up. */
  function CeilDiv(x: int, n: int): int
    requires n > 0
  {
    (x + n - 1) / n
  }

  predicate IsLeast(c: seq<int>, i: nat) {
    i < |c| && forall j :: 0 <= j < |c| ==> c[i] <= c[j]
  }

  function AddOne(c: seq<int>, i: nat): seq<int>
    requires i < |c|
  {
    c[i := c[i] + 1]
  }

  /** Each pick is an agent with the fewest workers at that moment, and gets one more. */
  ghost predicate Greedy(c: seq<int>, picks: seq<nat>, c': seq<int>)
    decreases |picks|
  {
    if picks == [] then c' == c
    else
      var last := picks[|picks| - 1];
      exists before :: Greedy(c, picks[..|picks| - 1], before) && IsLeast(before, last) && c' == AddOne(before, last)
  }

  /** Any way of adding `k` workers. */
  ghost predicate Places(c: seq<int>, k: nat, c': seq<int>) {
    |c'| == |c| && (forall i :: 0 <= i < |c| ==> c[i] <= c'[i]) && Sum(c') == Sum(c) + k
  }

  // ---------------------------------------------------------------------------
  // Sums and extremes
  // ---------------------------------------------------------------------------

  lemma {:induction false} MaxOfIs(c: seq<int>)
    requires c != []
    ensures MaxOf(c) in c && forall i :: 0 <= i < |c| ==> c[i] <= MaxOf(c)
  {
    if |c| == 1 {
    } else {
      MaxOfIs(c[..|c| - 1]);
    }
  }

  lemma {:induction false} MinOfIs(c: seq<int>)
    requires c != []
    ensures MinOf(c) in c && forall i :: 0 <= i < |c| ==> MinOf(c) <= c[i]
  {
    if |c| == 1 {
    } else {
      MinOfIs(c[..|c| - 1]);
    }
  }

  lemma {:induction false} SumBetween(c: seq<int>, lo: int, hi: int)
    requires forall i :: 0 <= i < |c| ==> lo <= c[i] <= hi
    ensures |c| * lo <= Sum(c) <= |c| * hi
  {
    if c == [] {
    } else {
      SumBetween(c[..|c| - 1], lo, hi);
      assert |c| * lo == (|c| - 1) * lo + lo && |c| * hi == (|c| - 1) * hi + hi;
    }
  }

  lemma {:induction false} SumAddOne(c: seq<int>, i: nat)
    requires i < |c|
    ensures Sum(AddOne(c, i)) == Sum(c) + 1
  {
    var rest := c[..|c| - 1];
    if i == |c| - 1 {
      assert AddOne(c, i)[..|c| - 1] == rest;
    } else {
      SumAddOne(rest, i);
      assert AddOne(c, i)[..|c| - 1] == AddOne(rest, i);
    }
  }

  lemma CeilDivLeast(x: int, n: int, m: int)
    requires n > 0
    ensures CeilDiv(x, n) <= m <==> x <= n * m
  {
    var q := CeilDiv(x, n);
    assert n * q <= x + n - 1 < n * q + n;
    if q <= m {
      assert n * q <= n * m;
    } else {
      assert n * (m + 1) <= n * q;
    }
  }

  // ---------------------------------------------------------------------------
  // One greedy step
  // ---------------------------------------------------------------------------

  /** A step raises the maximum only when all agents were level, and never lowers the minimum. */
  lemma StepExtremes(c: seq<int>, i: nat)
    requires IsLeast(c, i)
    ensures var c' := AddOne(c, i);
      && MinOf(c') >= MinOf(c)
      && (MaxOf(c') == MaxOf(c) || (MaxOf(c') == c[i] + 1 && MaxOf(c) == MinOf(c) == c[i]))
  {
    var c' := AddOne(c, i);
    MaxOfIs(c);
    MaxOfIs(c');
    MinOfIs(c);
    MinOfIs(c');
    assert c'[i] == c[i] + 1;
    var top :| 0 <= top < |c| && c[top] == MaxOf(c);
    assert c[top] <= c'[top];
  }

  // ---------------------------------------------------------------------------
  // Runs
  // ---------------------------------------------------------------------------

  lemma {:induction false} GreedyPlaces(c: seq<int>, picks: seq<nat>, c': seq<int>)
    requires Greedy(c, picks, c')
    ensures Places(c, |picks|, c')
    decreases |picks|
  {
    if picks == [] {
    } else {
      var rest, last := picks[..|picks| - 1], picks[|picks| - 1];
      var before :| Greedy(c, rest, before) && IsLeast(before, last) && c' == AddOne(before, last);
      GreedyPlaces(c, rest, before);
      SumAddOne(before, last);
    }
  }

  /** The maximum is the old one, or small enough for the total. */
  lemma {:induction false} GreedyMax(c: seq<int>, picks: seq<nat>, c': seq<int>)
    requires c != [] && Greedy(c, picks, c')
    ensures |c'| == |c| && (MaxOf(c') <= MaxOf(c) || MaxOf(c') <= CeilDiv(Sum(c'), |c|))
    decreases |picks|
  {
    if picks == [] {
    } else {
      var rest, last := picks[..|picks| - 1], picks[|picks| - 1];
      var before :| Greedy(c, rest, before) && IsLeast(before, last) && c' == AddOne(before, last);
      GreedyMax(c, rest, before);
      StepExtremes(before, last);
      SumAddOne(before, last);
      if MaxOf(c') == MaxOf(before) {
        CeilDivLeast(Sum(before), |c|, CeilDiv(Sum(c'), |c|));
        CeilDivLeast(Sum(c'), |c|, CeilDiv(Sum(c'), |c|));
      } else {
        MaxOfIs(before);
        SumBetween(before, before[last], MaxOf(before));
        CeilDivLeast(Sum(c'), |c|, before[last]);
      }
    }
  }

  /** Pigeonhole: no placement of `k` more workers has a smaller maximum. */
  lemma PlacesMax(c: seq<int>, k: nat, a: seq<int>)
    requires c != [] && Places(c, k, a)
    ensures MaxOf(a) >= MaxOf(c) && MaxOf(a) >= CeilDiv(Sum(c) + k, |c|)
  {
    MaxOfIs(c);
    MaxOfIs(a);
    MinOfIs(a);
    var top :| 0 <= top < |c| && c[top] == MaxOf(c);
    assert c[top] <= a[top];
    SumBetween(a, MinOf(a), MaxOf(a));
    CeilDivLeast(Sum(a), |c|, MaxOf(a));
  }

  /** The fullest agent after any number of greedy picks. */
  lemma GreedyMaximum(c: seq<int>, picks: seq<nat>, c': seq<int>)
    requires c != [] && Greedy(c, picks, c')
    ensures |c'| == |c| && MaxOf(c') == Max(MaxOf(c), CeilDiv(Sum(c) + |picks|, |c|))
  {
    hide CeilDiv, MaxOf, Sum, Greedy;
    GreedyPlaces(c, picks, c');
    GreedyMax(c, picks, c');
    PlacesMax(c, |picks|, c');
  }

  /** No other placement of as many workers has a smaller maximum. */
  lemma GreedyIsOptimal(c: seq<int>, picks: seq<nat>, c': seq<int>, other: seq<int>)
    requires c != [] && Greedy(c, picks, c') && Places(c, |picks|, other)
    ensures |c'| == |other| == |c| && MaxOf(c') <= MaxOf(other)
  {
    hide CeilDiv, MaxOf, Sum, Greedy;
    GreedyMaximum(c, picks, c');
    PlacesMax(c, |picks|, other);
  }

  function Spread(c: seq<int>): int
    requires c != []
  {
    MaxOf(c) - MinOf(c)
  }

  /** The agents never drift further apart than they started, or than one worker. */
  lemma {:induction false} GreedySpread(c: seq<int>, picks: seq<nat>, c': seq<int>)
    requires c != [] && Greedy(c, picks, c')
    ensures |c'| == |c| && Spread(c') <= Max(Spread(c), 1)
    decreases |picks|
  {
    if picks == [] {
    } else {
      var rest, last := picks[..|picks| - 1], picks[|picks| - 1];
      var before :| Greedy(c, rest, before) && IsLeast(before, last) && c' == AddOne(before, last);
      GreedySpread(c, rest, before);
      StepExtremes(before, last);
    }
  }
}
