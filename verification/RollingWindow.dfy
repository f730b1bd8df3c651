/**
 The rolling window of samples and its percentiles. Samples are reals: the
 rounding of the code's floats is not part of this model.
 */
module RollingWindow {
  import opened Limits
  import opened Sorting

  const SAMPLE: real -> real := (x: real) => x

  /** The samples of a buffer in arrival order. */
  function InOrder<T>(data: seq<T>, pos: nat, full: bool): seq<T>
    requires pos <= |data|
  {
    if full then data[pos..] + data[..pos] else data[..pos]
  }

  /** Overwriting at `pos` and moving on drops the oldest sample once the buffer is full. */
  lemma OverwriteKeepsOrder<T>(data: seq<T>, pos: nat, full: bool, history: seq<T>, v: T)
    requires pos < |data| && (full <==> |history| >= |data|)
    requires InOrder(data, pos, full) == Last(history, |data|)
    ensures var wraps, after := pos + 1 == |data|, data[pos := v];
      && InOrder(after, if wraps then 0 else pos + 1, full || wraps) == Last(history + [v], |data|)
      && (full || wraps <==> |history| + 1 >= |data|)
  {
    var after := data[pos := v];
    if full {
      var kept := data[pos + 1..] + data[..pos];
      assert data[pos..] + data[..pos] == [data[pos]] + kept;
      assert Last(history + [v], |data|) == Last(history, |data|)[1..] + [v];
      assert Last(history, |data|)[1..] == kept;
      if pos + 1 == |data| {
        assert after[0..] + after[..0] == kept + [v];
      } else {
        assert after[pos + 1..] + after[..pos + 1] == kept + [v];
      }
    } else {
      assert |history| == pos;
      assert after[..pos + 1] == history + [v];
      if pos + 1 == |data| {
        assert after[0..] + after[..0] == after[..pos + 1];
      }
    }
  }

  class RollingWindow {
    const data: array<real>
    const size: nat
    var pos: nat
    var full: bool
    ghost var history: seq<real>                // every sample ever added, in order

    ghost predicate Valid()
      reads this, data
    {
      && data.Length == size
      && (size > 0 ==> pos < size)
      && (size == 0 ==> pos == 0)
      && (full <==> size > 0 && |history| >= size)
      && InOrder(data[..], pos, full) == Last(history, size)
    }

    constructor (size: nat)
      ensures Valid() && fresh(data) && this.size == size && history == []
    {
      this.size := size;
      data := new real[size];
      pos, full := 0, false;
      history := [];
    }

    /** A window of size zero panics in the code. */
    method Add(v: real)
      requires Valid() && size > 0
      modifies this, data
      ensures Valid() && history == old(history) + [v]
    {
      OverwriteKeepsOrder(data[..], pos, full, history, v);
      ghost var was := data[..];
      data[pos] := v;
      assert data[..] == was[pos := v];
      history := history + [v];
      pos := pos + 1;
      if pos >= size {
        pos := 0;
        full := true;
      }
    }

    method Len() returns (n: nat)
      requires Valid()
      ensures n == Min(|history|, size)
    {
      if full {
        return size;
      }
      return pos;
    }

    /** The window in arrival order. */
    method Values() returns (out: array<real>)
      requires Valid()
      ensures fresh(out) && out[..] == Last(history, size)
    {
      var n := Len();
      hide Last;
      out := new real[n];
      if full {
        Copy(out, 0, pos, size);
        Copy(out, size - pos, 0, pos);
        assert out[..] == out[..size - pos] + out[size - pos..];
      } else {
        Copy(out, 0, 0, pos);
      }
    }

    /** Copies a part of the buffer to a place in the array. */
    method Copy(out: array<real>, at: nat, from: nat, to: nat)
      requires from <= to <= data.Length && at + (to - from) <= out.Length && out != data
      modifies out
      ensures out[at..at + (to - from)] == data[from..to] && out[..at] == old(out[..at])
      ensures out[at + (to - from)..] == old(out[at + (to - from)..])
    {
      forall i | 0 <= i < to - from {
        out[at + i] := data[from + i];
      }
    }

    method Percentile(p: real) returns (r: real)
      requires Valid() && 0.0 <= p <= 100.0
      ensures r == PercentileOf(Last(history, size), p)
    {
      ghost var vals := Last(history, size);
      var sorted := Values();
      var n := sorted.Length;
      if n == 0 {
        return 0.0;
      }
      InsertionSort(sorted, SAMPLE);
      var rank := Rank(p, n);
      PercentileIs(vals, p);
      r := Interpolate(sorted, rank);
    }

    method Interpolate(sorted: array<real>, rank: real) returns (r: real)
      requires 0.0 <= rank <= (sorted.Length - 1) as real
      ensures r == At(sorted[..], rank)
    {
      CeilOf(rank);
      var n := sorted.Length;
      var lower := rank.Floor;
      var upper := Ceil(rank);
      if lower == upper || upper >= n {
        return sorted[lower];
      }
      var frac := rank - lower as real;
      return sorted[lower] * (1.0 - frac) + sorted[upper] * frac;
    }
  }

  // ---------------------------------------------------------------------------
  // What a percentile is
  // ---------------------------------------------------------------------------

  function Ceil(x: real): int {
    -(-x).Floor
  }

  function Rank(p: real, n: nat): real {
    p / 100.0 * (n - 1) as real
  }

  lemma CeilOf(x: real)
    ensures Ceil(x) == if x == x.Floor as real then x.Floor else x.Floor + 1
  {
  }

  lemma RankInRange(p: real, n: nat)
    requires 0.0 <= p <= 100.0 && n > 0
    ensures 0.0 <= Rank(p, n) <= (n - 1) as real
    ensures 0 <= Rank(p, n).Floor <= Ceil(Rank(p, n)) <= n - 1
  {
    var q := p / 100.0;
    ScaleDown(q, (n - 1) as real);
    assert Rank(p, n) == q * (n - 1) as real;
    CeilOf(Rank(p, n));
  }

  lemma RankMonotone(p: real, p': real, n: nat)
    requires 0.0 <= p <= p' && n > 0
    ensures Rank(p, n) <= Rank(p', n)
  {
    Percent(p, p');
    ScaleMonotone(p / 100.0, p' / 100.0, (n - 1) as real);
  }

  lemma Percent(p: real, p': real)
    requires p <= p'
    ensures p / 100.0 <= p' / 100.0
  {
  }

  lemma ScaleMonotone(q: real, q': real, x: real)
    requires q <= q' && 0.0 <= x
    ensures q * x <= q' * x
  {
    var d := q' - q;
    NoNegativeFactor(d, x);
    assert q' * x == q * x + d * x;
  }

  lemma NoNegativeFactor(d: real, x: real)
    requires 0.0 <= d && 0.0 <= x
    ensures 0.0 <= d * x
  {
  }

  lemma ScaleDown(q: real, x: real)
    requires 0.0 <= q <= 1.0 && 0.0 <= x
    ensures 0.0 <= q * x <= x
  {
  }

  function Blend(a: real, b: real, f: real): real {
    a * (1.0 - f) + b * f
  }

  /** Interpolates at `rank` in an ascending sequence. */
  function At(sorted: seq<real>, rank: real): real
    requires 0.0 <= rank <= (|sorted| - 1) as real
  {
    var lower := rank.Floor;
    if lower as real == rank then sorted[lower]
    else Blend(sorted[lower], sorted[lower + 1], rank - lower as real)
  }

  function PercentileOf(window: seq<real>, p: real): real
    requires 0.0 <= p <= 100.0
  {
    if window == [] then 0.0
    else
      RankInRange(p, |window|);
      SortedAscends(window, SAMPLE);
      At(Sorted(window, SAMPLE), Rank(p, |window|))
  }

  lemma PercentileIs(window: seq<real>, p: real)
    requires 0.0 <= p <= 100.0 && window != []
    ensures var sorted, rank := Sorted(window, SAMPLE), Rank(p, |window|);
      && |sorted| == |window| && 0.0 <= rank <= (|sorted| - 1) as real
      && PercentileOf(window, p) == At(sorted, rank)
  {
    SortedAscends(window, SAMPLE);
    RankInRange(p, |window|);
  }

  /** The window sorted: in increasing order, the same samples. */
  lemma SortedWindow(window: seq<real>)
    ensures var sorted := Sorted(window, SAMPLE);
      NonDecreasing(sorted) && multiset(sorted) == multiset(window) && |sorted| == |window|
  {
    SortedAscends(window, SAMPLE);
    var sorted := Sorted(window, SAMPLE);
    forall i, j | 0 <= i < j < |sorted| ensures sorted[i] <= sorted[j] {
      assert SAMPLE(sorted[i]) <= SAMPLE(sorted[j]);
    }
  }

  lemma Between(a: real, b: real, f: real, g: real)
    requires a <= b && 0.0 <= f <= g <= 1.0
    ensures a <= Blend(a, b, f) <= Blend(a, b, g) <= b
  {
    ScaleDown(f, b - a);
    ScaleDown(1.0 - g, b - a);
    ScaleDown(g - f, b - a);
    BlendIs(a, b, f);
    BlendIs(a, b, g);
  }

  lemma BlendIs(a: real, b: real, f: real)
    ensures Blend(a, b, f) == a + f * (b - a) == b - (1.0 - f) * (b - a)
  {
  }

  lemma AtBetween(sorted: seq<real>, rank: real)
    requires 0.0 <= rank <= (|sorted| - 1) as real && NonDecreasing(sorted)
    ensures sorted[rank.Floor] <= At(sorted, rank) <= sorted[Ceil(rank)]
  {
    hide Blend;
    CeilOf(rank);
    if rank.Floor as real != rank {
      var f := rank - rank.Floor as real;
      assert sorted[rank.Floor] <= sorted[rank.Floor + 1];
      Between(sorted[rank.Floor], sorted[rank.Floor + 1], f, f);
    }
  }

  lemma AtMonotone(sorted: seq<real>, r: real, r': real)
    requires 0.0 <= r <= r' <= (|sorted| - 1) as real && NonDecreasing(sorted)
    ensures At(sorted, r) <= At(sorted, r')
  {
    hide Blend, Ceil;
    AtBetween(sorted, r);
    AtBetween(sorted, r');
    CeilOf(r);
    var lower := r.Floor;
    if lower == r'.Floor {
      if r' != lower as real {
        assert sorted[lower] <= sorted[lower + 1];
        Between(sorted[lower], sorted[lower + 1], r - lower as real, r' - lower as real);
      }
    } else {
      assert Ceil(r) <= r'.Floor;
      assert sorted[Ceil(r)] <= sorted[r'.Floor];
    }
  }

  /** A higher percentile is never a smaller value. */
  lemma PercentileMonotone(window: seq<real>, p: real, p': real)
    requires 0.0 <= p <= p' <= 100.0
    ensures PercentileOf(window, p) <= PercentileOf(window, p')
  {
    if window != [] {
      RankInRange(p, |window|);
      RankInRange(p', |window|);
      SortedWindow(window);
      RankMonotone(p, p', |window|);
      AtMonotone(Sorted(window, SAMPLE), Rank(p, |window|), Rank(p', |window|));
    }
  }

  /** Percentile 0 is the smallest sample and percentile 100 the largest. */
  lemma PercentileExtremes(window: seq<real>)
    requires window != []
    ensures PercentileOf(window, 0.0) in window && PercentileOf(window, 100.0) in window
    ensures forall x <- window :: PercentileOf(window, 0.0) <= x <= PercentileOf(window, 100.0)
  {
    SortedWindow(window);
    var sorted := Sorted(window, SAMPLE);
    assert Rank(100.0, |window|) == (|window| - 1) as real;
    assert PercentileOf(window, 0.0) == sorted[0] && PercentileOf(window, 100.0) == sorted[|sorted| - 1];
    forall x ensures x in sorted <==> x in window {
      assert x in multiset(sorted) <==> x in multiset(window);
    }
    forall x <- window ensures sorted[0] <= x <= sorted[|sorted| - 1] {
      var i :| 0 <= i < |sorted| && sorted[i] == x;
      assert sorted[0] <= sorted[i] <= sorted[|sorted| - 1];
    }
  }

  // ---------------------------------------------------------------------------
  // How many samples lie on each side
  // ---------------------------------------------------------------------------

  function AtMost(v: real): real -> bool {
    x => x <= v
  }

  function AtLeast(v: real): real -> bool {
    x => x >= v
  }

  lemma AtRanks(sorted: seq<real>, rank: real)
    requires 0.0 <= rank <= (|sorted| - 1) as real && NonDecreasing(sorted)
    ensures Count(sorted, AtMost(At(sorted, rank))) >= rank.Floor + 1
    ensures Count(sorted, AtLeast(At(sorted, rank))) >= |sorted| - Ceil(rank)
  {
    var v := At(sorted, rank);
    CeilOf(rank);
    AtBetween(sorted, rank);
    PrefixCount(sorted, AtMost(v), rank.Floor + 1);
    SuffixCount(sorted, AtLeast(v), Ceil(rank));
  }

  /** At least `floor(rank) + 1` samples are at most the percentile, and `n - ceil(rank)` at least it. */
  lemma PercentileRanks(window: seq<real>, p: real)
    requires window != [] && 0.0 <= p <= 100.0
    ensures Count(window, AtMost(PercentileOf(window, p))) >= Rank(p, |window|).Floor + 1
    ensures Count(window, AtLeast(PercentileOf(window, p))) >= |window| - Ceil(Rank(p, |window|))
  {
    SortedWindow(window);
    RankInRange(p, |window|);
    AtRanks(Sorted(window, SAMPLE), Rank(p, |window|));
    SortedCount(window, SAMPLE, AtMost(PercentileOf(window, p)));
    SortedCount(window, SAMPLE, AtLeast(PercentileOf(window, p)));
  }

  lemma LastIsMost(s: seq<real>, x: real)
    requires NonDecreasing(s) && x in multiset(s)
    ensures x <= s[|s| - 1]
  {
    var i :| 0 <= i < |s| && s[i] == x;
    assert i < |s| - 1 ==> s[i] <= s[|s| - 1];
  }

  lemma DropLast(s: seq<real>)
    requires s != [] && NonDecreasing(s)
    ensures NonDecreasing(s[..|s| - 1]) && multiset(s[..|s| - 1]) == multiset(s) - multiset{s[|s| - 1]}
  {
    assert s == s[..|s| - 1] + [s[|s| - 1]];
  }

  lemma {:induction false} AscendingUnique(s: seq<real>, t: seq<real>)
    requires NonDecreasing(s) && NonDecreasing(t) && multiset(s) == multiset(t)
    ensures s == t
  {
    SameSize(s, t);
    if s == [] {
    } else {
      SameLast(s, t);
      DropLast(s);
      DropLast(t);
      hide NonDecreasing;
      AscendingUnique(s[..|s| - 1], t[..|t| - 1]);
      assert s == s[..|s| - 1] + [s[|s| - 1]];
    }
  }

  lemma SameLast(s: seq<real>, t: seq<real>)
    requires NonDecreasing(s) && NonDecreasing(t) && multiset(s) == multiset(t) && s != [] && t != []
    ensures s[|s| - 1] == t[|t| - 1]
  {
    assert s[|s| - 1] in multiset(t) && t[|t| - 1] in multiset(s);
    LastIsMost(t, s[|s| - 1]);
    LastIsMost(s, t[|t| - 1]);
  }

  /** A percentile does not depend on the order of the samples. */
  lemma PercentileOfMultiset(window: seq<real>, window': seq<real>, p: real)
    requires multiset(window) == multiset(window') && 0.0 <= p <= 100.0
    ensures PercentileOf(window, p) == PercentileOf(window', p)
  {
    SameSize(window, window');
    SortedWindow(window);
    SortedWindow(window');
    AscendingUnique(Sorted(window, SAMPLE), Sorted(window', SAMPLE));
  }

  // ---------------------------------------------------------------------------
  // What lies between two ranks
  // ---------------------------------------------------------------------------

  lemma RankIs(p: real, n: nat)
    requires n > 0
    ensures Rank(p, n) == p * (n - 1) as real / 100.0
  {
  }

  /** Between two neighbours the value runs along the line that joins them. */
  lemma AtInterpolates(s: seq<real>, rank: real, k: nat)
    requires k + 1 < |s| && k as real <= rank <= (k + 1) as real
    ensures At(s, rank) == s[k] + (rank - k as real) * (s[k + 1] - s[k])
  {
    var f := rank - k as real;
    if rank == (k + 1) as real {
      assert rank.Floor == k + 1;
    } else {
      assert rank.Floor == k;
      BlendIs(s[k], s[k + 1], f);
    }
  }

  /**
   The percentile of any window, between the samples of rank `k` and `k + 1`: with
   `s` the same samples in increasing order, it is linear in the percentage.
   */
  lemma PercentileInterpolates(window: seq<real>, s: seq<real>, p: real, k: nat)
    requires NonDecreasing(s) && multiset(s) == multiset(window) && k + 1 < |s| && 0.0 <= p <= 100.0
    requires k as real <= p * (|s| - 1) as real / 100.0 <= (k + 1) as real
    ensures PercentileOf(window, p) == s[k] + (p * (|s| - 1) as real / 100.0 - k as real) * (s[k + 1] - s[k])
  {
    hide At, Rank, Sorted;
    SameSize(s, window);
    SortedWindow(window);
    AscendingUnique(Sorted(window, SAMPLE), s);
    RankIs(p, |s|);
    RankInRange(p, |s|);
    PercentileIs(window, p);
    AtInterpolates(s, Rank(p, |s|), k);
  }

  /** A window without samples has percentile 0, one with a single sample that sample. */
  lemma PercentileOfFew(window: seq<real>, p: real)
    requires |window| <= 1 && 0.0 <= p <= 100.0
    ensures PercentileOf(window, p) == if window == [] then 0.0 else window[0]
  {
    if window != [] {
      PercentileExtremes(window);
      PercentileMonotone(window, 0.0, p);
      PercentileMonotone(window, p, 100.0);
    }
  }

  /** Samples on a rising line, in any order: the percentile is on the line, at the rank. */
  lemma PercentileOfLine(window: seq<real>, s: seq<real>, a: real, b: real, p: real)
    requires multiset(s) == multiset(window) && s != [] && b >= 0.0 && 0.0 <= p <= 100.0
    requires forall i :: 0 <= i < |s| ==> s[i] == a + b * i as real
    ensures PercentileOf(window, p) == a + b * (p * (|s| - 1) as real / 100.0)
  {
    hide PercentileOf, NonDecreasing;
    SameSize(s, window);
    if |s| == 1 {
      PercentileOfFew(window, p);
      assert s[0] in multiset(window);
    } else {
      RisingLine(s, a, b);
      var k := RankBelow(p, |s|);
      PercentileInterpolates(window, s, p, k);
      OnLine(s, a, b, k, p * (|s| - 1) as real / 100.0);
    }
  }

  lemma RisingLine(s: seq<real>, a: real, b: real)
    requires b >= 0.0 && forall i :: 0 <= i < |s| ==> s[i] == a + b * i as real
    ensures NonDecreasing(s)
  {
    forall i, j | 0 <= i < j < |s| ensures s[i] <= s[j] {
      ScaleMonotone(i as real, j as real, b);
    }
  }

  lemma RankBelow(p: real, n: nat) returns (k: nat)
    requires n > 1 && 0.0 <= p <= 100.0
    ensures k + 1 < n && k as real <= p * (n - 1) as real / 100.0 <= (k + 1) as real
  {
    RankIs(p, n);
    RankInRange(p, n);
    hide Rank;
    k := Min(Rank(p, n).Floor, n - 2);
  }

  lemma OnLine(s: seq<real>, a: real, b: real, k: nat, rank: real)
    requires k + 1 < |s| && s[k] == a + b * k as real && s[k + 1] == a + b * (k + 1) as real
    ensures s[k] + (rank - k as real) * (s[k + 1] - s[k]) == a + b * rank
  {
    assert s[k + 1] - s[k] == b;
  }
}
