/**
 The insertion sort that the metrics (over samples) and the drain selection
 (over workers, by load) both use, in place and against a specification.
 */
module Sorting {

  /** Inserts `x` after every element of the ascending `s` that is not above it. */
  function Insert<T>(s: seq<T>, key: T -> real, x: T): seq<T> {
    if s != [] && key(s[|s| - 1]) > key(x) then Insert(s[..|s| - 1], key, x) + [s[|s| - 1]] else s + [x]
  }

  function Sorted<T>(s: seq<T>, key: T -> real): seq<T> {
    if s == [] then [] else Insert(Sorted(s[..|s| - 1], key), key, s[|s| - 1])
  }

  ghost predicate Ascending<T>(s: seq<T>, key: T -> real) {
    forall i, j :: 0 <= i < j < |s| ==> key(s[i]) <= key(s[j])
  }

  ghost predicate NonDecreasing(s: seq<real>) {
    forall i, j :: 0 <= i < j < |s| ==> s[i] <= s[j]
  }

  lemma {:induction false} InsertElements<T>(s: seq<T>, key: T -> real, x: T)
    ensures multiset(Insert(s, key, x)) == multiset(s) + multiset{x}
  {
    if s == [] || key(s[|s| - 1]) <= key(x) {
    } else {
      InsertElements(s[..|s| - 1], key, x);
      assert s == s[..|s| - 1] + [s[|s| - 1]];
    }
  }

  lemma {:induction false} InsertBelow<T>(s: seq<T>, key: T -> real, x: T, top: real)
    requires key(x) <= top && forall i :: 0 <= i < |s| ==> key(s[i]) <= top
    ensures forall i :: 0 <= i < |Insert(s, key, x)| ==> key(Insert(s, key, x)[i]) <= top
  {
    if s == [] || key(s[|s| - 1]) <= key(x) {
    } else {
      InsertBelow(s[..|s| - 1], key, x, top);
    }
  }

  lemma {:induction false} InsertAscends<T>(s: seq<T>, key: T -> real, x: T)
    requires Ascending(s, key)
    ensures Ascending(Insert(s, key, x), key)
  {
    if s == [] || key(s[|s| - 1]) <= key(x) {
    } else {
      var rest, last := s[..|s| - 1], s[|s| - 1];
      InsertAscends(rest, key, x);
      InsertBelow(rest, key, x, key(last));
    }
  }

  /** The specification sorts: ascending, and the same elements. */
  lemma {:induction false} SortedAscends<T>(s: seq<T>, key: T -> real)
    ensures Ascending(Sorted(s, key), key) && multiset(Sorted(s, key)) == multiset(s) && |Sorted(s, key)| == |s|
  {
    if s == [] {
    } else {
      var rest, last := s[..|s| - 1], s[|s| - 1];
      SortedAscends(rest, key);
      InsertAscends(Sorted(rest, key), key, last);
      InsertElements(Sorted(rest, key), key, last);
      assert s == rest + [last];
      assert |multiset(Sorted(s, key))| == |multiset(s)|;
    }
  }

  lemma {:induction false} InsertAt<T>(s: seq<T>, key: T -> real, x: T, k: nat)
    requires k <= |s| && forall i :: k <= i < |s| ==> key(s[i]) > key(x)
    requires k > 0 ==> key(s[k - 1]) <= key(x)
    ensures Insert(s, key, x) == s[..k] + [x] + s[k..]
  {
    if k == |s| {
    } else {
      var rest := s[..|s| - 1];
      InsertAt(rest, key, x, k);
      assert rest[..k] + [x] + rest[k..] + [s[|s| - 1]] == s[..k] + [x] + s[k..];
    }
  }

  /** Shifts the elements larger than `a[i]` one place right and drops it into the gap at `k`. */
  method ShiftRight<T>(a: array<T>, key: T -> real, i: nat) returns (k: nat)
    requires i < a.Length
    modifies a
    ensures k <= i && a[k] == old(a[i])
    ensures forall m :: 0 <= m < k ==> a[m] == old(a[m])
    ensures forall m :: k < m <= i ==> a[m] == old(a[m - 1])
    ensures forall m :: i < m < a.Length ==> a[m] == old(a[m])
    ensures forall m :: k <= m < i ==> key(old(a[m])) > key(old(a[i]))
    ensures k > 0 ==> key(old(a[k - 1])) <= key(old(a[i]))
  {
    var x := a[i];
    var j := i - 1;
    while j >= 0 && key(a[j]) > key(x)
      invariant -1 <= j < i
      invariant forall m :: 0 <= m <= j ==> a[m] == old(a[m])
      invariant forall m :: j + 1 < m <= i ==> a[m] == old(a[m - 1])
      invariant forall m :: i < m < a.Length ==> a[m] == old(a[m])
      invariant forall m :: j + 1 <= m < i ==> key(old(a[m])) > key(x)
    {
      a[j + 1] := a[j];
      j := j - 1;
    }
    a[j + 1] := x;
    k := j + 1;
  }

  /** One round of the sort. */
  method Settle<T>(a: array<T>, key: T -> real, i: nat)
    requires i < a.Length
    modifies a
    ensures a[..i + 1] == Insert(old(a[..i]), key, old(a[i])) && a[i + 1..] == old(a[i + 1..])
  {
    ghost var s := a[..];
    var k := ShiftRight(a, key, i);
    Settled(s, a[..], key, i, k);
  }

  lemma Settled<T>(s: seq<T>, s': seq<T>, key: T -> real, i: nat, k: nat)
    requires k <= i < |s| == |s'| && s'[k] == s[i]
    requires forall m :: 0 <= m < k ==> s'[m] == s[m]
    requires forall m :: k < m <= i ==> s'[m] == s[m - 1]
    requires forall m :: i < m < |s| ==> s'[m] == s[m]
    requires (forall m :: k <= m < i ==> key(s[m]) > key(s[i])) && (k > 0 ==> key(s[k - 1]) <= key(s[i]))
    ensures s'[..i + 1] == Insert(s[..i], key, s[i]) && s'[i + 1..] == s[i + 1..]
  {
    hide Insert;
    InsertAt(s[..i], key, s[i], k);
    assert s'[..i + 1] == s[..i][..k] + [s[i]] + s[..i][k..];
  }

  /** The sort in place. */
  method InsertionSort<T>(a: array<T>, key: T -> real)
    modifies a
    ensures a[..] == Sorted(old(a[..]), key)
  {
    if a.Length == 0 {
      return;
    }
    ghost var was := a[..];
    var i := 1;
    assert was[..1] == [was[0]] && was[..1][..0] == [];
    while i < a.Length
      invariant 1 <= i <= a.Length
      invariant a[..i] == Sorted(was[..i], key) && a[i..] == was[i..]
    {
      assert a[i] == a[i..][0] == was[i];
      assert a[i + 1..] == a[i..][1..];
      Settle(a, key, i);
      assert was[..i + 1][..i] == was[..i];
      i := i + 1;
    }
    assert was[..a.Length] == was && a[..a.Length] == a[..];
  }

  // ---------------------------------------------------------------------------
  // Counting through the sort
  // ---------------------------------------------------------------------------

  function Count<T>(s: seq<T>, ok: T -> bool): nat {
    if s == [] then 0 else Count(s[..|s| - 1], ok) + if ok(s[|s| - 1]) then 1 else 0
  }

  lemma {:induction false} InsertCount<T>(s: seq<T>, key: T -> real, x: T, ok: T -> bool)
    ensures Count(Insert(s, key, x), ok) == Count(s, ok) + if ok(x) then 1 else 0
  {
    var inserted := Insert(s, key, x);
    if s != [] && key(s[|s| - 1]) > key(x) {
      InsertCount(s[..|s| - 1], key, x, ok);
      assert inserted[..|inserted| - 1] == Insert(s[..|s| - 1], key, x);
    } else {
      assert inserted[..|inserted| - 1] == s;
    }
  }

  /** The sort keeps how many elements pass a test. */
  lemma {:induction false} SortedCount<T>(s: seq<T>, key: T -> real, ok: T -> bool)
    ensures Count(Sorted(s, key), ok) == Count(s, ok)
  {
    if s == [] {
    } else {
      SortedCount(s[..|s| - 1], key, ok);
      InsertCount(Sorted(s[..|s| - 1], key), key, s[|s| - 1], ok);
    }
  }

  lemma {:induction false} PrefixCount<T>(s: seq<T>, ok: T -> bool, k: nat)
    requires k <= |s| && forall i :: 0 <= i < k ==> ok(s[i])
    ensures Count(s, ok) >= k
  {
    if k == 0 {
    } else {
      PrefixCount(s[..|s| - 1], ok, if k == |s| then k - 1 else k);
    }
  }

  lemma {:induction false} SuffixCount<T>(s: seq<T>, ok: T -> bool, k: nat)
    requires k <= |s| && forall i :: k <= i < |s| ==> ok(s[i])
    ensures Count(s, ok) >= |s| - k
  {
    if k == |s| {
    } else {
      SuffixCount(s[..|s| - 1], ok, k);
    }
  }

  /** The places where the test holds. */
  function Passing<T>(s: seq<T>, ok: T -> bool): set<nat> {
    set i: nat | i < |s| && ok(s[i])
  }

  /** A count is the number of places that pass. */
  lemma {:induction false} CountIs<T>(s: seq<T>, ok: T -> bool)
    ensures Count(s, ok) == |Passing(s, ok)|
  {
    if s == [] {
      assert Passing(s, ok) == {};
    } else {
      var n := |s| - 1;
      CountIs(s[..n], ok);
      if ok(s[n]) {
        assert Passing(s, ok) == Passing(s[..n], ok) + {n};
      } else {
        assert Passing(s, ok) == Passing(s[..n], ok);
      }
    }
  }

  // ---------------------------------------------------------------------------
  // Elements with equal keys
  // ---------------------------------------------------------------------------

  /** The elements with that key, in their order. */
  function WithKey<T>(s: seq<T>, key: T -> real, v: real): seq<T> {
    if s == [] then [] else WithKey(s[..|s| - 1], key, v) + if key(s[|s| - 1]) == v then [s[|s| - 1]] else []
  }

  lemma WithKeySnoc<T>(s: seq<T>, key: T -> real, v: real, x: T)
    ensures WithKey(s + [x], key, v) == WithKey(s, key, v) + if key(x) == v then [x] else []
  {
    assert (s + [x])[..|s|] == s;
  }

  lemma {:induction false} InsertStable<T>(s: seq<T>, key: T -> real, x: T, v: real)
    ensures WithKey(Insert(s, key, x), key, v) == WithKey(s, key, v) + if key(x) == v then [x] else []
  {
    if s == [] || key(s[|s| - 1]) <= key(x) {
      WithKeySnoc(s, key, v, x);
    } else {
      var rest, last := s[..|s| - 1], s[|s| - 1];
      InsertStable(rest, key, x, v);
      WithKeySnoc(Insert(rest, key, x), key, v, last);
    }
  }

  /** The sort is stable: elements with equal keys keep their order. */
  lemma {:induction false} SortedStable<T>(s: seq<T>, key: T -> real, v: real)
    ensures WithKey(Sorted(s, key), key, v) == WithKey(s, key, v)
  {
    if s == [] {
    } else {
      SortedStable(s[..|s| - 1], key, v);
      InsertStable(Sorted(s[..|s| - 1], key), key, s[|s| - 1], v);
    }
  }
}
