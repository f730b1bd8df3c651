/**
 The agent's port allocator: a cursor that goes round a range of ports and
 probes each until one is free. Which ports are free is an oracle.
 */
module PortAllocator {
  import opened Limits

  /** The port `k` places after `port`, going round the range; for `k` up to one round. */
  function Cyclic(start: int, end: int, port: int, k: nat): (r: int)
    requires start <= port <= end && k <= end - start + 1
    ensures start <= r <= end
  {
    if port + k <= end then port + k else port + k - (end - start + 1)
  }

  function Next(start: int, end: int, port: int): int {
    if port + 1 > end then start else port + 1
  }

  lemma CyclicSteps(start: int, end: int, port: int, k: nat)
    requires start <= port <= end && k <= end - start
    ensures Cyclic(start, end, port, 0) == port == Cyclic(start, end, port, end - start + 1)
    ensures Cyclic(start, end, port, k + 1) == Next(start, end, Cyclic(start, end, port, k))
  {
  }

  /** One round visits every port. */
  lemma CyclicCovers(start: int, end: int, from: int, port: int) returns (k: nat)
    requires start <= from <= end && start <= port <= end
    ensures k < end - start + 1 && Cyclic(start, end, from, k) == port
  {
    k := if from <= port then port - from else port - from + (end - start + 1);
  }

  lemma RoundCovers(start: int, end: int, from: int, available: int -> bool)
    requires start <= from <= end
    requires forall k :: 0 <= k < end - start + 1 ==> !available(Cyclic(start, end, from, k))
    ensures forall port :: start <= port <= end ==> !available(port)
  {
    forall port | start <= port <= end ensures !available(port) {
      var k := CyclicCovers(start, end, from, port);
    }
  }

  /** The port is the least free one from the cursor on; or, with none from there on, the least free one of all. */
  ghost predicate FirstFrom(start: int, end: int, available: int -> bool, cursor: int, port: int) {
    && start <= port <= end && available(port)
    && (forall q :: cursor <= q <= end && available(q) ==> cursor <= port <= q)
    && (forall q :: start <= q < cursor && available(q) ==> cursor <= port || port <= q)
  }

  /** The ports before the `k`th place of the round are those passed over. */
  lemma FirstInRound(start: int, end: int, cursor: int, k: nat, available: int -> bool)
    requires start <= cursor <= end && k <= end - start
    requires forall j :: 0 <= j < k ==> !available(Cyclic(start, end, cursor, j))
    requires available(Cyclic(start, end, cursor, k))
    ensures FirstFrom(start, end, available, cursor, Cyclic(start, end, cursor, k))
    ensures Cyclic(start, end, cursor, k + 1)
         == if Cyclic(start, end, cursor, k) == end then start else Cyclic(start, end, cursor, k) + 1
  {
    forall q | start <= q <= end && available(q)
      ensures if q >= cursor then k <= q - cursor else k <= q - cursor + (end - start + 1)
    {
      var j := if q >= cursor then q - cursor else q - cursor + (end - start + 1);
      assert Cyclic(start, end, cursor, j) == q;
    }
  }

  class DockerManager {
    const portStart: int
    const portEnd: int
    var next: int
    ghost var probes: seq<int>                  // every port ever probed, in order

    ghost predicate Valid()
      reads this
    {
      && portStart <= next <= portEnd
      && InOrder(portStart, portEnd, probes)
      && (probes != [] ==> next == Next(portStart, portEnd, probes[|probes| - 1]))
    }

    constructor (portStart: int, portEnd: int)
      requires 0 < portStart <= portEnd
      ensures Valid() && this.portStart == portStart && this.portEnd == portEnd && next == portStart && probes == []
    {
      this.portStart, this.portEnd, next, probes := portStart, portEnd, portStart, [];
    }

    /**
     The first free port in cyclic order from the cursor, after `tried` ports
     that were not; none exactly when no port of the range is free, and then the
     cursor is back where it was.
     */
    method AllocateHostPort(available: int -> bool) returns (r: Option<int>, ghost tried: nat)
      requires Valid()
      modifies this
      ensures Valid()
      ensures tried <= portEnd - portStart + 1
      ensures forall k :: 0 <= k < tried ==> !available(Cyclic(portStart, portEnd, old(next), k))
      ensures r.Some? ==>
        && tried <= portEnd - portStart
        && r.value == Cyclic(portStart, portEnd, old(next), tried) && available(r.value)
        && next == Cyclic(portStart, portEnd, old(next), tried + 1)
        && |probes| == |old(probes)| + tried + 1 && probes[|probes| - 1] == r.value
      ensures r.Some? ==> next == if r.value == portEnd then portStart else r.value + 1
      ensures r.Some? ==> FirstFrom(portStart, portEnd, available, old(next), r.value)
      ensures r.None? ==> next == old(next) && |probes| == |old(probes)| + (portEnd - portStart + 1)
      ensures r.None? <==> forall port :: portStart <= port <= portEnd ==> !available(port)
      ensures old(probes) <= probes
    {
      hide InOrder, Cyclic, FirstFrom;
      var total := portEnd - portStart + 1;
      tried := 0;
      CyclicSteps(portStart, portEnd, next, 0);
      for i := 0 to total
        invariant Valid() && tried == i && next == Cyclic(portStart, portEnd, old(next), i)
        invariant |probes| == |old(probes)| + i && old(probes) <= probes
        invariant forall k :: 0 <= k < i ==> !available(Cyclic(portStart, portEnd, old(next), k))
      {
        var port := next;
        next := next + 1;
        if next > portEnd {
          next := portStart;
        }
        CyclicSteps(portStart, portEnd, old(next), i);
        ProbeInOrder(portStart, portEnd, probes, port);
        probes := probes + [port];
        if available(port) {
          FirstInRound(portStart, portEnd, old(next), i, available);
          return Some(port), i;
        }
        tried := tried + 1;
      }
      RoundCovers(portStart, portEnd, old(next), available);
      return None, total;
    }
  }

  // ---------------------------------------------------------------------------
  // Over a whole run
  // ---------------------------------------------------------------------------

  /** Every probe is in the range and follows the one before it. */
  ghost predicate InOrder(start: int, end: int, probes: seq<int>) {
    && (forall i :: 0 <= i < |probes| ==> start <= probes[i] <= end)
    && (forall i :: 0 < i < |probes| ==> probes[i] == Next(start, end, probes[i - 1]))
  }

  lemma ProbeInOrder(start: int, end: int, probes: seq<int>, port: int)
    requires InOrder(start, end, probes) && start <= port <= end
    requires probes != [] ==> port == Next(start, end, probes[|probes| - 1])
    ensures InOrder(start, end, probes + [port])
  {
  }

  lemma {:induction false} ProbesGoRound(start: int, end: int, probes: seq<int>, i: nat, k: nat)
    requires start <= end && InOrder(start, end, probes) && i + k < |probes| && k <= end - start + 1
    ensures probes[i + k] == Cyclic(start, end, probes[i], k)
  {
    if k == 0 {
    } else {
      ProbesGoRound(start, end, probes, i, k - 1);
    }
  }

  /** Between two probes of the same port, and so between two issues of it, every other port is probed. */
  lemma ReissueAfterFullRound(start: int, end: int, probes: seq<int>, i: nat, j: nat, port: int)
    returns (k: nat)
    requires start <= end && InOrder(start, end, probes)
    requires i < j < |probes| && probes[i] == probes[j] && start <= port <= end && port != probes[i]
    ensures i < k < j && probes[k] == port
  {
    if j - i <= end - start {
      ProbesGoRound(start, end, probes, i, j - i);
      assert false;
    }
    var d := CyclicCovers(start, end, probes[i], port);
    ProbesGoRound(start, end, probes, i, d);
    k := i + d;
  }
}
