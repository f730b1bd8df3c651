/**
 The worker's priority queue and the handlers that share it: each handler
 pushes its own request and then pops whatever is first. A heap operation is
 atomic under the queue's lock, so the methods below, called in any order, are
 the interleavings of the handlers.
 */
module WorkerQueue {
  import opened Limits

  datatype Item = Item(priority: int, requestId: string, message: string)

  // ---------------------------------------------------------------------------
  // The order of the heap: tuples compare lexicographically
  // ---------------------------------------------------------------------------

  predicate StringLe(a: string, b: string) {
    a == [] || (b != [] && (a[0] < b[0] || (a[0] == b[0] && StringLe(a[1..], b[1..]))))
  }

  predicate Le(x: Item, y: Item) {
    || x.priority < y.priority
    || (x.priority == y.priority
        && (|| (x.requestId != y.requestId && StringLe(x.requestId, y.requestId))
            || (x.requestId == y.requestId && StringLe(x.message, y.message))))
  }

  lemma {:induction false} StringLeTotal(a: string, b: string)
    ensures StringLe(a, b) || StringLe(b, a)
    ensures StringLe(a, b) && StringLe(b, a) ==> a == b
  {
    if a == [] || b == [] {
    } else {
      StringLeTotal(a[1..], b[1..]);
      assert a == [a[0]] + a[1..] && b == [b[0]] + b[1..];
    }
  }

  lemma {:induction false} StringLeTransitive(a: string, b: string, c: string)
    requires StringLe(a, b) && StringLe(b, c)
    ensures StringLe(a, c)
  {
    if a == [] {
    } else if a[0] == b[0] == c[0] {
      StringLeTransitive(a[1..], b[1..], c[1..]);
    }
  }

  /** The strings first differ at `i`, where `a` has the smaller character. */
  ghost predicate SmallerAt(a: string, b: string, i: nat) {
    i < |a| && i < |b| && a[..i] == b[..i] && a[i] < b[i]
  }

  /** The order of a dictionary: a beginning comes first, otherwise the first difference decides. */
  lemma {:induction false} StringLeExactly(a: string, b: string)
    ensures StringLe(a, b) <==> a <= b || exists i: nat :: SmallerAt(a, b, i)
  {
    if a == [] || b == [] {
    } else if a[0] != b[0] {
      assert a[0] < b[0] ==> SmallerAt(a, b, 0);
      forall i: nat | SmallerAt(a, b, i) ensures a[0] < b[0] {
        assert i > 0 ==> a[..i][0] == b[..i][0];
      }
    } else {
      var c, d := a[1..], b[1..];
      StringLeExactly(c, d);
      assert a == [a[0]] + c && b == [b[0]] + d;
      if i: nat :| SmallerAt(c, d, i) {
        assert SmallerAt(a, b, i + 1);
      }
      if i: nat :| SmallerAt(a, b, i) {
        assert c[..i - 1] == a[..i][1..] && d[..i - 1] == b[..i][1..];
        assert SmallerAt(c, d, i - 1);
      }
    }
  }

  /** Which of two different requests comes first: less priority number, then smaller id, then smaller message. */
  lemma LeExactly(x: Item, y: Item)
    ensures x.priority != y.priority ==> (Le(x, y) <==> x.priority < y.priority)
    ensures x.priority == y.priority && x.requestId != y.requestId ==>
      (Le(x, y) <==> x.requestId < y.requestId || exists i: nat :: SmallerAt(x.requestId, y.requestId, i))
    ensures x.priority == y.priority && x.requestId == y.requestId ==>
      (Le(x, y) <==> x.message <= y.message || exists i: nat :: SmallerAt(x.message, y.message, i))
  {
    StringLeExactly(x.requestId, y.requestId);
    StringLeExactly(x.message, y.message);
  }

  lemma LeTotal(x: Item, y: Item)
    ensures Le(x, y) || Le(y, x)
    ensures Le(x, y) && Le(y, x) ==> x == y
  {
    StringLeTotal(x.requestId, y.requestId);
    StringLeTotal(x.message, y.message);
  }

  lemma LeTransitive(x: Item, y: Item, z: Item)
    requires Le(x, y) && Le(y, z)
    ensures Le(x, z)
  {
    StringLeTotal(x.requestId, y.requestId);
    if x.priority == y.priority == z.priority {
      if x.requestId == y.requestId == z.requestId {
        StringLeTransitive(x.message, y.message, z.message);
      } else if x.requestId != y.requestId && y.requestId != z.requestId {
        StringLeTransitive(x.requestId, y.requestId, z.requestId);
        StringLeTotal(y.requestId, z.requestId);
      }
    }
  }

  ghost predicate IsLeast(x: Item, items: multiset<Item>) {
    x in items && forall y <- items :: Le(x, y)
  }

  lemma LeastAt(items: seq<Item>, best: nat)
    requires best < |items| && forall k :: 0 <= k < |items| ==> Le(items[best], items[k])
    ensures IsLeast(items[best], multiset(items))
    ensures multiset(items[..best] + items[best + 1..]) == multiset(items) - multiset{items[best]}
  {
    assert items == items[..best] + [items[best]] + items[best + 1..];
    forall y <- multiset(items) ensures Le(items[best], y) {
      assert y in items;
    }
  }

  class PriorityQueue {
    var queue: seq<Item>                        // the heap's list, in some order

    constructor ()
      ensures queue == []
    {
      queue := [];
    }

    method Push(item: Item)
      modifies this
      ensures multiset(queue) == multiset(old(queue)) + multiset{item}
    {
      queue := queue + [item];
    }

    /** Takes out a least item, if there is any. */
    method Pop() returns (r: Option<Item>)
      modifies this
      ensures r.None? <==> old(queue) == []
      ensures r.None? ==> queue == old(queue)
      ensures r.Some? ==> IsLeast(r.value, multiset(old(queue)))
      ensures r.Some? ==> multiset(queue) == multiset(old(queue)) - multiset{r.value}
    {
      if queue == [] {
        return None;
      }
      var items := queue;
      var best := 0;
      LeTotal(items[0], items[0]);
      for i := 1 to |items|
        invariant best < |items| && forall k :: 0 <= k < i ==> Le(items[best], items[k])
      {
        LeTotal(items[best], items[i]);
        if !Le(items[best], items[i]) {
          forall k | 0 <= k < i ensures Le(items[i], items[k]) {
            LeTransitive(items[i], items[best], items[k]);
          }
          LeTotal(items[i], items[i]);
          best := i;
        }
      }
      LeastAt(items, best);
      queue := items[..best] + items[best + 1..];
      r := Some(items[best]);
    }

    method Size() returns (n: nat)
      ensures n == |queue|
    {
      n := |queue|;
    }
  }

  // ---------------------------------------------------------------------------
  // The handlers
  // ---------------------------------------------------------------------------

  /** The priority the master sends for a tier. */
  function TierToPriority(tier: Tier): int {
    match tier
    case Elite => 10000
    case Pro => 100
    case Free => 50
  }

  /** The tier the worker takes a received priority for. */
  function Classify(priority: int): Tier {
    if priority >= 1000 then Elite else if priority >= 50 then Pro else Free
  }

  /** A tier's place in the heap, where less comes first. */
  function Rank(tier: Tier): int {
    match tier
    case Elite => 1
    case Pro => 2
    case Free => 3
  }

  /** The wire keeps the order of the tiers, but not all of them: only free requests change tier, and become pro. */
  lemma TiersOnTheWire(t: Tier, u: Tier)
    ensures Classify(TierToPriority(t)) == t <==> !t.Free?
    ensures Rank(t) <= Rank(u) ==> Rank(Classify(TierToPriority(t))) <= Rank(Classify(TierToPriority(u)))
    ensures Classify(TierToPriority(t)) == Classify(TierToPriority(u)) <==> t == u || (!t.Elite? && !u.Elite?)
  {
  }

  /** Priorities from 1000 on come first in the heap, those below 50 last. */
  lemma PlaceOfPriority(priority: int)
    ensures Rank(Classify(priority)) == (if priority >= 1000 then 1 else if priority >= 50 then 2 else 3)
    ensures TierToPriority(Elite) == 10000 && TierToPriority(Pro) == 100 && TierToPriority(Free) == 50
  {
  }

  type HandlerId = nat

  class Worker {
    const queue: PriorityQueue
    ghost var own: map<HandlerId, Item>         // what each handler received
    ghost var waiting: set<HandlerId>           // handlers between their push and their pop
    ghost var received: multiset<Item>
    ghost var popped: multiset<Item>

    /** As many items as waiting handlers; every request received is pending or was popped, once. */
    ghost predicate Valid()
      reads this, queue
    {
      && waiting <= own.Keys
      && |queue.queue| == |waiting|
      && received == multiset(queue.queue) + popped
    }

    constructor ()
      ensures Valid() && own == map[] && waiting == {} && received == popped == multiset{}
      ensures fresh(queue) && queue.queue == []
    {
      queue := new PriorityQueue();
      own, waiting, received, popped := map[], {}, multiset{}, multiset{};
    }

    /** A new handler puts its request, received with some priority, in the queue. */
    method Push(h: HandlerId, priority: int, requestId: string, message: string)
      requires Valid() && h !in own
      modifies this, queue
      ensures Valid() && own == old(own)[h := Item(Rank(Classify(priority)), requestId, message)]
      ensures waiting == old(waiting) + {h} && popped == old(popped)
      ensures multiset(queue.queue) == multiset(old(queue.queue)) + multiset{own[h]}
      ensures received == old(received) + multiset{own[h]}
    {
      var item := Item(Rank(Classify(priority)), requestId, message);
      queue.Push(item);
      SameSize(queue.queue, old(queue.queue) + [item]);
      own, waiting, received := own[h := item], waiting + {h}, received + multiset{item};
    }

    /**
     The handler pops. It always gets an item, so the branch for an empty queue
     is never taken; the item is the least one pending, and it is the handler's
     own exactly when that one is still pending and least.
     */
    method Pop(h: HandlerId) returns (r: Option<Item>)
      requires Valid() && h in waiting
      modifies this, queue
      ensures Valid() && r.Some? && IsLeast(r.value, multiset(old(queue.queue)))
      ensures waiting == old(waiting) - {h} && own == old(own) && received == old(received)
      ensures popped == old(popped) + multiset{r.value}
      ensures r.value == own[h] <==> IsLeast(own[h], multiset(old(queue.queue)))
    {
      r := queue.Pop();
      assert old(queue.queue) != [];
      if IsLeast(own[h], multiset(old(queue.queue))) {
        LeTotal(own[h], r.value);
      }
      assert |multiset(queue.queue)| == |queue.queue|;
      waiting, popped := waiting - {h}, popped + multiset{r.value};
    }

    /** Once no handler is waiting, every request received has been popped exactly once. */
    lemma AllServed()
      requires Valid() && waiting == {}
      ensures popped == received
    {
      assert queue.queue == [];
    }

    /** Replies can be swapped: the handler of an ordinary request can pop an elite one. */
    method RepliesCanSwap(first: HandlerId, second: HandlerId) returns (r: Option<Item>)
      requires Valid() && waiting == {} && first !in own && second !in own && first != second
      modifies this, queue
      ensures Valid() && r.Some? && first in own && second in own
      ensures own[first].priority == Rank(Pro) && own[second].priority == Rank(Elite)
      ensures r.value == own[second] != own[first]
    {
      assert multiset(queue.queue) == multiset{};
      Push(first, TierToPriority(Free), "a", "ordinary");
      Push(second, TierToPriority(Elite), "b", "elite");
      assert multiset(queue.queue) == multiset{own[first], own[second]};
      r := Pop(first);
      assert Le(r.value, own[second]);
    }
  }
}
