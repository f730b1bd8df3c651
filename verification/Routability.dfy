/**
 Whether every admitted request can be routed: it can while no request is
 admitted in a burst, and in no case beyond that.
 */
module Routability {
  import opened Limits
  import opened RequestProtocol
  import opened RequestBounds
  import opened RequestRaces
  import Workers

  /** The request holds a slot and is not calling a worker. */
  predicate Unrouted(s: State, t: RequestId) {
    t in s.threads && Plays(s.threads[t], Holder) && !s.threads[t].Calling?
  }

  /**
   Admission implies routability: while only free requests arrive and no limit
   stored so far exceeds the room on the routable workers, no race between
   admissions leaves an admitted request without a worker that can take it.
   */
  lemma AdmittedFindsRoom(maxQueue: nat, tr: Traffic, s: State, ws: seq<WorkerRef>, t: RequestId)
    returns (w: WorkerRef)
    requires Reached(maxQueue, tr, s) && tr.tiers <= {Free}
    requires Distinct(ws) && tr.limit <= WORKER_MAX_CONCURRENCY * |ws|
    requires Unrouted(s, t)
    ensures w in ws && Load(s, w) < WORKER_MAX_CONCURRENCY
  {
    hide Leads;
    var s0, es :| Initial(s0) && Leads(maxQueue, tr, s0, es, s);
    LeadsReaches(maxQueue, tr, s0, [], s0, es, s);
    ReachableInv(maxQueue, s);
    HeldBound(maxQueue, tr, s0, es, s);
    w := Workers.HolderHasRoom(s, ws, t);
  }

  // ---------------------------------------------------------------------------
  // With a burst tier
  // ---------------------------------------------------------------------------

  /** Thread `t` has been routed to `w` and is calling it. */
  function SendOne(s: State, t: RequestId, w: WorkerRef): State {
    s.(inflight := s.inflight[t := w], load := s.load[w := Load(s, w) + 1], threads := s.threads[t := Calling(w)])
  }

  lemma Sends(maxQueue: nat, tr: Traffic, s: State, t: RequestId, w: WorkerRef)
    requires Reached(maxQueue, tr, s) && Within(tr, s) && t in s.threads && s.threads[t] == Serving
    ensures Reached(maxQueue, tr, SendOne(s, t, w)) && Within(tr, SendOne(s, t, w))
  {
    hide Reached, Within;
    var s1 := Goto(s, t, Routed(w));
    var s2 := Goto(s1.(inflight := s1.inflight[t := w]), t, Tracked(w));
    var s3 := Goto(s2.(load := s2.load[w := Load(s2, w) + 1]), t, Calling(w));
    IdleWithin(tr, s, s1, t, Routed(w));
    IdleWithin(tr, s1, s2, t, Tracked(w));
    IdleWithin(tr, s2, s3, t, Calling(w));
    AdvanceReaches(maxQueue, tr, s, t, Route(w), s1);
    AdvanceReaches(maxQueue, tr, s1, t, Go, s2);
    AdvanceReaches(maxQueue, tr, s2, t, Go, s3);
    assert s3.threads == s.threads[t := Calling(w)];
    assert s3 == SendOne(s, t, w);
  }

  /** The first `k` threads call the workers in order, fifty each. */
  function SendAll(s: State, k: nat): State {
    if k == 0 then s else SendOne(SendAll(s, k - 1), k - 1, (k - 1) / WORKER_MAX_CONCURRENCY)
  }

  lemma {:induction false} AllSend(maxQueue: nat, tr: Traffic, s: State, k: nat)
    requires Reached(maxQueue, tr, s) && Within(tr, s)
    requires forall t :: 0 <= t < k ==> t in s.threads && s.threads[t] == Serving
    ensures Reached(maxQueue, tr, SendAll(s, k)) && Within(tr, SendAll(s, k))
    ensures forall t :: k <= t && t in s.threads ==>
      t in SendAll(s, k).threads && SendAll(s, k).threads[t] == s.threads[t]
  {
    hide Reached, Within;
    if k == 0 {
    } else {
      AllSend(maxQueue, tr, s, k - 1);
      Sends(maxQueue, tr, SendAll(s, k - 1), k - 1, (k - 1) / WORKER_MAX_CONCURRENCY);
    }
  }

  lemma {:induction false} LoadAfter(s: State, k: nat, w: WorkerRef)
    requires s.load == map[]
    ensures Load(SendAll(s, k), w) == Max(0, Min(k - w * WORKER_MAX_CONCURRENCY, WORKER_MAX_CONCURRENCY))
  {
    if k == 0 {
    } else {
      LoadAfter(s, k - 1, w);
    }
  }

  lemma {:induction false} CrowdServes(d: Door, n: nat, t: RequestId)
    requires d.SlotDoor? && !d.tier.Free? && t < n
    ensures t in CrowdThreads(d, n, 0) && CrowdThreads(d, n, 0)[t] == Serving
  {
    if t == n - 1 {
    } else {
      CrowdServes(d, n - 1, t);
    }
  }

  /**
   With a burst tier among the requests, for every number of workers some run
   fills them all, within their own limit and without any race, while one more
   admitted request has nowhere to go.
   */
  lemma AdmittedFindsNone(maxQueue: nat, tr: Traffic, tier: Tier, healthy: nat) returns (s: State, t: RequestId)
    requires healthy > 0 && !tier.Free? && tier in tr.tiers
    requires tr.limit == WORKER_MAX_CONCURRENCY * healthy && tr.adding > 0
    ensures Reached(maxQueue, tr, s) && t in s.threads && s.threads[t] == Serving
    ensures forall w: WorkerRef :: w < healthy ==> Load(s, w) == WORKER_MAX_CONCURRENCY
  {
    hide Reached, Within, Crowd, CrowdThreads;
    t := WORKER_MAX_CONCURRENCY * healthy;
    var d := SlotDoor(tier, t);
    Opening(maxQueue, tr, d, healthy);
    Fill(maxQueue, tr, d, 0, t + 1);
    CrowdWithin(tr, d, t + 1, 0);
    s := FullHouse(maxQueue, tr, d, healthy, t);
  }

  lemma FullHouse(maxQueue: nat, tr: Traffic, d: Door, healthy: nat, t: nat) returns (s: State)
    requires d.SlotDoor? && !d.tier.Free? && t == WORKER_MAX_CONCURRENCY * healthy
    requires Reached(maxQueue, tr, Crowd(d, t + 1, 0)) && Within(tr, Crowd(d, t + 1, 0))
    ensures Reached(maxQueue, tr, s) && t in s.threads && s.threads[t] == Serving
    ensures forall w: WorkerRef :: w < healthy ==> Load(s, w) == WORKER_MAX_CONCURRENCY
  {
    hide Reached, Within, CrowdThreads, SendAll;
    var crowd := Crowd(d, t + 1, 0);
    forall i: nat | i <= t ensures i in crowd.threads && crowd.threads[i] == Serving {
      CrowdServes(d, t + 1, i);
    }
    AllSend(maxQueue, tr, crowd, t);
    s := SendAll(crowd, t);
    forall w: WorkerRef | w < healthy ensures Load(s, w) == WORKER_MAX_CONCURRENCY {
      LoadAfter(crowd, t, w);
    }
  }

  function FirstRefs(n: nat): (refs: seq<WorkerRef>)
    ensures |refs| == n && forall i :: 0 <= i < n ==> refs[i] == i
  {
    if n == 0 then [] else FirstRefs(n - 1) + [n - 1]
  }

  /**
   Exactly when admission implies routability: every admitted request that is
   not calling a worker finds one with room, in every run whose limits fit the
   workers, if and only if neither burst tier arrives.
   */
  lemma RoutableExactly(maxQueue: nat, tr: Traffic, healthy: nat)
    requires healthy > 0 && tr.limit == WORKER_MAX_CONCURRENCY * healthy && tr.adding > 0
    ensures (forall s, t :: Reached(maxQueue, tr, s) && Unrouted(s, t) ==> HasRoom(s, healthy)) <==> tr.tiers <= {Free}
  {
    hide Reached;
    if tr.tiers <= {Free} {
      forall s, t | Reached(maxQueue, tr, s) && Unrouted(s, t) ensures HasRoom(s, healthy) {
        var w := AdmittedFindsRoom(maxQueue, tr, s, FirstRefs(healthy), t);
      }
    } else {
      var tier :| tier in tr.tiers && tier != Free;
      var s, t := AdmittedFindsNone(maxQueue, tr, tier, healthy);
      assert Unrouted(s, t) && !HasRoom(s, healthy);
    }
  }

  /** One of the workers 0 to `healthy - 1` is not full. */
  ghost predicate HasRoom(s: State, healthy: nat) {
    exists w: WorkerRef :: w < healthy && Load(s, w) < WORKER_MAX_CONCURRENCY
  }
}
