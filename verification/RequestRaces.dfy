/**
 Runs that the check-then-add races allow: the bounds of `RequestBounds` are
 attained for every limit, tier and number of racing threads, which decides
 exactly when the limits hold; and the queue gauge that the autoscaler reads can
 stay wrong after every request has left.
 */
module RequestRaces {
  import opened Limits
  import opened RequestProtocol
  import opened RequestBounds

  /** Some run within the traffic ends in the state. */
  ghost predicate Reached(maxQueue: nat, tr: Traffic, s: State) {
    exists s0, es :: Initial(s0) && Leads(maxQueue, tr, s0, es, s)
  }

  lemma {:induction false} LeadsSnoc(maxQueue: nat, tr: Traffic, s: State, es: seq<Event>, mid: State, e: Event,
                                     s': State)
    requires Leads(maxQueue, tr, s, es, mid) && Within(tr, s')
    requires Expected(tr, e) && Step(maxQueue, mid, e) == Some(s')
    ensures Leads(maxQueue, tr, s, es + [e], s')
    decreases |es|
  {
    hide Step, Within;
    if es == [] {
      assert ([] + [e])[1..] == [];
    } else {
      LeadsSnoc(maxQueue, tr, Step(maxQueue, s, es[0]).value, es[1..], mid, e, s');
      assert (es + [e])[1..] == es[1..] + [e];
    }
  }

  lemma StepReaches(maxQueue: nat, tr: Traffic, s: State, e: Event, s': State)
    requires Reached(maxQueue, tr, s) && Within(tr, s')
    requires Expected(tr, e) && Step(maxQueue, s, e) == Some(s')
    ensures Reached(maxQueue, tr, s')
  {
    hide Step, Leads, Within;
    var s0, es :| Initial(s0) && Leads(maxQueue, tr, s0, es, s);
    LeadsSnoc(maxQueue, tr, s0, es, s, e, s');
  }

  lemma AdvanceReaches(maxQueue: nat, tr: Traffic, s: State, t: RequestId, c: Choice, s': State)
    requires Reached(maxQueue, tr, s) && Within(tr, s')
    requires Step(maxQueue, s, Advance(t, c)) == Some(s')
    ensures Reached(maxQueue, tr, s')
  {
    hide Step, Reached, Within;
    StepReaches(maxQueue, tr, s, Advance(t, c), s');
  }

  // ---------------------------------------------------------------------------
  // Staying within the traffic
  // ---------------------------------------------------------------------------

  predicate Idle(pc: Pc) {
    !Plays(pc, Adding) && !Plays(pc, Entering) && !Plays(pc, Publishing)
  }

  lemma IdleWithin(tr: Traffic, s: State, s': State, t: RequestId, pc: Pc)
    requires Within(tr, s) && s'.limit == s.limit && s'.threads == s.threads[t := pc]
    requires Idle(pc) && (t in s.threads ==> Idle(s.threads[t]))
    ensures Within(tr, s')
  {
    PlayersUpdate(s.threads, t, pc, Adding);
    PlayersUpdate(s.threads, t, pc, Entering);
    PlayersUpdate(s.threads, t, pc, Publishing);
  }

  /** One more thread publishes. */
  lemma PublishingWithin(tr: Traffic, s: State, s': State, t: RequestId, pc: Pc)
    requires Within(tr, s) && s'.limit == s.limit && s'.threads == s.threads[t := pc]
    requires Number(s, Publishing) < tr.publishing
    requires !Plays(pc, Adding) && !Plays(pc, Entering)
    ensures Within(tr, s')
  {
    PlayersUpdate(s.threads, t, pc, Adding);
    PlayersUpdate(s.threads, t, pc, Entering);
    PlayersUpdate(s.threads, t, pc, Publishing);
  }

  // ---------------------------------------------------------------------------
  // Crowds: some threads past a check and its add, more threads in between
  // ---------------------------------------------------------------------------

  /** The door of the slots, under some limit; or of the queue, under limit zero with the tier's burst taken. */
  datatype Door = SlotDoor(tier: Tier, limit: nat) | QueueDoor(tier: Tier)

  function Room(maxQueue: nat, d: Door): nat {
    Burst(d.tier) + if d.SlotDoor? then d.limit else maxQueue
  }

  /** Where the `i`th thread stands: a free request past the limit must undo its add, one past the burst waits. */
  function Inside(d: Door, i: nat): Pc {
    match d
    case SlotDoor(tier, limit) => if tier.Free? && i >= limit then FastUndo else Serving
    case QueueDoor(tier) => if i < Burst(tier) then Serving else Polling
  }

  function AtDoor(d: Door): Pc {
    match d
    case SlotDoor(tier, limit) => if tier.Free? then FastAdd(limit) else BurstAdd
    case QueueDoor(_) => QueueEnter
  }

  /** `n` threads are through the door; the next `j` have passed its check. */
  function CrowdThreads(d: Door, n: nat, j: nat): map<RequestId, Pc>
    decreases n + j
  {
    if j > 0 then CrowdThreads(d, n, j - 1)[n + j - 1 := AtDoor(d)]
    else if n > 0 then CrowdThreads(d, n - 1, 0)[n - 1 := Inside(d, n - 1)]
    else map[]
  }

  function Crowd(d: Door, n: nat, j: nat): State {
    var b := Burst(d.tier);
    if d.SlotDoor? then State(n, d.limit, 0, 0, n + j, 0, 0, map[], map[], CrowdThreads(d, n, j))
    else State(b, 0, n - b, n - b, n + j, 0, 0, map[], map[], CrowdThreads(d, n, j))
  }

  lemma {:induction false} CrowdIds(d: Door, n: nat, j: nat, t: RequestId)
    ensures t in CrowdThreads(d, n, j) <==> t < n + j
    decreases n + j
  {
    if j > 0 {
      CrowdIds(d, n, j - 1, t);
    } else if n > 0 {
      CrowdIds(d, n - 1, 0, t);
    } else {
    }
  }

  lemma {:induction false} CrowdEnters(d: Door, n: nat, j: nat)
    requires j > 0
    ensures n in CrowdThreads(d, n, j) && CrowdThreads(d, n, j)[n] == AtDoor(d)
    ensures CrowdThreads(d, n + 1, j - 1) == CrowdThreads(d, n, j)[n := Inside(d, n)]
    decreases j
  {
    hide AtDoor, Inside;
    if j == 1 {
      assert CrowdThreads(d, n + 1, 0) == CrowdThreads(d, n, 0)[n := Inside(d, n)];
    } else {
      CrowdEnters(d, n, j - 1);
    }
  }

  /** The traffic lets the crowd's `j` threads stand at the door together. */
  ghost predicate Allows(tr: Traffic, d: Door, j: nat) {
    && d.tier in tr.tiers
    && if d.SlotDoor? then d.limit <= tr.limit && j <= tr.adding
       else 0 <= tr.limit && j <= tr.entering && 0 < tr.publishing
  }

  predicate BoundedRole(role: Role) {
    role.Adding? || role.Entering? || role.Publishing?
  }

  lemma InsideIdle(d: Door, i: nat, role: Role)
    requires BoundedRole(role)
    ensures !Plays(Inside(d, i), role)
  {
  }

  lemma {:induction false} CrowdPlayers(d: Door, n: nat, j: nat, role: Role)
    requires BoundedRole(role)
    ensures |Players(CrowdThreads(d, n, j), role)| == if Plays(AtDoor(d), role) then j else 0
    decreases n + j
  {
    hide Players, Plays, Inside, AtDoor, BoundedRole;
    if j > 0 {
      CrowdIds(d, n, j - 1, n + j - 1);
      CrowdPlayers(d, n, j - 1, role);
      PlayersUpdate(CrowdThreads(d, n, j - 1), n + j - 1, AtDoor(d), role);
    } else if n > 0 {
      CrowdIds(d, n - 1, 0, n - 1);
      CrowdPlayers(d, n - 1, 0, role);
      InsideIdle(d, n - 1, role);
      PlayersUpdate(CrowdThreads(d, n - 1, 0), n - 1, Inside(d, n - 1), role);
    } else {
      NoPlayers(role);
    }
  }

  lemma CrowdWithin(tr: Traffic, d: Door, n: nat, j: nat)
    requires Allows(tr, d, j)
    ensures Within(tr, Crowd(d, n, j)) && Number(Crowd(d, n, j), Publishing) == 0
    ensures j == 0 ==> Number(Crowd(d, n, j), Entering) == 0
  {
    hide CrowdThreads;
    CrowdPlayers(d, n, j, Adding);
    CrowdPlayers(d, n, j, Entering);
    CrowdPlayers(d, n, j, Publishing);
  }

  // ---------------------------------------------------------------------------
  // One more thread
  // ---------------------------------------------------------------------------

  function Reading(s: State, t: RequestId, tier: Tier): State {
    Goto(s.(requests := s.requests + 1), t, LimitRead(tier, s.limit))
  }

  /** A new thread arrives and reads the limit. */
  lemma Arrives(maxQueue: nat, tr: Traffic, s: State, t: RequestId, tier: Tier)
    requires Reached(maxQueue, tr, s) && Within(tr, s) && t !in s.threads && tier in tr.tiers
    ensures Reached(maxQueue, tr, Reading(s, t, tier)) && Within(tr, Reading(s, t, tier))
  {
    hide Reached, Within;
    var s1 := Goto(s.(requests := s.requests + 1), t, Arrived(tier));
    var s2 := Goto(s1, t, LimitRead(tier, s.limit));
    assert s2 == Reading(s, t, tier);
    IdleWithin(tr, s, s1, t, Arrived(tier));
    IdleWithin(tr, s1, s2, t, LimitRead(tier, s.limit));
    StepReaches(maxQueue, tr, s, Arrive(t, tier), s1);
    AdvanceReaches(maxQueue, tr, s1, t, Go, s2);
  }

  /** The crowd with one more at the door, reached from the newcomer's reading of the limit. */
  lemma CrowdJoins(d: Door, n: nat, j: nat, tier: Tier)
    ensures n + j !in CrowdThreads(d, n, j)
    ensures Crowd(d, n, j + 1) == Goto(Reading(Crowd(d, n, j), n + j, tier), n + j, AtDoor(d))
  {
    CrowdIds(d, n, j, n + j);
  }

  lemma PassesSlotCheck(maxQueue: nat, tr: Traffic, s: State, t: RequestId, d: Door)
    requires d.SlotDoor? && 0 <= s.active < Room(maxQueue, d)
    requires t in s.threads && s.threads[t] == LimitRead(d.tier, d.limit)
    requires Reached(maxQueue, tr, s) && Within(tr, Goto(s, t, AtDoor(d)))
    ensures Reached(maxQueue, tr, Goto(s, t, AtDoor(d)))
  {
    hide Reached, Within;
    AdvanceReaches(maxQueue, tr, s, t, Go, Goto(s, t, AtDoor(d)));
  }

  lemma PassesQueueCheck(maxQueue: nat, tr: Traffic, s: State, t: RequestId, tier: Tier)
    requires t in s.threads && s.threads[t] == LimitRead(tier, 0) && s.queued < maxQueue && s.active >= Burst(tier)
    requires Reached(maxQueue, tr, s) && Within(tr, s) && Within(tr, Goto(s, t, QueueEnter))
    ensures Reached(maxQueue, tr, Goto(s, t, QueueEnter))
  {
    hide Reached, Within;
    var mid := Goto(s, t, QueueCheck);
    IdleWithin(tr, s, mid, t, QueueCheck);
    AdvanceReaches(maxQueue, tr, s, t, Go, mid);
    assert Goto(mid, t, QueueEnter) == Goto(s, t, QueueEnter);
    AdvanceReaches(maxQueue, tr, mid, t, Go, Goto(s, t, QueueEnter));
  }

  /** The crowd in the queue is beyond the burst. */
  predicate Counted(d: Door, n: nat) {
    d.QueueDoor? ==> n >= Burst(d.tier)
  }

  /** One more thread arrives and passes the check. */
  lemma Join(maxQueue: nat, tr: Traffic, d: Door, n: nat, j: nat)
    requires n < Room(maxQueue, d) && Allows(tr, d, j + 1) && Counted(d, n)
    requires Reached(maxQueue, tr, Crowd(d, n, j))
    ensures Reached(maxQueue, tr, Crowd(d, n, j + 1))
  {
    hide Reached, Within, CrowdThreads;
    var t := n + j;
    CrowdJoins(d, n, j, d.tier);
    CrowdWithin(tr, d, n, j);
    CrowdWithin(tr, d, n, j + 1);
    Arrives(maxQueue, tr, Crowd(d, n, j), t, d.tier);
    if d.SlotDoor? {
      PassesSlotCheck(maxQueue, tr, Reading(Crowd(d, n, j), t, d.tier), t, d);
    } else {
      PassesQueueCheck(maxQueue, tr, Reading(Crowd(d, n, j), t, d.tier), t, d.tier);
    }
  }

  lemma EnterSlot(maxQueue: nat, tr: Traffic, d: Door, n: nat, j: nat)
    requires d.SlotDoor? && j > 0 && Allows(tr, d, j) && Reached(maxQueue, tr, Crowd(d, n, j))
    ensures Reached(maxQueue, tr, Crowd(d, n + 1, j - 1))
  {
    hide Reached, Within, CrowdThreads;
    CrowdWithin(tr, d, n + 1, j - 1);
    CrowdEnters(d, n, j);
    AdvanceReaches(maxQueue, tr, Crowd(d, n, j), n, Go, Crowd(d, n + 1, j - 1));
  }

  /** A queued request is counted, reads the size and publishes it. */
  lemma Publishes(maxQueue: nat, tr: Traffic, s: State, t: RequestId, s': State)
    requires t in s.threads && s.threads[t] == QueueEnter
    requires Reached(maxQueue, tr, s) && Within(tr, s') && Number(s', Publishing) < tr.publishing
    requires s' == s.(queued := s.queued + 1, gauge := s.queued + 1, threads := s.threads[t := Polling])
    ensures Reached(maxQueue, tr, s')
  {
    hide Reached, Within;
    var s1 := Goto(s.(queued := s.queued + 1), t, EnterLoad);
    var s2 := Goto(s1, t, EnterStore(s1.queued));
    assert s1.threads == s'.threads[t := EnterLoad] && s2.threads == s'.threads[t := EnterStore(s1.queued)];
    PublishingWithin(tr, s', s1, t, EnterLoad);
    PublishingWithin(tr, s', s2, t, EnterStore(s1.queued));
    AdvanceReaches(maxQueue, tr, s, t, Go, s1);
    AdvanceReaches(maxQueue, tr, s1, t, Go, s2);
    assert s'.threads == s2.threads[t := Polling];
    AdvanceReaches(maxQueue, tr, s2, t, Go, s');
  }

  /** The first thread at the door does its add, and in the queue publishes it. */
  lemma Enter(maxQueue: nat, tr: Traffic, d: Door, n: nat, j: nat)
    requires j > 0 && Allows(tr, d, j) && Counted(d, n) && Reached(maxQueue, tr, Crowd(d, n, j))
    ensures Reached(maxQueue, tr, Crowd(d, n + 1, j - 1))
  {
    hide Reached, Within, CrowdThreads;
    if d.SlotDoor? {
      EnterSlot(maxQueue, tr, d, n, j);
    } else {
      CrowdWithin(tr, d, n + 1, j - 1);
      CrowdEnters(d, n, j);
      Publishes(maxQueue, tr, Crowd(d, n, j), n, Crowd(d, n + 1, j - 1));
    }
  }

  // ---------------------------------------------------------------------------
  // The race
  // ---------------------------------------------------------------------------

  lemma {:induction false} Gather(maxQueue: nat, tr: Traffic, d: Door, n: nat, j: nat)
    requires n < Room(maxQueue, d) && Allows(tr, d, j) && Counted(d, n) && Reached(maxQueue, tr, Crowd(d, n, 0))
    ensures Reached(maxQueue, tr, Crowd(d, n, j))
  {
    hide Reached, Crowd;
    if j == 0 {
    } else {
      Gather(maxQueue, tr, d, n, j - 1);
      Join(maxQueue, tr, d, n, j - 1);
    }
  }

  lemma {:induction false} EnterAll(maxQueue: nat, tr: Traffic, d: Door, n: nat, j: nat)
    requires Allows(tr, d, j) && Counted(d, n) && Reached(maxQueue, tr, Crowd(d, n, j))
    ensures Reached(maxQueue, tr, Crowd(d, n + j, 0))
    decreases j
  {
    hide Reached, Crowd;
    if j == 0 {
    } else {
      Enter(maxQueue, tr, d, n, j);
      EnterAll(maxQueue, tr, d, n + 1, j - 1);
    }
  }

  lemma {:induction false} Fill(maxQueue: nat, tr: Traffic, d: Door, from: nat, n: nat)
    requires from <= n <= Room(maxQueue, d) && Allows(tr, d, 1) && Counted(d, from)
    requires Reached(maxQueue, tr, Crowd(d, from, 0))
    ensures Reached(maxQueue, tr, Crowd(d, n, 0))
  {
    hide Reached, Crowd;
    if n == from {
    } else {
      Fill(maxQueue, tr, d, from, n - 1);
      Join(maxQueue, tr, d, n - 1, 0);
      Enter(maxQueue, tr, d, n - 1, 1);
    }
  }

  /** `n` places fill up, then `racing` threads pass the check together and all add. */
  lemma Overshoot(maxQueue: nat, tr: Traffic, d: Door, from: nat, n: nat, racing: nat)
    requires from <= n < Room(maxQueue, d) && racing > 0 && Allows(tr, d, racing) && Counted(d, from)
    requires Reached(maxQueue, tr, Crowd(d, from, 0))
    ensures Reached(maxQueue, tr, Crowd(d, n + racing, 0))
  {
    hide Reached, Crowd;
    Fill(maxQueue, tr, d, from, n);
    Gather(maxQueue, tr, d, n, racing);
    EnterAll(maxQueue, tr, d, n, racing);
  }

  /** The limits loop stores the first limit; nothing else has happened yet. */
  lemma Opening(maxQueue: nat, tr: Traffic, d: Door, healthy: nat)
    requires WORKER_MAX_CONCURRENCY <= tr.limit
    requires d.SlotDoor? && d.limit == healthy * WORKER_MAX_CONCURRENCY <= tr.limit
    ensures Reached(maxQueue, tr, Crowd(d, 0, 0))
  {
    var s0 := State(0, WORKER_MAX_CONCURRENCY, 0, 0, 0, 0, 0, map[], map[], map[]);
    NoPlayers(Adding);
    NoPlayers(Entering);
    NoPlayers(Publishing);
    assert Leads(maxQueue, tr, s0, [], s0);
    assert Reached(maxQueue, tr, s0);
    StepReaches(maxQueue, tr, s0, UpdateLimits(healthy), Crowd(d, 0, 0));
  }

  lemma {:induction false} SameCrowd(tier: Tier, n: nat)
    requires n <= Burst(tier)
    ensures CrowdThreads(SlotDoor(tier, 0), n, 0) == CrowdThreads(QueueDoor(tier), n, 0)
  {
    if n == 0 {
    } else {
      SameCrowd(tier, n - 1);
    }
  }

  /** With no worker and its burst taken, a tier is at the door of the queue. */
  lemma QueueOpening(maxQueue: nat, tr: Traffic, tier: Tier)
    requires LetsQueue(tr, tier)
    ensures Reached(maxQueue, tr, Crowd(QueueDoor(tier), Burst(tier), 0))
  {
    hide Reached, Crowd;
    Opening(maxQueue, tr, SlotDoor(tier, 0), 0);
    if !tier.Free? {
      Fill(maxQueue, tr, SlotDoor(tier, 0), 0, Burst(tier));
    }
    SameCrowds(tier);
  }

  lemma SameCrowds(tier: Tier)
    ensures Crowd(SlotDoor(tier, 0), Burst(tier), 0) == Crowd(QueueDoor(tier), Burst(tier), 0)
  {
    hide CrowdThreads;
    SameCrowd(tier, Burst(tier));
  }

  /** The traffic lets requests of the tier wait in the queue. */
  predicate LetsQueue(tr: Traffic, tier: Tier) {
    WORKER_MAX_CONCURRENCY <= tr.limit && tr.publishing > 0 && tier in tr.tiers && (tier.Free? || tr.adding > 0)
  }

  /**
   The bound on the active count is attained, for every limit the loop can set,
   every tier and every number of racing threads: the count goes as far past the
   limit as `ActiveBound` allows.
   */
  lemma ActiveBoundAttained(maxQueue: nat, tr: Traffic, tier: Tier, healthy: nat, racing: nat) returns (s: State)
    requires healthy > 0 && healthy * WORKER_MAX_CONCURRENCY <= tr.limit && tier in tr.tiers && 0 < racing <= tr.adding
    ensures Reached(maxQueue, tr, s)
    ensures s.active == healthy * WORKER_MAX_CONCURRENCY + Burst(tier) + racing - 1
  {
    hide Reached;
    var limit := healthy * WORKER_MAX_CONCURRENCY;
    var d, n := SlotDoor(tier, limit), limit + Burst(tier) - 1;
    Opening(maxQueue, tr, d, healthy);
    Overshoot(maxQueue, tr, d, 0, n, racing);
    s := Crowd(d, n + racing, 0);
  }

  /**
   Exactly when the active count is sure to stay within the limit: no burst tier
   arrives, and no two threads are at once between a passed check and its add.
   */
  lemma ActiveWithinExactly(maxQueue: nat, tr: Traffic, healthy: nat)
    requires healthy > 0 && tr.limit == healthy * WORKER_MAX_CONCURRENCY && tr.adding > 0 && tr.tiers != {}
    ensures (forall s :: Reached(maxQueue, tr, s) ==> s.active <= tr.limit) <==> tr.tiers <= {Free} && tr.adding <= 1
  {
    hide Leads;
    if tr.tiers <= {Free} && tr.adding <= 1 {
      forall s | Reached(maxQueue, tr, s) ensures s.active <= tr.limit {
        var s0, es :| Initial(s0) && Leads(maxQueue, tr, s0, es, s);
        ActiveBound(maxQueue, tr, s0, es, s);
      }
    } else {
      var tier :| tier in tr.tiers && (tier != Free || tr.tiers <= {Free});
      var s := ActiveBoundAttained(maxQueue, tr, tier, healthy, tr.adding);
    }
  }

  /** What the crowd at the door of the queue amounts to. */
  lemma CrowdQueue(tier: Tier, n: nat)
    ensures var s := Crowd(QueueDoor(tier), n, 0);
      && s.queued == n - Burst(tier) && s.active == Burst(tier) && s.limit == 0
      && n !in s.threads && (n > Burst(tier) ==> n - 1 in s.threads && s.threads[n - 1] == Polling)
  {
    CrowdIds(QueueDoor(tier), n, 0, n);
  }

  /** The bound on the queue is attained for every queue size and number of racing threads. */
  lemma QueueBoundAttained(maxQueue: nat, tr: Traffic, tier: Tier, racing: nat) returns (s: State)
    requires maxQueue > 0 && LetsQueue(tr, tier) && 0 < racing <= tr.entering
    ensures Reached(maxQueue, tr, s) && s.queued == maxQueue + racing - 1
  {
    hide Reached, Crowd, Burst;
    var d, n := QueueDoor(tier), Burst(tier) + maxQueue - 1;
    QueueOpening(maxQueue, tr, tier);
    Overshoot(maxQueue, tr, d, Burst(tier), n, racing);
    s := Crowd(d, n + racing, 0);
    CrowdQueue(tier, n + racing);
  }

  /** Exactly when the queue is sure to stay within its size: no two threads are at once between its check and add. */
  lemma QueueWithinExactly(maxQueue: nat, tr: Traffic, tier: Tier)
    requires maxQueue > 0 && LetsQueue(tr, tier)
    ensures (forall s :: Reached(maxQueue, tr, s) ==> s.queued <= maxQueue) <==> tr.entering <= 1
  {
    hide Leads;
    if tr.entering <= 1 {
      forall s | Reached(maxQueue, tr, s) ensures s.queued <= maxQueue {
        var s0, es :| Initial(s0) && Leads(maxQueue, tr, s0, es, s);
        QueueSizeBound(maxQueue, tr, s0, es, s);
      }
    } else {
      var s := QueueBoundAttained(maxQueue, tr, tier, tr.entering);
    }
  }

  // ---------------------------------------------------------------------------
  // The gauge
  // ---------------------------------------------------------------------------

  predicate Carries(pc: Pc, size: int) {
    (pc.EnterStore? || pc.LeaveStore?) ==> pc.size == size
  }

  ghost predicate GaugeFresh(s: State) {
    && (forall t <- s.threads :: Carries(s.threads[t], s.queued))
    && (Number(s, Publishing) == 0 ==> s.gauge == s.queued)
  }

  lemma PublisherIsOne(s: State, t: RequestId)
    requires t in s.threads && Plays(s.threads[t], Publishing) && Number(s, Publishing) <= 1
    ensures forall u <- s.threads :: u != t ==> !Plays(s.threads[u], Publishing)
  {
    forall u <- s.threads | u != t ensures !Plays(s.threads[u], Publishing) {
      if Plays(s.threads[u], Publishing) {
        SubsetSize({t, u}, Players(s.threads, Publishing));
      }
    }
  }

  /** What a step does to the queue size and the gauge. */
  ghost predicate GaugeMoved(s: State, t: RequestId, before: Pc, s': State) {
    && t in s'.threads
    && Carries(s'.threads[t], s'.queued)
    && (Plays(s'.threads[t], Publishing) || s'.queued == s.queued)
    && s'.gauge == if before.EnterStore? || before.LeaveStore? then s.queued else s.gauge
  }

  lemma AdmitGauge(maxQueue: nat, s: State, t: RequestId, pc: Pc)
    requires InAdmit(pc)
    ensures GaugeMoved(s, t, pc, StepAdmit(maxQueue, s, t, pc))
  {
  }

  lemma QueueGauge(s: State, t: RequestId, pc: Pc, c: Choice)
    requires InQueue(pc) && Carries(pc, s.queued)
    ensures GaugeMoved(s, t, pc, StepQueue(s, t, pc, c))
  {
  }

  lemma ServeGauge(s: State, t: RequestId, pc: Pc, c: Choice)
    requires !InAdmit(pc) && !InQueue(pc) && StepServe(s, t, pc, c).Some?
    ensures GaugeMoved(s, t, pc, StepServe(s, t, pc, c).value)
  {
  }

  lemma StepGauge(maxQueue: nat, s: State, t: RequestId, c: Choice)
    requires t in s.threads && StepThread(maxQueue, s, t, c).Some? && Carries(s.threads[t], s.queued)
    ensures GaugeMoved(s, t, s.threads[t], StepThread(maxQueue, s, t, c).value)
  {
    hide StepAdmit, StepQueue, StepServe, GaugeMoved;
    var pc := s.threads[t];
    if InAdmit(pc) {
      AdmitGauge(maxQueue, s, t, pc);
    } else if InQueue(pc) {
      QueueGauge(s, t, pc, c);
    } else {
      ServeGauge(s, t, pc, c);
    }
  }

  lemma StepKeepsGauge(maxQueue: nat, s: State, e: Event)
    requires GaugeFresh(s) && Step(maxQueue, s, e).Some? && Number(Step(maxQueue, s, e).value, Publishing) <= 1
    ensures GaugeFresh(Step(maxQueue, s, e).value)
  {
    var s' := Step(maxQueue, s, e).value;
    if !e.UpdateLimits? {
      PlayersUpdate(s.threads, e.id, s'.threads[e.id], Publishing);
    }
    if e.Advance? {
      StepMoves(maxQueue, s, e.id, e.choice);
      StepGauge(maxQueue, s, e.id, e.choice);
      if Plays(s'.threads[e.id], Publishing) {
        PublisherIsOne(s', e.id);
      }
    }
  }

  lemma {:induction false} LeadsGauge(maxQueue: nat, tr: Traffic, s: State, es: seq<Event>, s': State)
    requires GaugeFresh(s) && Leads(maxQueue, tr, s, es, s') && tr.publishing <= 1
    ensures GaugeFresh(s')
    decreases |es|
  {
    if es == [] {
    } else {
      StepKeepsGauge(maxQueue, s, es[0]);
      LeadsGauge(maxQueue, tr, Step(maxQueue, s, es[0]).value, es[1..], s');
    }
  }

  /** While queue changes are published one at a time, the gauge is right whenever none is pending. */
  lemma GaugeRightWhenSerial(maxQueue: nat, tr: Traffic, s0: State, es: seq<Event>, s: State)
    requires Initial(s0) && Leads(maxQueue, tr, s0, es, s) && tr.publishing <= 1 && Number(s, Publishing) == 0
    ensures s.gauge == s.queued
  {
    LeadsGauge(maxQueue, tr, s0, es, s);
  }

  /** A queued request gives up and reads the size once more. */
  lemma GivesUp(maxQueue: nat, tr: Traffic, s: State, t: RequestId) returns (s': State)
    requires Reached(maxQueue, tr, s) && Within(tr, s) && Number(s, Publishing) < tr.publishing
    requires t in s.threads && s.threads[t] == Polling
    ensures s' == s.(queued := s.queued - 1, threads := s.threads[t := LeaveStore(TimedOut, s.queued - 1)])
    ensures Reached(maxQueue, tr, s') && Within(tr, s') && Number(s', Publishing) == Number(s, Publishing) + 1
    ensures Number(s', Entering) == Number(s, Entering)
  {
    hide Reached, Within;
    var s1 := Goto(s, t, QueueLeave(TimedOut));
    var s2 := Goto(s1.(queued := s.queued - 1), t, LeaveLoad(TimedOut));
    s' := Goto(s2, t, LeaveStore(TimedOut, s2.queued));
    assert s2.threads == s.threads[t := LeaveLoad(TimedOut)];
    assert s'.threads == s.threads[t := LeaveStore(TimedOut, s2.queued)];
    IdleWithin(tr, s, s1, t, QueueLeave(TimedOut));
    PublishingWithin(tr, s, s2, t, LeaveLoad(TimedOut));
    PublishingWithin(tr, s, s', t, LeaveStore(TimedOut, s2.queued));
    AdvanceReaches(maxQueue, tr, s, t, TimeOut, s1);
    AdvanceReaches(maxQueue, tr, s1, t, Go, s2);
    AdvanceReaches(maxQueue, tr, s2, t, Go, s');
    PlayersUpdate(s.threads, t, s'.threads[t], Publishing);
    PlayersUpdate(s.threads, t, s'.threads[t], Entering);
  }

  /** Whatever a thread was doing, idling keeps within the traffic. */
  lemma GoesIdle(tr: Traffic, s: State, s': State, t: RequestId, pc: Pc)
    requires Within(tr, s) && s'.limit == s.limit && s'.threads == s.threads[t := pc] && Idle(pc)
    ensures Within(tr, s')
  {
    PlayersUpdate(s.threads, t, pc, Adding);
    PlayersUpdate(s.threads, t, pc, Entering);
    PlayersUpdate(s.threads, t, pc, Publishing);
  }

  /** A refused request stores the size it read and finishes. */
  lemma StoresAndFinishes(maxQueue: nat, tr: Traffic, s: State, t: RequestId, size: int) returns (s': State)
    requires Reached(maxQueue, tr, s) && Within(tr, s)
    requires t in s.threads && s.threads[t] == LeaveStore(TimedOut, size)
    ensures s' == s.(gauge := size, errors := s.errors + 1, threads := s.threads[t := Finished])
    ensures Reached(maxQueue, tr, s') && Within(tr, s') && Number(s', Publishing) == Number(s, Publishing) - 1
  {
    hide Reached, Within;
    var s1 := Goto(s.(gauge := size), t, Refused(TimedOut));
    s' := Goto(s1.(errors := s.errors + 1), t, Finished);
    assert s'.threads == s.threads[t := Finished];
    GoesIdle(tr, s, s1, t, Refused(TimedOut));
    GoesIdle(tr, s, s', t, Finished);
    AdvanceReaches(maxQueue, tr, s, t, Go, s1);
    AdvanceReaches(maxQueue, tr, s1, t, Go, s');
    PlayersUpdate(s.threads, t, Finished, Publishing);
  }

  /** Some requests of the tier wait in the queue. */
  lemma SomeQueued(maxQueue: nat, tr: Traffic, tier: Tier, n: nat) returns (s: State)
    requires n <= maxQueue && LetsQueue(tr, tier) && tr.entering > 0
    ensures s == Crowd(QueueDoor(tier), Burst(tier) + n, 0)
    ensures Reached(maxQueue, tr, s) && Within(tr, s) && Number(s, Publishing) == 0 == Number(s, Entering)
  {
    hide Reached, Within, Crowd;
    QueueOpening(maxQueue, tr, tier);
    Fill(maxQueue, tr, QueueDoor(tier), Burst(tier), Burst(tier) + n);
    CrowdWithin(tr, QueueDoor(tier), Burst(tier) + n, 0);
    s := Crowd(QueueDoor(tier), Burst(tier) + n, 0);
  }

  /**
   Two requests that leave the queue together can store their sizes in the
   wrong order: everything has returned and the queue is empty, but the gauge
   says 1, and the scale-down evaluation keeps seeing a queued request.
   */
  lemma GaugeCanStayStale(maxQueue: nat, tr: Traffic) returns (s: State)
    requires maxQueue > 1 && LetsQueue(tr, Free) && tr.entering > 0 && tr.publishing > 1
    ensures Reached(maxQueue, tr, s) && AllFinished(s) && s.queued == 0 && s.gauge == 1
  {
    hide Reached, Within, Crowd;
    s := SomeQueued(maxQueue, tr, Free, 2);
    CrowdOfTwo();
    s := GivesUp(maxQueue, tr, s, 0);
    s := GivesUp(maxQueue, tr, s, 1);
    s := StoresAndFinishes(maxQueue, tr, s, 1, 0);
    s := StoresAndFinishes(maxQueue, tr, s, 0, 1);
  }

  /**
   One request leaves the queue and reads the size; a second enters and
   publishes; then the first publishes what it read before that.
   */
  lemma GaugeCanBeStale(maxQueue: nat, tr: Traffic, tier: Tier) returns (s: State)
    requires maxQueue > 0 && LetsQueue(tr, tier) && tr.entering > 0 && tr.publishing > 1
    ensures Reached(maxQueue, tr, s) && Number(s, Publishing) == 0 && s.queued == 1 && s.gauge == 0
  {
    hide Reached, Within, Crowd, Burst;
    var t, u := Burst(tier), Burst(tier) + 1;
    var s0 := SomeQueued(maxQueue, tr, tier, 1);
    CrowdQueue(tier, u);
    var s1 := GivesUp(maxQueue, tr, s0, t);
    var s2 := EntersQueue(maxQueue, tr, s1, u, tier);
    s := StoresAndFinishes(maxQueue, tr, s2, t, 0);
  }

  lemma CrowdOfTwo()
    ensures var s := Crowd(QueueDoor(Free), Burst(Free) + 2, 0);
      s.threads == map[0 := Polling, 1 := Polling] && s.queued == 2
  {
    assert CrowdThreads(QueueDoor(Free), 1, 0) == map[0 := Polling];
  }

  /** A new request goes through an empty queue's door while another has yet to publish. */
  lemma EntersQueue(maxQueue: nat, tr: Traffic, s: State, u: RequestId, tier: Tier) returns (s': State)
    requires maxQueue > 0 && LetsQueue(tr, tier) && tr.entering > 0 && tr.publishing > 1
    requires Reached(maxQueue, tr, s) && Within(tr, s) && u !in s.threads && Number(s, Publishing) == 1
    requires s.limit == s.queued == 0 && s.active == Burst(tier) && Number(s, Entering) == 0
    ensures s' == s.(queued := 1, gauge := 1, requests := s.requests + 1, threads := s.threads[u := Polling])
    ensures Reached(maxQueue, tr, s') && Within(tr, s') && Number(s', Publishing) == 1
  {
    hide Reached, Within;
    Arrives(maxQueue, tr, s, u, tier);
    var s1 := Reading(s, u, tier);
    var s2 := Goto(s1, u, QueueEnter);
    assert s2.threads == s.threads[u := QueueEnter];
    EnteringWithin(tr, s, s2, u);
    PassesQueueCheck(maxQueue, tr, s1, u, tier);
    s' := s2.(queued := 1, gauge := 1, threads := s2.threads[u := Polling]);
    assert s'.threads == s.threads[u := Polling];
    GoesIdle(tr, s, s', u, Polling);
    PlayersUpdate(s.threads, u, Polling, Publishing);
    Publishes(maxQueue, tr, s2, u, s');
  }

  lemma EnteringWithin(tr: Traffic, s: State, s': State, u: RequestId)
    requires Within(tr, s) && s'.limit == s.limit && s'.threads == s.threads[u := QueueEnter]
    requires u !in s.threads && Number(s, Entering) == 0 && tr.entering > 0
    ensures Within(tr, s')
  {
    PlayersUpdate(s.threads, u, QueueEnter, Adding);
    PlayersUpdate(s.threads, u, QueueEnter, Entering);
    PlayersUpdate(s.threads, u, QueueEnter, Publishing);
  }

  /**
   Exactly when the gauge is sure to be right once no change is pending: while
   at most one request at a time is between a change of the queue and its store.
   */
  lemma GaugeRightExactly(maxQueue: nat, tr: Traffic, tier: Tier)
    requires maxQueue > 0 && LetsQueue(tr, tier) && tr.entering > 0
    ensures (forall s :: Reached(maxQueue, tr, s) && Number(s, Publishing) == 0 ==> s.gauge == s.queued)
       <==> tr.publishing <= 1
  {
    hide Leads, Step;
    if tr.publishing <= 1 {
      forall s | Reached(maxQueue, tr, s) && Number(s, Publishing) == 0 ensures s.gauge == s.queued {
        var s0, es :| Initial(s0) && Leads(maxQueue, tr, s0, es, s);
        GaugeRightWhenSerial(maxQueue, tr, s0, es, s);
      }
    } else {
      var s := GaugeCanBeStale(maxQueue, tr, tier);
    }
  }
}
