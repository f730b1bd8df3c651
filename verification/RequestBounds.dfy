/**
 How far the admission counters can run past their limits. Every check of
 `Admit` is a load followed by a separate add, so other requests can slip in
 between; these lemmas say by how much.
 */
module RequestBounds {
  import opened Limits
  import opened RequestProtocol

  /** How much is let through at once, in every state of a run, and which tiers arrive. */
  datatype Traffic = Traffic(
    limit: int,                                 // largest limit ever stored
    adding: nat,                                // threads between a passed check and its add
    entering: nat,                              // threads between a passed queue check and its add
    publishing: nat,                            // threads between a queue change and its gauge store
    tiers: set<Tier>)                           // tiers of the requests that arrive

  ghost predicate Within(tr: Traffic, s: State) {
    && s.limit <= tr.limit
    && Number(s, Adding) <= tr.adding
    && Number(s, Entering) <= tr.entering
    && Number(s, Publishing) <= tr.publishing
  }

  predicate Expected(tr: Traffic, e: Event) {
    e.Arrive? ==> e.tier in tr.tiers
  }

  /** The events lead from `s` to `s'` through states within the traffic. */
  ghost predicate Leads(maxQueue: nat, tr: Traffic, s: State, es: seq<Event>, s': State)
    decreases |es|
  {
    && Within(tr, s)
    && if es == [] then s == s' else
         && Expected(tr, es[0]) && Step(maxQueue, s, es[0]).Some?
         && Leads(maxQueue, tr, Step(maxQueue, s, es[0]).value, es[1..], s')
  }

  lemma {:induction false} LeadsReaches(maxQueue: nat, tr: Traffic, s0: State, done: seq<Event>, s: State,
                                        es: seq<Event>, s': State)
    requires Initial(s0) && Run(maxQueue, s0, done) == Some(s) && Leads(maxQueue, tr, s, es, s')
    ensures Reachable(maxQueue, s')
    decreases |es|
  {
    if es == [] {
    } else {
      RunSnoc(maxQueue, s0, done, es[0]);
      LeadsReaches(maxQueue, tr, s0, done + [es[0]], Step(maxQueue, s, es[0]).value, es[1..], s');
    }
  }

  // ---------------------------------------------------------------------------
  // The slots
  // ---------------------------------------------------------------------------

  /** The limit a thread carries from its load to its add. */
  function Carried(pc: Pc): int {
    match pc
    case LimitRead(_, limit) => limit
    case FastAdd(limit) => limit
    case PollRead(limit) => limit
    case PollAdd(limit) => limit
    case _ => 0
  }

  ghost predicate LimitsBelow(s: State, m: int) {
    0 <= m && s.limit <= m && forall t <- s.threads :: Carried(s.threads[t]) <= m
  }

  lemma StepKeepsLimits(maxQueue: nat, s: State, e: Event, m: int)
    requires LimitsBelow(s, m) && Step(maxQueue, s, e).Some? && Step(maxQueue, s, e).value.limit <= m
    ensures LimitsBelow(Step(maxQueue, s, e).value, m)
  {
  }

  /** How far past the limit a burst of some tiers can go. */
  function TopBurst(tiers: set<Tier>): (r: nat)
    ensures forall tier <- tiers :: Burst(tier) <= r
  {
    if Elite in tiers then ELITE_BURST_SLOTS else if Pro in tiers then PRO_BURST_SLOTS else 0
  }

  /** A thread still on its way to the burst check has one of the tiers. */
  predicate Bursts(pc: Pc, tiers: set<Tier>) {
    pc.Arrived? || pc.LimitRead? ==> pc.tier in tiers
  }

  ghost predicate TiersWithin(s: State, tiers: set<Tier>) {
    forall t <- s.threads :: Bursts(s.threads[t], tiers)
  }

  lemma StepKeepsTiers(maxQueue: nat, s: State, e: Event, tiers: set<Tier>)
    requires TiersWithin(s, tiers) && Step(maxQueue, s, e).Some? && (e.Arrive? ==> e.tier in tiers)
    ensures TiersWithin(Step(maxQueue, s, e).value, tiers)
  {
  }

  lemma AdmitAdds(maxQueue: nat, s: State, t: RequestId, pc: Pc, m: int, tiers: set<Tier>)
    requires InAdmit(pc) && s.limit <= m && Carried(pc) <= m && Bursts(pc, tiers)
    ensures var s' := StepAdmit(maxQueue, s, t, pc);
      t in s'.threads && AddsBelow(s, pc, s', s'.threads[t], m + TopBurst(tiers))
  {
  }

  lemma QueueAdds(s: State, t: RequestId, pc: Pc, c: Choice, m: int)
    requires InQueue(pc) && s.limit <= m && Carried(pc) <= m
    ensures var s' := StepQueue(s, t, pc, c); t in s'.threads && AddsBelow(s, pc, s', s'.threads[t], m)
  {
  }

  lemma ServeAdds(s: State, t: RequestId, pc: Pc, c: Choice, m: int)
    requires !InAdmit(pc) && !InQueue(pc) && StepServe(s, t, pc, c).Some?
    ensures var s' := StepServe(s, t, pc, c).value; t in s'.threads && AddsBelow(s, pc, s', s'.threads[t], m)
  {
  }

  /** A step either starts an add when there is room, or does not raise adds plus active. */
  ghost predicate AddsBelow(s: State, before: Pc, s': State, after: Pc, room: int) {
    || (s'.active == s.active < room)
    || s'.active - s.active + Change(before, after, Adding) <= 0
  }

  lemma StepBound(maxQueue: nat, s: State, e: Event, m: int, tiers: set<Tier>, adding: nat)
    requires LimitsBelow(s, m) && TiersWithin(s, tiers) && s.active + Number(s, Adding) < m + TopBurst(tiers) + adding
    requires Step(maxQueue, s, e).Some? && Number(Step(maxQueue, s, e).value, Adding) <= adding
    ensures var s' := Step(maxQueue, s, e).value; s'.active + Number(s', Adding) < m + TopBurst(tiers) + adding
  {
    var s' := Step(maxQueue, s, e).value;
    if !e.UpdateLimits? {
      PlayersUpdate(s.threads, e.id, s'.threads[e.id], Adding);
    }
    if e.Advance? {
      var t, pc := e.id, s.threads[e.id];
      StepMoves(maxQueue, s, t, e.choice);
      if InAdmit(pc) {
        AdmitAdds(maxQueue, s, t, pc, m, tiers);
      } else if InQueue(pc) {
        QueueAdds(s, t, pc, e.choice, m + TopBurst(tiers));
      } else {
        ServeAdds(s, t, pc, e.choice, m + TopBurst(tiers));
      }
    }
  }

  lemma {:induction false} LeadsBound(maxQueue: nat, tr: Traffic, s: State, es: seq<Event>, s': State)
    requires LimitsBelow(s, tr.limit) && TiersWithin(s, tr.tiers)
    requires s.active + Number(s, Adding) < tr.limit + TopBurst(tr.tiers) + tr.adding
    requires Leads(maxQueue, tr, s, es, s')
    ensures s'.active + Number(s', Adding) < tr.limit + TopBurst(tr.tiers) + tr.adding
    decreases |es|
  {
    if es == [] {
    } else {
      var s1 := Step(maxQueue, s, es[0]).value;
      StepKeepsLimits(maxQueue, s, es[0], tr.limit);
      StepKeepsTiers(maxQueue, s, es[0], tr.tiers);
      StepBound(maxQueue, s, es[0], tr.limit, tr.tiers, tr.adding);
      LeadsBound(maxQueue, tr, s1, es[1..], s');
    }
  }

  /**
   The race bound: the active count stays below the largest limit, plus the
   burst of the tiers that arrive, plus the number of threads at once between
   check and add.
   */
  lemma ActiveBound(maxQueue: nat, tr: Traffic, s0: State, es: seq<Event>, s: State)
    requires Initial(s0) && Leads(maxQueue, tr, s0, es, s)
    ensures s.active <= tr.limit + TopBurst(tr.tiers) + tr.adding - 1
  {
    NoPlayers(Adding);
    LeadsBound(maxQueue, tr, s0, es, s);
  }

  /** An add that the code counts as an admission leaves at most the limit it read in slots held. */
  lemma AdmissionWithinLimit(maxQueue: nat, s: State, t: RequestId, c: Choice)
    requires Reachable(maxQueue, s) && t in s.threads && (s.threads[t].FastAdd? || s.threads[t].PollAdd?)
    ensures var s', limit := StepThread(maxQueue, s, t, c).value, s.threads[t].limit;
      && (Plays(s'.threads[t], Holder) <==> s.active < limit)
      && (Plays(s'.threads[t], Holder) ==> Number(s', Holder) <= limit)
  {
    ReachableInv(maxQueue, s);
    StepKeepsSlots(maxQueue, s, Advance(t, c));
  }

  ghost predicate NoBursts(s: State) {
    forall t <- s.threads :: var pc := s.threads[t];
      !pc.BurstAdd? && (pc.Arrived? || pc.LimitRead? ==> pc.tier.Free?)
  }

  lemma StepHeldAtMostActive(maxQueue: nat, s: State, e: Event)
    requires SlotsAccounted(s) && Step(maxQueue, s, e).Some?
    ensures Number(Step(maxQueue, s, e).value, Holder) <= Step(maxQueue, s, e).value.active
  {
    StepKeepsSlots(maxQueue, s, e);
  }

  lemma StepKeepsHeld(maxQueue: nat, s: State, e: Event, m: int)
    requires SlotsAccounted(s) && LimitsBelow(s, m) && NoBursts(s) && Number(s, Holder) <= m
    requires Step(maxQueue, s, e).Some?
    ensures Number(Step(maxQueue, s, e).value, Holder) <= m
  {
    hide StepThread, Players, SlotsAccounted;
    StepHeldAtMostActive(maxQueue, s, e);
    if !e.UpdateLimits? {
      if e.Advance? {
        StepMoves(maxQueue, s, e.id, e.choice);
        StepJoins(maxQueue, s, e.id, e.choice);
      }
      PlayersUpdate(s.threads, e.id, Step(maxQueue, s, e).value.threads[e.id], Holder);
    }
  }

  lemma StepKeepsNoBursts(maxQueue: nat, s: State, e: Event)
    requires NoBursts(s) && Step(maxQueue, s, e).Some? && (e.Arrive? ==> e.tier.Free?)
    ensures NoBursts(Step(maxQueue, s, e).value)
  {
  }

  /** A thread becomes a holder only by a burst or by an add that stays below the limit it carries. */
  ghost predicate JoinsBelow(before: Pc, after: Pc, active: int) {
    Change(before, after, Holder) > 0 ==> before.BurstAdd? || active <= Carried(before)
  }

  lemma AdmitJoins(maxQueue: nat, s: State, t: RequestId, pc: Pc)
    requires InAdmit(pc)
    ensures var s' := StepAdmit(maxQueue, s, t, pc); t in s'.threads && JoinsBelow(pc, s'.threads[t], s'.active)
  {
  }

  lemma QueueJoins(s: State, t: RequestId, pc: Pc, c: Choice)
    requires InQueue(pc)
    ensures var s' := StepQueue(s, t, pc, c); t in s'.threads && JoinsBelow(pc, s'.threads[t], s'.active)
  {
  }

  lemma ServeJoins(s: State, t: RequestId, pc: Pc, c: Choice)
    requires !InAdmit(pc) && !InQueue(pc) && StepServe(s, t, pc, c).Some?
    ensures var s' := StepServe(s, t, pc, c).value; t in s'.threads && JoinsBelow(pc, s'.threads[t], s'.active)
  {
  }

  lemma StepJoins(maxQueue: nat, s: State, t: RequestId, c: Choice)
    requires t in s.threads && StepThread(maxQueue, s, t, c).Some?
    ensures var s' := StepThread(maxQueue, s, t, c).value;
      t in s'.threads && JoinsBelow(s.threads[t], s'.threads[t], s'.active)
  {
    var pc := s.threads[t];
    if InAdmit(pc) {
      AdmitJoins(maxQueue, s, t, pc);
    } else if InQueue(pc) {
      QueueJoins(s, t, pc, c);
    } else {
      ServeJoins(s, t, pc, c);
    }
  }

  lemma {:induction false} LeadsHeld(maxQueue: nat, tr: Traffic, s: State, es: seq<Event>, s': State)
    requires SlotsAccounted(s) && LimitsBelow(s, tr.limit) && NoBursts(s) && Number(s, Holder) <= tr.limit
    requires Leads(maxQueue, tr, s, es, s') && tr.tiers <= {Free}
    ensures Number(s', Holder) <= tr.limit
    decreases |es|
  {
    if es == [] {
    } else {
      StepKeepsLimits(maxQueue, s, es[0], tr.limit);
      StepKeepsNoBursts(maxQueue, s, es[0]);
      StepKeepsHeld(maxQueue, s, es[0], tr.limit);
      StepKeepsSlots(maxQueue, s, es[0]);
      LeadsHeld(maxQueue, tr, Step(maxQueue, s, es[0]).value, es[1..], s');
    }
  }

  /**
   While only free requests arrive, the slots held never exceed the largest
   limit, whatever the races (the active count still can, until the undos).
   */
  lemma HeldBound(maxQueue: nat, tr: Traffic, s0: State, es: seq<Event>, s: State)
    requires Initial(s0) && Leads(maxQueue, tr, s0, es, s) && tr.tiers <= {Free}
    ensures Number(s, Holder) <= tr.limit
  {
    InitialSlots(s0);
    LeadsHeld(maxQueue, tr, s0, es, s);
  }

  // ---------------------------------------------------------------------------
  // The queue
  // ---------------------------------------------------------------------------

  /** A step either passes the queue check when there is room, or does not raise entries plus queue. */
  ghost predicate EntersBelow(maxQueue: nat, s: State, before: Pc, s': State, after: Pc) {
    || (s'.queued == s.queued < maxQueue)
    || s'.queued - s.queued + Change(before, after, Entering) <= 0
  }

  lemma AdmitEnters(maxQueue: nat, s: State, t: RequestId, pc: Pc)
    requires InAdmit(pc)
    ensures var s' := StepAdmit(maxQueue, s, t, pc); t in s'.threads && EntersBelow(maxQueue, s, pc, s', s'.threads[t])
  {
  }

  lemma QueueEnters(maxQueue: nat, s: State, t: RequestId, pc: Pc, c: Choice)
    requires InQueue(pc)
    ensures var s' := StepQueue(s, t, pc, c); t in s'.threads && EntersBelow(maxQueue, s, pc, s', s'.threads[t])
  {
  }

  lemma ServeEnters(maxQueue: nat, s: State, t: RequestId, pc: Pc, c: Choice)
    requires !InAdmit(pc) && !InQueue(pc) && StepServe(s, t, pc, c).Some?
    ensures var s' := StepServe(s, t, pc, c).value; t in s'.threads && EntersBelow(maxQueue, s, pc, s', s'.threads[t])
  {
  }

  lemma StepEnters(maxQueue: nat, s: State, t: RequestId, c: Choice)
    requires t in s.threads && StepThread(maxQueue, s, t, c).Some?
    ensures var s' := StepThread(maxQueue, s, t, c).value;
      t in s'.threads && EntersBelow(maxQueue, s, s.threads[t], s', s'.threads[t])
  {
    hide StepAdmit, StepQueue, StepServe, EntersBelow;
    var pc := s.threads[t];
    if InAdmit(pc) {
      AdmitEnters(maxQueue, s, t, pc);
    } else if InQueue(pc) {
      QueueEnters(maxQueue, s, t, pc, c);
    } else {
      ServeEnters(maxQueue, s, t, pc, c);
    }
  }

  lemma StepQueueBound(maxQueue: nat, s: State, e: Event, entering: nat)
    requires s.queued + Number(s, Entering) < maxQueue + entering
    requires Step(maxQueue, s, e).Some? && Number(Step(maxQueue, s, e).value, Entering) <= entering
    ensures var s' := Step(maxQueue, s, e).value; s'.queued + Number(s', Entering) < maxQueue + entering
  {
    var s' := Step(maxQueue, s, e).value;
    if !e.UpdateLimits? {
      PlayersUpdate(s.threads, e.id, s'.threads[e.id], Entering);
    }
    if e.Advance? {
      StepMoves(maxQueue, s, e.id, e.choice);
      StepEnters(maxQueue, s, e.id, e.choice);
    }
  }

  lemma {:induction false} LeadsQueueBound(maxQueue: nat, tr: Traffic, s: State, es: seq<Event>, s': State)
    requires s.queued + Number(s, Entering) < maxQueue + tr.entering
    requires Leads(maxQueue, tr, s, es, s')
    ensures s'.queued + Number(s', Entering) < maxQueue + tr.entering
    decreases |es|
  {
    if es == [] {
    } else {
      StepQueueBound(maxQueue, s, es[0], tr.entering);
      LeadsQueueBound(maxQueue, tr, Step(maxQueue, s, es[0]).value, es[1..], s');
    }
  }

  /** The queue outgrows its bound by at most the threads at once between its check and its add. */
  lemma QueueSizeBound(maxQueue: nat, tr: Traffic, s0: State, es: seq<Event>, s: State)
    requires Initial(s0) && Leads(maxQueue, tr, s0, es, s) && maxQueue + tr.entering > 0
    ensures s.queued <= maxQueue + tr.entering - 1
  {
    NoPlayers(Entering);
    LeadsQueueBound(maxQueue, tr, s0, es, s);
  }
}
