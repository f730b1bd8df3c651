/**
 The path of a chat request through the master, as a system of interleaved
 steps. Every step is one atomic operation of the code: a load or an add on an
 admission counter, a locked update of the in-flight store or of the metrics,
 or an add on a worker's counter. Any number of requests run at once.
 */
module RequestProtocol {
  import opened Limits

  /** A request thread. Its id is also the request id: those are distinct. */
  type RequestId = nat

  /** A worker object. A worker that is registered again is a new object. */
  type WorkerRef = nat

  datatype Outcome = Admitted | QueueFull | TimedOut | Cancelled

  /** Where a request stands, with the local values its next operation uses. */
  datatype Pc =
      // Admit, before the queue
    | Arrived(tier: Tier)                       // about to load the limit
    | LimitRead(tier: Tier, limit: int)         // about to load the active count
    | BurstAdd                                  // burst check passed
    | FastAdd(limit: int)                       // fast-path check passed
    | FastUndo                                  // fast-path add came out too high
      // Admit, the bounded queue
    | QueueCheck
    | QueueEnter                                // queue check passed
    | EnterLoad                                 // queued, about to read the size for the gauge
    | EnterStore(size: int)                     // about to store the gauge
    | Polling
    | PollRead(limit: int)                      // about to load the active count
    | PollAdd(limit: int)                       // poll check passed
    | PollUndo                                  // poll add came out too high
    | QueueLeave(outcome: Outcome)
    | LeaveLoad(outcome: Outcome)
    | LeaveStore(outcome: Outcome, size: int)
      // the handler, after Admit
    | Refused(outcome: Outcome)                 // about to record the error
    | Serving                                   // between sends
    | Routed(worker: WorkerRef)                 // worker picked
    | Tracked(worker: WorkerRef)                // entered in the in-flight store
    | Calling(worker: WorkerRef)                // counted by the worker
    | Returned(worker: WorkerRef)               // no longer counted by the worker
    | Releasing                                 // outcome recorded, slot still held
    | Finished

  datatype State = State(
    active: int,                                // slots in use
    limit: int,                                 // maxActive
    queued: int,                                // queueSize
    gauge: int,                                 // the collector's copy of queueSize
    requests: int,                              // totalRequests
    errors: int,                                // totalErrors
    latencies: int,                             // latency samples recorded
    inflight: map<RequestId, WorkerRef>,
    load: map<WorkerRef, int>,                  // activeRequests; absent means never used
    threads: map<RequestId, Pc>)

  predicate Initial(s: State) {
    && s.active == s.queued == s.gauge == s.requests == s.errors == s.latencies == 0
    && s.limit == WORKER_MAX_CONCURRENCY
    && s.inflight == map[] && s.load == map[] && s.threads == map[]
  }

  function Load(s: State, w: WorkerRef): int {
    if w in s.load then s.load[w] else 0
  }

  /** What the environment decides where the code has a choice. */
  datatype Choice = Go | TimeOut | Cancel | Route(worker: WorkerRef) | Finish(ok: bool)

  datatype Event =
    | Arrive(id: RequestId, tier: Tier)
    | UpdateLimits(healthy: int)
    | Advance(id: RequestId, choice: Choice)

  function Goto(s: State, t: RequestId, pc: Pc): State {
    s.(threads := s.threads[t := pc])
  }

  /** The branch Admit takes once it has both values. */
  function Decide(tier: Tier, limit: int, current: int): Pc {
    if tier.Elite? && current < limit + ELITE_BURST_SLOTS then BurstAdd
    else if tier.Pro? && current < limit + PRO_BURST_SLOTS then BurstAdd
    else if limit > 0 && current < limit then FastAdd(limit)
    else QueueCheck
  }

  function AfterAdmit(outcome: Outcome): Pc {
    if outcome.Admitted? then Serving else Refused(outcome)
  }

  predicate InAdmit(pc: Pc) {
    pc.Arrived? || pc.LimitRead? || pc.BurstAdd? || pc.FastAdd? || pc.FastUndo? || pc.QueueCheck?
  }

  predicate InQueue(pc: Pc) {
    || pc.QueueEnter? || pc.EnterLoad? || pc.EnterStore? || pc.Polling? || pc.PollRead? || pc.PollAdd?
    || pc.PollUndo? || pc.QueueLeave? || pc.LeaveLoad? || pc.LeaveStore?
  }

  /** An operation of Admit up to the queue check. */
  function StepAdmit(maxQueue: nat, s: State, t: RequestId, pc: Pc): State
    requires InAdmit(pc)
  {
    match pc
    case Arrived(tier) => Goto(s, t, LimitRead(tier, s.limit))
    case LimitRead(tier, limit) => Goto(s, t, Decide(tier, limit, s.active))
    case BurstAdd => Goto(s.(active := s.active + 1), t, Serving)
    case FastAdd(limit) => Goto(s.(active := s.active + 1), t, if s.active + 1 <= limit then Serving else FastUndo)
    case FastUndo => Goto(s.(active := s.active - 1), t, QueueCheck)
    case QueueCheck => Goto(s, t, if s.queued >= maxQueue then Refused(QueueFull) else QueueEnter)
  }

  /** An operation of Admit in the queue. */
  function StepQueue(s: State, t: RequestId, pc: Pc, c: Choice): State
    requires InQueue(pc)
  {
    match pc
    case QueueEnter => Goto(s.(queued := s.queued + 1), t, EnterLoad)
    case EnterLoad => Goto(s, t, EnterStore(s.queued))
    case EnterStore(size) => Goto(s.(gauge := size), t, Polling)
    case Polling =>
      Goto(s, t, match c
                 case TimeOut => QueueLeave(TimedOut)
                 case Cancel => QueueLeave(Cancelled)
                 case _ => PollRead(s.limit))
    case PollRead(limit) => Goto(s, t, if s.active < limit then PollAdd(limit) else Polling)
    case PollAdd(limit) =>
      Goto(s.(active := s.active + 1), t, if s.active + 1 <= limit then QueueLeave(Admitted) else PollUndo)
    case PollUndo => Goto(s.(active := s.active - 1), t, Polling)
    case QueueLeave(outcome) => Goto(s.(queued := s.queued - 1), t, LeaveLoad(outcome))
    case LeaveLoad(outcome) => Goto(s, t, LeaveStore(outcome, s.queued))
    case LeaveStore(outcome, size) => Goto(s.(gauge := size), t, AfterAdmit(outcome))
  }

  /** An operation of the handler after Admit; `None` where the choice does not apply. */
  function StepServe(s: State, t: RequestId, pc: Pc, c: Choice): Option<State>
    requires !InAdmit(pc) && !InQueue(pc)
  {
    match pc
    case Refused(_) => Some(Goto(s.(errors := s.errors + 1), t, Finished))
    case Serving =>
      if c.Route? then Some(Goto(s, t, Routed(c.worker)))
      else if c == Finish(true) then Some(Goto(s.(latencies := s.latencies + 1), t, Releasing))
      else if c == Finish(false) then Some(Goto(s.(errors := s.errors + 1), t, Releasing))
      else None
    case Routed(w) => Some(Goto(s.(inflight := s.inflight[t := w]), t, Tracked(w)))
    case Tracked(w) => Some(Goto(s.(load := s.load[w := Load(s, w) + 1]), t, Calling(w)))
    case Calling(w) => Some(Goto(s.(load := s.load[w := Load(s, w) - 1]), t, Returned(w)))
    case Returned(_) => Some(Goto(s.(inflight := s.inflight - {t}), t, Serving))
    case Releasing => Some(Goto(s.(active := s.active - 1), t, Finished))
    case Finished => None
  }

  function StepThread(maxQueue: nat, s: State, t: RequestId, c: Choice): Option<State>
    requires t in s.threads
  {
    var pc := s.threads[t];
    if InAdmit(pc) then Some(StepAdmit(maxQueue, s, t, pc))
    else if InQueue(pc) then Some(StepQueue(s, t, pc, c))
    else StepServe(s, t, pc, c)
  }

  function Step(maxQueue: nat, s: State, e: Event): Option<State> {
    match e
    case Arrive(t, tier) =>
      if t in s.threads then None else Some(Goto(s.(requests := s.requests + 1), t, Arrived(tier)))
    case UpdateLimits(healthy) => Some(s.(limit := Max(healthy, 0) * WORKER_MAX_CONCURRENCY))
    case Advance(t, c) => if t in s.threads then StepThread(maxQueue, s, t, c) else None
  }

  /** The state after the events, or `None` if one of them could not happen. */
  function Run(maxQueue: nat, s: State, es: seq<Event>): Option<State>
    decreases |es|
  {
    if es == [] then Some(s)
    else match Step(maxQueue, s, es[0])
         case None => None
         case Some(s') => Run(maxQueue, s', es[1..])
  }

  // ---------------------------------------------------------------------------
  // Counting threads by what they are doing
  // ---------------------------------------------------------------------------

  datatype Role =
    | Holder                                    // has a slot it must release
    | Undoing                                   // between a failed add and its undo
    | Queued
    | Tracking                                  // in the in-flight store
    | Unrecorded                                // neither error nor latency recorded yet
    | Adding                                    // between a passed check and its add
    | Entering                                  // between a passed queue check and its add
    | Publishing                                // between a change of the queue and its gauge store
    | Chooser(worker: WorkerRef)                // has picked the worker and not called it yet
    | Caller(worker: WorkerRef)

  predicate Plays(pc: Pc, role: Role) {
    match role
    case Holder =>
      || ((pc.QueueLeave? || pc.LeaveLoad? || pc.LeaveStore?) && pc.outcome.Admitted?)
      || pc.Serving? || pc.Routed? || pc.Tracked? || pc.Calling? || pc.Returned? || pc.Releasing?
    case Undoing => pc.FastUndo? || pc.PollUndo?
    case Queued =>
      pc.EnterLoad? || pc.EnterStore? || pc.Polling? || pc.PollRead? || pc.PollAdd? || pc.PollUndo? || pc.QueueLeave?
    case Tracking => pc.Tracked? || pc.Calling? || pc.Returned?
    case Unrecorded => !pc.Releasing? && !pc.Finished?
    case Adding => pc.BurstAdd? || pc.FastAdd? || pc.PollAdd?
    case Entering => pc.QueueEnter?
    case Publishing => pc.EnterLoad? || pc.EnterStore? || pc.LeaveLoad? || pc.LeaveStore?
    case Chooser(w) => pc == Routed(w) || pc == Tracked(w)
    case Caller(w) => pc == Calling(w)
  }

  function Players(threads: map<RequestId, Pc>, role: Role): set<RequestId> {
    set t | t in threads && Plays(threads[t], role)
  }

  function Number(s: State, role: Role): nat {
    |Players(s.threads, role)|
  }

  function One(b: bool): nat {
    if b then 1 else 0
  }

  lemma MoveOne(before: set<RequestId>, after: set<RequestId>, t: RequestId, joins: bool)
    requires after == if joins then before + {t} else before - {t}
    ensures |after| == |before| - One(t in before) + One(joins)
  {
  }

  lemma PlayersAfter(threads: map<RequestId, Pc>, t: RequestId, pc: Pc, role: Role)
    ensures Players(threads[t := pc], role)
         == if Plays(pc, role) then Players(threads, role) + {t} else Players(threads, role) - {t}
  {
    var was, now := Players(threads, role), Players(threads[t := pc], role);
    forall r | r != t ensures r in now <==> r in was {
    }
  }

  /** Moving one thread changes a count by what the thread was and is. */
  lemma PlayersUpdate(threads: map<RequestId, Pc>, t: RequestId, pc: Pc, role: Role)
    ensures |Players(threads[t := pc], role)|
         == |Players(threads, role)| - One(t in threads && Plays(threads[t], role)) + One(Plays(pc, role))
  {
    PlayersAfter(threads, t, pc, role);
    MoveOne(Players(threads, role), Players(threads[t := pc], role), t, Plays(pc, role));
  }

  // ---------------------------------------------------------------------------
  // The accounting invariant
  // ---------------------------------------------------------------------------

  ghost predicate SlotsAccounted(s: State) {
    && s.active == Number(s, Holder) + Number(s, Undoing)
    && s.queued == Number(s, Queued)
    && s.limit >= 0
  }

  ghost predicate OutcomesAccounted(s: State) {
    s.requests == s.errors + s.latencies + Number(s, Unrecorded)
  }

  ghost predicate SendsAccounted(s: State) {
    && s.inflight.Keys == Players(s.threads, Tracking)
    && (forall t <- s.inflight :: s.threads[t].worker == s.inflight[t])
    && (forall w :: Load(s, w) == Number(s, Caller(w)))
  }

  ghost predicate Inv(s: State) {
    SlotsAccounted(s) && OutcomesAccounted(s) && SendsAccounted(s)
  }

  /** By how much a role's count changes when a thread goes from `before` to `after`. */
  function Change(before: Pc, after: Pc, role: Role): int {
    One(Plays(after, role)) - One(Plays(before, role))
  }

  // Each counter moves exactly as the roles it stands for. The three phases are
  // separate lemmas to keep each case analysis small.

  ghost predicate OneMoved(s: State, t: RequestId, s': State) {
    t in s'.threads && s'.threads == s.threads[t := s'.threads[t]] && s'.limit == s.limit && s'.requests == s.requests
  }

  ghost predicate SlotsMoved(s: State, t: RequestId, before: Pc, s': State)
    requires t in s'.threads
  {
    var after := s'.threads[t];
    s'.active - s.active == Change(before, after, Holder) + Change(before, after, Undoing)
  }

  ghost predicate QueueMoved(s: State, t: RequestId, before: Pc, s': State)
    requires t in s'.threads
  {
    s'.queued - s.queued == Change(before, s'.threads[t], Queued)
  }

  ghost predicate OutcomesMoved(s: State, t: RequestId, before: Pc, s': State)
    requires t in s'.threads
  {
    s.errors + s.latencies - s'.errors - s'.latencies == Change(before, s'.threads[t], Unrecorded)
  }

  lemma AdmitMovesOne(maxQueue: nat, s: State, t: RequestId, pc: Pc)
    requires InAdmit(pc)
    ensures OneMoved(s, t, StepAdmit(maxQueue, s, t, pc))
  {
  }

  lemma AdmitMovesSlots(maxQueue: nat, s: State, t: RequestId, pc: Pc)
    requires InAdmit(pc)
    ensures var s' := StepAdmit(maxQueue, s, t, pc); t in s'.threads && SlotsMoved(s, t, pc, s')
  {
  }

  lemma AdmitMovesQueue(maxQueue: nat, s: State, t: RequestId, pc: Pc)
    requires InAdmit(pc)
    ensures var s' := StepAdmit(maxQueue, s, t, pc); t in s'.threads && QueueMoved(s, t, pc, s')
  {
  }

  lemma AdmitMovesOutcomes(maxQueue: nat, s: State, t: RequestId, pc: Pc)
    requires InAdmit(pc)
    ensures var s' := StepAdmit(maxQueue, s, t, pc); t in s'.threads && OutcomesMoved(s, t, pc, s')
  {
  }

  lemma QueueMovesOne(s: State, t: RequestId, pc: Pc, c: Choice)
    requires InQueue(pc)
    ensures OneMoved(s, t, StepQueue(s, t, pc, c))
  {
  }

  lemma QueueMovesSlots(s: State, t: RequestId, pc: Pc, c: Choice)
    requires InQueue(pc)
    ensures var s' := StepQueue(s, t, pc, c); t in s'.threads && SlotsMoved(s, t, pc, s')
  {
  }

  lemma QueueMovesQueue(s: State, t: RequestId, pc: Pc, c: Choice)
    requires InQueue(pc)
    ensures var s' := StepQueue(s, t, pc, c); t in s'.threads && QueueMoved(s, t, pc, s')
  {
  }

  lemma QueueMovesOutcomes(s: State, t: RequestId, pc: Pc, c: Choice)
    requires InQueue(pc)
    ensures var s' := StepQueue(s, t, pc, c); t in s'.threads && OutcomesMoved(s, t, pc, s')
  {
  }

  lemma ServeMovesOne(s: State, t: RequestId, pc: Pc, c: Choice)
    requires !InAdmit(pc) && !InQueue(pc) && StepServe(s, t, pc, c).Some?
    ensures OneMoved(s, t, StepServe(s, t, pc, c).value)
  {
  }

  lemma ServeMovesSlots(s: State, t: RequestId, pc: Pc, c: Choice)
    requires !InAdmit(pc) && !InQueue(pc) && StepServe(s, t, pc, c).Some?
    ensures var s' := StepServe(s, t, pc, c).value; t in s'.threads && SlotsMoved(s, t, pc, s')
  {
  }

  lemma ServeMovesQueue(s: State, t: RequestId, pc: Pc, c: Choice)
    requires !InAdmit(pc) && !InQueue(pc) && StepServe(s, t, pc, c).Some?
    ensures var s' := StepServe(s, t, pc, c).value; t in s'.threads && QueueMoved(s, t, pc, s')
  {
  }

  lemma ServeMovesOutcomes(s: State, t: RequestId, pc: Pc, c: Choice)
    requires !InAdmit(pc) && !InQueue(pc) && StepServe(s, t, pc, c).Some?
    ensures var s' := StepServe(s, t, pc, c).value; t in s'.threads && OutcomesMoved(s, t, pc, s')
  {
  }

  lemma StepMoves(maxQueue: nat, s: State, t: RequestId, c: Choice)
    requires t in s.threads && StepThread(maxQueue, s, t, c).Some?
    ensures var s', pc := StepThread(maxQueue, s, t, c).value, s.threads[t];
      OneMoved(s, t, s') && SlotsMoved(s, t, pc, s') && QueueMoved(s, t, pc, s') && OutcomesMoved(s, t, pc, s')
  {
    var pc := s.threads[t];
    if InAdmit(pc) {
      AdmitMovesOne(maxQueue, s, t, pc);
      AdmitMovesSlots(maxQueue, s, t, pc);
      AdmitMovesQueue(maxQueue, s, t, pc);
      AdmitMovesOutcomes(maxQueue, s, t, pc);
    } else if InQueue(pc) {
      QueueMovesOne(s, t, pc, c);
      QueueMovesSlots(s, t, pc, c);
      QueueMovesQueue(s, t, pc, c);
      QueueMovesOutcomes(s, t, pc, c);
    } else {
      ServeMovesOne(s, t, pc, c);
      ServeMovesSlots(s, t, pc, c);
      ServeMovesQueue(s, t, pc, c);
      ServeMovesOutcomes(s, t, pc, c);
    }
  }

  lemma StepKeepsSlots(maxQueue: nat, s: State, e: Event)
    requires SlotsAccounted(s) && Step(maxQueue, s, e).Some?
    ensures SlotsAccounted(Step(maxQueue, s, e).value)
  {
    hide StepThread, Players;
    if !e.UpdateLimits? {
      if e.Advance? {
        StepMoves(maxQueue, s, e.id, e.choice);
      }
      var pc := Step(maxQueue, s, e).value.threads[e.id];
      PlayersUpdate(s.threads, e.id, pc, Holder);
      PlayersUpdate(s.threads, e.id, pc, Undoing);
      PlayersUpdate(s.threads, e.id, pc, Queued);
    }
  }

  lemma StepKeepsOutcomes(maxQueue: nat, s: State, e: Event)
    requires OutcomesAccounted(s) && Step(maxQueue, s, e).Some?
    ensures OutcomesAccounted(Step(maxQueue, s, e).value)
  {
    hide StepThread, Players;
    if !e.UpdateLimits? {
      if e.Advance? {
        StepMoves(maxQueue, s, e.id, e.choice);
      }
      PlayersUpdate(s.threads, e.id, Step(maxQueue, s, e).value.threads[e.id], Unrecorded);
    }
  }

  /** Thread `t` is in the store, under the worker it names, exactly while it plays `Tracking`. */
  ghost predicate TracksRight(s: State, t: RequestId, s': State)
    requires t in s'.threads
  {
    var pc := s'.threads[t];
    s'.inflight == if Plays(pc, Tracking) then s.inflight[t := pc.worker] else s.inflight - {t}
  }

  lemma AdmitTracks(maxQueue: nat, s: State, t: RequestId, pc: Pc)
    requires InAdmit(pc) && t !in s.inflight
    ensures var s' := StepAdmit(maxQueue, s, t, pc); t in s'.threads && TracksRight(s, t, s')
  {
  }

  lemma QueueTracks(s: State, t: RequestId, pc: Pc, c: Choice)
    requires InQueue(pc) && t !in s.inflight
    ensures var s' := StepQueue(s, t, pc, c); t in s'.threads && TracksRight(s, t, s')
  {
  }

  lemma ServeTracks(s: State, t: RequestId, pc: Pc, c: Choice)
    requires !InAdmit(pc) && !InQueue(pc) && StepServe(s, t, pc, c).Some?
    requires if Plays(pc, Tracking) then t in s.inflight && s.inflight[t] == pc.worker else t !in s.inflight
    ensures var s' := StepServe(s, t, pc, c).value; t in s'.threads && TracksRight(s, t, s')
  {
  }

  lemma StepTracks(maxQueue: nat, s: State, e: Event)
    requires SendsAccounted(s) && Step(maxQueue, s, e).Some? && !e.UpdateLimits?
    ensures var s' := Step(maxQueue, s, e).value; e.id in s'.threads && TracksRight(s, e.id, s')
  {
    hide StepAdmit, StepQueue, StepServe;
    assert e.id in s.inflight <==> e.id in Players(s.threads, Tracking);
    if e.Advance? {
      var pc := s.threads[e.id];
      if InAdmit(pc) {
        AdmitTracks(maxQueue, s, e.id, pc);
      } else if InQueue(pc) {
        QueueTracks(s, e.id, pc, e.choice);
      } else {
        ServeTracks(s, e.id, pc, e.choice);
      }
    }
  }

  ghost predicate LoadMoved(s: State, t: RequestId, before: Pc, s': State, w: WorkerRef) {
    t in s'.threads && Load(s', w) - Load(s, w) == Change(before, s'.threads[t], Caller(w))
  }

  lemma AdmitMovesLoad(maxQueue: nat, s: State, t: RequestId, pc: Pc, w: WorkerRef)
    requires InAdmit(pc)
    ensures LoadMoved(s, t, pc, StepAdmit(maxQueue, s, t, pc), w)
  {
  }

  lemma QueueMovesLoad(s: State, t: RequestId, pc: Pc, c: Choice, w: WorkerRef)
    requires InQueue(pc)
    ensures LoadMoved(s, t, pc, StepQueue(s, t, pc, c), w)
  {
  }

  lemma ServeMovesLoad(s: State, t: RequestId, pc: Pc, c: Choice, w: WorkerRef)
    requires !InAdmit(pc) && !InQueue(pc) && StepServe(s, t, pc, c).Some?
    ensures LoadMoved(s, t, pc, StepServe(s, t, pc, c).value, w)
  {
  }

  lemma StepLoads(maxQueue: nat, s: State, t: RequestId, c: Choice, w: WorkerRef)
    requires t in s.threads && StepThread(maxQueue, s, t, c).Some?
    ensures LoadMoved(s, t, s.threads[t], StepThread(maxQueue, s, t, c).value, w)
  {
    var pc := s.threads[t];
    if InAdmit(pc) {
      AdmitMovesLoad(maxQueue, s, t, pc, w);
    } else if InQueue(pc) {
      QueueMovesLoad(s, t, pc, c, w);
    } else {
      ServeMovesLoad(s, t, pc, c, w);
    }
  }

  lemma StepKeepsSends(maxQueue: nat, s: State, e: Event)
    requires SendsAccounted(s) && Step(maxQueue, s, e).Some?
    ensures SendsAccounted(Step(maxQueue, s, e).value)
  {
    var s' := Step(maxQueue, s, e).value;
    forall w ensures Load(s', w) == Number(s', Caller(w)) {
      assert Load(s, w) == Number(s, Caller(w));
      if e.Advance? {
        StepMoves(maxQueue, s, e.id, e.choice);
        StepLoads(maxQueue, s, e.id, e.choice, w);
      }
      if !e.UpdateLimits? {
        PlayersUpdate(s.threads, e.id, s'.threads[e.id], Caller(w));
      }
    }
    if !e.UpdateLimits? {
      if e.Advance? {
        StepMoves(maxQueue, s, e.id, e.choice);
      }
      StepTracks(maxQueue, s, e);
      TrackedThreads(s, s', e.id);
    }
  }

  lemma TrackedThreads(s: State, s': State, t: RequestId)
    requires t in s'.threads && s'.threads == s.threads[t := s'.threads[t]]
    requires s.inflight.Keys == Players(s.threads, Tracking)
    requires forall r <- s.inflight :: s.threads[r].worker == s.inflight[r]
    requires TracksRight(s, t, s')
    ensures s'.inflight.Keys == Players(s'.threads, Tracking)
    ensures forall r <- s'.inflight :: s'.threads[r].worker == s'.inflight[r]
  {
    forall r ensures r in s'.inflight <==> r in Players(s'.threads, Tracking) {
      assert r in s.inflight <==> r in Players(s.threads, Tracking);
    }
  }

  lemma NoPlayers(role: Role)
    ensures Players(map[], role) == {}
  {
  }

  lemma InitialSlots(s: State)
    requires Initial(s)
    ensures SlotsAccounted(s) && Number(s, Holder) == 0
  {
    NoPlayers(Holder);
    NoPlayers(Undoing);
    NoPlayers(Queued);
  }

  lemma InitialOutcomes(s: State)
    requires Initial(s)
    ensures OutcomesAccounted(s)
  {
    NoPlayers(Unrecorded);
  }

  lemma InitialSends(s: State)
    requires Initial(s)
    ensures SendsAccounted(s)
  {
    NoPlayers(Tracking);
    forall w ensures Load(s, w) == Number(s, Caller(w)) {
      NoPlayers(Caller(w));
    }
  }

  lemma InitialAccounted(s: State)
    requires Initial(s)
    ensures Inv(s)
  {
    InitialSlots(s);
    InitialOutcomes(s);
    InitialSends(s);
  }

  lemma {:induction false} RunKeepsInv(maxQueue: nat, s: State, es: seq<Event>)
    requires Inv(s) && Run(maxQueue, s, es).Some?
    ensures Inv(Run(maxQueue, s, es).value)
    decreases |es|
  {
    if es == [] {
    } else {
      StepKeepsSlots(maxQueue, s, es[0]);
      StepKeepsOutcomes(maxQueue, s, es[0]);
      StepKeepsSends(maxQueue, s, es[0]);
      RunKeepsInv(maxQueue, Step(maxQueue, s, es[0]).value, es[1..]);
    }
  }

  lemma {:induction false} RunSnoc(maxQueue: nat, s: State, es: seq<Event>, e: Event)
    requires Run(maxQueue, s, es).Some? && Step(maxQueue, Run(maxQueue, s, es).value, e).Some?
    ensures Run(maxQueue, s, es + [e]) == Step(maxQueue, Run(maxQueue, s, es).value, e)
    decreases |es|
  {
    if es == [] {
      assert ([] + [e])[1..] == [];
    } else {
      RunSnoc(maxQueue, Step(maxQueue, s, es[0]).value, es[1..], e);
      assert (es + [e])[1..] == es[1..] + [e];
    }
  }

  // ---------------------------------------------------------------------------
  // What is recorded, by what happened
  // ---------------------------------------------------------------------------

  datatype Happening = Arrival | Served | Failed | Refusal

  /** What an event means for the metrics, if anything: an arrival, how a served request ends, or a refusal. */
  function Means(s: State, e: Event): Option<Happening> {
    if e.Arrive? then Some(Arrival)
    else if !e.Advance? || e.id !in s.threads then None
    else if s.threads[e.id].Refused? then Some(Refusal)
    else if !s.threads[e.id].Serving? || !e.choice.Finish? then None
    else if e.choice.ok then Some(Served)
    else Some(Failed)
  }

  /** How many of the events of a run mean that. */
  function Happened(maxQueue: nat, s: State, es: seq<Event>, h: Happening): nat
    decreases |es|
  {
    if es == [] then 0
    else match Step(maxQueue, s, es[0])
         case None => 0
         case Some(s') => One(Means(s, es[0]) == Some(h)) + Happened(maxQueue, s', es[1..], h)
  }

  lemma StepRecords(maxQueue: nat, s: State, e: Event)
    requires Step(maxQueue, s, e).Some?
    ensures var s' := Step(maxQueue, s, e).value;
      && s'.requests == s.requests + One(Means(s, e) == Some(Arrival))
      && s'.latencies == s.latencies + One(Means(s, e) == Some(Served))
      && s'.errors == s.errors + One(Means(s, e) == Some(Failed)) + One(Means(s, e) == Some(Refusal))
  {
  }

  /** Over any run every arrival is a request, every reply a latency, and every failure and refusal an error. */
  lemma {:induction false} RunRecords(maxQueue: nat, s: State, es: seq<Event>)
    requires Run(maxQueue, s, es).Some?
    ensures var s' := Run(maxQueue, s, es).value;
      && s'.requests == s.requests + Happened(maxQueue, s, es, Arrival)
      && s'.latencies == s.latencies + Happened(maxQueue, s, es, Served)
      && s'.errors == s.errors + Happened(maxQueue, s, es, Failed) + Happened(maxQueue, s, es, Refusal)
    decreases |es|
  {
    hide Step, Means;
    if es == [] {
    } else {
      StepRecords(maxQueue, s, es[0]);
      RunRecords(maxQueue, Step(maxQueue, s, es[0]).value, es[1..]);
    }
  }

  ghost predicate Reachable(maxQueue: nat, s: State) {
    exists s0, es :: Initial(s0) && Run(maxQueue, s0, es) == Some(s)
  }

  /** The counters agree in every state of every interleaving. */
  lemma ReachableInv(maxQueue: nat, s: State)
    requires Reachable(maxQueue, s)
    ensures Inv(s)
  {
    var s0, es :| Initial(s0) && Run(maxQueue, s0, es) == Some(s);
    InitialAccounted(s0);
    RunKeepsInv(maxQueue, s0, es);
  }

  // ---------------------------------------------------------------------------
  // What the invariant means for the counters
  // ---------------------------------------------------------------------------

  /** The load of some workers, in any order. */
  function TotalLoad(s: State, ws: seq<WorkerRef>): int {
    if ws == [] then 0 else TotalLoad(s, ws[..|ws| - 1]) + Load(s, ws[|ws| - 1])
  }

  function CallersOf(s: State, ws: seq<WorkerRef>): set<RequestId> {
    set t | t in s.threads && s.threads[t].Calling? && s.threads[t].worker in ws
  }

  lemma CallersSnoc(s: State, rest: seq<WorkerRef>, w: WorkerRef)
    requires w !in rest
    ensures |CallersOf(s, rest + [w])| == |CallersOf(s, rest)| + Number(s, Caller(w))
  {
    assert CallersOf(s, rest + [w]) == CallersOf(s, rest) + Players(s.threads, Caller(w));
    assert CallersOf(s, rest) !! Players(s.threads, Caller(w));
  }

  lemma {:induction false} TotalLoadIsCallers(s: State, ws: seq<WorkerRef>)
    requires SendsAccounted(s) && Distinct(ws)
    ensures TotalLoad(s, ws) == |CallersOf(s, ws)|
  {
    if ws == [] {
    } else {
      var rest, w := ws[..|ws| - 1], ws[|ws| - 1];
      assert ws == rest + [w];
      TotalLoadIsCallers(s, rest);
      CallersSnoc(s, rest, w);
      assert Load(s, w) == Number(s, Caller(w));
    }
  }

  lemma SubsetSize<T>(a: set<T>, b: set<T>)
    requires a <= b
    ensures |a| <= |b|
  {
    assert b == a + (b - a);
  }

  lemma CallersAreTracked(s: State, ws: seq<WorkerRef>)
    ensures |CallersOf(s, ws)| <= Number(s, Tracking)
  {
    SubsetSize(CallersOf(s, ws), Players(s.threads, Tracking));
  }

  lemma TrackedHold(s: State)
    ensures Number(s, Tracking) <= Number(s, Holder)
  {
    SubsetSize(Players(s.threads, Tracking), Players(s.threads, Holder));
  }

  lemma CountersNestAt(s: State, ws: seq<WorkerRef>)
    requires SlotsAccounted(s) && SendsAccounted(s) && Distinct(ws)
    ensures TotalLoad(s, ws) <= |s.inflight| <= Number(s, Holder) <= s.active
  {
    TotalLoadIsCallers(s, ws);
    CallersAreTracked(s, ws);
    TrackedHold(s);
    assert |s.inflight| == |s.inflight.Keys|;
  }

  /** Sends counted by workers, requests in flight, slots held, slots counted: each at most the next. */
  lemma CountersNest(maxQueue: nat, s: State, ws: seq<WorkerRef>)
    requires Reachable(maxQueue, s) && Distinct(ws)
    ensures TotalLoad(s, ws) <= |s.inflight| <= Number(s, Holder) <= s.active
  {
    ReachableInv(maxQueue, s);
    CountersNestAt(s, ws);
  }

  ghost predicate AllFinished(s: State) {
    forall t <- s.threads :: s.threads[t].Finished?
  }

  lemma FinishedPlayNothing(s: State, role: Role)
    requires AllFinished(s) && !Plays(Finished, role)
    ensures Players(s.threads, role) == {}
  {
  }

  lemma SlotsReturned(s: State)
    requires SlotsAccounted(s) && AllFinished(s)
    ensures s.active == 0 && s.queued == 0
  {
    FinishedPlayNothing(s, Holder);
    FinishedPlayNothing(s, Undoing);
    FinishedPlayNothing(s, Queued);
  }

  lemma SendsReturned(s: State)
    requires SendsAccounted(s) && AllFinished(s)
    ensures s.inflight == map[] && forall w :: Load(s, w) == 0
  {
    FinishedPlayNothing(s, Tracking);
    forall w ensures Load(s, w) == 0 {
      FinishedPlayNothing(s, Caller(w));
      assert Load(s, w) == Number(s, Caller(w));
    }
  }

  /** Once every request has returned, nothing is counted and every request has one outcome. */
  lemma AllReturned(maxQueue: nat, s: State)
    requires Reachable(maxQueue, s) && AllFinished(s)
    ensures s.active == 0 && s.queued == 0 && s.inflight == map[] && (forall w :: Load(s, w) == 0)
    ensures s.requests == s.errors + s.latencies
  {
    ReachableInv(maxQueue, s);
    SlotsReturned(s);
    SendsReturned(s);
    FinishedPlayNothing(s, Unrecorded);
  }
}
