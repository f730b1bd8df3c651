/**
 `AdmissionController.Admit` as the code runs it, with the operations of any
 other requests between any two of its own. Every operation is proved to be
 the step that `RequestProtocol` takes there, so what is proved about the runs
 of the protocol holds of the code.
 */
module Admission {
  import opened Limits
  import opened RequestProtocol

  /** What the select of the polling loop receives. */
  datatype Signal = Ticked | TimerFired | ContextDone

  /** The other threads' events between this thread's operations. */
  type Schedule = nat -> seq<Event>

  /** No other thread does anything. */
  ghost predicate Quiet(schedule: Schedule) {
    forall k :: schedule(k) == []
  }

  /** The `i`th signal, after ticks only, decides: a tick that admits or a signal to give up; at last the timer does. */
  ghost predicate Decides(signals: seq<Signal>, i: nat, r: Outcome) {
    && i <= |signals| && (forall k :: 0 <= k < i ==> signals[k].Ticked?)
    && r == if i == |signals| then TimedOut
            else match signals[i]
                 case Ticked => Admitted
                 case TimerFired => TimedOut
                 case ContextDone => Cancelled
  }

  /** There is room for a request of the tier without queuing. */
  ghost predicate RoomFor(tier: Tier, active: int, limit: int) {
    match tier
    case Elite => active < limit + 50
    case Pro => active < limit + 20
    case Free => limit > 0 && active < limit
  }

  lemma RoomIs(tier: Tier, current: int, limit: int)
    ensures var burst := !tier.Free? && current < limit + Burst(tier);
      && (RoomFor(tier, current, limit) <==> burst || (limit > 0 && current < limit))
      && (!burst ==>
            Decide(tier, limit, current) == if limit > 0 && current < limit then FastAdd(limit) else QueueCheck)
  {
  }

  class AdmissionController {
    const maxQueueSize: nat
    var active: int
    var maxActive: int
    var queueSize: int
    var gauge: int                              // the collector's queueSize
    var others: State                           // everything else the requests share

    ghost var start: State
    ghost var log: seq<Event>                   // every operation so far, in order

    /** The state of the protocol. */
    function World(): State
      reads this
    {
      others.(active := active, limit := maxActive, queued := queueSize, gauge := gauge)
    }

    function Threads(): map<RequestId, Pc>
      reads this
    {
      others.threads
    }

    ghost predicate Valid()
      reads this
    {
      Initial(start) && Run(maxQueueSize, start, log) == Some(World())
    }

    constructor (maxQueueSize: nat)
      ensures Valid() && World() == start && log == [] && this.maxQueueSize == maxQueueSize
    {
      this.maxQueueSize := maxQueueSize;
      active, maxActive, queueSize, gauge := 0, WORKER_MAX_CONCURRENCY, 0, 0;
      others := State(0, WORKER_MAX_CONCURRENCY, 0, 0, 0, 0, 0, map[], map[], map[]);
      start := State(0, WORKER_MAX_CONCURRENCY, 0, 0, 0, 0, 0, map[], map[], map[]);
      log := [];
    }

    /** The limit is fifty for each healthy worker. */
    method UpdateLimits(healthyWorkers: int)
      requires Valid()
      modifies this
      ensures Valid() && start == old(start) && log == old(log) + [RequestProtocol.UpdateLimits(healthyWorkers)]
      ensures maxActive == if healthyWorkers > 0 then 50 * healthyWorkers else 0
      ensures active == old(active) && queueSize == old(queueSize) && Threads() == old(Threads())
    {
      ghost var before := World();
      maxActive := (if healthyWorkers < 0 then 0 else healthyWorkers) * WORKER_MAX_CONCURRENCY;
      Commit(before, RequestProtocol.UpdateLimits(healthyWorkers));
    }

    /** The operation just done was the step `e` from `before`. */
    ghost method Commit(before: State, e: Event)
      requires Initial(start) && Run(maxQueueSize, start, log) == Some(before)
      requires Step(maxQueueSize, before, e) == Some(World())
      modifies this`log
      ensures Valid() && log == old(log) + [e]
    {
      RunSnoc(maxQueueSize, start, log, e);
      log := log + [e];
    }

    /** If nobody else runs, the count of slots and the queue move just so, and the limit stays. */
    twostate predicate Moved(quiet: bool, slots: int, queued: int)
      reads this
    {
      quiet ==>
        && active == old(active) + slots && queueSize == old(queueSize) + queued && maxActive == old(maxActive)
    }

    /** Other threads run; events that cannot happen are skipped. */
    method Interfere(t: RequestId, events: seq<Event>)
      requires Valid()
      modifies this
      ensures Valid() && start == old(start) && old(log) <= log
      ensures forall e <- log[|old(log)|..] :: !e.UpdateLimits? ==> e.id != t
      ensures Moved(events == [], 0, 0)
      ensures t in Threads() <==> t in old(Threads())
      ensures t in Threads() ==> Threads()[t] == old(Threads())[t]
    {
      for i := 0 to |events|
        invariant Valid() && start == old(start) && old(log) <= log && Moved(events == [], 0, 0)
        invariant forall e <- log[|old(log)|..] :: !e.UpdateLimits? ==> e.id != t
        invariant t in Threads() <==> t in old(Threads())
        invariant t in Threads() ==> Threads()[t] == old(Threads())[t]
      {
        var e := events[i];
        if e.UpdateLimits? || e.id != t {
          var next := Step(maxQueueSize, World(), e);
          if next.Some? {
            ghost var before := World();
            others := next.value;
            active, maxActive, queueSize, gauge := others.active, others.limit, others.queued, others.gauge;
            StepTouchesOne(maxQueueSize, before, e);
            Commit(before, e);
          }
        }
      }
    }

    /** Time has passed and thread `t` is still there. */
    twostate predicate Continues(t: RequestId)
      reads this
    {
      Valid() && start == old(start) && old(log) <= log && t in Threads()
    }

    /** The counters have just been updated: thread `t` now stands at `pc`. */
    method Now(t: RequestId, pc: Pc, ghost before: State, ghost c: Choice)
      requires Initial(start) && Run(maxQueueSize, start, log) == Some(before)
      requires Step(maxQueueSize, before, Advance(t, c)) == Some(Goto(World(), t, pc))
      modifies this`others, this`log
      ensures Continues(t) && Threads()[t] == pc
    {
      others := Goto(others, t, pc);
      Commit(before, Advance(t, c));
    }

    // -------------------------------------------------------------------------
    // The atomic operations, each after some interference
    // -------------------------------------------------------------------------

    method LoadLimit(t: RequestId, events: seq<Event>) returns (limit: int)
      requires Valid() && t in Threads() && (Threads()[t].Arrived? || Threads()[t].Polling?)
      modifies this
      ensures Continues(t) && limit == maxActive && Moved(events == [], 0, 0)
      ensures var pc := old(Threads()[t]);
        Threads()[t] == if pc.Polling? then PollRead(limit) else LimitRead(pc.tier, limit)
    {
      Interfere(t, events);
      limit := maxActive;
      var pc := Threads()[t];
      Now(t, if pc.Polling? then PollRead(limit) else LimitRead(pc.tier, limit), World(), Go);
    }

    method LoadActive(t: RequestId, events: seq<Event>) returns (current: int)
      requires Valid() && t in Threads() && (Threads()[t].LimitRead? || Threads()[t].PollRead?)
      modifies this
      ensures Continues(t) && current == active && Moved(events == [], 0, 0)
      ensures var pc := old(Threads()[t]);
        Threads()[t] == if pc.LimitRead? then Decide(pc.tier, pc.limit, current)
                        else if current < pc.limit then PollAdd(pc.limit)
                        else Polling
    {
      Interfere(t, events);
      current := active;
      var pc := Threads()[t];
      Now(t, if pc.LimitRead? then Decide(pc.tier, pc.limit, current)
             else if current < pc.limit then PollAdd(pc.limit)
             else Polling, World(), Go);
    }

    method AddActive(t: RequestId, events: seq<Event>) returns (now: int)
      requires Valid() && t in Threads() && Plays(Threads()[t], Adding)
      modifies this
      ensures Continues(t) && now == active && Moved(events == [], 1, 0)
      ensures var pc := old(Threads()[t]);
        Threads()[t] == match pc
                        case BurstAdd => Serving
                        case FastAdd(limit) => if now <= limit then Serving else FastUndo
                        case PollAdd(limit) => if now <= limit then QueueLeave(Admitted) else PollUndo
                        case _ => pc
    {
      Interfere(t, events);
      ghost var before := World();
      active := active + 1;
      now := active;
      var pc := Threads()[t];
      Now(t, match pc
             case BurstAdd => Serving
             case FastAdd(limit) => if now <= limit then Serving else FastUndo
             case PollAdd(limit) => if now <= limit then QueueLeave(Admitted) else PollUndo
             case _ => pc, before, Go);
    }

    method UndoActive(t: RequestId, events: seq<Event>)
      requires Valid() && t in Threads() && Plays(Threads()[t], Undoing)
      modifies this
      ensures Continues(t) && Moved(events == [], -1, 0)
      ensures Threads()[t] == if old(Threads()[t]).FastUndo? then QueueCheck else Polling
    {
      Interfere(t, events);
      ghost var before := World();
      active := active - 1;
      Now(t, if Threads()[t].FastUndo? then QueueCheck else Polling, before, Go);
    }

    method LoadQueueSize(t: RequestId, events: seq<Event>) returns (len: int)
      requires Valid() && t in Threads() && Threads()[t].QueueCheck?
      modifies this
      ensures Continues(t) && len == queueSize && Moved(events == [], 0, 0)
      ensures Threads()[t] == if len >= maxQueueSize then Refused(QueueFull) else QueueEnter
    {
      Interfere(t, events);
      len := queueSize;
      Now(t, if len >= maxQueueSize then Refused(QueueFull) else QueueEnter, World(), Go);
    }

    method AddQueueSize(t: RequestId, events: seq<Event>)
      requires Valid() && t in Threads() && (Threads()[t].QueueEnter? || Threads()[t].QueueLeave?)
      modifies this
      ensures Continues(t) && Moved(events == [], 0, if old(Threads()[t]).QueueEnter? then 1 else -1)
      ensures var pc := old(Threads()[t]);
        Threads()[t] == if pc.QueueEnter? then EnterLoad else LeaveLoad(pc.outcome)
    {
      Interfere(t, events);
      ghost var before := World();
      var pc := Threads()[t];
      queueSize := if pc.QueueEnter? then queueSize + 1 else queueSize - 1;
      Now(t, if pc.QueueEnter? then EnterLoad else LeaveLoad(pc.outcome), before, Go);
    }

    method ReadQueueSize(t: RequestId, events: seq<Event>) returns (size: int)
      requires Valid() && t in Threads() && (Threads()[t].EnterLoad? || Threads()[t].LeaveLoad?)
      modifies this
      ensures Continues(t) && size == queueSize && Moved(events == [], 0, 0)
      ensures var pc := old(Threads()[t]);
        Threads()[t] == if pc.EnterLoad? then EnterStore(size) else LeaveStore(pc.outcome, size)
    {
      Interfere(t, events);
      var pc := Threads()[t];
      size := queueSize;
      Now(t, if pc.EnterLoad? then EnterStore(size) else LeaveStore(pc.outcome, size), World(), Go);
    }

    /** Hands the size read earlier to the collector. */
    method SetQueueSize(t: RequestId, size: int, events: seq<Event>)
      requires Valid() && t in Threads()
      requires (Threads()[t].EnterStore? || Threads()[t].LeaveStore?) && Threads()[t].size == size
      modifies this
      ensures Continues(t) && gauge == size && Moved(events == [], 0, 0)
      ensures var pc := old(Threads()[t]);
        Threads()[t] == if pc.EnterStore? then Polling else AfterAdmit(pc.outcome)
    {
      Interfere(t, events);
      var pc := Threads()[t];
      ghost var before := World();
      gauge := size;
      Now(t, if pc.EnterStore? then Polling else AfterAdmit(pc.outcome), before, Go);
    }

    method Leave(t: RequestId, outcome: Outcome, events: seq<Event>)
      requires Valid() && t in Threads() && Threads()[t].Polling? && (outcome.TimedOut? || outcome.Cancelled?)
      modifies this
      ensures Continues(t) && Threads()[t] == QueueLeave(outcome) && Moved(events == [], 0, 0)
    {
      Interfere(t, events);
      Now(t, QueueLeave(outcome), World(), if outcome.TimedOut? then TimeOut else Cancel);
    }

    /** The release function. */
    method Release(t: RequestId, events: seq<Event>)
      requires Valid() && t in Threads() && Threads()[t].Releasing?
      modifies this
      ensures Continues(t) && Threads()[t] == Finished && Moved(events == [], -1, 0)
    {
      Interfere(t, events);
      ghost var before := World();
      active := active - 1;
      Now(t, Finished, before, Go);
    }

    // -------------------------------------------------------------------------
    // Admit
    // -------------------------------------------------------------------------

    /** One tick of the polling loop: a slot if there is room, and the add does not come out too high. */
    method Tick(t: RequestId, schedule: Schedule, at: nat) returns (admitted: bool)
      requires Valid() && t in Threads() && Threads()[t].Polling?
      modifies this
      ensures Continues(t) && Threads()[t] == if admitted then QueueLeave(Admitted) else Polling
      ensures Quiet(schedule) ==> (admitted <==> old(active) < old(maxActive))
      ensures Moved(Quiet(schedule), if admitted then 1 else 0, 0)
    {
      var maxActive := LoadLimit(t, schedule(at));
      var current := LoadActive(t, schedule(at + 1));
      if current < maxActive {
        var now := AddActive(t, schedule(at + 2));
        if now <= maxActive {
          return true;
        }
        UndoActive(t, schedule(at + 3));
      }
      return false;
    }

    /** The polling loop. It ends: the timer fires once the signals are used up. */
    method Poll(t: RequestId, schedule: Schedule, at: nat, signals: seq<Signal>) returns (r: Outcome, k: nat)
      requires Valid() && t in Threads() && Threads()[t].Polling?
      modifies this
      ensures Continues(t) && Threads()[t] == QueueLeave(r) && exists i: nat :: Decides(signals, i, r)
      ensures Quiet(schedule) ==>
        (r.Admitted? <==> signals != [] && signals[0].Ticked? && old(active) < old(maxActive))
      ensures Moved(Quiet(schedule), if r.Admitted? then 1 else 0, 0)
    {
      k := at;
      for i := 0 to |signals|
        invariant Continues(t) && Threads()[t].Polling? && Moved(Quiet(schedule), 0, 0)
        invariant forall j :: 0 <= j < i ==> signals[j].Ticked?
        invariant Quiet(schedule) && i > 0 ==> active >= maxActive
      {
        match signals[i] {
          case ContextDone =>
            Leave(t, Cancelled, schedule(k));
            assert Decides(signals, i, Cancelled);
            return Cancelled, k + 1;
          case TimerFired =>
            Leave(t, TimedOut, schedule(k));
            assert Decides(signals, i, TimedOut);
            return TimedOut, k + 1;
          case Ticked =>
            var admitted := Tick(t, schedule, k);
            k := k + 4;
            if admitted {
              assert Decides(signals, i, Admitted);
              return Admitted, k;
            }
        }
      }
      Leave(t, TimedOut, schedule(k));
      assert Decides(signals, |signals|, TimedOut);
      return TimedOut, k + 1;
    }

    /** Enters the bounded queue, unless it looks full, and waits there. */
    method Queue(t: RequestId, schedule: Schedule, at: nat, signals: seq<Signal>) returns (r: Outcome)
      requires Valid() && t in Threads() && Threads()[t].QueueCheck?
      modifies this
      ensures Continues(t) && Threads()[t] == AfterAdmit(r)
      ensures r.QueueFull? || exists i: nat :: Decides(signals, i, r)
      ensures Quiet(schedule) ==> (r.QueueFull? <==> old(queueSize) >= maxQueueSize)
      ensures Quiet(schedule) ==>
        (r.Admitted? <==>
           old(queueSize) < maxQueueSize && signals != [] && signals[0].Ticked? && old(active) < old(maxActive))
      ensures Moved(Quiet(schedule), if r.Admitted? then 1 else 0, 0)
    {
      var queueLen := LoadQueueSize(t, schedule(at));
      if queueLen >= maxQueueSize {
        return QueueFull;
      }
      Count(t, schedule, at + 1);
      var k;
      r, k := Poll(t, schedule, at + 4, signals);
      Count(t, schedule, k);
    }

    /** Counts the request in or out, and tells the collector what the count then is. */
    method Count(t: RequestId, schedule: Schedule, at: nat)
      requires Valid() && t in Threads() && (Threads()[t].QueueEnter? || Threads()[t].QueueLeave?)
      modifies this
      ensures Continues(t)
      ensures Threads()[t] == if old(Threads()[t]).QueueEnter? then Polling else AfterAdmit(old(Threads()[t]).outcome)
      ensures Moved(Quiet(schedule), 0, if old(Threads()[t]).QueueEnter? then 1 else -1)
      ensures Quiet(schedule) ==> gauge == queueSize
    {
      AddQueueSize(t, schedule(at));
      var size := ReadQueueSize(t, schedule(at + 1));
      SetQueueSize(t, size, schedule(at + 2));
    }

    /** A slot without queuing, whatever the add comes out as, while a burst of the tier has room. */
    method BurstPath(t: RequestId, tier: Tier, maxActive: int, current: int, schedule: Schedule)
      returns (admitted: bool)
      requires Valid() && t in Threads() && Threads()[t] == Decide(tier, maxActive, current)
      modifies this
      ensures Continues(t)
      ensures admitted <==> !tier.Free? && current < maxActive + Burst(tier)
      ensures Moved(Quiet(schedule), if admitted then 1 else 0, 0)
      ensures Threads()[t] == if admitted then Serving else old(Threads())[t]
    {
      if tier.Elite? {
        if current < maxActive + ELITE_BURST_SLOTS {
          var _ := AddActive(t, schedule(2));
          return true;
        }
      }
      if tier.Pro? {
        if current < maxActive + PRO_BURST_SLOTS {
          var _ := AddActive(t, schedule(2));
          return true;
        }
      }
      return false;
    }

    /** A slot without queuing, if the add stays within the limit; otherwise it is undone. */
    method FastPath(t: RequestId, maxActive: int, current: int, schedule: Schedule) returns (admitted: bool)
      requires Valid() && t in Threads()
      requires Threads()[t] == if maxActive > 0 && current < maxActive then FastAdd(maxActive) else QueueCheck
      modifies this
      ensures Continues(t) && Threads()[t] == if admitted then Serving else QueueCheck
      ensures Quiet(schedule) && current == old(active) ==> (admitted <==> maxActive > 0 && current < maxActive)
      ensures Moved(Quiet(schedule), if admitted then 1 else 0, 0)
    {
      if maxActive == 0 || current < maxActive {
        if maxActive > 0 {
          var now := AddActive(t, schedule(2));
          if now <= maxActive {
            return true;
          }
        }
        if maxActive > 0 {
          UndoActive(t, schedule(3));
        }
      }
      return false;
    }

    method ReadBoth(t: RequestId, tier: Tier, schedule: Schedule) returns (maxActive: int, current: int)
      requires Valid() && t in Threads() && Threads()[t] == Arrived(tier)
      modifies this
      ensures Continues(t) && Threads()[t] == Decide(tier, maxActive, current) && current == active
      ensures Quiet(schedule) ==> maxActive == old(this.maxActive) && current == old(active)
      ensures Moved(Quiet(schedule), 0, 0)
    {
      hide Decide;
      maxActive := LoadLimit(t, schedule(0));
      current := LoadActive(t, schedule(1));
    }

    /** Reads the limit and the count, and tries the burst and the fast path. */
    method Unqueued(t: RequestId, tier: Tier, schedule: Schedule) returns (admitted: bool)
      requires Valid() && t in Threads() && Threads()[t] == Arrived(tier)
      modifies this
      ensures Continues(t) && Threads()[t] == if admitted then Serving else QueueCheck
      ensures Quiet(schedule) ==> (admitted <==> RoomFor(tier, old(active), old(maxActive)))
      ensures Moved(Quiet(schedule), if admitted then 1 else 0, 0)
    {
      hide Decide, RoomFor, Burst;
      var maxActive, current := ReadBoth(t, tier, schedule);
      RoomIs(tier, current, maxActive);
      admitted := BurstPath(t, tier, maxActive, current, schedule);
      if !admitted {
        admitted := FastPath(t, maxActive, current, schedule);
      }
    }

    /**
     One request goes through admission while any other requests run. It ends
     with a slot exactly when it is told so, and every operation on the way was
     a step of the protocol.
     */
    method Admit(t: RequestId, tier: Tier, schedule: Schedule, signals: seq<Signal>) returns (r: Outcome)
      requires Valid() && t !in Threads()
      modifies this
      ensures Continues(t) && Threads()[t] == AfterAdmit(r)
      ensures Plays(Threads()[t], Holder) <==> r.Admitted?
      ensures r.Cancelled? ==> ContextDone in signals
      ensures r.Admitted? || r.QueueFull? || exists i: nat :: Decides(signals, i, r)
      ensures Quiet(schedule) ==>
        var room := RoomFor(tier, old(active), old(maxActive));
        && (r.QueueFull? <==> !room && old(queueSize) >= maxQueueSize)
        && (r.Admitted? <==>
              room || (old(queueSize) < maxQueueSize && signals != [] && signals[0].Ticked?
                       && old(active) < old(maxActive)))
      ensures Moved(Quiet(schedule), if r.Admitted? then 1 else 0, 0)
    {
      Arrives(t, tier);
      var admitted := Unqueued(t, tier, schedule);
      if admitted {
        return Admitted;
      }
      r := Queue(t, schedule, 4, signals);
    }

    method Arrives(t: RequestId, tier: Tier)
      requires Valid() && t !in Threads()
      modifies this
      ensures Continues(t) && Threads()[t] == Arrived(tier) && Moved(true, 0, 0)
    {
      ghost var before := World();
      others := Goto(others.(requests := others.requests + 1), t, Arrived(tier));
      Commit(before, Arrive(t, tier));
    }
  }

  lemma StepTouchesOne(maxQueue: nat, s: State, e: Event)
    requires Step(maxQueue, s, e).Some?
    ensures var s' := Step(maxQueue, s, e).value;
      && (e.UpdateLimits? ==> s'.threads == s.threads)
      && (!e.UpdateLimits? ==> e.id in s'.threads && s'.threads == s.threads[e.id := s'.threads[e.id]])
  {
    if e.Advance? {
      StepMoves(maxQueue, s, e.id, e.choice);
    }
  }
}
