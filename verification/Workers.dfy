/**
 Worker objects, the router's registry of them, and the operations that make,
 move, pick and drop workers. Each registry method is one step. What the code
 does in several, such as a ping, whose worker can change before the answer, is
 several methods here; a scan over the registry is one.
 */
module Workers {
  import opened Limits
  import opened RequestProtocol

  datatype LifecycleState = Starting | Warming | Healthy | Draining | Stopping | Dead

  /** The states that the drain paths set. */
  type DownState = state: LifecycleState | state.Draining? || state.Stopping? || state.Dead? witness Draining

  datatype WorkerStatus = StatusHealthy | StatusDraining

  function ToWorkerStatus(state: LifecycleState): WorkerStatus {
    match state
    case Healthy => StatusHealthy
    case _ => StatusDraining
  }

  /** A state in which the master may send to the worker or ping it. */
  predicate InUse(state: LifecycleState) {
    state.Warming? || state.Healthy?
  }

  // ---------------------------------------------------------------------------
  // What the operations do to one worker
  // ---------------------------------------------------------------------------

  /** Who refers to a worker, besides the sends it counts itself. */
  datatype Uses = Uses(
    picked: nat,                                // requests that picked it and have not called it yet
    replied: nat,                               // successful sends after which it is yet to be marked
    collected: nat,                             // health checks that collected it
    pinging: nat)                               // pings of it under way

  const UNUSED := Uses(0, 0, 0, 0)

  /** The part of a worker that changes, and who refers to it. */
  datatype Life = Life(state: LifecycleState, active: nat, uses: Uses)

  const NEW_WORKER := Life(Healthy, 0, UNUSED)

  datatype Operation =
    | Register                                  // a new worker object, whatever its id
    | Remove(id: string)
    | TakeDown(ref: WorkerRef, down: DownState)
    | Pick(ref: WorkerRef)
    | PickFails
    | BeginSend(ref: WorkerRef)
    | EndSend(ref: WorkerRef, ok: bool)
    | MarkReplied(ref: WorkerRef)               // after a successful send
    | Collect(refs: set<WorkerRef>)             // the health check decides whom to ping
    | CheckIdle(ref: WorkerRef)                 // and pings those it then finds idle
    | Ping(ref: WorkerRef, answered: bool)      // a ping comes back

  /** Whether the operation is about this worker. */
  predicate Concerns(ref: WorkerRef, op: Operation) {
    match op
    case Register | Remove(_) | PickFails => false
    case Collect(refs) => ref in refs
    case _ => op.ref == ref
  }

  function Next(ref: WorkerRef, life: Life, op: Operation): Life {
    var u := life.uses;
    if !Concerns(ref, op) then life
    else
      match op
      case TakeDown(_, down) => life.(state := down)
      case Pick(_) => life.(uses := u.(picked := u.picked + 1))
      case BeginSend(_) => life.(active := life.active + 1, uses := u.(picked := Less(u.picked)))
      case EndSend(_, ok) => life.(active := Less(life.active), uses := u.(replied := u.replied + if ok then 1 else 0))
      case MarkReplied(_) => life.(state := Healthy, uses := u.(replied := Less(u.replied)))
      case Collect(_) => life.(uses := u.(collected := u.collected + 1))
      case CheckIdle(_) =>
        life.(uses := u.(collected := Less(u.collected), pinging := u.pinging + if life.active > 0 then 0 else 1))
      case Ping(_, answered) =>
        life.(state := if answered then Healthy else Draining, uses := u.(pinging := Less(u.pinging)))
      case _ => life
  }

  function Less(n: nat): nat {
    if n == 0 then 0 else n - 1
  }

  /** Whether the operation can happen, as far as this worker is concerned. */
  predicate Enabled(ref: WorkerRef, life: Life, op: Operation) {
    Concerns(ref, op) ==>
      match op
      case Pick(_) => life.state.Healthy?
      case BeginSend(_) => life.uses.picked > 0
      case EndSend(_, _) => life.active > 0
      case MarkReplied(_) => life.uses.replied > 0
      case Collect(_) => InUse(life.state)
      case CheckIdle(_) => life.uses.collected > 0
      case Ping(_, _) => life.uses.pinging > 0
      case _ => true
  }

  function After(ref: WorkerRef, life: Life, ops: seq<Operation>): Life {
    if ops == [] then life else Next(ref, After(ref, life, ops[..|ops| - 1]), ops[|ops| - 1])
  }

  /** A run in which every operation can happen when it does. */
  predicate Possible(ref: WorkerRef, life: Life, ops: seq<Operation>) {
    ops == [] ||
    (Possible(ref, life, ops[..|ops| - 1]) && Enabled(ref, After(ref, life, ops[..|ops| - 1]), ops[|ops| - 1]))
  }

  /** A request or the health check refers to the worker. */
  predicate Held(life: Life) {
    life.active > 0 || life.uses != UNUSED
  }

  // ---------------------------------------------------------------------------
  // Draining is not final
  // ---------------------------------------------------------------------------

  /** The operations that make a worker routable, whatever its state: a successful send or an answered ping. */
  predicate Revives(ref: WorkerRef, op: Operation) {
    op == MarkReplied(ref) || op == Ping(ref, true)
  }

  /** The operations that make it unroutable. */
  predicate Sinks(ref: WorkerRef, op: Operation) {
    (op.TakeDown? && op.ref == ref) || op == Ping(ref, false)
  }

  /** Routable at some point of the run. */
  ghost predicate EverRoutable(ref: WorkerRef, life: Life, ops: seq<Operation>) {
    exists i: nat :: i <= |ops| && After(ref, life, ops[..i]).state.Healthy?
  }

  lemma NextRoutable(ref: WorkerRef, life: Life, op: Operation)
    ensures Next(ref, life, op).state.Healthy? <==>
      Revives(ref, op) || (life.state.Healthy? && !Sinks(ref, op))
  {
  }

  /**
   Exactly when a worker that is not routable is routable after a run: some
   operation revived it and no later one took it down again.
   */
  lemma {:induction false} RoutableAfterExactly(ref: WorkerRef, life: Life, ops: seq<Operation>)
    requires !life.state.Healthy?
    ensures After(ref, life, ops).state.Healthy? <==>
      exists i: nat :: i < |ops| && Revives(ref, ops[i]) && forall j: nat :: i < j < |ops| ==> !Sinks(ref, ops[j])
  {
    if ops == [] {
    } else {
      var rest, n := ops[..|ops| - 1], |ops| - 1;
      hide Revives, Sinks, Next;
      RoutableAfterExactly(ref, life, rest);
      NextRoutable(ref, After(ref, life, rest), ops[n]);
      assert forall i: nat :: i < n ==> ops[i] == rest[i];
      if After(ref, life, ops).state.Healthy? {
        if Revives(ref, ops[n]) {
          assert n < |ops| && Revives(ref, ops[n]);
        } else {
          var i: nat :| i < n && Revives(ref, rest[i]) && forall j: nat :: i < j < n ==> !Sinks(ref, rest[j]);
          assert Revives(ref, ops[i]);
        }
      } else {
        forall i: nat | i < |ops| && Revives(ref, ops[i])
          ensures exists j: nat :: i < j < |ops| && Sinks(ref, ops[j])
        {
          assert i < n && Revives(ref, rest[i]);
          if After(ref, life, rest).state.Healthy? {
            assert Sinks(ref, ops[n]);
          } else {
            var j: nat :| i < j < n && Sinks(ref, rest[j]);
            assert Sinks(ref, ops[j]);
          }
        }
      }
    }
  }

  /** Over any operations such a worker becomes routable exactly if one of them revives it. */
  lemma BecomesRoutableExactly(ref: WorkerRef, life: Life, ops: seq<Operation>)
    requires !life.state.Healthy?
    ensures EverRoutable(ref, life, ops) <==> exists i: nat :: i < |ops| && Revives(ref, ops[i])
  {
    hide Revives, Sinks, Next;
    if i: nat :| i < |ops| && Revives(ref, ops[i]) {
      NextRoutable(ref, After(ref, life, ops[..i]), ops[i]);
      assert ops[..i + 1][..i] == ops[..i];
      assert After(ref, life, ops[..i + 1]).state.Healthy?;
    }
    if i: nat :| i <= |ops| && After(ref, life, ops[..i]).state.Healthy? {
      RoutableAfterExactly(ref, life, ops[..i]);
      var k: nat :| k < i && Revives(ref, ops[..i][k]);
      assert Revives(ref, ops[k]);
    }
  }

  ghost predicate MayReturn(ref: WorkerRef, life: Life) {
    exists ops :: Possible(ref, life, ops) && After(ref, life, ops).state.Healthy?
  }

  /** Nobody refers to a worker that is out of use, and so nobody will. */
  lemma {:induction false} StaysOut(ref: WorkerRef, life: Life, ops: seq<Operation>)
    requires !InUse(life.state) && !Held(life) && Possible(ref, life, ops)
    ensures !InUse(After(ref, life, ops).state) && !Held(After(ref, life, ops))
  {
    if ops == [] {
    } else {
      StaysOut(ref, life, ops[..|ops| - 1]);
    }
  }

  lemma OneStep(ref: WorkerRef, life: Life, op: Operation)
    requires Enabled(ref, life, op)
    ensures Possible(ref, life, [op]) && After(ref, life, [op]) == Next(ref, life, op)
  {
    hide Next, Enabled;
    assert [op][..0] == [];
  }

  lemma OneMore(ref: WorkerRef, life: Life, ops: seq<Operation>, op: Operation)
    requires Possible(ref, life, ops) && Enabled(ref, After(ref, life, ops), op)
    ensures Possible(ref, life, ops + [op]) && After(ref, life, ops + [op]) == Next(ref, After(ref, life, ops), op)
  {
    hide Next, Enabled;
    assert (ops + [op])[..|ops|] == ops;
  }

  /** Whoever refers to a worker can make it routable. */
  lemma HeldReturns(ref: WorkerRef, life: Life) returns (ops: seq<Operation>)
    requires Held(life)
    ensures Possible(ref, life, ops) && After(ref, life, ops).state.Healthy?
  {
    var u := life.uses;
    if u.replied > 0 {
      OneStep(ref, life, MarkReplied(ref));
      ops := [MarkReplied(ref)];
    } else if u.pinging > 0 {
      OneStep(ref, life, Ping(ref, true));
      ops := [Ping(ref, true)];
    } else if u.picked > 0 {
      OneStep(ref, life, BeginSend(ref));
      OneMore(ref, life, [BeginSend(ref)], EndSend(ref, true));
      OneMore(ref, life, [BeginSend(ref)] + [EndSend(ref, true)], MarkReplied(ref));
      ops := [BeginSend(ref)] + [EndSend(ref, true)] + [MarkReplied(ref)];
    } else if life.active > 0 {
      OneStep(ref, life, EndSend(ref, true));
      OneMore(ref, life, [EndSend(ref, true)], MarkReplied(ref));
      ops := [EndSend(ref, true)] + [MarkReplied(ref)];
    } else {
      OneStep(ref, life, CheckIdle(ref));
      OneMore(ref, life, [CheckIdle(ref)], Ping(ref, true));
      ops := [CheckIdle(ref)] + [Ping(ref, true)];
    }
  }

  /**
   Draining is not final. Exactly when a worker that has been taken down may
   become routable again: a request has picked it, is calling it or has yet to
   mark it, or the health check has collected it or is pinging it.
   */
  lemma MayReturnExactly(ref: WorkerRef, life: Life)
    requires !InUse(life.state)
    ensures MayReturn(ref, life) <==> Held(life)
  {
    if Held(life) {
      var ops := HeldReturns(ref, life);
    } else {
      forall ops | Possible(ref, life, ops) ensures !After(ref, life, ops).state.Healthy? {
        StaysOut(ref, life, ops);
      }
    }
  }

  // ---------------------------------------------------------------------------
  // Workers
  // ---------------------------------------------------------------------------

  class Worker {
    const id: string
    const ref: WorkerRef
    const connected: bool                       // the gRPC client and connection are set
    var lifecycle: LifecycleState
    var status: WorkerStatus
    var activeRequests: nat
    var closed: bool                            // its connection, if any, has been closed
    var agentID: string

    ghost predicate Valid()
      reads this
    {
      && status == ToWorkerStatus(lifecycle) && (status.StatusHealthy? <==> lifecycle.Healthy?)
      && (InUse(lifecycle) ==> connected)
    }

    /** Routable, and below the capacity limit. */
    predicate Open()
      reads this
    {
      lifecycle == Healthy && activeRequests < WORKER_MAX_CONCURRENCY
    }

    /** A worker whose connection has been dialled. */
    constructor Connected(id: string, ref: WorkerRef, agentID: string)
      ensures Valid() && lifecycle == Healthy && activeRequests == 0 && connected && !closed
      ensures this.id == id && this.ref == ref && this.agentID == agentID
    {
      this.id, this.ref, this.connected, this.agentID := id, ref, true, agentID;
      lifecycle, status, activeRequests, closed := Healthy, StatusHealthy, 0, false;
    }

    /** A placeholder for a spawned worker: no connection yet. */
    constructor Placeholder(id: string, ref: WorkerRef, agentID: string)
      ensures Valid() && lifecycle == Starting && activeRequests == 0 && !connected && !closed
      ensures this.id == id && this.ref == ref && this.agentID == agentID
    {
      this.id, this.ref, this.connected, this.agentID := id, ref, false, agentID;
      lifecycle, status, activeRequests, closed := Starting, StatusDraining, 0, false;
    }

    method SetLifecycleState(state: LifecycleState)
      requires InUse(state) ==> connected
      modifies this`lifecycle, this`status
      ensures Valid() && lifecycle == state
    {
      lifecycle := state;
      status := ToWorkerStatus(state);
    }

    /** What the health check makes of a ping. */
    method TakeAnswer(answered: bool)
      requires connected
      modifies this`lifecycle, this`status
      ensures Valid() && lifecycle == if answered then Healthy else Draining
    {
      if !answered {
        SetLifecycleState(Draining);
      } else {
        MarkHealthy();
      }
    }

    method MarkHealthy()
      requires connected
      modifies this`lifecycle, this`status
      ensures Valid() && lifecycle == Healthy
    {
      lifecycle, status := Healthy, StatusHealthy;
    }
  }

  // ---------------------------------------------------------------------------
  // The registry
  // ---------------------------------------------------------------------------

  class Registry {
    var workers: map<string, Worker>
    var made: nat                               // worker objects made so far
    var rrCounter: nat                          // round robin's place in the scan
    ghost var all: set<Worker>                  // every worker object ever made
    ghost var uses: map<WorkerRef, Uses>        // who refers to them

    ghost function LifeOf(w: Worker): Life
      reads this`uses, w
    {
      Life(w.lifecycle, w.activeRequests, if w.ref in uses then uses[w.ref] else UNUSED)
    }

    /**
     A worker in use has a connection, and so has every worker that a request
     calls or is about to call, or the health check pings or is about to ping.
     */
    ghost predicate Valid()
      reads this`workers, this`made, this`all, this`uses, all
    {
      && (forall w <- all :: w.Valid() && w.ref < made)
      && (forall v, w :: v in all && w in all && v != w ==> v.ref != w.ref)
      && (forall id <- workers :: workers[id] in all && workers[id].id == id)
      && (forall w <- all :: Held(LifeOf(w)) ==> w.connected)
      && (forall r <- uses :: r < made)
    }

    /** The operation could happen, the method did to every worker what it does, and new workers start unused. */
    twostate predicate Did(op: Operation)
      reads this`workers, this`made, this`all, this`uses, all
    {
      && Valid() && old(all) <= all && fresh(all - old(all)) && old(made) <= made
      && (forall w <- old(all) :: Enabled(w.ref, old(LifeOf(w)), op) && LifeOf(w) == Next(w.ref, old(LifeOf(w)), op))
      && (forall w <- all - old(all) :: !Held(LifeOf(w)) && w.activeRequests == 0 && w.ref >= old(made))
    }

    /** An iteration over the map takes its keys in some order. */
    ghost predicate Iterates(order: seq<string>)
      reads this`workers
    {
      Distinct(order) && forall id :: id in order <==> id in workers
    }

    constructor ()
      ensures Valid() && workers == map[] && all == {} && made == 0
    {
      workers, made, rrCounter, all, uses := map[], 0, 0, {}, map[];
    }

    /** `r.workers[w.id] = w`: an older object of that id stays with whoever holds it. */
    method AddWorkerWithInstance(w: Worker)
      requires Valid() && w.Valid() && w !in all && w.ref == made && w.activeRequests == 0
      modifies this`workers, this`made, this`all
      ensures Valid() && workers == old(workers)[w.id := w] && all == old(all) + {w} && made == old(made) + 1
    {
      workers := workers[w.id := w];
      made := made + 1;
      all := all + {w};
    }

    /** An agent accepted a spawn request and named the worker. */
    method SpawnAccepted(id: string, agentID: string)
      requires Valid()
      modifies this`workers, this`made, this`all
      ensures Did(Register)
      ensures id in workers && workers == old(workers)[id := workers[id]]
      ensures fresh(workers[id]) && workers[id].lifecycle == Starting && workers[id].agentID == agentID
    {
      var w := new Worker.Placeholder(id, made, agentID);
      AddWorkerWithInstance(w);
    }

    /** The agent's callback: the worker's port is open; `dialled` is whether the connection succeeds. */
    method WorkerReady(id: string, agentID: string, dialled: bool)
      requires Valid()
      modifies this`workers, this`made, this`all
      ensures Did(Register)
      ensures if dialled
              then id in workers && workers == old(workers)[id := workers[id]]
                && fresh(workers[id]) && workers[id].lifecycle == Healthy && workers[id].agentID == agentID
              else workers == old(workers)
    {
      if dialled {
        var w := new Worker.Connected(id, made, agentID);
        AddWorkerWithInstance(w);
      }
    }

    /** A surviving worker reported at agent registration is adopted unless it is nameless or known. */
    method ReAdopt(id: string, agentID: string, dialled: bool) returns (adopted: bool)
      requires Valid()
      modifies this`workers, this`made, this`all
      ensures Did(Register)
      ensures adopted <==> id != "" && id !in old(workers) && dialled
      ensures if adopted
              then id in workers && workers == old(workers)[id := workers[id]] && workers[id].lifecycle == Healthy
              else workers == old(workers)
    {
      if id == "" || id in workers {
        return false;
      }
      WorkerReady(id, agentID, dialled);
      adopted := dialled;
    }

    /**
     Takes a worker out of the registry and closes its connection. `destroy` is
     the agent that is asked to destroy the worker's container, if there is one.
     */
    method RemoveWorker(id: string) returns (found: bool, destroy: Option<string>)
      requires Valid()
      modifies this`workers, all`closed
      ensures Did(Remove(id)) && all == old(all)
      ensures workers == old(workers) - {id} && (found <==> id in old(workers))
      ensures forall w <- all :: w.closed <==> old(w.closed) || (id in old(workers) && w == old(workers[id]))
      ensures destroy == if id in old(workers) && old(workers[id].agentID) != "" then Some(old(workers[id].agentID))
                         else None
    {
      found, destroy := id in workers, None;
      if found {
        var w := workers[id];
        workers := workers - {id};
        w.closed := true;
        if w.agentID != "" {
          destroy := Some(w.agentID);
        }
      } else {
        assert workers - {id} == workers;
      }
    }

    /** Draining, stopping and dying: the states the drain paths set on a worker they hold. */
    method SetDown(w: Worker, down: DownState)
      requires Valid() && w in all
      modifies w`lifecycle, w`status
      ensures Did(TakeDown(w.ref, down)) && w.lifecycle == down
    {
      w.SetLifecycleState(down);
    }

    // -------------------------------------------------------------------------
    // The strategies, over the map in whatever order the iteration takes
    // -------------------------------------------------------------------------

    /** The scan of least connections: the routable worker with the fewest requests. */
    method LeastLoaded(order: seq<string>) returns (best: Worker?)
      requires Valid() && Iterates(order)
      ensures best == null <==> forall id <- workers :: workers[id].lifecycle != Healthy
      ensures best != null ==> best.id in workers && workers[best.id] == best && best.lifecycle == Healthy
      ensures best != null ==> forall id <- workers :: workers[id].lifecycle == Healthy ==>
        best.activeRequests <= workers[id].activeRequests
    {
      best := null;
      var minActive := -1;
      for i := 0 to |order|
        invariant best == null ==> forall k :: 0 <= k < i ==> workers[order[k]].lifecycle != Healthy
        invariant best != null ==>
          && best.id in workers && workers[best.id] == best && best.lifecycle == Healthy
          && minActive == best.activeRequests
          && forall k :: 0 <= k < i && workers[order[k]].lifecycle == Healthy ==>
               minActive <= workers[order[k]].activeRequests
      {
        var worker := workers[order[i]];
        if worker.lifecycle == Healthy {
          var active := worker.activeRequests;
          if best == null || active < minActive {
            best, minActive := worker, active;
          }
        }
      }
      forall id <- workers | workers[id].lifecycle == Healthy
        ensures best != null && minActive <= workers[id].activeRequests
      {
        assert id in order;
        var k :| 0 <= k < |order| && order[k] == id;
        assert workers[order[k]].lifecycle == Healthy;
      }
      assert best != null ==> workers[best.id].lifecycle == Healthy;
    }

    /** One more request has picked the worker. */
    ghost method Refer(w: Worker)
      requires Valid() && w in all && w.lifecycle == Healthy
      modifies this`uses
      ensures Did(Pick(w.ref)) && LifeOf(w).uses.picked == old(LifeOf(w).uses.picked) + 1
    {
      var u := LifeOf(w).uses;
      uses := uses[w.ref := u.(picked := u.picked + 1)];
    }

    /** Least connections: a least loaded routable worker, or none exactly when every routable worker is full. */
    method PickLeastConnections(order: seq<string>) returns (best: Worker?)
      requires Valid() && Iterates(order)
      modifies this`uses
      ensures Did(if best == null then PickFails else Pick(best.ref))
      ensures best == null <==> forall id <- workers :: !workers[id].Open()
      ensures best == null <==>
        forall id <- workers :: workers[id].lifecycle != Healthy || workers[id].activeRequests >= 50
      ensures best != null ==> best.lifecycle == Healthy && best.activeRequests < 50
      ensures best != null ==> best in all && best.id in workers && workers[best.id] == best && best.Open()
      ensures best != null ==> forall id <- workers :: workers[id].lifecycle == Healthy ==>
        best.activeRequests <= workers[id].activeRequests
    {
      best := LeastLoaded(order);
      if best == null || best.activeRequests >= WORKER_MAX_CONCURRENCY {
        assert forall id <- workers :: !workers[id].Open();
        return null;
      }
      Refer(best);
      assert workers[best.id].Open();
    }

    /** The routable workers that are not full. */
    method OpenWorkers(order: seq<string>) returns (open: seq<Worker>)
      requires Valid() && Iterates(order)
      ensures forall w <- open :: w.id in workers && workers[w.id] == w && w.Open()
      ensures forall id <- workers :: workers[id].Open() ==> workers[id] in open
    {
      open := [];
      for i := 0 to |order|
        invariant forall w <- open :: w.id in workers && workers[w.id] == w && w.Open()
        invariant forall k :: 0 <= k < i && workers[order[k]].Open() ==> workers[order[k]] in open
      {
        var w := workers[order[i]];
        if w.Open() {
          open := open + [w];
        }
      }
      forall id <- workers | workers[id].Open() ensures workers[id] in open {
        assert id in order;
        var k :| 0 <= k < |order| && order[k] == id;
        assert workers[order[k]].Open();
      }
    }

    /** A random worker that is not full; fails exactly when least connections does. `roll` is the draw. */
    method PickRandom(order: seq<string>, roll: nat) returns (best: Worker?)
      requires Valid() && Iterates(order)
      modifies this`uses
      ensures Did(if best == null then PickFails else Pick(best.ref))
      ensures best == null <==> forall id <- workers :: !workers[id].Open()
      ensures best == null <==>
        forall id <- workers :: workers[id].lifecycle != Healthy || workers[id].activeRequests >= 50
      ensures best != null ==> best.lifecycle == Healthy && best.activeRequests < 50
      ensures best != null ==> best.id in workers && workers[best.id] == best && best.Open()
    {
      var open := OpenWorkers(order);
      if open == [] {
        assert forall id <- workers :: !workers[id].Open();
        return null;
      }
      best := open[roll % |open|];
      assert best in open;
      assert workers[best.id].Open() && best in all;
      Refer(best);
      assert workers[best.id].Open();
    }

    /** The routable workers' ids, in the order of a scan. */
    ghost function RoutableIds(order: seq<string>): (ids: seq<string>)
      requires Valid() && forall id <- order :: id in workers
      reads this`workers, this`made, this`all, this`uses, all
      ensures forall id <- ids :: id in order && workers[id].lifecycle == Healthy
    {
      if order == [] then []
      else
        var rest, last := RoutableIds(order[..|order| - 1]), order[|order| - 1];
        if workers[last].lifecycle == Healthy then rest + [last] else rest
    }

    lemma {:induction false} RoutablePrefix(order: seq<string>, i: nat)
      requires Valid() && i <= |order| && forall id <- order :: id in workers
      ensures RoutableIds(order[..i]) <= RoutableIds(order)
    {
      if i == |order| {
        assert order[..i] == order;
      } else {
        RoutablePrefix(order[..|order| - 1], i);
        assert order[..|order| - 1][..i] == order[..i];
      }
    }

    /** The `n`th routable worker of a scan. */
    method NthRoutable(order: seq<string>, n: nat) returns (selected: Worker?)
      requires Valid() && forall id <- order :: id in workers
      ensures selected == null <==> n >= |RoutableIds(order)|
      ensures selected != null ==> selected == workers[RoutableIds(order)[n]]
    {
      var count := 0;
      for i := 0 to |order|
        invariant count == |RoutableIds(order[..i])| && count <= n
      {
        assert order[..i + 1][..i] == order[..i];
        if workers[order[i]].lifecycle == Healthy {
          if count == n {
            RoutablePrefix(order, i + 1);
            assert RoutableIds(order[..i + 1])[n] == order[i];
            return workers[order[i]];
          }
          count := count + 1;
        }
      }
      assert order[..|order|] == order;
      return null;
    }

    /** The place whose turn it is: the counter, or the first once the counter is past the end. */
    ghost function Place(order: seq<string>): nat
      requires Valid() && forall id <- order :: id in workers
      reads this, all
    {
      if rrCounter < |RoutableIds(order)| then rrCounter else 0
    }

    /** The routable workers among which the place counts: those of a first scan, or past its end of another. */
    ghost function Turns(order: seq<string>, again: seq<string>): (ids: seq<string>)
      requires Valid() && (forall id <- order :: id in workers) && forall id <- again :: id in workers
      reads this, all
      ensures forall id <- ids :: id in workers && workers[id].lifecycle == Healthy
    {
      if rrCounter < |RoutableIds(order)| then RoutableIds(order) else RoutableIds(again)
    }

    /** The worker whose turn it is, if any. */
    ghost function Turn(order: seq<string>, again: seq<string>): Worker?
      requires Valid() && (forall id <- order :: id in workers) && forall id <- again :: id in workers
      reads this, all
    {
      var at, ids := Place(order), Turns(order, again);
      if at < |ids| then workers[ids[at]] else null
    }

    /** Finds it, and its place. */
    method InTurn(order: seq<string>, again: seq<string>) returns (selected: Worker?, at: nat)
      requires Valid() && Iterates(order) && Iterates(again)
      ensures at == Place(order) && selected == Turn(order, again)
      ensures selected != null ==> selected in all && selected.lifecycle == Healthy
    {
      at := rrCounter;
      selected := NthRoutable(order, at);
      if selected == null {
        at := 0;
        selected := NthRoutable(again, at);
      }
    }

    /**
     Round robin: the worker at the counter, or the first of another scan when
     the counter is past the end. It takes that one or fails: while it is full,
     the counter stays and no other worker is tried.
     */
    method PickRoundRobin(order: seq<string>, again: seq<string>) returns (best: Worker?)
      requires Valid() && Iterates(order) && Iterates(again)
      modifies this`uses, this`rrCounter
      ensures Did(if best == null then PickFails else Pick(best.ref))
      ensures var at, turn := old(Place(order)), old(Turn(order, again));
        if turn == null || turn.activeRequests >= 50 then best == null && rrCounter == at
        else best == turn && rrCounter == at + 1
    {
      hide Place, Turn, Iterates;
      var selected, at := InTurn(order, again);
      if selected == null || selected.activeRequests >= WORKER_MAX_CONCURRENCY {
        Stay(at);
        return null;
      }
      best := selected;
      Take(best, at);
    }

    method Stay(at: nat)
      requires Valid()
      modifies this`rrCounter
      ensures Did(PickFails) && rrCounter == at
    {
      rrCounter := at;
    }

    method Take(w: Worker, at: nat)
      requires Valid() && w in all && w.lifecycle == Healthy
      modifies this`uses, this`rrCounter
      ensures Did(Pick(w.ref)) && rrCounter == at + 1
    {
      rrCounter := at + 1;
      Refer(w);
    }

    // -------------------------------------------------------------------------
    // Sends and pings
    // -------------------------------------------------------------------------

    /** A request that picked the worker calls it: the client is there. */
    method CountIn(w: Worker)
      requires Valid() && w in all && LifeOf(w).uses.picked > 0
      modifies w`activeRequests, this`uses
      ensures Did(BeginSend(w.ref)) && w.connected && w.activeRequests == old(w.activeRequests) + 1
      ensures LifeOf(w).uses.picked == old(LifeOf(w).uses.picked) - 1
    {
      ghost var u := LifeOf(w).uses;
      w.activeRequests := w.activeRequests + 1;
      uses := uses[w.ref := u.(picked := u.picked - 1)];
    }

    /** The call returned. */
    method CountOut(w: Worker, ghost ok: bool)
      requires Valid() && w in all && w.activeRequests > 0
      modifies w`activeRequests, this`uses
      ensures Did(EndSend(w.ref, ok)) && w.activeRequests == old(w.activeRequests) - 1
      ensures LifeOf(w).uses.replied == old(LifeOf(w).uses.replied) + if ok then 1 else 0
    {
      ghost var u := LifeOf(w).uses;
      w.activeRequests := w.activeRequests - 1;
      uses := uses[w.ref := u.(replied := u.replied + if ok then 1 else 0)];
    }

    /** Later, after a success, the request marks the worker healthy, whatever its state has become. */
    method MarkAfterReply(w: Worker)
      requires Valid() && w in all && LifeOf(w).uses.replied > 0
      modifies w`lifecycle, w`status, this`uses
      ensures Did(MarkReplied(w.ref)) && w.lifecycle == Healthy
      ensures LifeOf(w).uses.replied == old(LifeOf(w).uses.replied) - 1
    {
      ghost var u := LifeOf(w).uses;
      w.MarkHealthy();
      uses := uses[w.ref := u.(replied := u.replied - 1)];
    }

    /** The health check collects the workers in use; it pings them later, one by one. */
    method CollectForPing(order: seq<string>) returns (toPing: seq<Worker>)
      requires Valid() && Iterates(order)
      modifies this`uses
      ensures Did(Collect(set w | w in toPing :: w.ref))
      ensures forall id <- workers ::
        workers[id] in toPing <==> workers[id].lifecycle == Healthy || workers[id].lifecycle == Warming
      ensures forall w <- toPing :: w.id in workers && workers[w.id] == w
    {
      toPing := InUseWorkers(order);
      ghost var refs := set w | w in toPing :: w.ref;
      forall w <- all | w.ref in refs ensures w in toPing && InUse(w.lifecycle) {
        var v :| v in toPing && v.ref == w.ref;
        assert workers[v.id] in all && InUse(workers[v.id].lifecycle);
      }
      Gather(refs);
    }

    method InUseWorkers(order: seq<string>) returns (toPing: seq<Worker>)
      requires Valid() && Iterates(order)
      ensures forall id <- workers :: workers[id] in toPing <==> InUse(workers[id].lifecycle)
      ensures forall w <- toPing :: w.id in workers && workers[w.id] == w && InUse(w.lifecycle)
    {
      toPing := [];
      for i := 0 to |order|
        invariant forall w <- toPing :: w.id in workers && workers[w.id] == w && InUse(w.lifecycle)
        invariant forall k :: 0 <= k < i && InUse(workers[order[k]].lifecycle) ==> workers[order[k]] in toPing
      {
        var w := workers[order[i]];
        if InUse(w.lifecycle) {
          toPing := toPing + [w];
        }
      }
      forall id <- workers | InUse(workers[id].lifecycle) ensures workers[id] in toPing {
        assert id in order;
        var k :| 0 <= k < |order| && order[k] == id;
        assert InUse(workers[order[k]].lifecycle);
      }
    }

    /** The workers are collected. */
    ghost method Gather(refs: set<WorkerRef>)
      requires Valid() && (forall r <- refs :: r < made) && forall w <- all :: w.ref in refs ==> InUse(w.lifecycle)
      modifies this`uses
      ensures Did(Collect(refs))
    {
      uses := map r | r in uses.Keys + refs ::
        var u := if r in uses then uses[r] else UNUSED;
        if r in refs then u.(collected := u.collected + 1) else u;
    }

    /** The health check comes to a worker it collected, and pings it unless it is busy: the client is there. */
    method StartPing(w: Worker) returns (pinged: bool)
      requires Valid() && w in all && LifeOf(w).uses.collected > 0
      modifies this`uses
      ensures Did(CheckIdle(w.ref)) && w.connected && (pinged <==> w.activeRequests <= 0)
      ensures LifeOf(w).uses.pinging == old(LifeOf(w).uses.pinging) + if pinged then 1 else 0
      ensures LifeOf(w).uses.collected == old(LifeOf(w).uses.collected) - 1
    {
      ghost var u := LifeOf(w).uses;
      pinged := w.activeRequests <= 0;
      uses := uses[w.ref := u.(collected := u.collected - 1, pinging := u.pinging + if pinged then 1 else 0)];
    }

    /** The ping comes back; the state is set whatever has happened to the worker since. */
    method PingReturned(w: Worker, answered: bool)
      requires Valid() && w in all && LifeOf(w).uses.pinging > 0
      modifies w`lifecycle, w`status, this`uses
      ensures Did(Ping(w.ref, answered)) && w.lifecycle == if answered then Healthy else Draining
      ensures LifeOf(w).uses.pinging == old(LifeOf(w).uses.pinging) - 1
    {
      ghost var u := LifeOf(w).uses;
      w.TakeAnswer(answered);
      uses := uses[w.ref := u.(pinging := u.pinging - 1)];
    }

    // -------------------------------------------------------------------------
    // Counting
    // -------------------------------------------------------------------------

    ghost function RoutableSet(): set<string>
      reads this, set id | id in workers :: workers[id]
    {
      set id | id in workers && workers[id].lifecycle == Healthy
    }

    /** The routable workers among the first `i` of a scan, by their places. */
    ghost function RoutableBefore(order: seq<string>, i: nat): set<nat>
      reads this, set id | id in workers :: workers[id]
    {
      set k: nat | k < i && k < |order| && order[k] in workers && workers[order[k]].lifecycle == Healthy
    }

    /** The worker is the `n`th routable one of the scan. */
    ghost predicate IsNth(order: seq<string>, n: nat, w: Worker)
      reads this, set id | id in workers :: workers[id]
    {
      exists i: nat :: i in RoutableBefore(order, |order|) && workers[order[i]] == w && |RoutableBefore(order, i)| == n
    }

    lemma {:induction false} BeforeIs(order: seq<string>, i: nat)
      requires Valid() && i <= |order| && forall id <- order :: id in workers
      ensures |RoutableBefore(order, i)| == |RoutableIds(order[..i])|
    {
      if i == 0 {
        assert RoutableBefore(order, 0) == {};
      } else {
        BeforeIs(order, i - 1);
        assert order[..i][..i - 1] == order[..i - 1] && order[i - 1] in order;
        BeforeNext(order, i - 1);
        hide RoutableBefore;
      }
    }

    lemma BeforeNext(order: seq<string>, i: nat)
      requires i < |order| && order[i] in workers
      ensures |RoutableBefore(order, i + 1)|
           == |RoutableBefore(order, i)| + One(workers[order[i]].lifecycle == Healthy)
    {
      if workers[order[i]].lifecycle == Healthy {
        assert RoutableBefore(order, i + 1) == RoutableBefore(order, i) + {i};
      } else {
        assert RoutableBefore(order, i + 1) == RoutableBefore(order, i);
      }
    }

    lemma {:induction false} NthAt(order: seq<string>, n: nat) returns (i: nat)
      requires Valid() && (forall id <- order :: id in workers) && n < |RoutableIds(order)|
      ensures i < |order| && order[i] == RoutableIds(order)[n] && |RoutableIds(order[..i])| == n
      ensures order[i] in workers && workers[order[i]].lifecycle == Healthy
    {
      var rest := order[..|order| - 1];
      if n < |RoutableIds(rest)| {
        i := NthAt(rest, n);
        assert rest[..i] == order[..i];
      } else {
        i := |order| - 1;
        assert order[i] in order;
      }
    }

    /**
     Whose turn it is: of the first scan the worker with as many routable ones
     before it as the counter says; when there are not that many, the first
     routable one of the other scan.
     */
    lemma TurnIs(order: seq<string>, again: seq<string>)
      requires Valid() && Iterates(order) && Iterates(again)
      ensures Place(order) == if rrCounter < |RoutableSet()| then rrCounter else 0
      ensures Turn(order, again) == null <==> RoutableSet() == {}
      ensures Turn(order, again) != null ==>
        IsNth(if rrCounter < |RoutableSet()| then order else again, Place(order), Turn(order, again))
    {
      RoutableCount(order);
      RoutableCount(again);
      var scan := if rrCounter < |RoutableIds(order)| then order else again;
      var n := Place(order);
      if n < |RoutableIds(scan)| {
        var i := NthAt(scan, n);
        BeforeIs(scan, i);
        hide RoutableIds;
        assert i in RoutableBefore(scan, |scan|);
        assert IsNth(scan, n, workers[scan[i]]);
      }
    }

    /** A scan meets every routable worker once. */
    lemma RoutableCount(order: seq<string>)
      requires Valid() && Iterates(order)
      ensures Distinct(RoutableIds(order)) && |RoutableIds(order)| == |RoutableSet()|
    {
      RoutableDistinct(order);
      RoutableComplete(order);
      DistinctSize(RoutableIds(order));
      assert RoutableSet() == set id | id in RoutableIds(order);
    }

    lemma {:induction false} RoutableDistinct(order: seq<string>)
      requires Valid() && Distinct(order) && forall id <- order :: id in workers
      ensures Distinct(RoutableIds(order))
    {
      if order == [] {
      } else {
        var rest, last := order[..|order| - 1], order[|order| - 1];
        RoutableDistinct(rest);
        assert last !in rest;
        assert last !in RoutableIds(rest);
      }
    }

    lemma {:induction false} RoutableComplete(order: seq<string>)
      requires Valid() && forall id <- order :: id in workers
      ensures forall id <- order :: workers[id].lifecycle == Healthy ==> id in RoutableIds(order)
    {
      if order == [] {
      } else {
        RoutableComplete(order[..|order| - 1]);
      }
    }

    /** What the limits loop multiplies by 50: the number of routable workers, whatever the order of the scan. */
    method HealthyWorkerCount(order: seq<string>) returns (count: nat)
      requires Valid() && Iterates(order)
      ensures count == |RoutableSet()| == |set id | id in workers && workers[id].lifecycle == Healthy|
    {
      count := 0;
      for i := 0 to |order|
        invariant count == |RoutableIds(order[..i])|
      {
        assert order[..i + 1][..i] == order[..i];
        if workers[order[i]].lifecycle == Healthy {
          count := count + 1;
        }
      }
      assert order[..|order|] == order;
      RoutableCount(order);
    }

    // -------------------------------------------------------------------------
    // The counters and the protocol
    // -------------------------------------------------------------------------

    /** The workers' counters are those of a protocol state. */
    ghost predicate Counts(s: State)
      reads this, all
    {
      && (forall w <- all :: w.activeRequests == Load(s, w.ref))
      && (forall r: WorkerRef :: r >= made ==> Load(s, r) == 0)
    }

    ghost function Refs(ids: seq<string>): (refs: seq<WorkerRef>)
      requires forall id <- ids :: id in workers
      reads this
      ensures |refs| == |ids| && forall i :: 0 <= i < |ids| ==> refs[i] == workers[ids[i]].ref
    {
      var ws := workers;
      seq<WorkerRef>(|ids|, i requires 0 <= i < |ids| && ids[i] in ws => ws[ids[i]].ref)
    }

    lemma DistinctRefs(ids: seq<string>)
      requires Valid() && Distinct(ids) && forall id <- ids :: id in workers
      ensures Distinct(Refs(ids))
    {
      forall i, j | 0 <= i < j < |ids| ensures Refs(ids)[i] != Refs(ids)[j] {
        assert ids[i] in ids && ids[j] in ids;
        assert workers[ids[i]].id == ids[i] && workers[ids[j]].id == ids[j];
        assert workers[ids[i]] in all && workers[ids[j]] in all;
      }
    }

    /**
     When there is room for every slot on the routable workers, a request that
     holds a slot and is not yet calling a worker finds one that is not full.
     */
    lemma HolderHasOpen(order: seq<string>, s: State, t: RequestId) returns (id: string)
      requires Valid() && Iterates(order) && SlotsAccounted(s) && SendsAccounted(s) && Counts(s)
      requires Number(s, Holder) <= WORKER_MAX_CONCURRENCY * |RoutableSet()|
      requires t in s.threads && Plays(s.threads[t], Holder) && !s.threads[t].Calling?
      ensures id in workers && workers[id].Open()
    {
      hide SlotsAccounted, SendsAccounted;
      var ids := RoutableIds(order);
      RoutableCount(order);
      DistinctRefs(ids);
      var r := HolderHasRoom(s, Refs(ids), t);
      var i :| 0 <= i < |ids| && Refs(ids)[i] == r;
      id := ids[i];
      assert id in ids && workers[id] in all;
    }

    // -------------------------------------------------------------------------
    // Runs of a registry with one worker
    // -------------------------------------------------------------------------

    /** The operations have happened to the one worker, since it was made. */
    ghost predicate InRun(w: Worker, ops: seq<Operation>)
      reads this, all
    {
      && Valid() && w in all && w.id == "w" && workers == map["w" := w]
      && Possible(w.ref, NEW_WORKER, ops) && LifeOf(w) == After(w.ref, NEW_WORKER, ops)
    }

    /** One more operation has. */
    twostate predicate Adds(w: Worker, ops: seq<Operation>, op: Operation)
      reads this, all, w
    {
      InRun(w, ops + [op]) && LifeOf(w) == Next(w.ref, old(LifeOf(w)), op)
    }

    twostate lemma Happened(new w: Worker, new ops: seq<Operation>, new op: Operation)
      requires w in old(all) && old(InRun(w, ops)) && Did(op) && workers == old(workers)
      ensures Adds(w, ops, op)
    {
      hide Possible, After, Next, Enabled, Held;
      OneMore(w.ref, NEW_WORKER, ops, op);
    }
  }

  // ---------------------------------------------------------------------------
  // Two runs in which draining is undone
  // ---------------------------------------------------------------------------

  /** One worker, just connected. */
  method Single() returns (registry: Registry, w: Worker)
    ensures fresh(registry) && fresh(registry.all) && w in registry.all
    ensures registry.InRun(w, []) && registry.LifeOf(w) == NEW_WORKER
  {
    registry := new Registry();
    registry.WorkerReady("w", "agent", true);
    w := registry.workers["w"];
  }

  /** A request picks the worker. */
  method PickIt(registry: Registry, w: Worker, ghost ops: seq<Operation>)
    requires registry.InRun(w, ops) && registry.LifeOf(w) == NEW_WORKER
    modifies registry`uses
    ensures registry.Adds(w, ops, Pick(w.ref))
  {
    var best := registry.PickLeastConnections(["w"]);
    assert registry.workers["w"].Open();
    assert best.id == "w";
    registry.Happened(w, ops, Pick(w.ref));
  }

  /** The health check collects it. */
  method CollectIt(registry: Registry, w: Worker, ghost ops: seq<Operation>)
    requires registry.InRun(w, ops) && registry.LifeOf(w).state.Healthy?
    modifies registry`uses
    ensures registry.Adds(w, ops, Collect({w.ref}))
  {
    var toPing := registry.CollectForPing(["w"]);
    assert registry.workers["w"] in toPing;
    OnlyRef(toPing, w);
    registry.Happened(w, ops, Collect({w.ref}));
  }

  lemma OnlyRef(ws: seq<Worker>, w: Worker)
    requires w in ws && forall v <- ws :: v == w
    ensures (set v | v in ws :: v.ref) == {w.ref}
  {
  }

  method CallIt(registry: Registry, w: Worker, ghost ops: seq<Operation>)
    requires registry.InRun(w, ops) && registry.LifeOf(w).uses.picked > 0
    modifies registry`uses, w`activeRequests
    ensures registry.Adds(w, ops, BeginSend(w.ref))
  {
    registry.CountIn(w);
    registry.Happened(w, ops, BeginSend(w.ref));
  }

  method DrainIt(registry: Registry, w: Worker, ghost ops: seq<Operation>)
    requires registry.InRun(w, ops)
    modifies w`lifecycle, w`status
    ensures registry.Adds(w, ops, TakeDown(w.ref, Draining))
  {
    registry.SetDown(w, Draining);
    registry.Happened(w, ops, TakeDown(w.ref, Draining));
  }

  /** A worker set to draining while a request calls it is healthy again when the call succeeds. */
  method SendUndoesDrain() returns (registry: Registry, w: Worker, ghost ops: seq<Operation>)
    ensures fresh(registry) && registry.InRun(w, ops) && registry.LifeOf(w).state.Healthy?
    ensures ops == [Pick(w.ref), BeginSend(w.ref), TakeDown(w.ref, Draining), EndSend(w.ref, true), MarkReplied(w.ref)]
  {
    hide Registry.InRun, Registry.LifeOf, Registry.Valid;
    registry, w, ops := Called();
    DrainIt(registry, w, ops);
    ops := ops + [TakeDown(w.ref, Draining)];
    ReplyToIt(registry, w, ops);
    ops := ops + [EndSend(w.ref, true)];
    MarkIt(registry, w, ops);
    ops := ops + [MarkReplied(w.ref)];
  }

  /** A request picks the worker and calls it. */
  method Called() returns (registry: Registry, w: Worker, ghost ops: seq<Operation>)
    ensures fresh(registry) && fresh(registry.all) && w in registry.all && registry.InRun(w, ops)
    ensures ops == [Pick(w.ref), BeginSend(w.ref)] && registry.LifeOf(w) == Life(Healthy, 1, UNUSED)
  {
    hide Registry.InRun, Registry.LifeOf, Registry.Valid;
    registry, w := Single();
    ops := [];
    PickIt(registry, w, ops);
    ops := ops + [Pick(w.ref)];
    CallIt(registry, w, ops);
    ops := ops + [BeginSend(w.ref)];
  }

  method ReplyToIt(registry: Registry, w: Worker, ghost ops: seq<Operation>)
    requires registry.InRun(w, ops) && registry.LifeOf(w).active > 0
    modifies registry`uses, w`activeRequests
    ensures registry.Adds(w, ops, EndSend(w.ref, true))
  {
    registry.CountOut(w, true);
    registry.Happened(w, ops, EndSend(w.ref, true));
  }

  method MarkIt(registry: Registry, w: Worker, ghost ops: seq<Operation>)
    requires registry.InRun(w, ops) && registry.LifeOf(w).uses.replied > 0
    modifies registry`uses, w`lifecycle, w`status
    ensures registry.Adds(w, ops, MarkReplied(w.ref))
  {
    registry.MarkAfterReply(w);
    registry.Happened(w, ops, MarkReplied(w.ref));
  }

  /** A worker set to draining while it is pinged is healthy again when the ping is answered, even if busy by then. */
  method PingUndoesDrain() returns (registry: Registry, w: Worker, ghost ops: seq<Operation>)
    ensures fresh(registry) && registry.InRun(w, ops) && registry.LifeOf(w) == Life(Healthy, 1, UNUSED)
    ensures ops == [Pick(w.ref), Collect({w.ref}), CheckIdle(w.ref), BeginSend(w.ref), TakeDown(w.ref, Draining),
                    Ping(w.ref, true)]
  {
    hide Registry.InRun, Registry.LifeOf, Registry.Valid;
    registry, w, ops := PingedAndPicked();
    CallIt(registry, w, ops);
    ops := ops + [BeginSend(w.ref)];
    DrainIt(registry, w, ops);
    ops := ops + [TakeDown(w.ref, Draining)];
    AnswerIt(registry, w, ops);
    ops := ops + [Ping(w.ref, true)];
  }

  /** The worker is picked and then pinged, for it is still idle. */
  method PingedAndPicked() returns (registry: Registry, w: Worker, ghost ops: seq<Operation>)
    ensures fresh(registry) && fresh(registry.all) && w in registry.all && registry.InRun(w, ops)
    ensures ops == [Pick(w.ref), Collect({w.ref}), CheckIdle(w.ref)]
    ensures registry.LifeOf(w) == Life(Healthy, 0, Uses(1, 0, 0, 1))
  {
    hide Registry.InRun, Registry.LifeOf, Registry.Valid;
    registry, w := Single();
    ops := [];
    PickIt(registry, w, ops);
    ops := ops + [Pick(w.ref)];
    CollectIt(registry, w, ops);
    ops := ops + [Collect({w.ref})];
    StartIt(registry, w, ops);
    ops := ops + [CheckIdle(w.ref)];
  }

  method StartIt(registry: Registry, w: Worker, ghost ops: seq<Operation>)
    requires registry.InRun(w, ops) && registry.LifeOf(w).uses.collected > 0
    modifies registry`uses
    ensures registry.Adds(w, ops, CheckIdle(w.ref))
  {
    var pinged := registry.StartPing(w);
    registry.Happened(w, ops, CheckIdle(w.ref));
  }

  method AnswerIt(registry: Registry, w: Worker, ghost ops: seq<Operation>)
    requires registry.InRun(w, ops) && registry.LifeOf(w).uses.pinging > 0
    modifies registry`uses, w`lifecycle, w`status
    ensures registry.Adds(w, ops, Ping(w.ref, true))
  {
    registry.PingReturned(w, true);
    registry.Happened(w, ops, Ping(w.ref, true));
  }

  lemma {:induction false} FullLoads(s: State, ws: seq<WorkerRef>)
    requires forall w <- ws :: Load(s, w) >= WORKER_MAX_CONCURRENCY
    ensures TotalLoad(s, ws) >= WORKER_MAX_CONCURRENCY * |ws|
  {
    if ws == [] {
    } else {
      FullLoads(s, ws[..|ws| - 1]);
      assert ws[|ws| - 1] in ws;
    }
  }

  lemma CallersLeaveOut(s: State, ws: seq<WorkerRef>, t: RequestId)
    requires t in s.threads && Plays(s.threads[t], Holder) && !s.threads[t].Calling?
    ensures |CallersOf(s, ws)| < Number(s, Holder)
  {
    SubsetSize(CallersOf(s, ws) + {t}, Players(s.threads, Holder));
  }

  /** Pigeonhole: the sends under way cannot fill all the workers while a slot holder is not sending. */
  lemma HolderHasRoom(s: State, ws: seq<WorkerRef>, t: RequestId) returns (w: WorkerRef)
    requires SlotsAccounted(s) && SendsAccounted(s) && Distinct(ws)
    requires Number(s, Holder) <= WORKER_MAX_CONCURRENCY * |ws|
    requires t in s.threads && Plays(s.threads[t], Holder) && !s.threads[t].Calling?
    ensures w in ws && Load(s, w) < WORKER_MAX_CONCURRENCY
  {
    TotalLoadIsCallers(s, ws);
    CallersLeaveOut(s, ws, t);
    if forall v <- ws :: Load(s, v) >= WORKER_MAX_CONCURRENCY {
      FullLoads(s, ws);
    }
    w :| w in ws && Load(s, w) < WORKER_MAX_CONCURRENCY;
  }
}
