/**
 The router: the registry of workers together with the requests that use it.
 The workers' own counters and the sends of the requests agree in every state,
 so the pigeonhole of admission applies to the registry itself.
 */
module Router {
  import opened Limits
  import opened RequestProtocol
  import opened Workers

  /** A step that refers to a worker: its pick, or the start or the end of `Worker.Send`. */
  predicate WorkerStep(s: State, e: Event) {
    && e.Advance? && e.id in s.threads
    && var pc := s.threads[e.id]; (pc.Serving? && e.choice.Route?) || pc.Tracked? || pc.Calling?
  }

  /** The requests refer to the worker as before, `picks` and `sends` more. */
  predicate RefersBy(s: State, after: State, w: WorkerRef, picks: int, sends: int) {
    Load(after, w) == Load(s, w) + sends && Number(after, Chooser(w)) == Number(s, Chooser(w)) + picks
  }

  /** No other step changes who refers to a worker. */
  lemma OtherStepKeepsReferences(maxQueue: nat, s: State, e: Event, w: WorkerRef)
    requires Step(maxQueue, s, e).Some? && !WorkerStep(s, e)
    ensures RefersBy(s, Step(maxQueue, s, e).value, w, 0, 0)
  {
    if e.Advance? {
      StepMoves(maxQueue, s, e.id, e.choice);
      StepLoads(maxQueue, s, e.id, e.choice, w);
      OtherStepKeepsPlace(maxQueue, s, e.id, e.choice, w);
      PlayersUpdate(s.threads, e.id, Step(maxQueue, s, e).value.threads[e.id], Chooser(w));
    } else if e.Arrive? {
      PlayersUpdate(s.threads, e.id, Arrived(e.tier), Chooser(w));
    }
  }

  lemma OtherStepKeepsPlace(maxQueue: nat, s: State, t: RequestId, c: Choice, w: WorkerRef)
    requires t in s.threads && StepThread(maxQueue, s, t, c).Some? && !WorkerStep(s, Advance(t, c))
    ensures var s' := StepThread(maxQueue, s, t, c).value;
      t in s'.threads && !s'.threads[t].Calling?
      && (Plays(s'.threads[t], Chooser(w)) <==> Plays(s.threads[t], Chooser(w)))
  {
  }

  // The steps of one attempt.

  function AsRouted(s: State, t: RequestId, w: WorkerRef): State {
    Goto(s, t, Routed(w))
  }

  function AsTracked(s: State, t: RequestId, w: WorkerRef): State {
    Goto(s.(inflight := s.inflight[t := w]), t, Tracked(w))
  }

  function AsCalling(s: State, t: RequestId, w: WorkerRef): State {
    Goto(s.(load := s.load[w := Load(s, w) + 1]), t, Calling(w))
  }

  function AsReturned(s: State, t: RequestId, w: WorkerRef): State {
    Goto(s.(load := s.load[w := Load(s, w) - 1]), t, Returned(w))
  }

  /** How the operation changes the number of requests that have picked the worker. */
  function Picks(op: Operation, w: WorkerRef): int {
    if op == Pick(w) then 1 else if op == BeginSend(w) then -1 else 0
  }

  /** And the number of those that are calling it. */
  function Sends(op: Operation, w: WorkerRef): int {
    if op == BeginSend(w) then 1 else if op.EndSend? && op.ref == w then -1 else 0
  }

  lemma AttemptSteps(maxQueue: nat, s: State, t: RequestId, w: WorkerRef)
    requires t in s.threads
    ensures s.threads[t] == Serving ==> Step(maxQueue, s, Advance(t, Route(w))) == Some(AsRouted(s, t, w))
    ensures s.threads[t] == Routed(w) ==> Step(maxQueue, s, Advance(t, Go)) == Some(AsTracked(s, t, w))
    ensures s.threads[t] == Tracked(w) ==> Step(maxQueue, s, Advance(t, Go)) == Some(AsCalling(s, t, w))
    ensures s.threads[t] == Calling(w) ==> Step(maxQueue, s, Advance(t, Go)) == Some(AsReturned(s, t, w))
  {
  }

  lemma AttemptReaches(maxQueue: nat, s: State, t: RequestId, w: WorkerRef)
    requires Reachable(maxQueue, s) && t in s.threads
    ensures s.threads[t] == Serving ==> Reachable(maxQueue, AsRouted(s, t, w))
    ensures s.threads[t] == Tracked(w) ==> Reachable(maxQueue, AsCalling(s, t, w))
    ensures s.threads[t] == Calling(w) ==> Reachable(maxQueue, AsReturned(s, t, w))
  {
    AttemptSteps(maxQueue, s, t, w);
    hide Step, Reachable;
    if s.threads[t] == Serving {
      ReachableStep(maxQueue, s, Advance(t, Route(w)));
    } else if s.threads[t] == Tracked(w) || s.threads[t] == Calling(w) {
      ReachableStep(maxQueue, s, Advance(t, Go));
    }
  }

  /** A request that calls a worker is counted there. */
  lemma CallerCounts(maxQueue: nat, s: State, t: RequestId, w: WorkerRef)
    requires Reachable(maxQueue, s) && t in s.threads && s.threads[t] == Calling(w)
    ensures Load(s, w) > 0
  {
    hide Reachable;
    ReachableInv(maxQueue, s);
    assert t in Players(s.threads, Caller(w));
  }

  // What they change of who refers to a worker.

  lemma PickRefers(s: State, t: RequestId, w: WorkerRef)
    requires t in s.threads && s.threads[t] == Serving
    ensures forall r: WorkerRef :: RefersBy(s, AsRouted(s, t, w), r, Picks(Pick(w), r), Sends(Pick(w), r))
  {
    forall r: WorkerRef ensures RefersBy(s, AsRouted(s, t, w), r, Picks(Pick(w), r), Sends(Pick(w), r)) {
      PlayersUpdate(s.threads, t, Routed(w), Chooser(r));
    }
  }

  lemma CallRefers(s: State, t: RequestId, w: WorkerRef)
    requires t in s.threads && s.threads[t] == Tracked(w)
    ensures forall r: WorkerRef :: RefersBy(s, AsCalling(s, t, w), r, Picks(BeginSend(w), r), Sends(BeginSend(w), r))
    ensures Number(s, Chooser(w)) > 0
  {
    assert t in Players(s.threads, Chooser(w));
    forall r: WorkerRef ensures RefersBy(s, AsCalling(s, t, w), r, Picks(BeginSend(w), r), Sends(BeginSend(w), r)) {
      PlayersUpdate(s.threads, t, Calling(w), Chooser(r));
    }
  }

  lemma ReturnRefers(s: State, t: RequestId, w: WorkerRef, ok: bool)
    requires t in s.threads && s.threads[t] == Calling(w)
    ensures forall r: WorkerRef ::
      RefersBy(s, AsReturned(s, t, w), r, Picks(EndSend(w, ok), r), Sends(EndSend(w, ok), r))
  {
    forall r: WorkerRef
      ensures RefersBy(s, AsReturned(s, t, w), r, Picks(EndSend(w, ok), r), Sends(EndSend(w, ok), r))
    {
      PlayersUpdate(s.threads, t, Returned(w), Chooser(r));
    }
  }

  lemma ReachableStep(maxQueue: nat, s: State, e: Event)
    requires Reachable(maxQueue, s) && Step(maxQueue, s, e).Some?
    ensures Reachable(maxQueue, Step(maxQueue, s, e).value)
  {
    hide Step;
    var s0, es :| Initial(s0) && Run(maxQueue, s0, es) == Some(s);
    RunSnoc(maxQueue, s0, es, e);
  }

  class Router {
    const registry: Registry
    const maxQueue: nat
    ghost var world: State                      // the requests, and what they share

    /** Who refers to a worker: its counter is the number of sends under way on it, and its picks are the requests'. */
    ghost predicate Matches(s: State)
      reads registry, registry.all
    {
      && registry.Counts(s)
      && (forall w <- registry.all :: registry.LifeOf(w).uses.picked == Number(s, Chooser(w.ref)))
      && (forall r: WorkerRef :: r >= registry.made ==> Number(s, Chooser(r)) == 0)
    }

    ghost predicate Valid()
      reads this, registry, registry.all
    {
      registry.Valid() && Reachable(maxQueue, world) && Matches(world)
    }

    constructor (maxQueue: nat)
      ensures Valid() && Initial(world) && fresh(registry) && registry.workers == map[] && this.maxQueue == maxQueue
    {
      this.maxQueue := maxQueue;
      registry := new Registry();
      world := State(0, WORKER_MAX_CONCURRENCY, 0, 0, 0, 0, 0, map[], map[], map[]);
      new;
      assert Run(maxQueue, world, []) == Some(world);
    }

    /** An operation of the registry and the steps of the requests that go with it. */
    twostate lemma Follows(new op: Operation, new s: State, new after: State)
      requires old(registry.Valid() && Matches(s)) && registry.Did(op)
      requires forall r: WorkerRef :: RefersBy(s, after, r, Picks(op, r), Sends(op, r))
      requires forall r: WorkerRef :: r >= old(registry.made) ==> Picks(op, r) == Sends(op, r) == 0
      ensures Matches(after)
    {
      forall w <- registry.all
        ensures w.activeRequests == Load(after, w.ref)
        ensures registry.LifeOf(w).uses.picked == Number(after, Chooser(w.ref))
      {
        assert RefersBy(s, after, w.ref, Picks(op, w.ref), Sends(op, w.ref));
        if w in old(registry.all) {
          assert registry.LifeOf(w) == Next(w.ref, old(registry.LifeOf(w)), op);
        }
      }
      forall r: WorkerRef | r >= registry.made ensures Load(after, r) == 0 && Number(after, Chooser(r)) == 0 {
        assert Picks(op, r) == Sends(op, r) == 0 && RefersBy(s, after, r, Picks(op, r), Sends(op, r));
      }
    }

    /** An operation that is no step of a request. */
    twostate lemma KeepsValid(new op: Operation)
      requires old(Valid()) && registry.Did(op) && !op.Pick? && !op.BeginSend? && !op.EndSend? && world == old(world)
      ensures Valid()
    {
      Follows(op, world, world);
    }

    /** A step of a request that refers to no worker, or of the limits loop. */
    ghost method Happens(e: Event)
      requires Valid() && Step(maxQueue, world, e).Some? && !WorkerStep(world, e)
      modifies this`world
      ensures Valid() && Some(world) == Step(maxQueue, old(world), e)
    {
      ghost var s, after := world, Step(maxQueue, world, e).value;
      forall w: WorkerRef ensures RefersBy(s, after, w, 0, 0) {
        OtherStepKeepsReferences(maxQueue, s, e, w);
      }
      ReachableStep(maxQueue, s, e);
      world := after;
      Follows(PickFails, s, after);
    }

    method SpawnAccepted(id: string, agentID: string)
      requires Valid()
      modifies registry
      ensures Valid() && registry.Did(Register) && world == old(world)
    {
      registry.SpawnAccepted(id, agentID);
      KeepsValid(Register);
    }

    method WorkerReady(id: string, agentID: string, dialled: bool)
      requires Valid()
      modifies registry
      ensures Valid() && registry.Did(Register) && world == old(world)
    {
      registry.WorkerReady(id, agentID, dialled);
      KeepsValid(Register);
    }

    method ReAdopt(id: string, agentID: string, dialled: bool) returns (adopted: bool)
      requires Valid()
      modifies registry
      ensures Valid() && registry.Did(Register) && world == old(world)
    {
      adopted := registry.ReAdopt(id, agentID, dialled);
      KeepsValid(Register);
    }

    method RemoveWorker(id: string) returns (found: bool, destroy: Option<string>)
      requires Valid()
      modifies registry`workers, registry.all`closed
      ensures Valid() && registry.Did(Remove(id)) && world == old(world)
    {
      found, destroy := registry.RemoveWorker(id);
      KeepsValid(Remove(id));
    }

    method SetDown(w: Worker, down: DownState)
      requires Valid() && w in registry.all
      modifies w`lifecycle, w`status
      ensures Valid() && registry.Did(TakeDown(w.ref, down)) && world == old(world)
    {
      registry.SetDown(w, down);
      KeepsValid(TakeDown(w.ref, down));
    }

    method CollectForPing(order: seq<string>) returns (toPing: seq<Worker>)
      requires Valid() && registry.Iterates(order)
      modifies registry`uses
      ensures Valid() && registry.Did(Collect(set w | w in toPing :: w.ref)) && world == old(world)
    {
      toPing := registry.CollectForPing(order);
      KeepsValid(Collect(set w | w in toPing :: w.ref));
    }

    method StartPing(w: Worker) returns (pinged: bool)
      requires Valid() && w in registry.all && registry.LifeOf(w).uses.collected > 0
      modifies registry`uses
      ensures Valid() && registry.Did(CheckIdle(w.ref)) && w.connected && world == old(world)
      ensures pinged <==> Number(world, Caller(w.ref)) == 0
    {
      pinged := registry.StartPing(w);
      KeepsValid(CheckIdle(w.ref));
      ReachableInv(maxQueue, world);
    }

    method PingReturned(w: Worker, answered: bool)
      requires Valid() && w in registry.all && registry.LifeOf(w).uses.pinging > 0
      modifies registry`uses, w`lifecycle, w`status
      ensures Valid() && registry.Did(Ping(w.ref, answered)) && world == old(world)
    {
      registry.PingReturned(w, answered);
      KeepsValid(Ping(w.ref, answered));
    }

    method MarkAfterReply(w: Worker)
      requires Valid() && w in registry.all && registry.LifeOf(w).uses.replied > 0
      modifies registry`uses, w`lifecycle, w`status
      ensures Valid() && registry.Did(MarkReplied(w.ref)) && world == old(world)
    {
      registry.MarkAfterReply(w);
      KeepsValid(MarkReplied(w.ref));
    }

    // -------------------------------------------------------------------------
    // One attempt of a request
    // -------------------------------------------------------------------------

    lemma RoomMeansOpen(t: RequestId, order: seq<string>)
      requires Valid() && registry.Iterates(order) && t in world.threads && world.threads[t] == Serving
      ensures Number(world, Holder) <= WORKER_MAX_CONCURRENCY * |registry.RoutableSet()| ==>
        exists id :: id in registry.workers && registry.workers[id].Open()
    {
      if Number(world, Holder) <= WORKER_MAX_CONCURRENCY * |registry.RoutableSet()| {
        ReachableInv(maxQueue, world);
        var id := registry.HolderHasOpen(order, world, t);
      }
    }

    /** Both the registry and the request take the pick. */
    twostate lemma PickFollows(new t: RequestId, new w: Worker)
      requires w in old(registry.all) && old(Valid()) && registry.Did(Pick(w.ref))
      requires t in old(world).threads && old(world).threads[t] == Serving && world == AsRouted(old(world), t, w.ref)
      ensures Valid()
    {
      AttemptReaches(maxQueue, old(world), t, w.ref);
      PickRefers(old(world), t, w.ref);
      hide RefersBy, AsRouted;
      Follows(Pick(w.ref), old(world), world);
    }

    /**
     Routes an admitted request. It finds a least loaded worker that is not full
     unless there is none; and there is one whenever the slots held fit on the
     routable workers.
     */
    method PickWorker(t: RequestId, order: seq<string>) returns (w: Worker?)
      requires Valid() && registry.Iterates(order) && t in world.threads && world.threads[t] == Serving
      modifies this`world, registry`uses
      ensures Valid() && registry.Did(if w == null then PickFails else Pick(w.ref))
      ensures w == null <==> forall id <- registry.workers :: !registry.workers[id].Open()
      ensures w != null ==> w.id in registry.workers && registry.workers[w.id] == w && w.Open()
      ensures w != null ==> w.lifecycle == Healthy && w.activeRequests < 50
      ensures w != null ==> forall id <- registry.workers :: registry.workers[id].lifecycle == Healthy ==>
        w.activeRequests <= registry.workers[id].activeRequests
      ensures world == if w == null then old(world) else AsRouted(old(world), t, w.ref)
      ensures old(Number(world, Holder) <= WORKER_MAX_CONCURRENCY * |registry.RoutableSet()|) ==> w != null
    {
      hide AsRouted, Registry.Valid, Matches;
      RoomMeansOpen(t, order);
      w := registry.PickLeastConnections(order);
      if w == null {
        KeepsValid(PickFails);
      } else {
        world := AsRouted(world, t, w.ref);
        PickFollows(t, w);
      }
    }

    method AddInFlight(t: RequestId, w: Worker)
      requires Valid() && t in world.threads && world.threads[t] == Routed(w.ref)
      modifies this`world
      ensures Valid() && world == AsTracked(old(world), t, w.ref)
    {
      AttemptSteps(maxQueue, world, t, w.ref);
      Happens(Advance(t, Go));
    }

    /** The request enters `Send`, on the worker it picked. */
    method SendStarts(t: RequestId, w: Worker)
      requires Valid() && w in registry.all && t in world.threads && world.threads[t] == Tracked(w.ref)
      modifies this`world, w`activeRequests, registry`uses
      ensures Valid() && registry.Did(BeginSend(w.ref)) && w.connected
      ensures world == AsCalling(old(world), t, w.ref)
    {
      ghost var s := world;
      AttemptReaches(maxQueue, s, t, w.ref);
      CallRefers(s, t, w.ref);
      hide RefersBy, AsCalling;
      registry.CountIn(w);
      world := AsCalling(s, t, w.ref);
      Follows(BeginSend(w.ref), s, world);
    }

    /** The request leaves `Send`. */
    method SendEnds(t: RequestId, w: Worker, ghost ok: bool)
      requires Valid() && w in registry.all && t in world.threads && world.threads[t] == Calling(w.ref)
      modifies this`world, w`activeRequests, registry`uses
      ensures Valid() && registry.Did(EndSend(w.ref, ok))
      ensures world == AsReturned(old(world), t, w.ref)
    {
      ghost var s := world;
      AttemptReaches(maxQueue, s, t, w.ref);
      ReturnRefers(s, t, w.ref, ok);
      CallerCounts(maxQueue, s, t, w.ref);
      hide RefersBy, AsReturned;
      registry.CountOut(w, ok);
      world := AsReturned(s, t, w.ref);
      Follows(EndSend(w.ref, ok), s, world);
    }

    method RemoveInFlight(t: RequestId, w: Worker)
      requires Valid() && t in world.threads && world.threads[t] == Returned(w.ref)
      modifies this`world
      ensures Valid() && world == Goto(old(world).(inflight := old(world).inflight - {t}), t, Serving)
    {
      Happens(Advance(t, Go));
    }
  }
}
