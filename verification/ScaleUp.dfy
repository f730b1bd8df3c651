/**
 Scaling up: which agent gets the next worker, and what a scale-up does whatever
 the agents answer and whatever has failed before.
 */
module ScaleUp {
  import opened Limits
  import opened AgentHealth

  const MAX_INT32 := 0x7fff_ffff
  const SPAWN_MAX_RETRIES: nat := 3

  /** An agent's answer to one create request; only a named worker is registered at once. */
  datatype Reply = Failure | Named | Unnamed

  function CountOf(counts: map<string, nat>, agent: string): nat {
    if agent in counts then counts[agent] else 0
  }

  // ---------------------------------------------------------------------------
  // What the replies decide
  // ---------------------------------------------------------------------------

  /** One spawn from request `q` on: whether one of at most `left` requests succeeds, and the next request. */
  function Attempt(replies: nat -> Reply, q: nat, left: nat): (r: (bool, nat))
    ensures r.1 >= q && (left > 0 ==> r.1 > q)
    decreases left
  {
    if left == 0 then (false, q)
    else if !replies(q).Failure? then (true, q + 1)
    else Attempt(replies, q + 1, left - 1)
  }

  /** The next request after `n` spawns. */
  function Asked(replies: nat -> Reply, q: nat, n: nat): nat {
    if n == 0 then q else Attempt(replies, Asked(replies, q, n - 1), SPAWN_MAX_RETRIES).1
  }

  /** How many of `n` spawns succeed. */
  function Successes(replies: nat -> Reply, q: nat, n: nat): nat {
    if n == 0 then 0
    else
      Successes(replies, q, n - 1)
      + if Attempt(replies, Asked(replies, q, n - 1), SPAWN_MAX_RETRIES).0 then 1 else 0
  }

  /** The spawn that starts with request `q` ends in a worker that is registered at once. */
  predicate EndsNamed(replies: nat -> Reply, q: nat) {
    replies(Attempt(replies, q, SPAWN_MAX_RETRIES).1 - 1).Named?
  }

  lemma SuccessesNext(replies: nat -> Reply, q: nat, n: nat)
    ensures var (ok, next) := Attempt(replies, Asked(replies, q, n), SPAWN_MAX_RETRIES);
      && Asked(replies, q, n + 1) == next
      && Successes(replies, q, n + 1) == Successes(replies, q, n) + if ok then 1 else 0
  {
    hide Attempt;
  }

  lemma {:induction false} SuccessesAdd(replies: nat -> Reply, q: nat, m: nat, n: nat)
    ensures Asked(replies, q, m + n) == Asked(replies, Asked(replies, q, m), n)
    ensures Successes(replies, q, m + n) == Successes(replies, q, m) + Successes(replies, Asked(replies, q, m), n)
  {
    hide Attempt;
    if n == 0 {
    } else {
      SuccessesAdd(replies, q, m, n - 1);
    }
  }

  /** The spawns after the next. */
  lemma AskedTail(replies: nat -> Reply, q: nat, n: nat)
    ensures Asked(replies, Attempt(replies, q, SPAWN_MAX_RETRIES).1, n) == Asked(replies, q, n + 1)
  {
    hide Attempt;
    assert Asked(replies, q, 0) == q;
    SuccessesAdd(replies, q, 1, n);
  }

  // ---------------------------------------------------------------------------
  // What a scale-up is
  // ---------------------------------------------------------------------------

  /** What stays the same during a scale-up: the agents, their answers, the time of each request, the penalty. */
  datatype Setting = Setting(agents: seq<string>, replies: nat -> Reply, clock: nat -> int, base: int)

  /** What it changes: the next request, the registered workers per agent and in all, and what happened to agents. */
  datatype Cluster = Cluster(asked: nat, counts: map<string, nat>, total: nat, history: seq<HealthEvent>)

  /** One spawn on an agent, with what its outcome means for the agent's health. */
  function Spawned(w: Setting, c: Cluster, i: nat): Cluster
    requires i < |w.agents|
  {
    var agent, (ok, next) := w.agents[i], Attempt(w.replies, c.asked, SPAWN_MAX_RETRIES);
    var named := EndsNamed(w.replies, c.asked);
    Cluster(
      next,
      if named then c.counts[agent := CountOf(c.counts, agent) + 1] else c.counts,
      c.total + if named then 1 else 0,
      c.history + [if ok then Recovered(agent) else Failed(agent, w.clock(next))])
  }

  predicate Indexes(w: Setting, places: seq<nat>) {
    forall k :: 0 <= k < |places| ==> places[k] < |w.agents|
  }

  /** Spawns on the agents at the places, in this order. */
  function After(w: Setting, c: Cluster, places: seq<nat>): Cluster
    requires Indexes(w, places)
  {
    if places == [] then c
    else Spawned(w, After(w, c, places[..|places| - 1]), places[|places| - 1])
  }

  /** The agent is penalised now. */
  predicate Out(w: Setting, c: Cluster, agent: string) {
    PenalizedAfter(c.history, agent, w.base, w.clock(c.asked))
  }

  /** No agent can be picked. */
  predicate NoneEligible(w: Setting, c: Cluster) {
    forall j :: 0 <= j < |w.agents| ==> Out(w, c, w.agents[j]) || CountOf(c.counts, w.agents[j]) >= MAX_INT32
  }

  /** The agent is the first, of those not penalised, with the fewest workers. */
  predicate Best(w: Setting, c: Cluster, best: nat) {
    && best < |w.agents| && !Out(w, c, w.agents[best]) && CountOf(c.counts, w.agents[best]) < MAX_INT32
    && (forall j :: 0 <= j < |w.agents| && !Out(w, c, w.agents[j]) ==>
          CountOf(c.counts, w.agents[best]) <= CountOf(c.counts, w.agents[j]))
    && (forall j :: 0 <= j < best && !Out(w, c, w.agents[j]) ==>
          CountOf(c.counts, w.agents[best]) < CountOf(c.counts, w.agents[j]))
  }

  /** Each pick is the best agent at its moment. */
  predicate Chosen(w: Setting, c: Cluster, picks: seq<nat>) {
    && Indexes(w, picks)
    && (picks == []
        || var earlier := picks[..|picks| - 1];
           Chosen(w, c, earlier) && Best(w, After(w, c, earlier), picks[|picks| - 1]))
  }

  /** The places of the agents without a healthy worker. */
  function Uncovered(agents: seq<string>, healthy: map<string, nat>): (places: seq<nat>)
    ensures forall i <- places :: i < |agents| && CountOf(healthy, agents[i]) == 0
  {
    if agents == [] then []
    else
      var rest, n := Uncovered(agents[..|agents| - 1], healthy), |agents| - 1;
      if CountOf(healthy, agents[n]) == 0 then rest + [n] else rest
  }

  lemma {:induction false} UncoveredPrefix(agents: seq<string>, healthy: map<string, nat>, i: nat)
    requires i <= |agents|
    ensures Uncovered(agents[..i], healthy) <= Uncovered(agents, healthy)
  {
    if i == |agents| {
      assert agents[..i] == agents;
    } else {
      UncoveredPrefix(agents[..|agents| - 1], healthy, i);
      assert agents[..|agents| - 1][..i] == agents[..i];
    }
  }

  lemma UncoveredNone(agents: seq<string>, healthy: map<string, nat>)
    ensures Uncovered(agents[..0], healthy) == []
  {
  }

  lemma UncoveredSnoc(agents: seq<string>, healthy: map<string, nat>, i: nat)
    requires i < |agents|
    ensures Uncovered(agents[..i + 1], healthy)
         == Uncovered(agents[..i], healthy) + if CountOf(healthy, agents[i]) == 0 then [i] else []
  {
    assert agents[..i + 1][..i] == agents[..i];
  }

  ghost predicate Increasing(places: seq<nat>) {
    forall j, k :: 0 <= j < k < |places| ==> places[j] < places[k]
  }

  /** Those places, each once and in order. */
  lemma {:induction false} UncoveredAre(agents: seq<string>, healthy: map<string, nat>)
    ensures forall i: nat :: i in Uncovered(agents, healthy) <==> i < |agents| && CountOf(healthy, agents[i]) == 0
    ensures Increasing(Uncovered(agents, healthy))
  {
    if agents == [] {
    } else {
      UncoveredAre(agents[..|agents| - 1], healthy);
      var rest := Uncovered(agents[..|agents| - 1], healthy);
      forall j | 0 <= j < |rest| ensures rest[j] < |agents| - 1 {
        assert rest[j] in rest;
      }
    }
  }

  /** The agents without a healthy worker, in their order, until enough of the spawns have succeeded. */
  predicate Covers(w: Setting, c: Cluster, count: nat, healthy: map<string, nat>, tried: seq<nat>, c': Cluster) {
    && tried <= Uncovered(w.agents, healthy) && Indexes(w, tried) && c' == After(w, c, tried)
    && (forall n: nat :: n < |tried| ==> Successes(w.replies, c.asked, n) < count)
    && (Successes(w.replies, c.asked, |tried|) == count || tried == Uncovered(w.agents, healthy))
  }

  /** The best agent at each moment, as often as asked unless no agent is eligible. */
  predicate Adds(w: Setting, c: Cluster, count: nat, picks: seq<nat>, c': Cluster) {
    && Chosen(w, c, picks) && c' == After(w, c, picks)
    && |picks| <= count && (|picks| == count || NoneEligible(w, c'))
  }

  /** What a scale-up goes through: the agents tried first, what that leads to, the picks after it, and its end. */
  datatype Course = Course(tried: seq<nat>, middle: Cluster, picks: seq<nat>, end: Cluster)

  predicate Outcome(w: Setting, c: Cluster, count: int, healthy: map<string, nat>, o: Course) {
    if w.agents == [] || count <= 0 then o == Course([], c, [], c)
    else
      var covered := Successes(w.replies, c.asked, |o.tried|);
      && covered <= count && Covers(w, c, count, healthy, o.tried, o.middle)
      && Adds(w, o.middle, count - covered, o.picks, o.end)
  }

  /** Places beyond the first ones. */
  lemma AfterSnoc(w: Setting, c: Cluster, places: seq<nat>, i: nat)
    requires Indexes(w, places) && i < |w.agents|
    ensures Indexes(w, places + [i]) && After(w, c, places + [i]) == Spawned(w, After(w, c, places), i)
  {
    hide Spawned;
    assert (places + [i])[..|places|] == places;
  }

  lemma NoneYet(w: Setting, c: Cluster)
    ensures After(w, c, []) == c && Chosen(w, c, []) && Successes(w.replies, c.asked, 0) == 0
  {
  }

  lemma ChosenSnoc(w: Setting, c: Cluster, picks: seq<nat>, i: nat)
    requires Chosen(w, c, picks) && Best(w, After(w, c, picks), i)
    ensures Chosen(w, c, picks + [i])
  {
    hide Spawned, Out, After;
    assert (picks + [i])[..|picks|] == picks;
  }

  lemma {:induction false} AfterAsked(w: Setting, c: Cluster, places: seq<nat>)
    requires Indexes(w, places)
    ensures After(w, c, places).asked == Asked(w.replies, c.asked, |places|)
  {
    hide Attempt, EndsNamed;
    if places == [] {
    } else {
      AfterAsked(w, c, places[..|places| - 1]);
    }
  }

  lemma Nothing(w: Setting, c: Cluster, count: int, healthy: map<string, nat>)
    requires w.agents == [] || count <= 0
    ensures Outcome(w, c, count, healthy, Course([], c, [], c)) && Successes(w.replies, c.asked, 0) == 0
  {
  }

  lemma BothParts(w: Setting, c: Cluster, count: nat, healthy: map<string, nat>, o: Course)
    requires w.agents != [] && count > 0 && Covers(w, c, count, healthy, o.tried, o.middle)
    requires var covered := Successes(w.replies, c.asked, |o.tried|);
      covered <= count && Adds(w, o.middle, count - covered, o.picks, o.end)
    ensures Outcome(w, c, count, healthy, o)
    ensures Successes(w.replies, c.asked, |o.tried| + |o.picks|)
         == Successes(w.replies, c.asked, |o.tried|) + Successes(w.replies, o.middle.asked, |o.picks|)
  {
    hide Attempt, Successes, Adds;
    AfterAsked(w, c, o.tried);
    SuccessesAdd(w.replies, c.asked, |o.tried|, |o.picks|);
  }

  class Autoscaler {
    const table: HealthTable
    const replies: nat -> Reply                 // the agents' answers, in order
    var asked: nat
    var counts: map<string, nat>                // registered workers per agent
    var total: nat                              // registered workers

    constructor (table: HealthTable, replies: nat -> Reply, counts: map<string, nat>, total: nat)
      ensures this.table == table && this.replies == replies && asked == 0
      ensures this.counts == counts && this.total == total
    {
      this.table, this.replies, asked, this.counts, this.total := table, replies, 0, counts, total;
    }

    ghost function Under(agents: seq<string>, clock: nat -> int): Setting {
      Setting(agents, replies, clock, table.base)
    }

    ghost function Now(): Cluster
      reads this, table
    {
      Cluster(asked, counts, total, table.history)
    }

    /** The first agent, among those not penalised, with the fewest workers. */
    method PickBestAgent(agents: seq<string>, clock: nat -> int) returns (best: Option<nat>)
      requires table.Valid()
      ensures best.None? <==> NoneEligible(Under(agents, clock), Now())
      ensures best.Some? ==> Best(Under(agents, clock), Now(), best.value)
      ensures best.None? <==>
        forall a <- agents :: table.Penalized(a, clock(asked)) || CountOf(counts, a) >= 0x7fff_ffff
      ensures best.Some? ==>
        && best.value < |agents| && !table.Penalized(agents[best.value], clock(asked))
        && forall j :: 0 <= j < |agents| && !table.Penalized(agents[j], clock(asked)) ==>
             var mine, theirs := CountOf(counts, agents[best.value]), CountOf(counts, agents[j]);
             mine <= theirs && (j < best.value ==> mine < theirs)
    {
      var now := clock(asked);
      best := None;
      var bestScore := MAX_INT32;
      for i := 0 to |agents|
        invariant best.None? ==> bestScore == MAX_INT32
        invariant best.Some? ==>
          && best.value < i && !table.Penalized(agents[best.value], now)
          && bestScore == CountOf(counts, agents[best.value]) < MAX_INT32
        invariant forall j :: 0 <= j < i && !table.Penalized(agents[j], now) ==> bestScore <= CountOf(counts, agents[j])
        invariant best.Some? ==>
          forall j :: 0 <= j < best.value && !table.Penalized(agents[j], now) ==> bestScore < CountOf(counts, agents[j])
      {
        if table.Penalized(agents[i], now) {
          continue;
        }
        var count := CountOf(counts, agents[i]);
        if count < bestScore {
          bestScore := count;
          best := Some(i);
        }
      }
      assert best.Some? ==>
        !table.Penalized(agents[best.value], now) && CountOf(counts, agents[best.value]) < MAX_INT32;
    }

    /** Asks an agent up to three times; registers the worker of the first success that names one. */
    method SpawnWorkerWithRetry(agent: string) returns (ok: bool)
      modifies this`asked, this`counts, this`total
      ensures (ok, asked) == Attempt(replies, old(asked), SPAWN_MAX_RETRIES) && asked > old(asked)
      ensures asked <= old(asked) + 3 && forall q :: old(asked) <= q < asked - 1 ==> replies(q).Failure?
      ensures if ok then !replies(asked - 1).Failure? else asked == old(asked) + 3 && replies(asked - 1).Failure?
      ensures if replies(asked - 1).Named?
              then counts == old(counts)[agent := CountOf(old(counts), agent) + 1] && total == old(total) + 1
              else counts == old(counts) && total == old(total)
      ensures replies(asked - 1).Named? ==> ok
    {
      for attempt := 0 to SPAWN_MAX_RETRIES
        invariant asked == old(asked) + attempt && counts == old(counts) && total == old(total)
        invariant Attempt(replies, old(asked), SPAWN_MAX_RETRIES)
               == Attempt(replies, asked, SPAWN_MAX_RETRIES - attempt)
        invariant forall q :: old(asked) <= q < asked ==> replies(q).Failure?
      {
        var reply := replies(asked);
        asked := asked + 1;
        if reply.Named? {
          counts, total := counts[agent := CountOf(counts, agent) + 1], total + 1;
        }
        if !reply.Failure? {
          return true;
        }
      }
      return false;
    }

    /** One spawn on an agent, with what its outcome means for the agent's health. */
    method SpawnOn(agents: seq<string>, i: nat, clock: nat -> int) returns (ok: bool)
      requires table.Valid() && i < |agents|
      modifies this, table
      ensures table.Valid() && ok == Attempt(replies, old(asked), SPAWN_MAX_RETRIES).0
      ensures asked > old(asked) && (ok <==> !replies(asked - 1).Failure?)
      ensures table.history
           == old(table.history) + [if ok then Recovered(agents[i]) else Failed(agents[i], clock(asked))]
      ensures if replies(asked - 1).Named?
              then counts == old(counts)[agents[i] := CountOf(old(counts), agents[i]) + 1] && total == old(total) + 1
              else counts == old(counts) && total == old(total)
      ensures Now() == Spawned(Under(agents, clock), old(Now()), i)
    {
      hide Attempt;
      ok := SpawnWorkerWithRetry(agents[i]);
      if !ok {
        table.RecordAgentFailure(agents[i], clock(asked));
      } else {
        table.ResetAgentFailure(agents[i]);
      }
    }

    /** First the agents without a healthy worker. */
    method CoverAgents(count: nat, agents: seq<string>, healthy: map<string, nat>, clock: nat -> int)
      returns (spawned: nat, ghost tried: seq<nat>)
      requires table.Valid() && count > 0
      modifies this, table
      ensures table.Valid() && spawned <= count && spawned == Successes(replies, old(asked), |tried|)
      ensures Covers(Under(agents, clock), old(Now()), count, healthy, tried, Now())
    {
      ghost var w, c := Under(agents, clock), Now();
      hide Attempt, Successes, Asked, Spawned, After, Uncovered, HealthTable.Valid;
      spawned, tried := 0, [];
      NoneYet(w, c);
      UncoveredNone(agents, healthy);
      for i := 0 to |agents|
        invariant table.Valid() && spawned <= count && tried == Uncovered(agents[..i], healthy) && Indexes(w, tried)
        invariant Now() == After(w, c, tried) && spawned == Successes(replies, c.asked, |tried|)
        invariant forall n: nat :: n < |tried| ==> Successes(replies, c.asked, n) < count
      {
        if spawned == count {
          UncoveredPrefix(agents, healthy, i);
          return;
        }
        UncoveredSnoc(agents, healthy, i);
        if CountOf(healthy, agents[i]) == 0 {
          AfterSnoc(w, c, tried, i);
          AfterAsked(w, c, tried);
          SuccessesNext(replies, c.asked, |tried|);
          var ok := SpawnOn(agents, i, clock);
          tried := tried + [i];
          if ok {
            spawned := spawned + 1;
          }
        }
      }
      assert agents[..|agents|] == agents;
    }

    /** Then the best agents. */
    method AddToBest(count: nat, agents: seq<string>, clock: nat -> int)
      returns (spawned: nat, ghost picks: seq<nat>)
      requires table.Valid()
      modifies this, table
      ensures table.Valid() && spawned == Successes(replies, old(asked), |picks|)
      ensures Adds(Under(agents, clock), old(Now()), count, picks, Now())
    {
      ghost var w, c := Under(agents, clock), Now();
      hide Attempt, Successes, Asked, Spawned, After, Best, NoneEligible, HealthTable.Valid;
      spawned, picks := 0, [];
      NoneYet(w, c);
      for i := 0 to count
        invariant table.Valid() && |picks| == i && Chosen(w, c, picks)
        invariant Now() == After(w, c, picks) && spawned == Successes(replies, c.asked, |picks|)
      {
        var best := PickBestAgent(agents, clock);
        if best.None? {
          return;
        }
        ChosenSnoc(w, c, picks, best.value);
        AfterSnoc(w, c, picks, best.value);
        AfterAsked(w, c, picks);
        SuccessesNext(replies, c.asked, |picks|);
        var ok := SpawnOn(agents, best.value, clock);
        picks := picks + [best.value];
        if ok {
          spawned := spawned + 1;
        }
      }
    }

    /** A scale-up does exactly what its `Outcome` says, whatever fails; the replies decide how many spawns succeed. */
    method ScaleUp(count: int, agents: seq<string>, healthy: map<string, nat>, clock: nat -> int)
      returns (spawned: nat, ghost course: Course)
      requires table.Valid()
      modifies this, table
      ensures table.Valid() && spawned == Successes(replies, old(asked), |course.tried| + |course.picks|)
      ensures Outcome(Under(agents, clock), old(Now()), count, healthy, course) && Now() == course.end
    {
      hide Attempt, Successes, Covers, Adds, Outcome, HealthTable.Valid;
      ghost var w, c := Under(agents, clock), Now();
      if agents == [] || count <= 0 {
        Nothing(w, c, count, healthy);
        return 0, Course([], c, [], c);
      }
      var covered, more: nat;
      ghost var tried, picks;
      covered, tried := CoverAgents(count, agents, healthy, clock);
      ghost var middle := Now();
      more, picks := AddToBest(count - covered, agents, clock);
      spawned, course := covered + more, Course(tried, middle, picks, Now());
      BothParts(w, c, count, healthy, course);
    }
  }
}
