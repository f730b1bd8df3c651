/**
 What a scale-up does to the agents: never more than it was asked for, nothing
 lost, nobody far ahead of an agent that was eligible, and, when no spawn fails
 for good and no penalty runs out on the way, the best placement there is.
 */
module SpawnPlacement {
  import opened Limits
  import opened Placement
  import opened AgentHealth
  import opened ScaleUp

  function CountsOf(agents: seq<string>, counts: map<string, nat>): seq<int> {
    seq(|agents|, i requires 0 <= i < |agents| => CountOf(counts, agents[i]))
  }

  lemma CountsOfAdd(agents: seq<string>, counts: map<string, nat>, i: nat)
    requires Distinct(agents) && i < |agents|
    ensures CountsOf(agents, counts[agents[i] := CountOf(counts, agents[i]) + 1]) == AddOne(CountsOf(agents, counts), i)
  {
  }

  /** The other agents' counts are as they were. */
  ghost predicate SameElsewhere(agents: seq<string>, before: map<string, nat>, after: map<string, nat>) {
    forall a: string :: a !in agents ==> CountOf(after, a) == CountOf(before, a)
  }

  lemma NoneMore(agents: seq<string>, counts: map<string, nat>)
    ensures SameElsewhere(agents, counts, counts)
  {
  }

  lemma OneMoreThere(agents: seq<string>, start: map<string, nat>, before: map<string, nat>, after: map<string, nat>,
                     a: string)
    requires SameElsewhere(agents, start, before) && SameElsewhere([a], before, after) && a in agents
    ensures SameElsewhere(agents, start, after)
  {
  }

  // ---------------------------------------------------------------------------
  // Whatever fails
  // ---------------------------------------------------------------------------

  lemma {:induction false} SuccessesAtMost(replies: nat -> Reply, q: nat, n: nat)
    ensures Successes(replies, q, n) <= n
  {
    hide Attempt;
    if n == 0 {
    } else {
      SuccessesAtMost(replies, q, n - 1);
    }
  }

  lemma {:induction false} NamedSucceedsWithin(replies: nat -> Reply, q: nat, left: nat)
    ensures left > 0 && replies(Attempt(replies, q, left).1 - 1).Named? ==> Attempt(replies, q, left).0
    decreases left
  {
    if left == 0 || !replies(q).Failure? {
    } else {
      NamedSucceedsWithin(replies, q + 1, left - 1);
    }
  }

  lemma NamedSucceeds(replies: nat -> Reply, q: nat)
    requires EndsNamed(replies, q)
    ensures Attempt(replies, q, SPAWN_MAX_RETRIES).0
  {
    NamedSucceedsWithin(replies, q, SPAWN_MAX_RETRIES);
  }

  /** At most the spawns that succeed register a worker. */
  lemma {:induction false} RegistersAtMost(w: Setting, c: Cluster, places: seq<nat>)
    requires Indexes(w, places)
    ensures c.total <= After(w, c, places).total <= c.total + Successes(w.replies, c.asked, |places|)
  {
    hide Attempt, EndsNamed;
    if places == [] {
    } else {
      var earlier := places[..|places| - 1];
      RegistersAtMost(w, c, earlier);
      AfterAsked(w, c, earlier);
      if EndsNamed(w.replies, After(w, c, earlier).asked) {
        NamedSucceeds(w.replies, After(w, c, earlier).asked);
      }
    }
  }

  /** A scale-up never spawns more than it was asked for, and registers at most what it spawned. */
  lemma NeverMore(w: Setting, c: Cluster, count: int, healthy: map<string, nat>, o: Course)
    requires Outcome(w, c, count, healthy, o)
    ensures var spawned := Successes(w.replies, c.asked, |o.tried| + |o.picks|);
      spawned <= Max(count, 0) && c.total <= o.end.total <= c.total + spawned
  {
    hide Attempt, Spawned;
    if w.agents == [] || count <= 0 {
    } else {
      AfterAsked(w, c, o.tried);
      SuccessesAdd(w.replies, c.asked, |o.tried|, |o.picks|);
      SuccessesAtMost(w.replies, o.middle.asked, |o.picks|);
      RegistersAtMost(w, c, o.tried);
      RegistersAtMost(w, o.middle, o.picks);
    }
  }

  /** The successes in a history from some event on. */
  function Recoveries(history: seq<HealthEvent>, from: nat): set<nat> {
    set k: nat | from <= k < |history| && history[k].Recovered?
  }

  /** The spawns that succeed are the successes that enter the agents' history; every spawn enters once. */
  lemma {:induction false} SuccessesAreRecorded(w: Setting, c: Cluster, places: seq<nat>)
    requires Indexes(w, places)
    ensures var history := After(w, c, places).history;
      && |history| == |c.history| + |places|
      && Successes(w.replies, c.asked, |places|) == |Recoveries(history, |c.history|)|
  {
    hide Attempt, EndsNamed;
    if places == [] {
      assert Recoveries(c.history, |c.history|) == {};
    } else {
      var earlier := places[..|places| - 1];
      SuccessesAreRecorded(w, c, earlier);
      AfterAsked(w, c, earlier);
      RecoveriesSnoc(After(w, c, earlier).history, After(w, c, places).history, |c.history|);
    }
  }

  lemma RecoveriesSnoc(before: seq<HealthEvent>, after: seq<HealthEvent>, from: nat)
    requires from <= |before| && |after| == |before| + 1 && after[..|before|] == before
    ensures |Recoveries(after, from)| == |Recoveries(before, from)| + if after[|before|].Recovered? then 1 else 0
  {
    var n := |before|;
    forall k: nat
      ensures k in Recoveries(after, from) <==> k in Recoveries(before, from) || (after[n].Recovered? && k == n)
    {
      assert k < n ==> after[k] == after[..n][k];
    }
    JoinedSize(Recoveries(before, from), Recoveries(after, from), n, after[n].Recovered?);
  }

  /** Every worker registered is on one of the agents: the total and the counts grow alike. */
  lemma {:induction false} Conserved(w: Setting, c: Cluster, places: seq<nat>)
    requires Indexes(w, places) && Distinct(w.agents)
    ensures Sum(CountsOf(w.agents, After(w, c, places).counts)) - Sum(CountsOf(w.agents, c.counts))
         == After(w, c, places).total - c.total
  {
    hide EndsNamed, Attempt, CountsOf, Sum;
    if places == [] {
    } else {
      var earlier, i := places[..|places| - 1], places[|places| - 1];
      var before := After(w, c, earlier).counts;
      Conserved(w, c, earlier);
      CountsOfAdd(w.agents, before, i);
      CountsOfLength(w.agents, before);
      SumAddOne(CountsOf(w.agents, before), i);
    }
  }

  lemma CountsOfLength(agents: seq<string>, counts: map<string, nat>)
    ensures |CountsOf(agents, counts)| == |agents|
  {
  }

  lemma {:induction false} ChosenPrefix(w: Setting, c: Cluster, picks: seq<nat>, others: seq<nat>)
    requires Chosen(w, c, picks) && Chosen(w, c, others) && |picks| <= |others|
    ensures picks <= others
    decreases |others|
  {
    hide Spawned, Out;
    if picks == [] {
    } else if |picks| < |others| {
      ChosenPrefix(w, c, picks, others[..|others| - 1]);
    } else {
      var earlier := picks[..|picks| - 1];
      ChosenPrefix(w, c, earlier, others[..|others| - 1]);
      assert earlier == others[..|others| - 1];
      BestIsOne(w, After(w, c, earlier), picks[|picks| - 1], others[|others| - 1]);
    }
  }

  lemma BestIsOne(w: Setting, c: Cluster, i: nat, j: nat)
    requires Best(w, c, i) && Best(w, c, j)
    ensures i == j
  {
  }

  lemma {:induction false} ChosenAt(w: Setting, c: Cluster, picks: seq<nat>, j: nat)
    requires Chosen(w, c, picks) && j < |picks|
    ensures Indexes(w, picks[..j]) && Chosen(w, c, picks[..j]) && Best(w, After(w, c, picks[..j]), picks[j])
  {
    hide Spawned, Best;
    var earlier := picks[..|picks| - 1];
    if j == |picks| - 1 {
    } else {
      ChosenAt(w, c, earlier, j);
      assert earlier[..j] == picks[..j];
    }
  }

  /** The second pass of a scale-up has one possible course. */
  lemma OneAddition(w: Setting, c: Cluster, count: nat, picks: seq<nat>, others: seq<nat>, c': Cluster, c'': Cluster)
    requires Adds(w, c, count, picks, c') && Adds(w, c, count, others, c'')
    ensures picks == others && c' == c''
  {
    hide After, Best, NoneEligible, Chosen;
    NotShorter(w, c, count, picks, others, c', c'');
    NotShorter(w, c, count, others, picks, c'', c');
    ChosenPrefix(w, c, picks, others);
  }

  lemma NotShorter(w: Setting, c: Cluster, count: nat, picks: seq<nat>, others: seq<nat>, c': Cluster, c'': Cluster)
    requires Adds(w, c, count, picks, c') && Adds(w, c, count, others, c'')
    ensures |picks| >= |others|
  {
    hide After, Chosen, NoneEligible;
    if |picks| < |others| {
      GoesOn(w, c, picks, others);
    }
  }

  lemma GoesOn(w: Setting, c: Cluster, picks: seq<nat>, others: seq<nat>)
    requires Chosen(w, c, picks) && Chosen(w, c, others) && |picks| < |others|
    ensures !NoneEligible(w, After(w, c, picks))
  {
    hide Out, After, Chosen;
    ChosenPrefix(w, c, picks, others);
    ChosenAt(w, c, others, |picks|);
    assert others[..|picks|] == picks;
  }

  /** The agents' answers, the clock and the health so far determine a scale-up completely. */
  lemma OneOutcome(w: Setting, c: Cluster, count: int, healthy: map<string, nat>, o: Course, o': Course)
    requires Outcome(w, c, count, healthy, o) && Outcome(w, c, count, healthy, o')
    ensures o == o'
  {
    hide Successes, After, Adds;
    if w.agents == [] || count <= 0 {
    } else {
      assert |o.tried| == |o'.tried|;
      assert o.tried == o'.tried;
      OneAddition(w, o.middle, count - Successes(w.replies, c.asked, |o.tried|), o.picks, o'.picks, o.end, o'.end);
    }
  }

  lemma {:induction false} AfterAdd(w: Setting, c: Cluster, places: seq<nat>, more: seq<nat>)
    requires Indexes(w, places) && Indexes(w, more)
    ensures Indexes(w, places + more) && After(w, c, places + more) == After(w, After(w, c, places), more)
  {
    hide Spawned;
    if more == [] {
      assert places + more == places;
    } else {
      AfterAdd(w, c, places, more[..|more| - 1]);
      assert (places + more)[..|places + more| - 1] == places + more[..|more| - 1];
    }
  }

  /** Nobody loses a worker, and an agent that is not tried gets none. */
  lemma {:induction false} CountsGrow(w: Setting, c: Cluster, places: seq<nat>, a: string)
    requires Indexes(w, places)
    ensures CountOf(After(w, c, places).counts, a) >= CountOf(c.counts, a)
    ensures (forall k :: 0 <= k < |places| ==> w.agents[places[k]] != a) ==>
      CountOf(After(w, c, places).counts, a) == CountOf(c.counts, a)
  {
    hide Attempt, EndsNamed;
    if places == [] {
    } else {
      CountsGrow(w, c, places[..|places| - 1], a);
    }
  }

  lemma PickedAhead(w: Setting, c: Cluster, i: nat, e: nat)
    requires Best(w, c, i) && e < |w.agents| && !Out(w, c, w.agents[e])
    ensures CountOf(Spawned(w, c, i).counts, w.agents[i]) <= CountOf(Spawned(w, c, i).counts, w.agents[e]) + 1
  {
    hide Attempt, EndsNamed, Out;
  }

  /**
   Whatever fails and whichever penalties begin or end: an agent that the second
   pass picks ends at most one worker ahead of every agent that was not penalised
   when it was last picked.
   */
  lemma NeverAhead(w: Setting, c: Cluster, picks: seq<nat>, j: nat, e: nat)
    requires Chosen(w, c, picks) && j < |picks| && e < |w.agents| && Indexes(w, picks[..j])
    requires forall k :: j < k < |picks| ==> w.agents[picks[k]] != w.agents[picks[j]]
    requires !Out(w, After(w, c, picks[..j]), w.agents[e])
    ensures var counts := After(w, c, picks).counts;
      CountOf(counts, w.agents[picks[j]]) <= CountOf(counts, w.agents[e]) + 1
  {
    hide Spawned, Best, Out, After;
    var at := After(w, c, picks[..j]);
    var next, later := Spawned(w, at, picks[j]), picks[j + 1..];
    ChosenAt(w, c, picks, j);
    AfterSnoc(w, c, picks[..j], picks[j]);
    AfterAdd(w, c, picks[..j] + [picks[j]], later);
    assert picks == picks[..j] + [picks[j]] + later;
    PickedAhead(w, at, picks[j], e);
    CountsGrow(w, next, later, w.agents[picks[j]]);
    CountsGrow(w, next, later, w.agents[e]);
  }

  // ---------------------------------------------------------------------------
  // Which agents
  // ---------------------------------------------------------------------------

  /** The agents that are not left out. */
  function Kept(agents: seq<string>, out: set<string>): seq<string> {
    if agents == [] then []
    else
      var rest, last := Kept(agents[..|agents| - 1], out), agents[|agents| - 1];
      if last in out then rest else rest + [last]
  }

  lemma {:induction false} KeptAre(agents: seq<string>, out: set<string>)
    ensures forall a :: a in Kept(agents, out) <==> a in agents && a !in out
    ensures Distinct(agents) ==> Distinct(Kept(agents, out))
  {
    if agents == [] {
    } else {
      var rest, last := agents[..|agents| - 1], agents[|agents| - 1];
      KeptAre(rest, out);
      assert agents == rest + [last];
      assert Distinct(agents) ==> last !in rest;
    }
  }

  /** Where a kept agent stands among the kept. */
  lemma {:induction false} KeptAt(agents: seq<string>, out: set<string>, i: nat)
    requires i < |agents| && agents[i] !in out
    ensures var k := |Kept(agents[..i], out)|; k < |Kept(agents, out)| && Kept(agents, out)[k] == agents[i]
  {
    if i == |agents| - 1 {
    } else {
      KeptAt(agents[..|agents| - 1], out, i);
      assert agents[..|agents| - 1][..i] == agents[..i];
    }
  }

  /** Leaving fewer agents out keeps at least as many. */
  lemma MoreKept(agents: seq<string>, out: set<string>, places: seq<nat>)
    requires forall i <- places :: i < |agents|
    ensures Kept(agents, out) != [] ==> Kept(agents, out - Names(agents, places)) != []
  {
    KeptAre(agents, out);
    KeptAre(agents, out - Names(agents, places));
    if Kept(agents, out) != [] {
      var a := Kept(agents, out)[0];
      assert a in Kept(agents, out);
      assert a in Kept(agents, out - Names(agents, places));
    }
  }

  /** The counts of distinct agents determine the map on them. */
  lemma SameCounts(agents: seq<string>, before: map<string, nat>, after: map<string, nat>, i: nat)
    requires i < |agents| && Distinct(agents) && CountsOf(agents, after) == AddOne(CountsOf(agents, before), i)
    ensures CountOf(after, agents[i]) == CountOf(before, agents[i]) + 1
    ensures forall a <- agents :: a != agents[i] ==> CountOf(after, a) == CountOf(before, a)
  {
    forall a <- agents ensures CountOf(after, a) == CountOf(before, a) + if a == agents[i] then 1 else 0 {
      var j :| 0 <= j < |agents| && agents[j] == a;
      assert CountsOf(agents, after)[j] == CountOf(after, agents[j]);
    }
  }

  /** One more worker on an agent is one more at its place among the kept. */
  lemma PlaceAdds(agents: seq<string>, out: set<string>, before: map<string, nat>, after: map<string, nat>, i: nat)
    requires i < |agents| && Distinct(agents) && agents[i] !in out
    requires CountsOf(agents, after) == AddOne(CountsOf(agents, before), i)
    ensures var kept, place := Kept(agents, out), |Kept(agents[..i], out)|;
      place < |kept| && CountsOf(kept, after) == AddOne(CountsOf(kept, before), place)
  {
    var kept := Kept(agents, out);
    KeptAre(agents, out);
    KeptAt(agents, out, i);
    SameCounts(agents, before, after, i);
    hide Kept;
    forall j | 0 <= j < |kept|
      ensures CountOf(after, kept[j]) == CountOf(before, kept[j]) + if kept[j] == agents[i] then 1 else 0
    {
      assert kept[j] in kept;
    }
  }

  /** One more worker at each of the places. */
  function AddEach(c: seq<int>, places: seq<nat>): (r: seq<int>)
    requires forall i <- places :: i < |c|
    ensures |r| == |c|
  {
    if places == [] then c
    else
      var rest, last := places[..|places| - 1], places[|places| - 1];
      assert last in places && forall i <- rest :: i in places;
      AddOne(AddEach(c, rest), last)
  }

  /** The agents at the places. */
  function Names(agents: seq<string>, places: seq<nat>): set<string>
    requires forall i <- places :: i < |agents|
  {
    set i | i in places :: agents[i]
  }

  lemma GreedyStart(c: seq<int>)
    ensures Greedy(c, [], c)
  {
  }

  lemma GreedySnoc(c: seq<int>, picks: seq<nat>, before: seq<int>, i: nat)
    requires Greedy(c, picks, before) && IsLeast(before, i)
    ensures Greedy(c, picks + [i], AddOne(before, i))
  {
    var all := picks + [i];
    assert all[..|all| - 1] == picks && all[|all| - 1] == i;
    assert Greedy(c, all[..|all| - 1], before) && IsLeast(before, all[|all| - 1]);
  }

  /** One more worker on a least loaded of the kept agents continues a greedy placement on them. */
  lemma PickPlaced(agents: seq<string>, out: set<string>, start: map<string, nat>, picks: seq<nat>,
                   before: map<string, nat>, after: map<string, nat>, i: nat)
    requires i < |agents| && Distinct(agents) && agents[i] !in out
    requires CountsOf(agents, after) == AddOne(CountsOf(agents, before), i)
    requires Greedy(CountsOf(Kept(agents, out), start), picks, CountsOf(Kept(agents, out), before))
    requires IsLeast(CountsOf(Kept(agents, out), before), |Kept(agents[..i], out)|)
    requires SameElsewhere(Kept(agents, out), start, before) && SameElsewhere([agents[i]], before, after)
    ensures SameElsewhere(Kept(agents, out), start, after)
    ensures Greedy(CountsOf(Kept(agents, out), start), picks + [|Kept(agents[..i], out)|],
                   CountsOf(Kept(agents, out), after))
  {
    hide Kept, CountsOf, Greedy, IsLeast, SameElsewhere;
    PlaceAdds(agents, out, before, after, i);
    KeptAre(agents, out);
    OneMoreThere(Kept(agents, out), start, before, after, agents[i]);
    GreedySnoc(CountsOf(Kept(agents, out), start), picks, CountsOf(Kept(agents, out), before),
               |Kept(agents[..i], out)|);
  }

  // ---------------------------------------------------------------------------
  // When nothing new is in the way
  // ---------------------------------------------------------------------------

  /** At the `n`th spawn from now exactly the agents in `out` are penalised, as things are, and it names a worker. */
  ghost predicate Foreseen(w: Setting, c: Cluster, n: nat, out: set<string>) {
    var q := Asked(w.replies, c.asked, n);
    EndsNamed(w.replies, q) && forall a <- w.agents :: PenalizedAfter(c.history, a, w.base, w.clock(q)) <==> a in out
  }

  /**
   Nothing new is in the way of `count` more workers, whatever has failed so far:
   each of the spawns names a worker within its three requests, and no penalty
   runs out from the first of them to the last.
   */
  ghost predicate Smooth(w: Setting, c: Cluster, count: int, out: set<string>) {
    && Distinct(w.agents) && (forall a <- w.agents :: CountOf(c.counts, a) + count < MAX_INT32)
    && (forall n: nat :: n < count ==> Foreseen(w, c, n, out))
  }

  /** The agents penalised now. */
  function PenalizedNow(w: Setting, c: Cluster): set<string> {
    set a | a in w.agents && Out(w, c, a)
  }

  /** All that smoothness asks of the agents' health: those penalised now are those penalised at every spawn. */
  lemma SmoothExactly(w: Setting, c: Cluster, count: int)
    requires count > 0
    ensures (exists out :: Smooth(w, c, count, out)) <==> Smooth(w, c, count, PenalizedNow(w, c))
  {
    hide EndsNamed;
    if out :| Smooth(w, c, count, out) {
      assert Asked(w.replies, c.asked, 0) == c.asked && Foreseen(w, c, 0, out);
      forall n: nat | n < count ensures Foreseen(w, c, n, PenalizedNow(w, c)) {
        assert Foreseen(w, c, n, out);
      }
    }
  }

  lemma SmoothNext(w: Setting, c: Cluster, count: int, out: set<string>, i: nat)
    requires Smooth(w, c, count, out) && count > 0 && i < |w.agents|
    ensures Smooth(w, Spawned(w, c, i), count - 1, out - {w.agents[i]})
    ensures Distinct(w.agents) && EndsNamed(w.replies, c.asked) && Attempt(w.replies, c.asked, SPAWN_MAX_RETRIES).0
  {
    hide Attempt, FailuresSince, PenalizedUntil;
    var c', a := Spawned(w, c, i), w.agents[i];
    assert Asked(w.replies, c.asked, 0) == c.asked && Foreseen(w, c, 0, out);
    NamedSucceeds(w.replies, c.asked);
    SnocEvent(c.history, Recovered(a), w.base);
    forall n: nat | n < count - 1 ensures Foreseen(w, c', n, out - {a}) {
      AskedTail(w.replies, c.asked, n);
      assert Foreseen(w, c, n + 1, out);
    }
  }

  lemma OneSpawned(w: Setting, c: Cluster, i: nat)
    requires Distinct(w.agents) && EndsNamed(w.replies, c.asked) && i < |w.agents|
    ensures var c' := Spawned(w, c, i);
      && CountsOf(w.agents, c'.counts) == AddOne(CountsOf(w.agents, c.counts), i)
      && SameElsewhere([w.agents[i]], c.counts, c'.counts) && c'.total == c.total + 1
  {
    hide Attempt, EndsNamed;
    CountsOfAdd(w.agents, c.counts, i);
  }

  /** Smooth spawns in the first pass: each gives one worker, and their agents are back from any penalty. */
  lemma {:induction false} CoverSmooth(w: Setting, c: Cluster, count: int, out: set<string>, places: seq<nat>)
    requires Smooth(w, c, count, out) && Indexes(w, places) && |places| <= count
    ensures forall i <- places :: i < |w.agents|
    ensures var c' := After(w, c, places);
      && Smooth(w, c', count - |places|, out - Names(w.agents, places))
      && CountsOf(w.agents, c'.counts) == AddEach(CountsOf(w.agents, c.counts), places)
      && SameElsewhere(w.agents, c.counts, c'.counts) && c'.total == c.total + |places|
    ensures Successes(w.replies, c.asked, |places|) == |places|
  {
    hide Smooth, Spawned, EndsNamed, Attempt, CountsOf, SameElsewhere;
    if places == [] {
      NoneMore(w.agents, c.counts);
      assert out - Names(w.agents, places) == out;
    } else {
      var earlier, i := places[..|places| - 1], places[|places| - 1];
      var before := After(w, c, earlier);
      CoverSmooth(w, c, count, out, earlier);
      SmoothNext(w, before, count - |earlier|, out - Names(w.agents, earlier), i);
      OneSpawned(w, before, i);
      OneMoreThere(w.agents, c.counts, before.counts, Spawned(w, before, i).counts, w.agents[i]);
      AfterAsked(w, c, earlier);
      assert out - Names(w.agents, earlier) - {w.agents[i]} == out - Names(w.agents, places);
    }
  }

  /** The agent picked is one of those not penalised, and has the fewest workers of them. */
  lemma BestIsLeast(w: Setting, c: Cluster, count: int, out: set<string>, best: nat)
    requires Smooth(w, c, count, out) && count > 0 && Best(w, c, best)
    ensures w.agents[best] !in out
    ensures IsLeast(CountsOf(Kept(w.agents, out), c.counts), |Kept(w.agents[..best], out)|)
  {
    hide EndsNamed;
    var kept := Kept(w.agents, out);
    assert Asked(w.replies, c.asked, 0) == c.asked && Foreseen(w, c, 0, out);
    assert w.agents[best] in w.agents;
    KeptAre(w.agents, out);
    KeptAt(w.agents, out, best);
    forall j | 0 <= j < |kept| ensures CountOf(c.counts, w.agents[best]) <= CountOf(c.counts, kept[j]) {
      assert kept[j] in kept;
      var k :| 0 <= k < |w.agents| && w.agents[k] == kept[j];
    }
  }

  /** The picks as places among the agents not penalised. */
  function KeptPlaces(agents: seq<string>, out: set<string>, picks: seq<nat>): seq<nat>
    requires forall k :: 0 <= k < |picks| ==> picks[k] < |agents|
  {
    if picks == [] then []
    else
      KeptPlaces(agents, out, picks[..|picks| - 1]) + [|Kept(agents[..picks[|picks| - 1]], out)|]
  }

  /** Smooth picks are a greedy placement of one worker each on the agents not penalised, and nothing else. */
  lemma {:induction false} PlaceSmooth(w: Setting, c: Cluster, count: int, out: set<string>, picks: seq<nat>)
    requires Smooth(w, c, count, out) && Chosen(w, c, picks) && |picks| <= count
    ensures var c', kept := After(w, c, picks), Kept(w.agents, out);
      && Smooth(w, c', count - |picks|, out)
      && Greedy(CountsOf(kept, c.counts), KeptPlaces(w.agents, out, picks), CountsOf(kept, c'.counts))
      && SameElsewhere(kept, c.counts, c'.counts) && c'.total == c.total + |picks|
  {
    if picks == [] {
    } else {
      var earlier, best := picks[..|picks| - 1], picks[|picks| - 1];
      var before := After(w, c, earlier);
      PlaceSmooth(w, c, count, out, earlier);
      BestIsLeast(w, before, count - |earlier|, out, best);
      SmoothNext(w, before, count - |earlier|, out, best);
      assert out - {w.agents[best]} == out;
      OneSpawned(w, before, best);
      PickPlaced(w.agents, out, c.counts, KeptPlaces(w.agents, out, earlier), before.counts,
                 Spawned(w, before, best).counts, best);
    }
  }

  lemma NotStuck(w: Setting, c: Cluster, count: int, out: set<string>)
    requires Smooth(w, c, count, out) && count > 0 && Kept(w.agents, out) != []
    ensures !NoneEligible(w, c)
  {
    hide EndsNamed;
    assert Asked(w.replies, c.asked, 0) == c.asked && Foreseen(w, c, 0, out);
    KeptAre(w.agents, out);
    var a := Kept(w.agents, out)[0];
    assert a in Kept(w.agents, out);
    var i :| 0 <= i < |w.agents| && w.agents[i] == a;
    assert !Out(w, c, w.agents[i]);
  }

  /**
   One more worker on each of the first agents without a healthy one, and the
   rest greedily on the agents that are then not penalised; no other worker.
   */
  ghost predicate Placed(w: Setting, c: Cluster, count: nat, healthy: map<string, nat>, out: set<string>, o: Course) {
    && o.tried <= Uncovered(w.agents, healthy)
    && |o.tried| == Min(count, |Uncovered(w.agents, healthy)|) && |o.tried| + |o.picks| == count
    && Indexes(w, o.tried) && Indexes(w, o.picks) && (forall i <- o.tried :: i < |w.agents|)
    && CountsOf(w.agents, o.middle.counts) == AddEach(CountsOf(w.agents, c.counts), o.tried)
    && SameElsewhere(w.agents, c.counts, o.middle.counts)
    && o.end.total == c.total + count
    && var left := out - Names(w.agents, o.tried);
       var kept := Kept(w.agents, left);
       && Greedy(CountsOf(kept, o.middle.counts), KeptPlaces(w.agents, left, o.picks), CountsOf(kept, o.end.counts))
       && SameElsewhere(kept, o.middle.counts, o.end.counts)
  }

  /**
   When nothing new is in the way and some agent is not penalised, a scale-up adds
   exactly as many workers as it was asked for: first one on each agent without a
   healthy worker, in order, which ends their penalties, then greedily on the
   agents that are not penalised.
   */
  lemma PlacedSmoothly(w: Setting, c: Cluster, count: nat, healthy: map<string, nat>, out: set<string>, o: Course)
    requires Outcome(w, c, count, healthy, o) && Smooth(w, c, count, out) && Kept(w.agents, out) != []
    ensures Placed(w, c, count, healthy, out, o) && Successes(w.replies, c.asked, |o.tried| + |o.picks|) == count
  {
    hide Smooth, Successes, After, Kept, CountsOf, AddEach, SameElsewhere, KeptPlaces, Greedy, Covers, Adds, Uncovered;
    NeverMore(w, c, count, healthy, o);
    if count == 0 {
      NonePlaced(w, c, healthy, out);
    } else {
      FirstPart(w, c, count, healthy, out, o);
      SecondPart(w, o.middle, count - |o.tried|, out - Names(w.agents, o.tried), o.picks, o.end);
    }
  }

  lemma FirstPart(w: Setting, c: Cluster, count: nat, healthy: map<string, nat>, out: set<string>, o: Course)
    requires Outcome(w, c, count, healthy, o) && Smooth(w, c, count, out) && count > 0 && Kept(w.agents, out) != []
    ensures w.agents != [] && o.tried <= Uncovered(w.agents, healthy)
    ensures Indexes(w, o.tried) && forall i <- o.tried :: i < |w.agents|
    ensures |o.tried| == Min(count, |Uncovered(w.agents, healthy)|)
    ensures Successes(w.replies, c.asked, |o.tried|) == |o.tried| && o.middle.total == c.total + |o.tried|
    ensures CountsOf(w.agents, o.middle.counts) == AddEach(CountsOf(w.agents, c.counts), o.tried)
    ensures SameElsewhere(w.agents, c.counts, o.middle.counts)
    ensures var left := out - Names(w.agents, o.tried);
      Smooth(w, o.middle, count - |o.tried|, left) && Kept(w.agents, left) != []
  {
    hide Smooth, After, CountsOf, AddEach, SameElsewhere, Adds, EndsNamed, Attempt;
    TriedSmooth(w, c, count, healthy, out, o);
    CoverSmooth(w, c, count, out, o.tried);
    MoreKept(w.agents, out, o.tried);
  }

  lemma SecondPart(w: Setting, c: Cluster, count: nat, out: set<string>, picks: seq<nat>, c': Cluster)
    requires Adds(w, c, count, picks, c') && Smooth(w, c, count, out) && Kept(w.agents, out) != []
    ensures Indexes(w, picks) && |picks| == count && c'.total == c.total + |picks|
    ensures var kept := Kept(w.agents, out);
      && Greedy(CountsOf(kept, c.counts), KeptPlaces(w.agents, out, picks), CountsOf(kept, c'.counts))
      && SameElsewhere(kept, c.counts, c'.counts)
  {
    hide Smooth, After, Kept, CountsOf, SameElsewhere, KeptPlaces, Greedy, NoneEligible;
    PlaceSmooth(w, c, count, out, picks);
    if |picks| < count {
      NotStuck(w, c', count - |picks|, out);
    }
  }

  lemma NonePlaced(w: Setting, c: Cluster, healthy: map<string, nat>, out: set<string>)
    ensures Placed(w, c, 0, healthy, out, Course([], c, [], c))
  {
  }

  /** When all spawns succeed, as many agents are tried as there are to cover, or as workers asked for. */
  lemma TriedSmooth(w: Setting, c: Cluster, count: nat, healthy: map<string, nat>, out: set<string>, o: Course)
    requires Outcome(w, c, count, healthy, o) && Smooth(w, c, count, out) && count > 0 && Kept(w.agents, out) != []
    ensures w.agents != [] && |o.tried| == Min(count, |Uncovered(w.agents, healthy)|)
    ensures Successes(w.replies, c.asked, |o.tried|) == |o.tried|
  {
    hide Smooth, After, CountsOf, AddEach, SameElsewhere, Adds;
    if |o.tried| > count {
      assert Indexes(w, o.tried[..count]);
      CoverSmooth(w, c, count, out, o.tried[..count]);
    } else {
      CoverSmooth(w, c, count, out, o.tried);
    }
  }

  // ---------------------------------------------------------------------------
  // A scale-up after a failure
  // ---------------------------------------------------------------------------

  /** The first three requests fail. */
  function FailsFirst(q: nat): Reply {
    if q < SPAWN_MAX_RETRIES then Failure else Named
  }

  const AT_ONCE: nat -> int := _ => 0

  /** Two agents, one of them penalised for a failed spawn. */
  method AfterFailure() returns (scaler: Autoscaler)
    ensures fresh(scaler) && fresh(scaler.table) && scaler.table.Valid() && scaler.replies == FailsFirst
    ensures scaler.table.base == DEFAULT_PENALTY
    ensures scaler.Now() == Cluster(3, map[], 0, [Failed("a", 0)])
  {
    var table := new HealthTable(DEFAULT_PENALTY);
    scaler := new Autoscaler(table, FailsFirst, map[], 0);
    var ok := scaler.SpawnOn(["a", "b"], 0, AT_ONCE);
    assert [] + [Failed("a", 0)] == [Failed("a", 0)];
  }

  lemma {:induction false} ThenNamed(n: nat)
    ensures Asked(FailsFirst, 3, n) == 3 + n && EndsNamed(FailsFirst, Asked(FailsFirst, 3, n))
  {
    if n == 0 {
    } else {
      ThenNamed(n - 1);
    }
  }

  /** Nothing is in the way of two workers then, although an agent is penalised. */
  lemma SmoothAfterFailure(w: Setting, c: Cluster)
    requires w == Setting(["a", "b"], FailsFirst, AT_ONCE, DEFAULT_PENALTY)
    requires c == Cluster(3, map[], 0, [Failed("a", 0)])
    ensures Out(w, c, "a") && Smooth(w, c, 2, {"a"}) && Kept(w.agents, {"a"}) == ["b"]
  {
    PenaltyFits(DEFAULT_PENALTY, 1);
    SnocEvent([], Failed("a", 0), DEFAULT_PENALTY);
    assert [] + [Failed("a", 0)] == [Failed("a", 0)];
    hide Penalty, FailuresSince, PenalizedUntil;
    forall n: nat | n < 2 ensures Foreseen(w, c, n, {"a"}) {
      ThenNamed(n);
    }
    Without("a", "b");
  }

  lemma Without(a: string, b: string)
    requires a != b
    ensures Kept([a, b], {a}) == [b]
    ensures Uncovered([a, b], map[a := 1, b := 1]) == []
  {
    assert [a, b][..1] == [a] && [a][..0] == [];
    assert Kept([], {a}) == [] && Kept([a], {a}) == [];
    assert Uncovered([a], map[a := 1, b := 1]) == [];
  }

  /** The next scale-up passes the penalised agent over, although it has fewer workers than the other. */
  method PassesOver() returns (scaler: Autoscaler, spawned: nat)
    ensures fresh(scaler) && spawned == 2 && scaler.total == 2
    ensures CountOf(scaler.counts, "a") == 0 && CountOf(scaler.counts, "b") == 2
  {
    scaler := AfterFailure();
    ghost var w, c := scaler.Under(["a", "b"], AT_ONCE), scaler.Now();
    ghost var course;
    spawned, course := scaler.ScaleUp(2, ["a", "b"], map["a" := 1, "b" := 1], AT_ONCE);
    SmoothAfterFailure(w, c);
    PlacedSmoothly(w, c, 2, map["a" := 1, "b" := 1], {"a"}, course);
    BothOnB(w, c, course);
  }

  lemma BothOnB(w: Setting, c: Cluster, o: Course)
    requires w.agents == ["a", "b"] && c.counts == map[]
    requires Placed(w, c, 2, map["a" := 1, "b" := 1], {"a"}, o)
    ensures CountOf(o.end.counts, "a") == 0 && CountOf(o.end.counts, "b") == 2
  {
    Without("a", "b");
    assert {"a"} - Names(w.agents, []) == {"a"};
    assert CountsOf(w.agents, o.middle.counts)[0] == 0 && CountsOf(w.agents, o.middle.counts)[1] == 0;
    KeptPlacesLength(w.agents, {"a"}, o.picks);
    GreedyPlaces(CountsOf(["b"], o.middle.counts), KeptPlaces(w.agents, {"a"}, o.picks), CountsOf(["b"], o.end.counts));
    assert CountsOf(["b"], o.end.counts)[..0] == [] && CountsOf(["b"], o.middle.counts)[..0] == [];
  }

  lemma {:induction false} KeptPlacesLength(agents: seq<string>, out: set<string>, picks: seq<nat>)
    requires forall k :: 0 <= k < |picks| ==> picks[k] < |agents|
    ensures |KeptPlaces(agents, out, picks)| == |picks|
  {
    if picks == [] {
    } else {
      KeptPlacesLength(agents, out, picks[..|picks| - 1]);
    }
  }
}
