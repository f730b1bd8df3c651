/**
 Choosing the workers to drain: the least loaded healthy ones, among the agents
 with more than one. The choice is made per call, not per agent, which decides
 when an agent can lose all its workers.
 */
module DrainSelection {
  import opened Limits
  import opened Sorting

  /** A worker as the selection reads it. */
  datatype WorkerLoad = WorkerLoad(id: string, agent: string, healthy: bool, active: int)

  const LOAD: WorkerLoad -> real := (w: WorkerLoad) => w.active as real

  /** The test for a healthy worker of an agent. */
  function HealthyAt(agent: string): WorkerLoad -> bool {
    (w: WorkerLoad) => w.healthy && w.agent == agent
  }

  /** How many healthy workers an agent has. */
  function HealthyOf(workers: seq<WorkerLoad>, agent: string): nat {
    Count(workers, HealthyAt(agent))
  }

  /** The healthy workers of `some` whose agent, counting all the workers, has more than one. */
  function Candidates(some: seq<WorkerLoad>, all: seq<WorkerLoad>): seq<WorkerLoad> {
    if some == [] then []
    else
      var rest, w := Candidates(some[..|some| - 1], all), some[|some| - 1];
      if w.healthy && HealthyOf(all, w.agent) > 1 then rest + [w] else rest
  }

  /** The candidates as the sort leaves them. */
  function Ordered(workers: seq<WorkerLoad>): seq<WorkerLoad> {
    Sorted(Candidates(workers, workers), LOAD)
  }

  /** The least loaded candidates, in the order of the sort. */
  function Selection(workers: seq<WorkerLoad>, count: nat): seq<WorkerLoad> {
    if count < |Ordered(workers)| then Ordered(workers)[..count] else Ordered(workers)
  }

  // The three passes of the code, over the workers in whatever order the map gives them.

  method HealthyPerAgent(workers: seq<WorkerLoad>) returns (counts: map<string, int>)
    ensures forall a: string :: (if a in counts then counts[a] else 0) == HealthyOf(workers, a)
  {
    counts := map[];
    for i := 0 to |workers|
      invariant forall a: string :: (if a in counts then counts[a] else 0) == HealthyOf(workers[..i], a)
    {
      assert workers[..i + 1][..i] == workers[..i];
      var a := workers[i].agent;
      if workers[i].healthy {
        counts := counts[a := (if a in counts then counts[a] else 0) + 1];
      }
    }
    assert workers[..|workers|] == workers;
  }

  method CollectCandidates(workers: seq<WorkerLoad>, counts: map<string, int>) returns (found: seq<WorkerLoad>)
    requires forall a: string :: (if a in counts then counts[a] else 0) == HealthyOf(workers, a)
    ensures found == Candidates(workers, workers)
  {
    found := [];
    for i := 0 to |workers|
      invariant found == Candidates(workers[..i], workers)
    {
      assert workers[..i + 1][..i] == workers[..i];
      var a := workers[i].agent;
      if workers[i].healthy && (if a in counts then counts[a] else 0) > 1 {
        found := found + [workers[i]];
      }
    }
    assert workers[..|workers|] == workers;
  }

  /** Takes the first `count`, counting each agent down; the code never looks at these counts again. */
  method TakeFirst(candidates: array<WorkerLoad>, count: nat, counts: map<string, int>)
    returns (result: seq<WorkerLoad>)
    ensures result == if count < candidates.Length then candidates[..count] else candidates[..]
  {
    result := [];
    var left := counts;
    for i := 0 to Min(count, candidates.Length)
      invariant result == candidates[..i]
    {
      result := result + [candidates[i]];
      var a := candidates[i].agent;
      left := left[a := (if a in left then left[a] else 0) - 1];
    }
  }

  /** The selection as the code makes it. */
  method SelectDrainCandidatesPerAgent(workers: seq<WorkerLoad>, count: nat) returns (result: seq<WorkerLoad>)
    ensures result == Selection(workers, count)
  {
    hide Candidates, HealthyOf, Sorted;
    var healthyPerAgent := HealthyPerAgent(workers);
    var found := CollectCandidates(workers, healthyPerAgent);
    var candidates := new WorkerLoad[|found|](i requires 0 <= i < |found| => found[i]);
    assert candidates[..] == found;
    InsertionSort(candidates, LOAD);
    result := TakeFirst(candidates, count, healthyPerAgent);
  }

  // ---------------------------------------------------------------------------
  // What is selected
  // ---------------------------------------------------------------------------

  lemma {:induction false} CandidatesAre(some: seq<WorkerLoad>, all: seq<WorkerLoad>)
    ensures forall w :: w in Candidates(some, all) <==> w in some && w.healthy && HealthyOf(all, w.agent) > 1
    ensures Distinct(some) ==> Distinct(Candidates(some, all))
  {
    if some == [] {
    } else {
      var rest, w := some[..|some| - 1], some[|some| - 1];
      CandidatesAre(rest, all);
      assert some == rest + [w];
      if Distinct(some) {
        assert w !in rest;
      }
    }
  }

  lemma SameElements<T>(s: seq<T>, t: seq<T>)
    requires multiset(s) == multiset(t)
    ensures forall x :: x in s <==> x in t
    ensures Distinct(s) ==> Distinct(t)
  {
    forall x ensures x in s <==> x in t {
      assert x in multiset(s) <==> x in multiset(t);
    }
    if Distinct(s) && !Distinct(t) {
      var i, j :| 0 <= i < j < |t| && t[i] == t[j];
      MultipleTwice(t, i, j);
      DistinctOnce(s, t[i]);
      assert false;
    }
  }

  lemma MultipleTwice<T>(t: seq<T>, i: nat, j: nat)
    requires i < j < |t| && t[i] == t[j]
    ensures multiset(t)[t[i]] >= 2
  {
    assert t == t[..j] + [t[j]] + t[j + 1..];
    assert t[i] in t[..j];
  }

  lemma {:induction false} DistinctOnce<T>(s: seq<T>, x: T)
    requires Distinct(s)
    ensures multiset(s)[x] <= 1
  {
    if s == [] {
    } else {
      var rest, last := s[..|s| - 1], s[|s| - 1];
      DistinctOnce(rest, x);
      assert s == rest + [last];
      assert last !in multiset(rest);
    }
  }

  ghost predicate ByLoad(s: seq<WorkerLoad>) {
    forall i, j :: 0 <= i < j < |s| ==> s[i].active <= s[j].active
  }

  lemma OrderedIs(workers: seq<WorkerLoad>)
    ensures |Ordered(workers)| == |Candidates(workers, workers)| && ByLoad(Ordered(workers))
    ensures forall w :: w in Ordered(workers) <==> w in Candidates(workers, workers)
    ensures Distinct(workers) ==> Distinct(Ordered(workers))
  {
    hide Candidates, Sorted, Distinct;
    var candidates, ordered := Candidates(workers, workers), Ordered(workers);
    CandidatesAre(workers, workers);
    SortedAscends(candidates, LOAD);
    SameElements(candidates, ordered);
    forall i, j | 0 <= i < j < |ordered| ensures ordered[i].active <= ordered[j].active {
      assert LOAD(ordered[i]) <= LOAD(ordered[j]);
    }
  }

  /**
   The workers selected: as many as asked for or all the candidates; distinct
   and healthy; none the only healthy worker of its agent; and none busier than
   a candidate left out.
   */
  lemma SelectionIs(workers: seq<WorkerLoad>, count: nat)
    requires Distinct(workers)
    ensures var chosen, candidates := Selection(workers, count), Candidates(workers, workers);
      && |chosen| == Min(count, |candidates|)
      && Distinct(chosen)
      && (forall w <- chosen :: w in workers && w.healthy && HealthyOf(workers, w.agent) > 1)
      && (forall w, v :: w in chosen && v in candidates && v !in chosen ==> w.active <= v.active)
  {
    hide Ordered, Candidates, HealthyOf;
    var ordered, chosen := Ordered(workers), Selection(workers, count);
    CandidatesAre(workers, workers);
    OrderedIs(workers);
    assert forall i :: 0 <= i < |chosen| ==> chosen[i] == ordered[i] && ordered[i] in chosen;
    forall w <- chosen ensures w in Candidates(workers, workers) {
      assert w in ordered;
    }
    forall w, v | w in chosen && v in Candidates(workers, workers) && v !in chosen ensures w.active <= v.active {
      var i :| 0 <= i < |chosen| && chosen[i] == w;
      var j :| 0 <= j < |ordered| && ordered[j] == v;
    }
  }

  /** Another healthy worker of its agent. */
  ghost predicate HasColleague(workers: seq<WorkerLoad>, w: WorkerLoad) {
    exists v <- workers :: v != w && v.healthy && v.agent == w.agent
  }

  lemma ColleagueIs(workers: seq<WorkerLoad>, w: WorkerLoad)
    requires Distinct(workers) && w in workers && w.healthy
    ensures HealthyOf(workers, w.agent) > 1 <==> HasColleague(workers, w)
  {
    var ok := HealthyAt(w.agent);
    var places := Passing(workers, ok);
    CountIs(workers, ok);
    var i :| 0 <= i < |workers| && workers[i] == w;
    assert i in places;
    if |places| > 1 {
      assert |places - {i}| > 0;
      var j :| j in places - {i};
      assert workers[j] in workers && workers[j] != w;
    }
    if v :| v in workers && v != w && v.healthy && v.agent == w.agent {
      var j :| 0 <= j < |workers| && workers[j] == v;
      assert j in places - {i};
      assert |places - {i}| > 0;
    }
  }

  /**
   The selection, by the workers' own fields: distinct healthy workers, at most as
   many as asked for, that each have a colleague; and a healthy worker with a
   colleague is left out only if that many others, none of them busier, are taken.
   */
  lemma SelectionExactly(workers: seq<WorkerLoad>, count: nat)
    requires Distinct(workers)
    ensures var chosen := Selection(workers, count);
      && Distinct(chosen) && |chosen| <= count
      && (forall w <- chosen :: w in workers && w.healthy && HasColleague(workers, w))
      && (forall v <- workers :: v.healthy && HasColleague(workers, v) && v !in chosen ==>
            |chosen| == count && forall w <- chosen :: w.active <= v.active)
  {
    var chosen, candidates := Selection(workers, count), Candidates(workers, workers);
    hide Selection, Candidates, HealthyOf, HasColleague;
    SelectionIs(workers, count);
    CandidatesAre(workers, workers);
    forall w <- chosen ensures HasColleague(workers, w) {
      ColleagueIs(workers, w);
    }
    forall v <- workers | v.healthy && HasColleague(workers, v) && v !in chosen
      ensures |chosen| == count && forall w <- chosen :: w.active <= v.active
    {
      ColleagueIs(workers, v);
      LeftOut(chosen, candidates, v);
    }
  }

  /** Distinct elements of a sequence that leave one out are fewer. */
  lemma LeftOut<T>(chosen: seq<T>, candidates: seq<T>, v: T)
    requires Distinct(chosen) && v in candidates && v !in chosen
    requires forall w <- chosen :: w in candidates
    ensures |chosen| < |candidates|
  {
    var small := set w | w in chosen;
    var large := set w | w in candidates;
    DistinctSize(chosen);
    SizeAtMost(candidates);
    SubsetStrict(small, large, v);
  }

  lemma {:induction false} SizeAtMost<T>(s: seq<T>)
    ensures |set x | x in s| <= |s|
  {
    if s == [] {
    } else {
      var rest, last := s[..|s| - 1], s[|s| - 1];
      SizeAtMost(rest);
      assert (set x | x in s) == (set x | x in rest) + {last};
    }
  }

  lemma SubsetStrict<T>(small: set<T>, large: set<T>, v: T)
    requires small <= large && v in large && v !in small
    ensures |small| < |large|
  {
    assert large == small + (large - small);
    assert v in large - small;
  }

  // ---------------------------------------------------------------------------
  // When an agent keeps a healthy worker
  // ---------------------------------------------------------------------------

  /** Every healthy worker of the agent is selected. */
  ghost predicate Emptied(workers: seq<WorkerLoad>, count: nat, agent: string) {
    forall w <- workers :: HealthyAt(agent)(w) ==> w in Selection(workers, count)
  }

  /** The same workers in the same order, with other loads. */
  ghost predicate SameButLoads(workers: seq<WorkerLoad>, others: seq<WorkerLoad>) {
    |workers| == |others|
    && forall i :: 0 <= i < |workers| ==> others[i] == workers[i].(active := others[i].active)
  }

  lemma {:induction false} CountElements<T>(s: seq<T>, t: seq<T>, ok: T -> bool)
    requires Distinct(s) && forall x <- s :: ok(x) ==> x in t
    ensures Count(s, ok) <= |t|
  {
    if s == [] {
    } else {
      var rest, last := s[..|s| - 1], s[|s| - 1];
      assert forall x <- rest :: x in s && x != last;
      if ok(last) {
        var i :| 0 <= i < |t| && t[i] == last;
        var t' := t[..i] + t[i + 1..];
        forall x <- rest | ok(x) ensures x in t' {
          var j :| 0 <= j < |t| && t[j] == x;
          assert j < i ==> t'[j] == x;
          assert j > i ==> t'[j - 1] == x;
        }
        CountElements(rest, t', ok);
      } else {
        CountElements(rest, t, ok);
      }
    }
  }

  /** A drain smaller than the agent's healthy workers, or of an agent with one, leaves one. */
  lemma KeepsOne(workers: seq<WorkerLoad>, count: nat, agent: string)
    requires Distinct(workers) && HealthyOf(workers, agent) > 0
    requires HealthyOf(workers, agent) == 1 || count < HealthyOf(workers, agent)
    ensures !Emptied(workers, count, agent)
  {
    var chosen := Selection(workers, count);
    SelectionIs(workers, count);
    if HealthyOf(workers, agent) == 1 {
      var w := SomeHealthy(workers, agent);
      assert w !in chosen;
    } else if forall w <- workers :: HealthyAt(agent)(w) ==> w in chosen {
      CountElements(workers, chosen, HealthyAt(agent));
      assert false;
    }
  }

  lemma {:induction false} SomeHealthy(workers: seq<WorkerLoad>, agent: string) returns (w: WorkerLoad)
    requires HealthyOf(workers, agent) > 0
    ensures w in workers && HealthyAt(agent)(w)
  {
    w := workers[|workers| - 1];
    if !HealthyAt(agent)(w) {
      w := SomeHealthy(workers[..|workers| - 1], agent);
    }
  }

  /** The agent's workers idle, all others with one request. */
  function Favouring(workers: seq<WorkerLoad>, agent: string): (others: seq<WorkerLoad>)
    ensures SameButLoads(workers, others)
  {
    seq(|workers|, i requires 0 <= i < |workers| =>
      workers[i].(active := if workers[i].agent == agent then 0 else 1))
  }

  lemma {:induction false} SameHealthy(workers: seq<WorkerLoad>, others: seq<WorkerLoad>, agent: string)
    requires SameButLoads(workers, others)
    ensures HealthyOf(workers, agent) == HealthyOf(others, agent)
  {
    if workers == [] {
    } else {
      SameHealthy(workers[..|workers| - 1], others[..|others| - 1], agent);
    }
  }

  ghost predicate DistinctIds(workers: seq<WorkerLoad>) {
    forall i, j :: 0 <= i < j < |workers| ==> workers[i].id != workers[j].id
  }

  lemma {:induction false} CandidatesCount(some: seq<WorkerLoad>, all: seq<WorkerLoad>, ok: WorkerLoad -> bool)
    ensures Count(Candidates(some, all), ok) <= Count(some, ok)
  {
    if some == [] {
    } else {
      var rest := Candidates(some[..|some| - 1], all);
      CandidatesCount(some[..|some| - 1], all, ok);
      assert (rest + [some[|some| - 1]])[..|rest|] == rest;
    }
  }

  /** In the sort, the healthy workers of an idle agent come before all others. */
  lemma IdleComeFirst(others: seq<WorkerLoad>, agent: string, k: nat)
    requires forall w <- others :: w.active == if w.agent == agent then 0 else 1
    requires k < |Ordered(others)| && HealthyAt(agent)(Ordered(others)[k])
    ensures k < HealthyOf(others, agent)
  {
    IdlePrefix(others, agent, k);
    IdleCount(others, agent);
    PrefixCount(Ordered(others), HealthyAt(agent), k + 1);
  }

  lemma IdlePrefix(others: seq<WorkerLoad>, agent: string, k: nat)
    requires forall w <- others :: w.active == if w.agent == agent then 0 else 1
    requires k < |Ordered(others)| && HealthyAt(agent)(Ordered(others)[k])
    ensures forall i :: 0 <= i < k + 1 ==> HealthyAt(agent)(Ordered(others)[i])
  {
    hide Ordered, Candidates, HealthyOf;
    OrderedIs(others);
    CandidatesAre(others, others);
    forall i | 0 <= i < k + 1 ensures HealthyAt(agent)(Ordered(others)[i]) {
      assert Ordered(others)[i] in others && Ordered(others)[k] in others;
      assert i < k ==> Ordered(others)[i].active <= Ordered(others)[k].active;
    }
  }

  lemma IdleCount(others: seq<WorkerLoad>, agent: string)
    ensures Count(Ordered(others), HealthyAt(agent)) <= HealthyOf(others, agent)
  {
    hide Candidates, Sorted, Count;
    SortedCount(Candidates(others, others), LOAD, HealthyAt(agent));
    CandidatesCount(others, others, HealthyAt(agent));
  }

  /** When the agent's workers are idle and the others are not, a drain as large as the agent empties it. */
  lemma FavouringEmpties(workers: seq<WorkerLoad>, count: nat, agent: string)
    requires 1 < HealthyOf(workers, agent) <= count
    ensures Emptied(Favouring(workers, agent), count, agent)
  {
    hide Ordered, Candidates, HealthyOf;
    var others := Favouring(workers, agent);
    var ordered := Ordered(others);
    SameHealthy(workers, others, agent);
    CandidatesAre(others, others);
    OrderedIs(others);
    forall w <- others | HealthyAt(agent)(w) ensures w in Selection(others, count) {
      assert w in ordered;
      var k :| 0 <= k < |ordered| && ordered[k] == w;
      IdleComeFirst(others, agent, k);
      assert count < |ordered| ==> ordered[..count][k] == w;
    }
  }

  /**
   Exactly when an agent with healthy workers is sure to keep one, whatever the
   loads: it has only one, or the drain is smaller than its healthy workers.
   */
  lemma KeepsOneExactly(workers: seq<WorkerLoad>, count: nat, agent: string)
    requires DistinctIds(workers) && HealthyOf(workers, agent) > 0
    ensures (forall others :: SameButLoads(workers, others) ==> !Emptied(others, count, agent))
       <==> HealthyOf(workers, agent) == 1 || count < HealthyOf(workers, agent)
  {
    if HealthyOf(workers, agent) == 1 || count < HealthyOf(workers, agent) {
      forall others | SameButLoads(workers, others) ensures !Emptied(others, count, agent) {
        SameHealthy(workers, others, agent);
        KeepsOne(others, count, agent);
      }
    } else {
      FavouringEmpties(workers, count, agent);
      assert SameButLoads(workers, Favouring(workers, agent));
    }
  }
}
