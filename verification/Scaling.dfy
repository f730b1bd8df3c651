/**
 The autoscaler's decisions: how many workers to add for a backlog, when the
 cluster has been idle long enough to shrink, and where the number of workers
 can go over any run of such decisions.
 */
module Scaling {
  import opened Limits
  import opened DrainSelection
  import ScaleUp
  import SpawnPlacement
  import opened Sorting

  const SUSTAINED := 5_000_000_000               // five seconds, in nanoseconds

  datatype Config = Config(minWorkers: int, maxWorkers: int, maxUpStep: int, maxDownStep: nat)

  /** What a collection of the metrics reports. */
  datatype Metrics = Metrics(queueSize: int, queueDepth: real, inFlight: int, healthy: int, total: int)

  /** Division as the code's integers do it: towards zero. */
  function Quotient(x: int, n: int): int
    requires n > 0
  {
    if x >= 0 then x / n else -(-x / n)
  }

  function Truncate(x: real): int {
    if x >= 0.0 then x.Floor else -(-x).Floor
  }

  /** The backlog: the queue's size, or the smoothed depth when the queue is empty. */
  function Backlog(m: Metrics): int {
    if m.queueSize == 0 then Truncate(m.queueDepth) else m.queueSize
  }

  /** The most workers `agents` agents may have in all; zero or less means no limit. */
  function Cap(cfg: Config, agents: nat): int {
    if agents == 0 then cfg.maxWorkers else agents * cfg.maxWorkers
  }

  function Capped(target: int, cap: int): int {
    if cap > 0 && target > cap then cap else target
  }

  // ---------------------------------------------------------------------------
  // Scaling up
  // ---------------------------------------------------------------------------

  /** The periodic decision. */
  function EvaluateScaleUp(cfg: Config, agents: nat, m: Metrics): Option<int> {
    var cap, backlog := Cap(cfg, agents), Backlog(m);
    if cap > 0 && m.total >= cap then None
    else if backlog > 0 then
      var needed := Capped(Max(m.total + Quotient(backlog, 5), 1), cap) - m.total;
      if needed > 0 then Some(Min(needed, cfg.maxUpStep)) else None
    else None
  }

  /** The decision when a request finds no worker. */
  function TriggerScaleUp(cfg: Config, agents: nat, m: Metrics): Option<int> {
    var cap := Cap(cfg, agents);
    var needed := Capped(Max(m.healthy + Quotient(Backlog(m), 3), 1), cap) - m.total;
    if needed > 0 then Some(Min(needed, cfg.maxUpStep)) else None
  }

  /** `n` requests are waiting: in the queue, or by the smoothed depth when the queue is empty. */
  predicate Waiting(m: Metrics, n: int) {
    if m.queueSize == 0 then n as real <= m.queueDepth else n <= m.queueSize
  }

  /** `k` more workers stay within what the agents may have; without agents one agent's share counts. */
  predicate Fits(cfg: Config, agents: nat, m: Metrics, k: int) {
    cfg.maxWorkers > 0 ==> m.total + k <= Max(agents, 1) * cfg.maxWorkers
  }

  /** The periodic decision may add a `k`th worker: one for five requests, and a first one for any. */
  predicate DuePeriodically(cfg: Config, agents: nat, m: Metrics, k: int) {
    Fits(cfg, agents, m, k) && (Waiting(m, 5 * k) || (m.total + k == 1 && Waiting(m, 1)))
  }

  /** A trigger may: one for three requests that the healthy workers leave to others, and a first one anyway. */
  predicate DueByTrigger(cfg: Config, agents: nat, m: Metrics, k: int) {
    Fits(cfg, agents, m, k) && (Waiting(m, 3 * (m.total + k - m.healthy)) || m.total + k == 1)
  }

  lemma WaitingIs(m: Metrics, n: int)
    requires n > 0
    ensures Waiting(m, n) <==> n <= Backlog(m)
  {
  }

  lemma QuotientAtLeast(x: int, n: int, k: int)
    requires n > 0 && k > 0
    ensures Quotient(x, n) >= k <==> x >= n * k
  {
    if x >= 0 {
      assert x == n * (x / n) + x % n;
      if x / n >= k {
        ProductGrows(n, k, x / n);
      } else {
        ProductGrows(n, x / n + 1, k);
      }
    } else {
      ProductGrows(n, 0, k);
    }
  }

  lemma ProductGrows(n: int, j: int, k: int)
    requires n > 0 && j <= k
    ensures n * j <= n * k
  {
  }

  lemma FitsIs(cfg: Config, agents: nat, m: Metrics, k: int)
    ensures Fits(cfg, agents, m, k) <==> (Cap(cfg, agents) > 0 ==> m.total + k <= Cap(cfg, agents))
  {
    if agents > 0 && cfg.maxWorkers <= 0 {
      ProductGrows(agents, cfg.maxWorkers, 0);
    } else if agents > 0 {
      ProductGrows(cfg.maxWorkers, 1, agents);
    }
  }

  /** What such a decision is: the step, or fewer workers if no more are due. */
  ghost predicate AsManyAsDue(decided: Option<int>, step: int, due: int -> bool) {
    match decided
    case None => !due(1)
    case Some(n) =>
      Min(1, step) <= n <= step && due(1) && (forall k :: 1 <= k <= n ==> due(k)) && (n < step ==> !due(n + 1))
  }

  /** That determines it. */
  lemma OneAmount(decided: Option<int>, other: Option<int>, step: int, due: int -> bool)
    requires step > 0 && AsManyAsDue(decided, step, due) && AsManyAsDue(other, step, due)
    ensures decided == other
  {
  }

  lemma PeriodicNeeds(cfg: Config, agents: nat, m: Metrics, k: int)
    requires m.total >= 0 && k > 0
    ensures DuePeriodically(cfg, agents, m, k) <==>
      Backlog(m) > 0 && Capped(Max(m.total + Quotient(Backlog(m), 5), 1), Cap(cfg, agents)) - m.total >= k
  {
    hide Backlog, Waiting, Cap, Fits, Quotient;
    WaitingIs(m, 5 * k);
    WaitingIs(m, 1);
    QuotientAtLeast(Backlog(m), 5, k);
    FitsIs(cfg, agents, m, k);
  }

  /** The number the periodic decision adds, from the metrics themselves. */
  lemma PeriodicAmount(cfg: Config, agents: nat, m: Metrics)
    requires m.total >= 0
    ensures AsManyAsDue(EvaluateScaleUp(cfg, agents, m), cfg.maxUpStep, k => DuePeriodically(cfg, agents, m, k))
  {
    hide Backlog, Cap, DuePeriodically;
    forall k | k > 0 ensures DuePeriodically(cfg, agents, m, k) <==>
      Backlog(m) > 0 && Capped(Max(m.total + Quotient(Backlog(m), 5), 1), Cap(cfg, agents)) - m.total >= k
    {
      PeriodicNeeds(cfg, agents, m, k);
    }
  }

  lemma TriggerNeeds(cfg: Config, agents: nat, m: Metrics, k: int)
    requires 0 <= m.healthy <= m.total && k > 0
    ensures DueByTrigger(cfg, agents, m, k) <==>
      Capped(Max(m.healthy + Quotient(Backlog(m), 3), 1), Cap(cfg, agents)) - m.total >= k
  {
    hide Backlog, Waiting, Cap, Fits, Quotient;
    var pending := m.total + k - m.healthy;
    WaitingIs(m, 3 * pending);
    QuotientAtLeast(Backlog(m), 3, pending);
    FitsIs(cfg, agents, m, k);
  }

  /** The number a trigger adds, from the metrics themselves. */
  lemma TriggerAmount(cfg: Config, agents: nat, m: Metrics)
    requires 0 <= m.healthy <= m.total
    ensures AsManyAsDue(TriggerScaleUp(cfg, agents, m), cfg.maxUpStep, k => DueByTrigger(cfg, agents, m, k))
  {
    hide Backlog, Cap, DueByTrigger;
    forall k | k > 0 ensures DueByTrigger(cfg, agents, m, k) <==>
      Capped(Max(m.healthy + Quotient(Backlog(m), 3), 1), Cap(cfg, agents)) - m.total >= k
    {
      TriggerNeeds(cfg, agents, m, k);
    }
  }

  /** It adds workers exactly below the cap, for a backlog of five, or any backlog without workers. */
  lemma ScalesUpExactly(cfg: Config, agents: nat, m: Metrics)
    requires m.total >= 0
    ensures EvaluateScaleUp(cfg, agents, m).Some? <==>
      && (Cap(cfg, agents) > 0 ==> m.total < Cap(cfg, agents))
      && Backlog(m) > 0 && (Backlog(m) >= 5 || m.total == 0)
  {
    assert Backlog(m) > 0 ==> (Quotient(Backlog(m), 5) > 0 <==> Backlog(m) >= 5);
  }

  /** A trigger adds workers exactly below the cap, if the backlog has three requests to spare per unhealthy worker. */
  lemma TriggersExactly(cfg: Config, agents: nat, m: Metrics)
    requires 0 <= m.healthy <= m.total
    ensures TriggerScaleUp(cfg, agents, m).Some? <==>
      && (Cap(cfg, agents) > 0 ==> m.total < Cap(cfg, agents))
      && (Backlog(m) >= 3 * (m.total - m.healthy + 1) || m.total == 0)
  {
    var backlog, pending := Backlog(m), m.total - m.healthy;
    hide Cap, Backlog;
    assert Quotient(backlog, 3) > pending <==> backlog >= 3 * (pending + 1);
  }

  /** When all workers are healthy a trigger asks for at least as many as the periodic decision. */
  lemma TriggerAsksMore(cfg: Config, agents: nat, m: Metrics)
    requires 0 <= m.healthy == m.total && EvaluateScaleUp(cfg, agents, m).Some?
    ensures TriggerScaleUp(cfg, agents, m).Some?
    ensures TriggerScaleUp(cfg, agents, m).value >= EvaluateScaleUp(cfg, agents, m).value
  {
    var backlog := Backlog(m);
    hide Cap, Backlog;
    assert Quotient(backlog, 3) >= Quotient(backlog, 5);
  }

  // ---------------------------------------------------------------------------
  // Scaling down
  // ---------------------------------------------------------------------------

  /** One evaluation: the metrics, and the two readings of the clock. */
  datatype Evaluation = Evaluation(m: Metrics, at: int, after: int)

  predicate Idle(m: Metrics, minWorkers: int) {
    m.queueSize == 0 && m.inFlight == 0 && m.total > minWorkers
  }

  function Excess(cfg: Config, total: int): int {
    Min(total - cfg.minWorkers, cfg.maxDownStep)
  }

  /** When the idle stretch that ends the history began. */
  function IdleSince(history: seq<Evaluation>, minWorkers: int): Option<int> {
    if history == [] || !Idle(history[|history| - 1].m, minWorkers) then None
    else
      var before := IdleSince(history[..|history| - 1], minWorkers);
      if before.Some? then before else Some(history[|history| - 1].at)
  }

  /** Every evaluation from the `i`th on saw an empty queue, nothing in flight and more workers than the minimum. */
  ghost predicate IdleFrom(history: seq<Evaluation>, minWorkers: int, i: nat) {
    && i < |history|
    && forall j :: i <= j < |history| ==>
         history[j].m.queueSize == 0 && history[j].m.inFlight == 0 && history[j].m.total > minWorkers
  }

  /** Some evaluation at least five seconds ago, and every one since, saw an idle cluster. */
  ghost predicate Sustained(history: seq<Evaluation>, minWorkers: int, now: int) {
    exists i: nat :: IdleFrom(history, minWorkers, i) && history[i].at + 5_000_000_000 <= now
  }

  /** The clock does not run backwards. */
  ghost predicate Orderly(history: seq<Evaluation>) {
    && (forall i :: 0 <= i < |history| ==> history[i].at <= history[i].after)
    && (forall i, j :: 0 <= i < j < |history| ==> history[i].after <= history[j].at)
  }

  class ScaleDownTimer {
    const cfg: Config
    var lowLoadSince: Option<int>
    ghost var history: seq<Evaluation>

    ghost predicate Valid()
      reads this
    {
      lowLoadSince == IdleSince(history, cfg.minWorkers)
    }

    constructor (cfg: Config)
      ensures Valid() && this.cfg == cfg && history == []
    {
      this.cfg, lowLoadSince, history := cfg, None, [];
    }

    /**
     Answers how many workers to remove, or none. Over any run the answer is
     positive exactly when some evaluation at least five seconds ago and every one
     since then, this one included, saw an idle cluster.
     */
    method EvaluateScaleDown(m: Metrics, at: int, after: int) returns (remove: Option<int>)
      requires Valid() && Orderly(history + [Evaluation(m, at, after)])
      modifies this
      ensures Valid() && history == old(history) + [Evaluation(m, at, after)]
      ensures remove.Some? <==> Sustained(history, cfg.minWorkers, after)
      ensures remove.Some? ==>
        remove.value <= cfg.maxDownStep && m.total - remove.value >= cfg.minWorkers
        && (remove.value == cfg.maxDownStep || m.total - remove.value == cfg.minWorkers)
    {
      hide Orderly, Sustained, IdleSince;
      IdleSinceSnoc(history, Evaluation(m, at, after), cfg.minWorkers);
      history := history + [Evaluation(m, at, after)];
      SustainedExactly(history, cfg.minWorkers, after);
      if m.queueSize == 0 && m.inFlight == 0 {
        var excess := m.total - cfg.minWorkers;
        if excess > 0 {
          if lowLoadSince.None? {
            lowLoadSince := Some(at);
          }
          if after - lowLoadSince.value < SUSTAINED {
            return None;
          }
          return Some(Min(excess, cfg.maxDownStep));
        }
      }
      lowLoadSince := None;
      return None;
    }
  }

  lemma IdleSinceSnoc(history: seq<Evaluation>, e: Evaluation, minWorkers: int)
    ensures IdleSince(history + [e], minWorkers)
         == if !Idle(e.m, minWorkers) then None
            else if IdleSince(history, minWorkers).Some? then IdleSince(history, minWorkers)
            else Some(e.at)
  {
    assert (history + [e])[..|history|] == history;
  }

  /** The timer is the clock at the start of an idle stretch that ends the history. */
  lemma {:induction false} StretchOf(history: seq<Evaluation>, minWorkers: int) returns (i: nat)
    requires IdleSince(history, minWorkers).Some?
    ensures IdleFrom(history, minWorkers, i) && history[i].at == IdleSince(history, minWorkers).value
  {
    var rest := history[..|history| - 1];
    if IdleSince(rest, minWorkers).Some? {
      i := StretchOf(rest, minWorkers);
    } else {
      i := |rest|;
    }
  }

  /** And no such stretch began earlier. */
  lemma {:induction false} StretchIsLongest(history: seq<Evaluation>, minWorkers: int, i: nat)
    requires Orderly(history) && IdleFrom(history, minWorkers, i)
    ensures i < |history| && IdleSince(history, minWorkers).Some?
    ensures IdleSince(history, minWorkers).value <= history[i].at
  {
    var rest := history[..|history| - 1];
    if i < |rest| {
      StretchIsLongest(rest, minWorkers, i);
    } else if IdleSince(rest, minWorkers).Some? {
      var k := StretchOf(rest, minWorkers);
      assert history[k].after <= history[i].at;
    }
  }

  /** The timer has run for five seconds exactly when some idle stretch to the end has. */
  lemma SustainedExactly(history: seq<Evaluation>, minWorkers: int, after: int)
    requires Orderly(history)
    ensures var since := IdleSince(history, minWorkers);
      since.Some? && since.value + SUSTAINED <= after <==> Sustained(history, minWorkers, after)
  {
    hide IdleSince, Orderly, IdleFrom;
    if IdleSince(history, minWorkers).Some? {
      var i := StretchOf(history, minWorkers);
    }
    forall i: nat | IdleFrom(history, minWorkers, i)
      ensures IdleSince(history, minWorkers).Some? && i < |history|
      ensures IdleSince(history, minWorkers).value <= history[i].at
    {
      StretchIsLongest(history, minWorkers, i);
    }
  }

  // ---------------------------------------------------------------------------
  // Runs: one operation at a time, drains completed, spawns failing at will
  // ---------------------------------------------------------------------------

  /** One scaling operation on fresh metrics, and how many workers it really added or removed. */
  datatype Operation =
    | Periodic(m: Metrics, agents: nat, added: nat)
    | Triggered(m: Metrics, agents: nat, added: nat)
    | Shrink(m: Metrics, removed: nat)

  /** An operation as the code allows it: never more workers than decided. */
  predicate Allowed(cfg: Config, op: Operation, total: int) {
    op.m.total == total && op.m.healthy <= total &&
    match op
    case Periodic(m, agents, added) =>
      var decided := EvaluateScaleUp(cfg, agents, m);
      added <= if decided.Some? then Max(decided.value, 0) else 0
    case Triggered(m, agents, added) =>
      var decided := TriggerScaleUp(cfg, agents, m);
      added <= if decided.Some? then Max(decided.value, 0) else 0
    case Shrink(m, removed) =>
      removed <= if Idle(m, cfg.minWorkers) then Excess(cfg, total) else 0
  }

  function After(op: Operation, total: int): int {
    match op
    case Periodic(_, _, added) => total + added
    case Triggered(_, _, added) => total + added
    case Shrink(_, removed) => total - removed
  }

  /** What nothing in the way of a decision makes it add. */
  ghost predicate Carried(decided: Option<int>, added: int, smooth: bool) {
    match decided
    case None => added == 0
    case Some(count) => (smooth && count >= 0 ==> added == count) && (count <= 0 ==> added == 0)
  }

  /** Nothing is in the way: each spawn names a worker, no penalty runs out meanwhile and some agent has none. */
  ghost predicate Unobstructed(w: ScaleUp.Setting, c: ScaleUp.Cluster, decided: Option<int>) {
    && decided.Some? && SpawnPlacement.Smooth(w, c, decided.value, SpawnPlacement.PenalizedNow(w, c))
    && SpawnPlacement.Kept(w.agents, SpawnPlacement.PenalizedNow(w, c)) != []
  }

  lemma CarriedOut(w: ScaleUp.Setting, c: ScaleUp.Cluster, decided: Option<int>, healthy: map<string, nat>,
                   course: ScaleUp.Course)
    requires decided.Some? && ScaleUp.Outcome(w, c, decided.value, healthy, course)
    ensures 0 <= course.end.total - c.total <= Max(decided.value, 0)
    ensures Carried(decided, course.end.total - c.total, Unobstructed(w, c, decided))
  {
    hide SpawnPlacement.Smooth, SpawnPlacement.Kept, ScaleUp.Covers, ScaleUp.Adds;
    SpawnPlacement.NeverMore(w, c, decided.value, healthy, course);
    if Unobstructed(w, c, decided) && decided.value >= 0 {
      SpawnPlacement.PlacedSmoothly(w, c, decided.value, healthy, SpawnPlacement.PenalizedNow(w, c), course);
    }
  }

  /** What is added is due, and with nothing in the way it is the whole step or all that is due. */
  ghost predicate AddsWhatIsDue(w: ScaleUp.Setting, c: ScaleUp.Cluster, added: nat, step: int, due: int -> bool) {
    && (added > 0 ==> added <= step && due(added))
    && (forall n: nat :: AsManyAsDue(Some(n), step, due) && Unobstructed(w, c, Some(n)) ==> added == n)
  }

  lemma DueIsAdded(w: ScaleUp.Setting, c: ScaleUp.Cluster, decided: Option<int>, added: nat, step: int,
                   due: int -> bool)
    requires AsManyAsDue(decided, step, due) && Carried(decided, added, Unobstructed(w, c, decided))
    requires added <= if decided.Some? then Max(decided.value, 0) else 0
    ensures AddsWhatIsDue(w, c, added, step, due)
  {
    hide Unobstructed;
    forall n: nat | AsManyAsDue(Some(n), step, due) && Unobstructed(w, c, Some(n)) ensures added == n {
      if step > 0 {
        OneAmount(decided, Some(n), step, due);
      }
    }
  }

  /** The scale-up that follows a decision. */
  method CarryOut(scaler: ScaleUp.Autoscaler, decided: Option<int>, agents: seq<string>,
                  healthy: map<string, nat>, clock: nat -> int)
    requires scaler.table.Valid()
    modifies scaler, scaler.table
    ensures scaler.table.Valid()
    ensures old(scaler.total) <= scaler.total
    ensures scaler.total - old(scaler.total) <= if decided.Some? then Max(decided.value, 0) else 0
    ensures Carried(decided, scaler.total - old(scaler.total),
                    Unobstructed(scaler.Under(agents, clock), old(scaler.Now()), decided))
  {
    hide Unobstructed, ScaleUp.Outcome;
    if decided.Some? {
      ghost var c := scaler.Now();
      var _, course := scaler.ScaleUp(decided.value, agents, healthy, clock);
      CarriedOut(scaler.Under(agents, clock), c, decided, healthy, course);
    }
  }

  /**
   A periodic decision carried out is such an operation, whatever the agents
   answer; with nothing in the way it adds exactly the number decided.
   */
  method Periodically(scaler: ScaleUp.Autoscaler, cfg: Config, m: Metrics, agents: seq<string>,
                      healthy: map<string, nat>, clock: nat -> int)
    returns (ghost op: Operation)
    requires scaler.table.Valid() && m.total == scaler.total && m.healthy <= m.total
    modifies scaler, scaler.table
    ensures scaler.table.Valid() && op.Periodic? && op.m == m && op.agents == |agents|
    ensures Allowed(cfg, op, old(scaler.total)) && scaler.total == After(op, old(scaler.total))
    ensures AddsWhatIsDue(scaler.Under(agents, clock), old(scaler.Now()), op.added, cfg.maxUpStep,
                          k => DuePeriodically(cfg, |agents|, m, k))
    ensures var decided := EvaluateScaleUp(cfg, |agents|, m);
      Carried(decided, op.added, Unobstructed(scaler.Under(agents, clock), old(scaler.Now()), decided))
  {
    hide Carried, Unobstructed, AddsWhatIsDue, AsManyAsDue, EvaluateScaleUp;
    ghost var c := scaler.Now();
    var decided := EvaluateScaleUp(cfg, |agents|, m);
    CarryOut(scaler, decided, agents, healthy, clock);
    op := Periodic(m, |agents|, scaler.total - old(scaler.total));
    PeriodicAmount(cfg, |agents|, m);
    DueIsAdded(scaler.Under(agents, clock), c, decided, op.added, cfg.maxUpStep,
               k => DuePeriodically(cfg, |agents|, m, k));
  }

  /** So is a triggered one. */
  method OnNoWorkers(scaler: ScaleUp.Autoscaler, cfg: Config, m: Metrics, agents: seq<string>,
                     healthy: map<string, nat>, clock: nat -> int)
    returns (ghost op: Operation)
    requires scaler.table.Valid() && m.total == scaler.total && m.healthy <= m.total
    modifies scaler, scaler.table
    ensures scaler.table.Valid() && op.Triggered? && op.m == m && op.agents == |agents|
    ensures Allowed(cfg, op, old(scaler.total)) && scaler.total == After(op, old(scaler.total))
    ensures 0 <= m.healthy ==>
      AddsWhatIsDue(scaler.Under(agents, clock), old(scaler.Now()), op.added, cfg.maxUpStep,
                    k => DueByTrigger(cfg, |agents|, m, k))
    ensures var decided := TriggerScaleUp(cfg, |agents|, m);
      Carried(decided, op.added, Unobstructed(scaler.Under(agents, clock), old(scaler.Now()), decided))
  {
    hide Carried, Unobstructed, AddsWhatIsDue, AsManyAsDue, TriggerScaleUp;
    ghost var c := scaler.Now();
    var decided := TriggerScaleUp(cfg, |agents|, m);
    CarryOut(scaler, decided, agents, healthy, clock);
    op := Triggered(m, |agents|, scaler.total - old(scaler.total));
    if 0 <= m.healthy {
      TriggerAmount(cfg, |agents|, m);
      DueIsAdded(scaler.Under(agents, clock), c, decided, op.added, cfg.maxUpStep,
                 k => DueByTrigger(cfg, |agents|, m, k));
    }
  }

  /** And so is the removal of any of the workers selected after an idle stretch. */
  lemma DrainAllowed(cfg: Config, m: Metrics, workers: seq<WorkerLoad>, removed: nat)
    requires Distinct(workers) && m.total == |workers| && m.healthy <= m.total && Idle(m, cfg.minWorkers)
    requires removed <= |Selection(workers, Excess(cfg, m.total))|
    ensures Allowed(cfg, Shrink(m, removed), |workers|)
  {
    SelectionIs(workers, Excess(cfg, m.total));
  }

  ghost predicate RunsTo(cfg: Config, ops: seq<Operation>, total: int, total': int)
    decreases |ops|
  {
    if ops == [] then total' == total
    else Allowed(cfg, ops[0], total) && RunsTo(cfg, ops[1..], After(ops[0], total), total')
  }

  /** Every operation that adds workers had a cap, of at most `most`. */
  ghost predicate CapsWithin(cfg: Config, ops: seq<Operation>, most: int) {
    forall op <- ops :: !op.Shrink? ==> 0 < Cap(cfg, op.agents) <= most
  }

  /** Over any run, with agents coming and going, the workers stay between the minimum and the largest cap. */
  lemma {:induction false} TotalStays(cfg: Config, ops: seq<Operation>, total: int, total': int, most: int)
    requires RunsTo(cfg, ops, total, total') && CapsWithin(cfg, ops, most)
    requires cfg.minWorkers <= total <= most
    ensures cfg.minWorkers <= total' <= most
    decreases |ops|
  {
    if ops == [] {
    } else {
      assert ops[0] in ops;
      assert forall op <- ops[1..] :: op in ops;
      StepStays(cfg, ops[0], total, most);
      TotalStays(cfg, ops[1..], After(ops[0], total), total', most);
    }
  }

  lemma StepStays(cfg: Config, op: Operation, total: int, most: int)
    requires Allowed(cfg, op, total) && (!op.Shrink? ==> 0 < Cap(cfg, op.agents) <= most)
    requires cfg.minWorkers <= total <= most
    ensures cfg.minWorkers <= After(op, total) <= most
  {
    hide Cap, Quotient, Backlog;
  }

  /** A standing backlog, every spawn a success: how far `ticks` periodic decisions take the cluster. */
  function Grown(cfg: Config, agents: nat, m: Metrics, ticks: nat): int {
    if ticks == 0 then m.total
    else
      var total := Grown(cfg, agents, m, ticks - 1);
      var decided := EvaluateScaleUp(cfg, agents, m.(total := total));
      total + if decided.Some? then Max(decided.value, 0) else 0
  }

  /** It grows by a fifth of the backlog, or the largest step, per tick, up to the cap exactly. */
  lemma {:induction false} GrowsToCap(cfg: Config, agents: nat, m: Metrics, ticks: nat)
    requires 0 <= m.total <= Cap(cfg, agents) != 0 && Backlog(m) >= 5 && cfg.maxUpStep > 0
    ensures Grown(cfg, agents, m, ticks)
         == Min(Cap(cfg, agents), m.total + ticks * Min(Backlog(m) / 5, cfg.maxUpStep))
  {
    hide Cap, Backlog, EvaluateScaleUp;
    if ticks == 0 {
    } else {
      GrowsToCap(cfg, agents, m, ticks - 1);
      var step, before := Min(Backlog(m) / 5, cfg.maxUpStep), Grown(cfg, agents, m, ticks - 1);
      assert ticks * step == (ticks - 1) * step + step >= step;
      GrowsOnce(cfg, agents, m, before);
    }
  }

  lemma GrowsOnce(cfg: Config, agents: nat, m: Metrics, total: int)
    requires 0 <= total <= Cap(cfg, agents) != 0 && Backlog(m) >= 5 && cfg.maxUpStep > 0
    ensures var decided := EvaluateScaleUp(cfg, agents, m.(total := total));
      total + (if decided.Some? then Max(decided.value, 0) else 0)
      == Min(Cap(cfg, agents), total + Min(Backlog(m) / 5, cfg.maxUpStep))
  {
    hide Cap, Truncate;
  }

  // ---------------------------------------------------------------------------
  // The minimum, when some workers are not healthy
  // ---------------------------------------------------------------------------

  const HEALTHY: WorkerLoad -> bool := (w: WorkerLoad) => w.healthy

  function Healthy(workers: seq<WorkerLoad>): nat {
    Count(workers, HEALTHY)
  }

  /** The healthy workers one scale-down leaves; the excess counts all workers, the drain takes healthy ones. */
  function HealthyLeft(cfg: Config, workers: seq<WorkerLoad>): int {
    var excess := Excess(cfg, |workers|);
    Healthy(workers) - if excess > 0 then |Selection(workers, excess)| else 0
  }

  /**
   Exactly when one scale-down leaves the minimum of healthy workers: every
   worker is healthy, or the drainable ones or the step are few enough.
   */
  lemma KeepsMinimumExactly(cfg: Config, workers: seq<WorkerLoad>)
    requires Healthy(workers) >= cfg.minWorkers
    ensures HealthyLeft(cfg, workers) >= cfg.minWorkers <==>
      || Healthy(workers) == |workers|
      || |Candidates(workers, workers)| <= Healthy(workers) - cfg.minWorkers
      || cfg.maxDownStep <= Healthy(workers) - cfg.minWorkers
  {
    hide Count, Ordered, Candidates;
    OrderedIs(workers);
    CountAtMost(workers, HEALTHY);
  }

  lemma {:induction false} CountAtMost<T>(s: seq<T>, ok: T -> bool)
    ensures Count(s, ok) <= |s|
  {
    if s == [] {
    } else {
      CountAtMost(s[..|s| - 1], ok);
    }
  }

  /** Two healthy workers and one still starting, on one agent, with a minimum of one: both are drained. */
  lemma MinimumCanFail() returns (cfg: Config, workers: seq<WorkerLoad>)
    ensures cfg.minWorkers == 1 && Healthy(workers) == 2 && HealthyLeft(cfg, workers) == 0
  {
    cfg := Config(1, 4, 10, 10);
    var a, b := WorkerLoad("a", "agent", true, 0), WorkerLoad("b", "agent", true, 0);
    var c := WorkerLoad("c", "agent", false, 0);
    workers := [a, b, c];
    TwoPass(a, b, c, HEALTHY);
    TwoPass(a, b, c, HealthyAt("agent"));
    TwoCandidates(a, b, c, workers);
    OrderedIs(workers);
  }

  lemma TwoPass<T>(a: T, b: T, c: T, ok: T -> bool)
    requires ok(a) && ok(b) && !ok(c)
    ensures Count([a, b, c], ok) == 2
  {
    assert [a, b, c][..2] == [a, b] && [a, b][..1] == [a];
    assert Count([a], ok) == 1;
    assert Count([a, b], ok) == 2;
  }

  lemma TwoCandidates(a: WorkerLoad, b: WorkerLoad, c: WorkerLoad, all: seq<WorkerLoad>)
    requires a.healthy && b.healthy && !c.healthy && HealthyOf(all, a.agent) > 1 && HealthyOf(all, b.agent) > 1
    ensures Candidates([a, b, c], all) == [a, b]
  {
    hide Count;
    assert [a, b, c][..2] == [a, b] && [a, b][..1] == [a];
    assert Candidates([a], all) == [a];
    assert Candidates([a, b], all) == [a, b];
  }
}
