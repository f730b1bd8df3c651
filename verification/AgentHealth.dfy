/**
 How spawn failures penalise an agent. Durations are 64-bit nanoseconds and
 the doubling wraps around, so the escalation does not last for ever.
 */
module AgentHealth {
  import opened Limits

  const TWO_63 := 0x8000_0000_0000_0000
  const TWO_64 := 0x1_0000_0000_0000_0000
  const PENALTY_CAP := 300_000_000_000          // five minutes
  const DEFAULT_PENALTY := 30_000_000_000       // thirty seconds

  function Pow2(k: nat): nat {
    if k == 0 then 1 else 2 * Pow2(k - 1)
  }

  /** A mathematical integer as a signed 64-bit value. */
  function Wrap64(x: int): (r: int)
    ensures -TWO_63 <= r < TWO_63
    ensures -TWO_63 <= x < TWO_63 ==> r == x
  {
    (x + TWO_63) % TWO_64 - TWO_63
  }

  /** The penalty after `f` failures in a row, in the code's arithmetic. */
  function Penalty(base: int, f: nat): int
    requires f > 0
  {
    var penalty := Wrap64(base * Wrap64(Pow2(f - 1)));
    if penalty > PENALTY_CAP then PENALTY_CAP else penalty
  }

  /** The penalty as described: doubled with each failure, capped. */
  function Escalated(base: int, f: nat): int
    requires f > 0
  {
    Min(base * Pow2(f - 1), PENALTY_CAP)
  }

  // ---------------------------------------------------------------------------
  // Where the two agree
  // ---------------------------------------------------------------------------

  /** While the doubled base still fits, the penalty is as described, and positive. */
  lemma PenaltyFits(base: int, f: nat)
    requires base > 0 && f > 0 && base * Pow2(f - 1) < TWO_63
    ensures Penalty(base, f) == Escalated(base, f) > 0
  {
    hide Wrap64, Pow2;
    Pow2Positive(f - 1);
    assert Pow2(f - 1) <= base * Pow2(f - 1);
  }

  lemma {:induction false} Pow2Positive(k: nat)
    ensures Pow2(k) > 0
  {
    if k == 0 {
    } else {
      Pow2Positive(k - 1);
    }
  }

  lemma {:induction false} Pow2Monotone(j: nat, k: nat)
    requires j <= k
    ensures Pow2(j) <= Pow2(k)
  {
    if j == k {
    } else {
      Pow2Monotone(j, k - 1);
      Pow2Positive(k - 1);
    }
  }

  /** While it fits, one more failure never lowers the penalty. */
  lemma PenaltyGrows(base: int, f: nat, g: nat)
    requires base > 0 && 0 < f <= g && base * Pow2(g - 1) < TWO_63
    ensures Penalty(base, f) <= Penalty(base, g)
  {
    Pow2Monotone(f - 1, g - 1);
    assert base * Pow2(f - 1) <= base * Pow2(g - 1);
    PenaltyFits(base, f);
    PenaltyFits(base, g);
  }

  /** Values from 2^63 to 2^64 turn negative. */
  lemma WrapUpper(x: int)
    requires TWO_63 <= x < TWO_64
    ensures Wrap64(x) == x - TWO_64 < 0
  {
  }

  /** A product that overflows for the first time turns negative, whichever factor overflowed. */
  lemma DoubledProduct(base: int, half: int, product: int)
    requires 0 < base && 0 < half && product == base * half < TWO_63 <= 2 * product
    ensures Wrap64(base * Wrap64(2 * half)) < 0
  {
    hide Wrap64;
    assert half <= base * half;
    if 2 * half < TWO_63 {
      assert base * (2 * half) == 2 * product;
      WrapUpper(2 * product);
    } else {
      assert base >= 2 ==> base * half >= 2 * half;
      WrapUpper(2 * half);
    }
  }

  /** The first failure whose doubled base no longer fits is not penalised at all. */
  lemma FirstOverflow(base: int, f: nat)
    requires 0 < base && f > 1 && base * Pow2(f - 2) < TWO_63 <= base * Pow2(f - 1)
    ensures Penalty(base, f) < 0
  {
    hide Wrap64;
    Pow2Positive(f - 2);
    var half := Pow2(f - 2);
    assert Pow2(f - 1) == 2 * half;
    assert base * (2 * half) == 2 * (base * half);
    DoubledProduct(base, half, base * half);
  }

  lemma {:induction false} OverflowUpTo(base: int, f: nat) returns (g: nat)
    requires 0 < base < TWO_63 && f > 0 && base * Pow2(f - 1) >= TWO_63
    ensures 0 < g <= f && Penalty(base, g) < 0
  {
    if f > 1 && base * Pow2(f - 2) >= TWO_63 {
      g := OverflowUpTo(base, f - 1);
    } else {
      FirstOverflow(base, f);
      g := f;
    }
  }

  /** For every base: the first `f` penalties are as described exactly when the last doubled base fits. */
  lemma PenaltyRightExactly(base: int, f: nat)
    requires 0 < base < TWO_63 && f > 0
    ensures (forall g :: 0 < g <= f ==> Penalty(base, g) == Escalated(base, g)) <==> base * Pow2(f - 1) < TWO_63
  {
    hide Penalty;
    if base * Pow2(f - 1) < TWO_63 {
      forall g | 0 < g <= f ensures Penalty(base, g) == Escalated(base, g) {
        Pow2Monotone(g - 1, f - 1);
        assert base * Pow2(g - 1) <= base * Pow2(f - 1);
        PenaltyFits(base, g);
      }
    } else {
      var g := OverflowUpTo(base, f);
      Pow2Positive(g - 1);
      assert base * Pow2(g - 1) > 0;
      assert Escalated(base, g) > 0;
    }
  }

  lemma Pow2Of29()
    ensures Pow2(28) == 0x1000_0000 && Pow2(29) == 0x2000_0000
  {
    Pow2Add(14, 14);
    Pow2Add(7, 7);
    assert Pow2(7) == 128;
    assert Pow2(14) == 0x4000;
  }

  lemma {:induction false} Pow2Add(j: nat, k: nat)
    ensures Pow2(j + k) == Pow2(j) * Pow2(k)
  {
    if k == 0 {
    } else {
      Pow2Add(j, k - 1);
    }
  }

  /** Exactly the first 29 failures in a row are penalised as described; the 30th is not penalised at all. */
  lemma DefaultPenaltyRight(f: nat)
    ensures (forall g :: 0 < g <= f ==> Penalty(DEFAULT_PENALTY, g) == Escalated(DEFAULT_PENALTY, g)) <==> f <= 29
    ensures Penalty(DEFAULT_PENALTY, 30) < 0
  {
    hide Penalty, Escalated;
    Pow2Of29();
    FirstOverflow(DEFAULT_PENALTY, 30);
    if f > 0 {
      PenaltyRightExactly(DEFAULT_PENALTY, f);
      if f <= 29 {
        Pow2Monotone(f - 1, 28);
      } else {
        Pow2Monotone(29, f - 1);
      }
    }
  }

  lemma WrapIs(x: int) returns (q: int)
    ensures Wrap64(x) == x + q * TWO_64
  {
    q := -((x + TWO_63) / TWO_64);
  }

  /** From the 55th failure in a row on, the default penalty is zero: the agent is no longer skipped. */
  lemma DefaultPenaltyGone(f: nat)
    requires f >= 55
    ensures Penalty(DEFAULT_PENALTY, f) == 0
  {
    Pow2Add(54, f - 55);
    Pow2Of54();
    var p := Pow2(f - 55);
    assert Pow2(f - 1) == 0x40_0000_0000_0000 * p;
    var q := WrapIs(Pow2(f - 1));
    assert DEFAULT_PENALTY * Wrap64(Pow2(f - 1)) == (29296875 * p + DEFAULT_PENALTY * q) * TWO_64;
    WrapShift(0, 29296875 * p + DEFAULT_PENALTY * q);
  }

  lemma Pow2Of54()
    ensures Pow2(54) == 0x40_0000_0000_0000
  {
    Pow2Of29();
    Pow2Add(28, 26);
    Pow2Add(13, 13);
    Pow2Add(7, 6);
    assert Pow2(6) == 64 && Pow2(7) == 128;
  }

  // ---------------------------------------------------------------------------
  // Single failures at the default base
  // ---------------------------------------------------------------------------

  /** The default penalty before the cap. */
  function Product(f: nat): int
    requires f > 0
  {
    Wrap64(DEFAULT_PENALTY * Wrap64(Pow2(f - 1)))
  }

  lemma WrapShift(x: int, k: int)
    ensures Wrap64(x + k * TWO_64) == Wrap64(x)
  {
  }

  lemma WrapFactor(a: int, x: int)
    ensures Wrap64(a * Wrap64(x)) == Wrap64(a * x)
  {
    var q := WrapIs(x);
    assert a * Wrap64(x) == a * x + (a * q) * TWO_64;
    WrapShift(a * x, a * q);
  }

  /** The next product is twice this one, wrapped `k` times. */
  lemma Doubled(f: nat, product: int, next: int, k: int)
    requires f > 0 && Product(f) == product && next == 2 * product + k * TWO_64 && -TWO_63 <= next < TWO_63
    ensures Product(f + 1) == next
  {
    hide Wrap64;
    var p := Pow2(f - 1);
    assert Pow2(f) == 2 * p;
    WrapFactor(DEFAULT_PENALTY, p);
    WrapFactor(DEFAULT_PENALTY, 2 * p);
    WrapFactor(2, DEFAULT_PENALTY * p);
    assert DEFAULT_PENALTY * (2 * p) == 2 * (DEFAULT_PENALTY * p);
    WrapShift(2 * product, k);
  }

  lemma DefaultProducts()
    ensures Product(30) == -0x207b_8a80_0000_0000 && Product(31) == -0x40f7_1500_0000_0000
    ensures Product(32) == 0x7e11_d600_0000_0000 && Product(33) == -0x3dc_5400_0000_0000
    ensures Product(34) == -0x7b8_a800_0000_0000 && Product(35) == -0xf71_5000_0000_0000
    ensures Product(36) == -0x1ee2_a000_0000_0000 && Product(37) == -0x3dc5_4000_0000_0000
    ensures Product(38) == -0x7b8a_8000_0000_0000 && Product(39) == 0x8eb_0000_0000_0000
    ensures Product(40) == 0x11d6_0000_0000_0000 && Product(41) == 0x23ac_0000_0000_0000
    ensures Product(42) == 0x4758_0000_0000_0000 && Product(43) == -0x7150_0000_0000_0000
    ensures Product(44) == 0x1d60_0000_0000_0000 && Product(45) == 0x3ac0_0000_0000_0000
    ensures Product(46) == 0x7580_0000_0000_0000 && Product(47) == -0x1500_0000_0000_0000
    ensures Product(48) == -0x2a00_0000_0000_0000 && Product(49) == -0x5400_0000_0000_0000
    ensures Product(50) == 0x5800_0000_0000_0000 && Product(51) == -0x5000_0000_0000_0000
    ensures Product(52) == 0x6000_0000_0000_0000 && Product(53) == -0x4000_0000_0000_0000
    ensures Product(54) == -0x8000_0000_0000_0000
  {
    hide Product;
    Product30();
    Doubled(30, -0x207b_8a80_0000_0000, -0x40f7_1500_0000_0000, 0);
    Doubled(31, -0x40f7_1500_0000_0000, 0x7e11_d600_0000_0000, 1);
    Doubled(32, 0x7e11_d600_0000_0000, -0x3dc_5400_0000_0000, -1);
    Doubled(33, -0x3dc_5400_0000_0000, -0x7b8_a800_0000_0000, 0);
    Doubled(34, -0x7b8_a800_0000_0000, -0xf71_5000_0000_0000, 0);
    Doubled(35, -0xf71_5000_0000_0000, -0x1ee2_a000_0000_0000, 0);
    Doubled(36, -0x1ee2_a000_0000_0000, -0x3dc5_4000_0000_0000, 0);
    Doubled(37, -0x3dc5_4000_0000_0000, -0x7b8a_8000_0000_0000, 0);
    Doubled(38, -0x7b8a_8000_0000_0000, 0x8eb_0000_0000_0000, 1);
    Doubled(39, 0x8eb_0000_0000_0000, 0x11d6_0000_0000_0000, 0);
    Doubled(40, 0x11d6_0000_0000_0000, 0x23ac_0000_0000_0000, 0);
    Doubled(41, 0x23ac_0000_0000_0000, 0x4758_0000_0000_0000, 0);
    Doubled(42, 0x4758_0000_0000_0000, -0x7150_0000_0000_0000, -1);
    Doubled(43, -0x7150_0000_0000_0000, 0x1d60_0000_0000_0000, 1);
    Doubled(44, 0x1d60_0000_0000_0000, 0x3ac0_0000_0000_0000, 0);
    Doubled(45, 0x3ac0_0000_0000_0000, 0x7580_0000_0000_0000, 0);
    Doubled(46, 0x7580_0000_0000_0000, -0x1500_0000_0000_0000, -1);
    Doubled(47, -0x1500_0000_0000_0000, -0x2a00_0000_0000_0000, 0);
    Doubled(48, -0x2a00_0000_0000_0000, -0x5400_0000_0000_0000, 0);
    Doubled(49, -0x5400_0000_0000_0000, 0x5800_0000_0000_0000, 1);
    Doubled(50, 0x5800_0000_0000_0000, -0x5000_0000_0000_0000, -1);
    Doubled(51, -0x5000_0000_0000_0000, 0x6000_0000_0000_0000, 1);
    Doubled(52, 0x6000_0000_0000_0000, -0x4000_0000_0000_0000, -1);
    Doubled(53, -0x4000_0000_0000_0000, -0x8000_0000_0000_0000, 0);
  }

  lemma Product30()
    ensures Product(30) == -0x207b_8a80_0000_0000
  {
    Pow2Of29();
  }

  /** Exactly which single failures are penalised as described: now and then a wrapped product is large again. */
  lemma DefaultPenaltyRightAt(f: nat)
    requires f > 0
    ensures Penalty(DEFAULT_PENALTY, f) == Escalated(DEFAULT_PENALTY, f) <==>
      f <= 29 || f == 32 || 39 <= f <= 42 || 44 <= f <= 46 || f == 50 || f == 52
  {
    hide Wrap64;
    if f <= 29 {
      DefaultPenaltyRight(f);
    } else {
      LateEscalation(f);
      if f <= 54 {
        LateProduct(f);
      } else {
        DefaultPenaltyGone(f);
      }
    }
  }

  /** In figures: thirty seconds, then one, two and four minutes, and five from the fifth failure to the 29th. */
  lemma DefaultPenalties(f: nat)
    requires 0 < f <= 29
    ensures Penalty(30_000_000_000, f) ==
      match f
      case 1 => 30_000_000_000
      case 2 => 60_000_000_000
      case 3 => 120_000_000_000
      case 4 => 240_000_000_000
      case _ => 300_000_000_000
  {
    Pow2Of29();
    Pow2Monotone(f - 1, 28);
    PenaltyFits(DEFAULT_PENALTY, f);
    if f >= 5 {
      Pow2Monotone(4, f - 1);
      assert Pow2(4) == 16;
    }
  }

  /** From the 30th failure on the description gives the cap. */
  lemma LateEscalation(f: nat)
    requires f >= 30
    ensures Escalated(DEFAULT_PENALTY, f) == PENALTY_CAP
  {
    Pow2Of29();
    Pow2Monotone(29, f - 1);
  }

  lemma LateProduct(f: nat)
    requires 30 <= f <= 54
    ensures Product(f) >= PENALTY_CAP <==> f == 32 || 39 <= f <= 42 || 44 <= f <= 46 || f == 50 || f == 52
  {
    hide Product;
    DefaultProducts();
  }

  // ---------------------------------------------------------------------------
  // The table as a function of the history
  // ---------------------------------------------------------------------------

  datatype Health = Health(consecutiveFailures: nat, lastFailure: int, penalizedUntil: Option<int>)

  datatype HealthEvent = Failed(agent: string, at: int) | Recovered(agent: string)

  /** Failures of an agent since its last reset. */
  function FailuresSince(history: seq<HealthEvent>, agent: string): nat {
    if history == [] then 0
    else
      var e, before := history[|history| - 1], FailuresSince(history[..|history| - 1], agent);
      if e.agent != agent then before else if e.Failed? then before + 1 else 0
  }

  /** Until when the history has an agent penalised, if at all. */
  function PenalizedUntil(history: seq<HealthEvent>, agent: string, base: int): Option<int> {
    if history == [] then None
    else
      var e := history[|history| - 1];
      if e.agent != agent then PenalizedUntil(history[..|history| - 1], agent, base)
      else if e.Failed? then Some(e.at + Penalty(base, FailuresSince(history, agent)))
      else None
  }

  predicate PenalizedAfter(history: seq<HealthEvent>, agent: string, base: int, now: int) {
    var until := PenalizedUntil(history, agent, base);
    until.Some? && now < until.value
  }

  class HealthTable {
    const base: int
    var health: map<string, Health>
    ghost var history: seq<HealthEvent>

    /** Each entry is what the history of its agent makes it. */
    ghost predicate Valid()
      reads this
    {
      forall agent: string ::
        && (agent in health ==>
              && health[agent].consecutiveFailures == FailuresSince(history, agent)
              && health[agent].penalizedUntil == PenalizedUntil(history, agent, base))
        && (agent !in health ==> FailuresSince(history, agent) == 0 && PenalizedUntil(history, agent, base) == None)
    }

    constructor (base: int)
      ensures Valid() && this.base == base && history == [] && health == map[]
    {
      this.base := base;
      health, history := map[], [];
    }

    /** The history decides who is penalised. */
    predicate Penalized(agent: string, now: int)
      requires Valid()
      reads this
      ensures Penalized(agent, now) == PenalizedAfter(history, agent, base, now)
    {
      agent in health && health[agent].penalizedUntil.Some? && now < health[agent].penalizedUntil.value
    }

    method RecordAgentFailure(agent: string, now: int)
      requires Valid()
      modifies this
      ensures Valid() && history == old(history) + [Failed(agent, now)]
      ensures forall other: string, t: int :: other != agent ==> Penalized(other, t) == old(Penalized(other, t))
      ensures FailuresSince(history, agent) == old(FailuresSince(history, agent)) + 1
      ensures forall t: int :: Penalized(agent, t) <==> t < now + Penalty(base, FailuresSince(history, agent))
    {
      hide Penalty, FailuresSince, PenalizedUntil;
      var h := if agent in health then health[agent] else Health(0, 0, None);
      var failures := h.consecutiveFailures + 1;
      var penalty := Penalty(base, failures);
      SnocEvent(history, Failed(agent, now), base);
      history := history + [Failed(agent, now)];
      health := health[agent := Health(failures, now, Some(now + penalty))];
    }

    method ResetAgentFailure(agent: string)
      requires Valid()
      modifies this
      ensures Valid() && history == old(history) + [Recovered(agent)]
      ensures FailuresSince(history, agent) == 0 && forall t: int :: !Penalized(agent, t)
      ensures forall other: string, t: int :: other != agent ==> Penalized(other, t) == old(Penalized(other, t))
    {
      hide Penalty, FailuresSince, PenalizedUntil;
      SnocEvent(history, Recovered(agent), base);
      history := history + [Recovered(agent)];
      if agent in health {
        health := health[agent := Health(0, health[agent].lastFailure, None)];
      }
    }
  }

  /** Nothing was ever said of the agent. */
  lemma {:induction false} NeverFailed(history: seq<HealthEvent>, agent: string, base: int, t: int)
    requires forall k :: 0 <= k < |history| ==> history[k].agent != agent
    ensures FailuresSince(history, agent) == 0 && !PenalizedAfter(history, agent, base, t)
  {
    hide Penalty;
    if history == [] {
    } else {
      NeverFailed(history[..|history| - 1], agent, base, t);
    }
  }

  /** The agent's failures from the `i`th event on. */
  function FailuresFrom(history: seq<HealthEvent>, agent: string, i: nat): set<nat> {
    set k: nat | i <= k < |history| && history[k].Failed? && history[k].agent == agent
  }

  /** The failures counted are those after the agent's last success. */
  lemma {:induction false} FailuresSinceIs(history: seq<HealthEvent>, agent: string, i: nat)
    requires i <= |history| && forall k :: i <= k < |history| ==> history[k] != Recovered(agent)
    requires i > 0 ==> history[i - 1] == Recovered(agent)
    ensures FailuresSince(history, agent) == |FailuresFrom(history, agent, i)|
  {
    if i == |history| {
      assert FailuresFrom(history, agent, i) == {};
    } else {
      var n := |history| - 1;
      FailuresSinceIs(history[..n], agent, i);
      FailuresSnoc(history, agent, i);
    }
  }

  lemma FailuresSnoc(history: seq<HealthEvent>, agent: string, i: nat)
    requires i < |history|
    ensures var n, before := |history| - 1, FailuresFrom(history[..|history| - 1], agent, i);
      |FailuresFrom(history, agent, i)|
      == |before| + if history[n].Failed? && history[n].agent == agent then 1 else 0
  {
    var n, before := |history| - 1, FailuresFrom(history[..|history| - 1], agent, i);
    var joins := history[n].Failed? && history[n].agent == agent;
    forall k: nat ensures k in FailuresFrom(history, agent, i) <==> k in before || (joins && k == n) {
    }
    JoinedSize(before, FailuresFrom(history, agent, i), n, joins);
  }

  /** The last event of an agent decides when it is penalised. */
  lemma {:induction false} LastEventDecides(history: seq<HealthEvent>, agent: string, base: int, j: nat, t: int)
    requires j < |history| && history[j].agent == agent
    requires forall k :: j < k < |history| ==> history[k].agent != agent
    ensures PenalizedAfter(history, agent, base, t) <==>
      history[j].Failed? && t < history[j].at + Penalty(base, FailuresSince(history[..j + 1], agent))
  {
    hide Penalty, FailuresSince;
    var n := |history| - 1;
    if j == n {
      assert history[..j + 1] == history;
      SnocEvent(history[..n], history[n], base);
      assert history == history[..n] + [history[n]];
    } else {
      LastEventDecides(history[..n], agent, base, j, t);
      assert history[..n][..j + 1] == history[..j + 1];
    }
  }

  /**
   Exactly when an agent is penalised, at any time: the last that happened to it,
   at `j`, was a failure, and less time has passed since than the penalty for all
   the failures after its last success, the event before `i`.
   */
  lemma PenalizedExactly(history: seq<HealthEvent>, agent: string, base: int, i: nat, j: nat, t: int)
    requires i <= j < |history| && history[j].agent == agent
    requires forall k :: j < k < |history| ==> history[k].agent != agent
    requires i > 0 ==> history[i - 1] == Recovered(agent)
    requires forall k :: i <= k < j ==> history[k] != Recovered(agent)
    ensures PenalizedAfter(history, agent, base, t) <==>
      && history[j].Failed?
      && var failures := set k: nat | i <= k <= j && history[k].Failed? && history[k].agent == agent;
         failures != {} && t < history[j].at + Penalty(base, |failures|)
  {
    hide Penalty, FailuresSince, PenalizedAfter;
    LastEventDecides(history, agent, base, j, t);
    if history[j].Failed? {
      FailuresSinceIs(history[..j + 1], agent, i);
      var failures := set k: nat | i <= k <= j && history[k].Failed? && history[k].agent == agent;
      assert failures == FailuresFrom(history[..j + 1], agent, i);
      assert j in failures;
    }
  }

  lemma SnocEvent(history: seq<HealthEvent>, e: HealthEvent, base: int)
    ensures FailuresSince(history + [e], e.agent) == if e.Failed? then FailuresSince(history, e.agent) + 1 else 0
    ensures forall agent: string :: e.agent != agent ==>
      && FailuresSince(history + [e], agent) == FailuresSince(history, agent)
      && PenalizedUntil(history + [e], agent, base) == PenalizedUntil(history, agent, base)
    ensures PenalizedUntil(history + [e], e.agent, base) ==
        if e.Failed? then Some(e.at + Penalty(base, FailuresSince(history, e.agent) + 1)) else None
  {
    hide Penalty;
    assert (history + [e])[..|history|] == history;
  }
}
