/**
 The two nested retry loops of a chat request: `chatRequestHandler` calls
 `HandleChat` until it gets past "no workers", and `HandleChat` sends again
 after a failed send. The cluster's answers are given by two oracles.
 */
module ChatHandler {
  import opened Limits
  import opened RequestProtocol

  const MAX_SENDS: nat := 3
  const MAX_ROUNDS: nat := 10

  /** One call of a worker: in which `HandleChat`, with which tier, and whether it succeeded. */
  datatype Sent = Sent(round: nat, tier: Tier, ok: bool)

  datatype ChatResult = Reply | NoWorkers | WorkerFailed

  datatype Answer = Answered | NotAdmitted(outcome: Outcome) | NoRequestId | Unavailable | BadGateway

  /** What one `HandleChat` sends and how it ends. */
  ghost predicate ChatTrace(sent: seq<Sent>, round: nat, tier: Tier, r: ChatResult) {
    && |sent| <= MAX_SENDS
    && (forall i :: 0 <= i < |sent| ==>
          && sent[i].round == round
          && sent[i].tier == (if i == 0 then tier else Elite)
          && (sent[i].ok ==> i == |sent| - 1))
    && (r.Reply? <==> sent != [] && sent[|sent| - 1].ok)
    && (r.NoWorkers? <==> sent == [])
  }

  /** Send `q` followed a pick `p` that found a worker, and ended as it had to. */
  ghost predicate AskedAt(finds: nat -> bool, succeeds: nat -> bool, p: nat, q: nat, sent: Sent) {
    finds(p) && sent.ok == succeeds(q)
  }

  /** So did each send, from pick `p` and send `q` on. */
  ghost predicate Asked(finds: nat -> bool, succeeds: nat -> bool, p: nat, q: nat, sent: seq<Sent>) {
    forall i :: 0 <= i < |sent| ==> AskedAt(finds, succeeds, p + i, q + i, sent[i])
  }

  lemma AskedSnoc(finds: nat -> bool, succeeds: nat -> bool, p: nat, q: nat, sent: seq<Sent>, next: Sent)
    requires Asked(finds, succeeds, p, q, sent) && AskedAt(finds, succeeds, p + |sent|, q + |sent|, next)
    ensures Asked(finds, succeeds, p, q, sent + [next])
  {
    hide AskedAt;
    assert forall i :: 0 <= i < |sent| ==> sent[i] == (sent + [next])[i];
  }

  /** Only failed sends so far, the first with the request's tier and the others with elite. */
  ghost predicate AllFailed(sent: seq<Sent>, round: nat, tier: Tier) {
    forall i :: 0 <= i < |sent| ==> sent[i] == Sent(round, if i == 0 then tier else Elite, false)
  }

  lemma FailedSnoc(sent: seq<Sent>, round: nat, tier: Tier, ok: bool)
    requires AllFailed(sent, round, tier) && |sent| < MAX_SENDS
    ensures var next := Sent(round, if sent == [] then tier else Elite, ok);
      if ok then ChatTrace(sent + [next], round, tier, Reply) else AllFailed(sent + [next], round, tier)
  {
  }

  lemma FailedTrace(sent: seq<Sent>, round: nat, tier: Tier)
    requires AllFailed(sent, round, tier) && |sent| <= MAX_SENDS
    ensures ChatTrace(sent, round, tier, if sent == [] then NoWorkers else WorkerFailed)
  {
  }

  /** From pick `p` and send `q` on: the send after `n` failed ones is reached, for each pick finds a worker. */
  ghost predicate ReachesSend(finds: nat -> bool, succeeds: nat -> bool, p: nat, q: nat, n: nat) {
    n < 3 && (forall k :: p <= k <= p + n ==> finds(k)) && forall k :: q <= k < q + n ==> !succeeds(k)
  }

  /** And one that is succeeds. */
  ghost predicate GetsReply(finds: nat -> bool, succeeds: nat -> bool, p: nat, q: nat) {
    exists n: nat :: SucceedsAfter(finds, succeeds, p, q, n)
  }

  ghost predicate SucceedsAfter(finds: nat -> bool, succeeds: nat -> bool, p: nat, q: nat, n: nat) {
    ReachesSend(finds, succeeds, p, q, n) && succeeds(q + n)
  }

  /** A send that pick `p` let happen, with the tier due, and that ended as send `q` had to. */
  ghost predicate SentAs(finds: nat -> bool, succeeds: nat -> bool, p: nat, q: nat, round: nat, tier: Tier,
                         sent: Sent) {
    sent == Sent(round, tier, succeeds(q)) && finds(p)
  }

  /** The sends are those that the oracles let happen, with the tiers of first and further tries, and no others. */
  ghost predicate SendsAre(finds: nat -> bool, succeeds: nat -> bool, p: nat, q: nat, round: nat, tier: Tier,
                           sent: seq<Sent>) {
    && (forall i :: 0 <= i < |sent| ==>
          SentAs(finds, succeeds, p + i, q + i, round, if i == 0 then tier else Elite, sent[i]))
    && (forall k :: q <= k < q + |sent| - 1 ==> !succeeds(k))
    && !ReachesSend(finds, succeeds, p, q, |sent|)
    && |sent| <= 3
  }

  lemma SendsFollow(finds: nat -> bool, succeeds: nat -> bool, p: nat, q: nat, round: nat, tier: Tier,
                    sent: seq<Sent>, r: ChatResult)
    requires ChatTrace(sent, round, tier, r) && Asked(finds, succeeds, p, q, sent)
    requires !r.Reply? && |sent| < MAX_SENDS ==> !finds(p + |sent|)
    ensures SendsAre(finds, succeeds, p, q, round, tier, sent)
  {
    hide ReachesSend;
    forall i | 0 <= i < |sent|
      ensures SentAs(finds, succeeds, p + i, q + i, round, if i == 0 then tier else Elite, sent[i])
    {
      assert AskedAt(finds, succeeds, p + i, q + i, sent[i]);
    }
    forall k | q <= k < q + |sent| - 1 ensures !succeeds(k) {
      assert !sent[k - q].ok;
    }
    if r.Reply? {
      var last := q + |sent| - 1;
      assert sent[|sent| - 1].ok && succeeds(last);
      NoSendAfterReply(finds, succeeds, p, q, |sent|);
    } else {
      NoSendUnfound(finds, succeeds, p, q, |sent|);
    }
  }

  lemma NoSendAfterReply(finds: nat -> bool, succeeds: nat -> bool, p: nat, q: nat, n: nat)
    requires n > 0 && succeeds(q + n - 1)
    ensures !ReachesSend(finds, succeeds, p, q, n)
  {
    var last := q + n - 1;
    assert succeeds(last);
  }

  lemma NoSendUnfound(finds: nat -> bool, succeeds: nat -> bool, p: nat, q: nat, n: nat)
    requires n < MAX_SENDS ==> !finds(p + n)
    ensures !ReachesSend(finds, succeeds, p, q, n)
  {
    var next := p + n;
    assert n < MAX_SENDS ==> !finds(next);
  }

  /** They decide how the calls end. */
  lemma SendsDecide(finds: nat -> bool, succeeds: nat -> bool, p: nat, q: nat, round: nat, tier: Tier,
                    sent: seq<Sent>, r: ChatResult)
    requires SendsAre(finds, succeeds, p, q, round, tier, sent) && ChatTrace(sent, round, tier, r)
    ensures r.Reply? <==> GetsReply(finds, succeeds, p, q)
    ensures r.NoWorkers? <==> !finds(p)
  {
    if r.Reply? {
      var n := |sent| - 1;
      forall k | p <= k <= p + n ensures finds(k) {
        var i := k - p;
        assert SentAs(finds, succeeds, p + i, q + i, round, if i == 0 then tier else Elite, sent[i]);
      }
      assert sent[n].ok;
      assert SucceedsAfter(finds, succeeds, p, q, n);
    }
    if n: nat :| SucceedsAfter(finds, succeeds, p, q, n) {
      if n < |sent| {
        assert sent[n].ok;
      } else {
        assert ReachesSend(finds, succeeds, p, q, |sent|);
      }
    }
    if sent != [] {
      assert SentAs(finds, succeeds, p + 0, q + 0, round, tier, sent[0]);
    }
  }

  class Handler {
    const finds: nat -> bool                    // whether the i-th PickWorker finds a worker
    const succeeds: nat -> bool                 // whether the i-th Send succeeds
    var picks: nat
    var log: seq<Sent>
    var requests: nat                           // the collector's counters
    var errors: nat
    var latencies: nat

    constructor (finds: nat -> bool, succeeds: nat -> bool)
      ensures this.finds == finds && this.succeeds == succeeds
      ensures picks == 0 && log == [] && requests == errors == latencies == 0
    {
      this.finds, this.succeeds := finds, succeeds;
      picks, log, requests, errors, latencies := 0, [], 0, 0, 0;
    }

    /** Follows the oracles, from pick `p` and send `q` on: what was found, what succeeded, and why it stopped. */
    ghost predicate Followed(p: nat, q: nat, sent: seq<Sent>, r: ChatResult)
      reads this`picks
    {
      var n := |sent|;
      && Asked(finds, succeeds, p, q, sent)
      && (!r.Reply? && n < MAX_SENDS ==> !finds(p + n) && picks == p + n + 1)
      && (r.Reply? || n == MAX_SENDS ==> picks == p + n)
    }

    method HandleChat(round: nat, tier: Tier) returns (r: ChatResult)
      modifies this`picks, this`log
      ensures r.Reply? <==> GetsReply(finds, succeeds, old(picks), |old(log)|)
      ensures r.NoWorkers? <==> !finds(old(picks))
      ensures old(log) <= log
      ensures SendsAre(finds, succeeds, old(picks), |old(log)|, round, tier, log[|old(log)|..])
      ensures ChatTrace(log[|old(log)|..], round, tier, r)
      ensures Followed(old(picks), |old(log)|, log[|old(log)|..], r)
    {
      r := SendInTurn(round, tier);
      hide Asked, ChatTrace, SendsAre, GetsReply;
      SendsFollow(finds, succeeds, old(picks), |old(log)|, round, tier, log[|old(log)|..], r);
      SendsDecide(finds, succeeds, old(picks), |old(log)|, round, tier, log[|old(log)|..], r);
    }

    method SendInTurn(round: nat, tier: Tier) returns (r: ChatResult)
      modifies this`picks, this`log
      ensures old(log) <= log && ChatTrace(log[|old(log)|..], round, tier, r)
      ensures Followed(old(picks), |old(log)|, log[|old(log)|..], r)
    {
      assert AllFailed([], round, tier) && Asked(finds, succeeds, old(picks), |old(log)|, []);
      hide Asked, AllFailed, ChatTrace;
      var reqTier := tier;
      var failed := false;
      ghost var sent: seq<Sent> := [];
      for attempt := 0 to MAX_SENDS
        invariant log == old(log) + sent && |sent| == attempt && picks == old(picks) + attempt
        invariant failed <==> attempt > 0
        invariant attempt == 0 ==> reqTier == tier
        invariant AllFailed(sent, round, tier)
        invariant Asked(finds, succeeds, old(picks), |old(log)|, sent)
      {
        if attempt > 0 {
          if !reqTier.Elite? {
            reqTier := Elite;
          }
        }
        assert reqTier == if sent == [] then tier else Elite;
        var found := finds(picks);
        picks := picks + 1;
        if !found {
          break;
        }
        var ok := succeeds(|log|);
        AskedSnoc(finds, succeeds, old(picks), |old(log)|, sent, Sent(round, reqTier, ok));
        FailedSnoc(sent, round, tier, ok);
        log := log + [Sent(round, reqTier, ok)];
        sent := sent + [Sent(round, reqTier, ok)];
        assert log == old(log) + sent;
        if ok {
          assert log[|old(log)|..] == sent;
          return Reply;
        }
        failed := true;
      }
      assert log[|old(log)|..] == sent;
      FailedTrace(sent, round, tier);
      if failed {
        return WorkerFailed;
      }
      return NoWorkers;
    }

    /** From pick `p` and send `q` on: the first round that finds a worker, its sends, and whether it gets a reply. */
    ghost predicate LastRound(p: nat, q: nat, rounds: nat, tier: Tier, sent: seq<Sent>, replied: bool) {
      && 0 < rounds <= 10
      && finds(p + rounds - 1) && (forall k :: p <= k < p + rounds - 1 ==> !finds(k))
      && SendsAre(finds, succeeds, p + rounds - 1, q, rounds - 1, tier, sent)
      && ChatTrace(sent, rounds - 1, tier, if replied then Reply else WorkerFailed)
      && (replied <==> GetsReply(finds, succeeds, p + rounds - 1, q))
    }

    /**
     The handler. `outcome` is how admission ended and `hasId` whether a
     request id could be made. All the sends of a request are in one
     `HandleChat`, the last of the `rounds`; "no workers" means that ten rounds found none and nothing
     was sent; and every counted request records one error or one latency.
     */
    method ChatRequest(tier: Tier, outcome: Outcome, hasId: bool) returns (a: Answer, ghost rounds: nat)
      modifies this
      ensures old(log) <= log
      ensures requests == old(requests) + 1
      ensures errors == old(errors) + (if a.Answered? then 0 else 1)
      ensures latencies == old(latencies) + (if a.Answered? then 1 else 0)
      ensures a.NotAdmitted? <==> !outcome.Admitted?
      ensures a.NotAdmitted? ==> a.outcome == outcome
      ensures a.NoRequestId? <==> outcome.Admitted? && !hasId
      ensures a.NotAdmitted? || a.NoRequestId? ==> log == old(log) && picks == old(picks)
      ensures a.Unavailable? <==>
        outcome.Admitted? && hasId && forall k :: old(picks) <= k < old(picks) + 10 ==> !finds(k)
      ensures a.Unavailable? ==> log == old(log) && picks == old(picks) + 10
      ensures a.Answered? || a.BadGateway? ==>
        LastRound(old(picks), |old(log)|, rounds, tier, log[|old(log)|..], a.Answered?)
    {
      requests := requests + 1;
      if !outcome.Admitted? {
        errors := errors + 1;
        return NotAdmitted(outcome), 0;
      }
      if !hasId {
        errors := errors + 1;
        return NoRequestId, 0;
      }

      hide LastRound;
      var r;
      r, rounds := KeepTrying(tier);
      if r.WorkerFailed? {
        errors := errors + 1;
        return BadGateway, rounds;
      }
      if !r.Reply? {
        errors := errors + 1;
        return Unavailable, rounds;
      }
      latencies := latencies + 1;
      return Answered, rounds;
    }

    /** The handler's loop: again while there are no workers. */
    method KeepTrying(tier: Tier) returns (r: ChatResult, ghost rounds: nat)
      modifies this`picks, this`log
      ensures old(log) <= log
      ensures r.NoWorkers? <==> forall k :: old(picks) <= k < old(picks) + 10 ==> !finds(k)
      ensures r.NoWorkers? ==> log == old(log) && picks == old(picks) + 10
      ensures !r.NoWorkers? ==> LastRound(old(picks), |old(log)|, rounds, tier, log[|old(log)|..], r.Reply?)
    {
      hide ChatTrace, SendsAre, GetsReply;
      for i := 0 to MAX_ROUNDS
        invariant log == old(log) && picks == old(picks) + i
        invariant forall k :: old(picks) <= k < picks ==> !finds(k)
      {
        r := HandleChat(i, tier);
        if !r.NoWorkers? {
          var found := old(picks) + i;
          assert finds(found);
          return r, i + 1;
        }
        NothingSent(log[|old(log)|..], i, tier);
        assert log == old(log);
      }
      return NoWorkers, MAX_ROUNDS;
    }

    lemma NothingSent(sent: seq<Sent>, round: nat, tier: Tier)
      requires ChatTrace(sent, round, tier, NoWorkers)
      ensures sent == []
    {
    }
  }
}
