/**
 The store of requests in flight and the log of completed ones. The log is cut
 back now and then; what it answers is compared with the full history.
 */
module InFlight {
  import opened Limits

  const MAX_COMPLETED: nat := 2000
  const KEPT_COMPLETED: nat := 1000

  datatype InFlight = InFlight(requestId: string, worker: string, startedAt: int)

  datatype CompletedFlight =
    CompletedFlight(requestId: string, worker: string, startedAt: int, endedAt: int, duration: int)

  ghost predicate EndsIn<T>(history: seq<T>, end: seq<T>) {
    |end| <= |history| && end == history[|history| - |end|..]
  }

  lemma EndsSnoc<T>(history: seq<T>, end: seq<T>, x: T)
    requires EndsIn(history, end)
    ensures EndsIn(history + [x], end + [x])
  {
  }

  lemma EndsCut<T>(history: seq<T>, end: seq<T>, k: nat)
    requires EndsIn(history, end) && k <= |end|
    ensures EndsIn(history, end[|end| - k..])
  {
  }

  class InFlightStore {
    var requests: map<string, InFlight>
    var completed: seq<CompletedFlight>
    ghost var history: seq<CompletedFlight>     // every completion ever, in order

    /** The log is the end of the history: short, but never shorter than it need be. */
    ghost predicate Valid()
      reads this
    {
      && EndsIn(history, completed)
      && Min(|history|, KEPT_COMPLETED) <= |completed| <= MAX_COMPLETED
    }

    constructor ()
      ensures Valid() && requests == map[] && history == []
    {
      requests, completed, history := map[], [], [];
    }

    method Add(requestId: string, worker: string, now: int)
      requires Valid()
      modifies this`requests
      ensures Valid() && requests == old(requests)[requestId := InFlight(requestId, worker, now)]
    {
      requests := requests[requestId := InFlight(requestId, worker, now)];
    }

    /** Removes a request; its completion is logged exactly if it was in flight. */
    method Remove(requestId: string, now: int)
      requires Valid()
      modifies this
      ensures Valid() && requests == old(requests) - {requestId} && Min(|history|, 1000) <= |completed| <= 2000
      ensures if requestId in old(requests)
              then var f := old(requests)[requestId];
                history == old(history) +
                  [CompletedFlight(f.requestId, f.worker, f.startedAt, now, now - f.startedAt)]
              else history == old(history)
    {
      if requestId in requests {
        var flight := requests[requestId];
        var done := CompletedFlight(flight.requestId, flight.worker, flight.startedAt, now, now - flight.startedAt);
        hide EndsIn;
        EndsSnoc(history, completed, done);
        completed := completed + [done];
        history := history + [done];
        if |completed| > MAX_COMPLETED {
          EndsCut(history, completed, KEPT_COMPLETED);
          completed := completed[|completed| - KEPT_COMPLETED..];
        }
      }
      requests := requests - {requestId};
    }

    method Count() returns (n: nat)
      ensures n == |requests|
    {
      n := |requests|;
    }

    /**
     The most recent completions. For limits up to 1000 the cuts never show; in
     general the answer is the end of the full history exactly when the log
     still reaches back that far.
     */
    method Recent(limit: int) returns (out: seq<CompletedFlight>)
      requires Valid()
      ensures limit <= 0 ==> out == completed
      ensures 1 <= limit <= 1000 ==> out == Last(history, limit)
      ensures 1 <= limit ==>
        (out == Last(history, limit) <==> limit <= |completed| || |completed| == |history|)
      ensures EndsIn(history, out)
    {
      if limit <= 0 || limit >= |completed| {
        return completed;
      }
      var start := |completed| - limit;
      return completed[start..];
    }
  }
}
