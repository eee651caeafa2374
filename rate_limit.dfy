/** The per-client sliding-window rate limiter of src/auth/rate_limit.py. */
module RateLimit {
  import opened Common
  import opened TimeWindow

  /** Length of the window, one minute. */
  const WindowSeconds := 60

  /** What one call does to a client's stored list: whether it is admitted, and the list kept afterwards. */
  datatype Decision = Decision(admitted: bool, kept: seq<int>)

  /** One call for a client whose stored timestamps are `stored`: prune to the last window, reject when
      the pruned count has reached `limit`, otherwise admit and record `now`. */
  function Step(stored: seq<int>, limit: int, now: int): (d: Decision)
    ensures d.admitted <==> |Recent(stored, now, WindowSeconds)| < limit
    ensures !d.admitted ==> d.kept == Recent(stored, now, WindowSeconds)
    ensures d.admitted ==> d.kept == Recent(stored, now, WindowSeconds) + [now] && |d.kept| <= limit
    ensures forall t :: t in d.kept ==> now - t < WindowSeconds
  {
    var pruned := Recent(stored, now, WindowSeconds);
    if |pruned| >= limit then Decision(false, pruned) else Decision(true, pruned + [now])
  }

  /** A client's stored list and the times of its admitted calls after the calls at times `calls`,
      starting from a client the limiter has never seen. */
  datatype Trace = Trace(stored: seq<int>, admitted: seq<int>)

  function Replay(limit: int, calls: seq<int>): (tr: Trace)
    decreases |calls|
  {
    if calls == [] then Trace([], [])
    else
      var prev := Replay(limit, calls[..|calls| - 1]);
      var now := calls[|calls| - 1];
      var d := Step(prev.stored, limit, now);
      Trace(d.kept, if d.admitted then prev.admitted + [now] else prev.admitted)
  }

  /** Over a run with a clock that never goes backwards, the stored list is exactly the admitted calls
      younger than one window at the time of the latest call, and every admitted call time is one of the
      call times. */
  lemma {:induction false} ReplayStoresRecentAdmissions(limit: int, calls: seq<int>)
    requires NonDecreasing(calls)
    ensures calls == [] ==> Replay(limit, calls) == Trace([], [])
    ensures calls != [] ==>
      Replay(limit, calls).stored == Recent(Replay(limit, calls).admitted, calls[|calls| - 1], WindowSeconds)
    ensures forall t :: t in Replay(limit, calls).admitted ==> t in calls
    decreases |calls|
  {
    if calls != [] {
      var n := |calls| - 1;
      var prefix := calls[..n];
      var now := calls[n];
      assert calls == prefix + [now];
      assert NonDecreasing(prefix);
      ReplayStoresRecentAdmissions(limit, prefix);
      PrunedIsRecentAdmissions(limit, calls);
      RecentSnoc(Replay(limit, prefix).admitted, now, now, WindowSeconds);
    }
  }

  /** At the latest call, pruning the stored list gives the admitted calls younger than one window. */
  lemma PrunedIsRecentAdmissions(limit: int, calls: seq<int>)
    requires NonDecreasing(calls) && calls != []
    requires var prefix := calls[..|calls| - 1];
      && (prefix == [] ==> Replay(limit, prefix) == Trace([], []))
      && (prefix != [] ==>
          Replay(limit, prefix).stored == Recent(Replay(limit, prefix).admitted, prefix[|prefix| - 1], WindowSeconds))
    ensures var prev := Replay(limit, calls[..|calls| - 1]);
      Recent(prev.stored, calls[|calls| - 1], WindowSeconds) == Recent(prev.admitted, calls[|calls| - 1], WindowSeconds)
  {
    var n := |calls| - 1;
    var prefix := calls[..n];
    if prefix != [] {
      assert calls[n - 1] <= calls[n];
      RecentTwice(Replay(limit, prefix).admitted, prefix[n - 1], calls[n], WindowSeconds);
    }
  }

  /** With a nondecreasing clock, no window of one minute `[lo, lo + 60)` contains more admitted calls
      of one client than the limit (none at all when the limit is not positive). */
  lemma {:induction false} AdmittedPerWindowBounded(limit: int, calls: seq<int>, lo: int)
    requires NonDecreasing(calls)
    ensures CountIn(Replay(limit, calls).admitted, lo, lo + WindowSeconds) <= if limit < 0 then 0 else limit
    decreases |calls|
  {
    if calls != [] {
      var n := |calls| - 1;
      var prefix := calls[..n];
      assert NonDecreasing(prefix);
      AdmittedPerWindowBounded(limit, prefix, lo);
      ReplayStoresRecentAdmissions(limit, prefix);
      PrunedIsRecentAdmissions(limit, calls);
      assert AllAtMost(prefix, calls[n]);
      AdmittedAtMostLatest(Replay(limit, prefix).admitted, prefix, calls[n]);
      AdmissionStaysInBound(limit, calls, lo);
    }
  }

  /** Every call admitted before the latest one happened no later than it. */
  lemma AdmittedAtMostLatest(admitted: seq<int>, earlier: seq<int>, now: int)
    requires forall t :: t in admitted ==> t in earlier
    requires AllAtMost(earlier, now)
    ensures AllAtMost(admitted, now)
  {
    forall i | 0 <= i < |admitted| ensures admitted[i] <= now {
      assert admitted[i] in admitted;
      var j :| 0 <= j < |earlier| && earlier[j] == admitted[i];
    }
  }

  /** The inductive step of AdmittedPerWindowBounded: the latest call adds to the window's count only
      when it is admitted, and then the earlier admitted calls in the window are all in the pruned list,
      which was below the limit. */
  lemma AdmissionStaysInBound(limit: int, calls: seq<int>, lo: int)
    requires calls != []
    requires var prev := Replay(limit, calls[..|calls| - 1]);
      && CountIn(prev.admitted, lo, lo + WindowSeconds) <= (if limit < 0 then 0 else limit)
      && Recent(prev.stored, calls[|calls| - 1], WindowSeconds) == Recent(prev.admitted, calls[|calls| - 1], WindowSeconds)
      && AllAtMost(prev.admitted, calls[|calls| - 1])
    ensures CountIn(Replay(limit, calls).admitted, lo, lo + WindowSeconds) <= if limit < 0 then 0 else limit
  {
    var n := |calls| - 1;
    var now := calls[n];
    var prev := Replay(limit, calls[..n]);
    var a := prev.admitted;
    var d := Step(prev.stored, limit, now);
    assert Replay(limit, calls) == Trace(d.kept, if d.admitted then a + [now] else a);
    if d.admitted {
      assert (a + [now])[..|a|] == a;
      if lo <= now < lo + WindowSeconds {
        WindowCountAtMostRecent(a, now, lo, WindowSeconds);
      }
    }
  }

  /** The limiter object: a map from client id to the timestamps of its admitted calls. */
  class RateLimiter {
    var requests: map<string, seq<int>>
    const rateLimit: int

    constructor (requestsPerMinute: int := 60)
      ensures requests == map[] && rateLimit == requestsPerMinute
    {
      requests := map[];
      rateLimit := requestsPerMinute;
    }

    /** `check_rate_limit`: creates an (empty) entry for an unseen client, replaces the client's list with
        its pruned copy, then either rejects with 429 or appends `now` and answers true. No other client's
        entry changes. */
    method CheckRateLimit(clientId: string, now: int) returns (r: Result<bool>)
      modifies this
      ensures var stored := if clientId in old(requests) then old(requests)[clientId] else [];
              var d := Step(stored, rateLimit, now);
              && requests == old(requests)[clientId := d.kept]
              && (r == if d.admitted then Ok(true) else Err(RateLimitExceeded))
    {
      if clientId !in requests {
        requests := requests[clientId := []];
      }
      requests := requests[clientId := Recent(requests[clientId], now, WindowSeconds)];
      if |requests[clientId]| >= rateLimit {
        return Err(RateLimitExceeded);
      }
      requests := requests[clientId := requests[clientId] + [now]];
      return Ok(true);
    }
  }
}
