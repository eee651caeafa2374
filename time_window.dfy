/** The sliding-window filter shared by the request rate limiter and the
    failed-login tracker: keep, in order, the timestamps `t` with
    `now - t < span`. Timestamps are integer seconds. */
module TimeWindow {

  /** The timestamps of `times` younger than `span` at time `now`, in their original order. */
  function Recent(times: seq<int>, now: int, span: int): (kept: seq<int>)
    ensures |kept| <= |times|
    ensures forall t :: t in kept <==> t in times && now - t < span
    decreases |times|
  {
    if times == [] then []
    else
      var n := |times| - 1;
      assert times == times[..n] + [times[n]];
      var rest := Recent(times[..n], now, span);
      if now - times[n] < span then rest + [times[n]] else rest
  }

  /** Every element of `s` is at most `bound`. */
  predicate AllAtMost(s: seq<int>, bound: int)
  {
    forall i :: 0 <= i < |s| ==> s[i] <= bound
  }

  /** Non-decreasing order: the order in which a clock that never runs backwards hands out times. */
  predicate NonDecreasing(s: seq<int>)
  {
    forall i, j :: 0 <= i < j < |s| ==> s[i] <= s[j]
  }

  /** How many elements of `s` lie in the half-open interval `[lo, hi)`. */
  function CountIn(s: seq<int>, lo: int, hi: int): (c: nat)
    ensures c <= |s|
    decreases |s|
  {
    if s == [] then 0
    else CountIn(s[..|s| - 1], lo, hi) + (if lo <= s[|s| - 1] < hi then 1 else 0)
  }

  /** The indices of `times` whose timestamp is younger than `span` at `now`. */
  function RecentIndices(times: seq<int>, now: int, span: int): set<nat>
  {
    set i: nat | i < |times| && now - times[i] < span
  }

  /** Appending a timestamp extends the filtered sequence by that timestamp exactly when it is recent. */
  lemma RecentSnoc(times: seq<int>, t: int, now: int, span: int)
    ensures Recent(times + [t], now, span)
         == Recent(times, now, span) + (if now - t < span then [t] else [])
  {
    assert (times + [t])[..|times|] == times;
  }

  /** Filtering distributes over concatenation. */
  lemma {:induction false} RecentAppend(a: seq<int>, b: seq<int>, now: int, span: int)
    ensures Recent(a + b, now, span) == Recent(a, now, span) + Recent(b, now, span)
    decreases |b|
  {
    if b == [] {
      assert a + b == a;
    } else {
      var n := |b| - 1;
      var t := b[n];
      assert b == b[..n] + [t];
      assert a + b == (a + b[..n]) + [t];
      RecentAppend(a, b[..n], now, span);
      RecentSnoc(a + b[..n], t, now, span);
      RecentSnoc(b[..n], t, now, span);
    }
  }

  /** A sequence whose every timestamp is recent is kept whole. */
  lemma {:induction false} RecentOfAllRecent(times: seq<int>, now: int, span: int)
    requires forall i :: 0 <= i < |times| ==> now - times[i] < span
    ensures Recent(times, now, span) == times
    decreases |times|
  {
    if times != [] {
      var n := |times| - 1;
      assert times == times[..n] + [times[n]];
      RecentOfAllRecent(times[..n], now, span);
      RecentSnoc(times[..n], times[n], now, span);
    }
  }

  /** A sequence whose every timestamp is stale is filtered away completely. */
  lemma {:induction false} RecentOfAllStale(times: seq<int>, now: int, span: int)
    requires forall i :: 0 <= i < |times| ==> now - times[i] >= span
    ensures Recent(times, now, span) == []
    decreases |times|
  {
    if times != [] {
      var n := |times| - 1;
      assert times == times[..n] + [times[n]];
      RecentOfAllStale(times[..n], now, span);
      RecentSnoc(times[..n], times[n], now, span);
    }
  }

  /** Filtering at an earlier time and then at a later one is the same as filtering at the later one:
      what is stale stays stale as the clock advances. */
  lemma {:induction false} RecentTwice(times: seq<int>, earlier: int, later: int, span: int)
    requires earlier <= later
    ensures Recent(Recent(times, earlier, span), later, span) == Recent(times, later, span)
    decreases |times|
  {
    if times != [] {
      var n := |times| - 1;
      var t := times[n];
      assert times == times[..n] + [t];
      RecentTwice(times[..n], earlier, later, span);
      RecentSnoc(times[..n], t, earlier, span);
      RecentSnoc(times[..n], t, later, span);
      RecentSnoc(Recent(times[..n], earlier, span), t, later, span);
    }
  }

  /** The length of the filtered sequence is the number of positions holding a recent timestamp. */
  lemma {:induction false} RecentCountsIndices(times: seq<int>, now: int, span: int)
    ensures |Recent(times, now, span)| == |RecentIndices(times, now, span)|
    decreases |times|
  {
    if times == [] {
      assert RecentIndices(times, now, span) == {};
    } else {
      var n := |times| - 1;
      var t := times[n];
      var prefix := times[..n];
      assert times == prefix + [t];
      RecentCountsIndices(prefix, now, span);
      RecentSnoc(prefix, t, now, span);
      var before := RecentIndices(prefix, now, span);
      var after := RecentIndices(times, now, span);
      if now - t < span {
        assert after == before + {n};
        assert n !in before;
      } else {
        assert after == before;
      }
    }
  }

  /** When every timestamp is at most `now` and `now < lo + span`, every timestamp in `[lo, lo + span)`
      is recent at `now`, so the window holds no more of them than the filter keeps. */
  lemma {:induction false} WindowCountAtMostRecent(times: seq<int>, now: int, lo: int, span: int)
    requires AllAtMost(times, now)
    requires now < lo + span
    ensures CountIn(times, lo, lo + span) <= |Recent(times, now, span)|
    decreases |times|
  {
    if times != [] {
      var n := |times| - 1;
      var t := times[n];
      assert times == times[..n] + [t];
      WindowCountAtMostRecent(times[..n], now, lo, span);
      RecentSnoc(times[..n], t, now, span);
    }
  }
}
