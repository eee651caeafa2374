/** Failed-login bookkeeping of `AuthLogger` in src/auth/logging.py: a per-username list of failure
    times, and the lockout query over it. */
module AuthLogging {
  import opened TimeWindow

  /** Attempts younger than this many seconds (15 minutes) count towards a lockout. */
  const LockoutSeconds := 15 * 60
  /** This many recent failures lock the account. */
  const MaxAttempts := 5

  /** The failure times recorded for `username`, oldest first; none for a username never seen. */
  function AttemptsOf(history: map<string, seq<int>>, username: string): (ts: seq<int>)
    ensures username !in history ==> ts == []
  {
    if username in history then history[username] else []
  }

  /** The history after one failure of `username` at `now`. */
  function Logged(history: map<string, seq<int>>, username: string, now: int): (h: map<string, seq<int>>)
    ensures h.Keys == history.Keys + {username}
    ensures AttemptsOf(h, username) == AttemptsOf(history, username) + [now]
    ensures forall other :: other != username ==> AttemptsOf(h, other) == AttemptsOf(history, other)
  {
    history[username := AttemptsOf(history, username) + [now]]
  }

  /** The lockout answer at `now`: at least five recorded failures younger than fifteen minutes. */
  function IsLocked(history: map<string, seq<int>>, username: string, now: int): (locked: bool)
    ensures username !in history ==> !locked
  {
    username in history && |Recent(history[username], now, LockoutSeconds)| >= MaxAttempts
  }

  /** Locked exactly when at least five positions of the user's history hold a failure younger than
      fifteen minutes. */
  lemma LockedIffFiveRecentPositions(history: map<string, seq<int>>, username: string, now: int)
    ensures IsLocked(history, username, now)
        <==> |RecentIndices(AttemptsOf(history, username), now, LockoutSeconds)| >= MaxAttempts
  {
    RecentCountsIndices(AttemptsOf(history, username), now, LockoutSeconds);
  }

  /** The history after the failures `times` of `username`, recorded in order. */
  function LoggedAll(history: map<string, seq<int>>, username: string, times: seq<int>): (h: map<string, seq<int>>)
    decreases |times|
  {
    if times == [] then history
    else Logged(LoggedAll(history, username, times[..|times| - 1]), username, times[|times| - 1])
  }

  /** Recording a run of failures appends them, in order, to that user's history only. */
  lemma {:induction false} LoggedAllAppends(history: map<string, seq<int>>, username: string, times: seq<int>)
    ensures AttemptsOf(LoggedAll(history, username, times), username) == AttemptsOf(history, username) + times
    ensures forall other :: other != username ==>
      AttemptsOf(LoggedAll(history, username, times), other) == AttemptsOf(history, other)
    decreases |times|
  {
    if times != [] {
      var n := |times| - 1;
      assert times == times[..n] + [times[n]];
      LoggedAllAppends(history, username, times[..n]);
    }
  }

  /** Five failures recorded less than fifteen minutes before `now` lock the account at `now`,
      whatever was recorded before them. */
  lemma FiveRecentFailuresLock(history: map<string, seq<int>>, username: string, times: seq<int>, now: int)
    requires |times| >= MaxAttempts
    requires forall i :: 0 <= i < |times| ==> now - times[i] < LockoutSeconds
    ensures IsLocked(LoggedAll(history, username, times), username, now)
  {
    LoggedAllAppends(history, username, times);
    RecentAppend(AttemptsOf(history, username), times, now, LockoutSeconds);
    RecentOfAllRecent(times, now, LockoutSeconds);
  }

  /** Recording a failure never turns a locked answer into an unlocked one for the same query time. */
  lemma LoggingNeverUnlocks(history: map<string, seq<int>>, username: string, at: int, queried: string, now: int)
    requires IsLocked(history, queried, now)
    ensures IsLocked(Logged(history, username, at), queried, now)
  {
    if queried == username {
      RecentSnoc(history[username], at, now, LockoutSeconds);
    }
  }

  /** Once every recorded failure is fifteen minutes old or older, the account is unlocked again. */
  lemma StaleFailuresUnlock(history: map<string, seq<int>>, username: string, now: int)
    requires forall i :: 0 <= i < |AttemptsOf(history, username)| ==>
      now - AttemptsOf(history, username)[i] >= LockoutSeconds
    ensures !IsLocked(history, username, now)
  {
    RecentOfAllStale(AttemptsOf(history, username), now, LockoutSeconds);
  }

  class AuthLogger {
    var failedAttempts: map<string, seq<int>>

    constructor ()
      ensures failedAttempts == map[]
    {
      failedAttempts := map[];
    }

    /** `log_failed_attempt`: appends `now` to the user's list, creating it if needed. Nothing is removed
        and no other user's list changes. The IP address only reaches the log line, which is not modelled. */
    method LogFailedAttempt(username: string, now: int)
      modifies this
      ensures failedAttempts == Logged(old(failedAttempts), username, now)
    {
      if username !in failedAttempts {
        failedAttempts := failedAttempts[username := []];
      }
      failedAttempts := failedAttempts[username := failedAttempts[username] + [now]];
    }

    /** `is_account_locked`: counts, on a copy, the attempts younger than fifteen minutes; it changes
        nothing (there is no modifies clause), so no pruning happens. */
    method IsAccountLocked(username: string, now: int) returns (locked: bool)
      ensures locked == IsLocked(failedAttempts, username, now)
    {
      if username !in failedAttempts {
        return false;
      }
      var attempts := failedAttempts[username];
      var recent: seq<int> := [];
      var i := 0;
      while i < |attempts|
        invariant 0 <= i <= |attempts|
        invariant recent == Recent(attempts[..i], now, LockoutSeconds)
      {
        RecentSnoc(attempts[..i], attempts[i], now, LockoutSeconds);
        assert attempts[..i + 1] == attempts[..i] + [attempts[i]];
        if now - attempts[i] < LockoutSeconds {
          recent := recent + [attempts[i]];
        }
        i := i + 1;
      }
      assert attempts[..i] == attempts;
      locked := |recent| >= MaxAttempts;
    }
  }
}
