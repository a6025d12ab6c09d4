/** RateLimitMiddleware's check: the sliding-window script run against the keys of a Redis
    store, one sorted set a caller. */
module RateLimiter {
  import opened Wrappers
  import opened RateLimitSpec

  class SlidingWindowLimiter {
    var zsets: map<string, ZSet>
    // Every admitted timestamp of every key, and the time of the latest request.
    ghost var logs: map<string, seq<nat>>
    ghost var clock: nat

    const window: nat
    // The tier limit of a key, fixed by the settings.
    const limitOf: string -> nat

    constructor (window: nat, limitOf: string -> nat)
      ensures this.window == window && this.limitOf == limitOf
      ensures ValidLimiter()
      ensures forall key :: StateOf(key) == INITIAL
    {
      this.window, this.limitOf := window, limitOf;
      zsets, logs, clock := map[], map[], 0;
      new;
      forall key ensures Valid(StateOf(key), window, limitOf(key)) {
        InitialIsValid(window, limitOf(key));
      }
    }

    function Stored(key: string): ZSet
      reads this
    {
      if key in zsets then zsets[key] else NO_KEY
    }

    ghost function StateOf(key: string): State
      reads this
    {
      State(Stored(key), if key in logs then logs[key] else [], clock)
    }

    ghost predicate ValidLimiter()
      reads this
    {
      forall key :: Valid(StateOf(key), window, limitOf(key))
    }

    /** One atomic run of the script. A request is admitted exactly when fewer than the limit
        were admitted for its key within the window before it; the reset time is when the first
        of those leaves; other keys are not affected. */
    method Check(key: string, now: nat) returns (reply: Reply)
      requires ValidLimiter() && clock <= now
      modifies this
      ensures ValidLimiter() && clock == now
      ensures StateOf(key) == Request(old(StateOf(key)), now, window, limitOf(key))
      ensures reply == Step(old(Stored(key)), now, window, limitOf(key)).1
      ensures Answers(old(StateOf(key)).log, now, window, limitOf(key), reply, StateOf(key).log)
      ensures forall other :: other != key ==> StateOf(other) == old(StateOf(other)).(clock := now)
    {
      ghost var before := StateOf(key);
      var z, r := RunScript(Stored(key), now, limitOf(key));
      reply := r;
      zsets := zsets[key := z];
      if reply.remaining >= 0 {
        logs := logs[key := before.log + [now]];
      }
      clock := now;
      RequestMeans(before, now, window, limitOf(key));
      assert StateOf(key) == Request(before, now, window, limitOf(key));
      RequestKeepsValid(before, now, window, limitOf(key));
      forall other | other != key
        ensures StateOf(other) == old(StateOf(other)).(clock := now) && Valid(StateOf(other), window, limitOf(other))
      {
        WaitingKeepsValid(old(StateOf(other)), now, window, limitOf(other));
      }
    }

    /** The script on one key's sorted set. */
    method RunScript(stored: ZSet, now: nat, limit: nat) returns (z: ZSet, reply: Reply)
      ensures (z, reply) == Step(stored, now, window, limit)
    {
      z := stored;
      if z.expireAt.Some? && now >= z.expireAt.value {
        z := NO_KEY;
      }
      // Prune requests older than the window.
      var scores: seq<nat> := z.scores;
      while scores != [] && scores[0] <= now - window
        invariant Prune(scores, now - window) == Prune(z.scores, now - window)
        decreases |scores|
      {
        scores := scores[1..];
      }
      // The reset time comes from the oldest entry left.
      var resetMs := now + window;
      if scores != [] {
        resetMs := scores[0] + window;
      }
      if |scores| >= limit {
        z := if scores == [] then NO_KEY else ZSet(scores, z.expireAt);
        return z, Reply(-1, resetMs);
      }
      var added := Add(scores, now);
      return ZSet(added, Some(now + window + TTL_SLACK_MS)), Reply(limit - |scores| - 1, resetMs);
    }

    /** ZADD: find the place of the new score from the back. */
    method Add(scores: seq<nat>, score: nat) returns (added: seq<nat>)
      ensures added == Insert(scores, score)
    {
      var behind: seq<nat> := [];
      var front: seq<nat> := scores;
      while front != [] && front[|front| - 1] > score
        invariant Insert(scores, score) == Insert(front, score) + behind
        decreases |front|
      {
        behind := [front[|front| - 1]] + behind;
        front := front[..|front| - 1];
      }
      added := front + [score] + behind;
    }
  }

  // ---- the 429 response ----

  /** The Retry-After header: whole seconds to the reset, at least one. */
  function RetryAfterSeconds(resetMs: real, nowMs: real): int
  {
    var seconds := (resetMs - nowMs) / 1000.0;
    var truncated := if seconds >= 0.0 then seconds.Floor else -((-seconds).Floor);
    if truncated > 1 then truncated else 1
  }

  /** Exactly when waiting the advertised seconds reaches the reset time; otherwise the client
      comes back too early, by less than a second. */
  lemma RetryAfterReachesResetIff(resetMs: real, nowMs: real)
    ensures var wait := RetryAfterSeconds(resetMs, nowMs);
            && (nowMs + 1000.0 * wait as real >= resetMs <==> WholeSecondsLeft(resetMs - nowMs))
            && nowMs + 1000.0 * (wait + 1) as real > resetMs
  {
  }

  /** At most one second, or a whole number of seconds. */
  predicate WholeSecondsLeft(left: real)
  {
    left <= 1000.0 || left == 1000.0 * (left / 1000.0).Floor as real
  }

  /** After a rejection the response is built at nowMs, and the client comes back after the
      advertised seconds. It is admitted exactly when what was left is at most one second or a
      whole number of seconds; otherwise the header has sent it back too early. */
  lemma RetryIsAdmittedIff(s: State, now: nat, window: nat, limit: nat, nowMs: real)
    requires Valid(s, window, limit) && limit >= 1 && s.clock <= now && now as real <= nowMs
    requires !Admitted(s.z, now, window, limit)
    ensures var resetMs := Step(s.z, now, window, limit).1.resetMs as real;
            var back := (nowMs + 1000.0 * RetryAfterSeconds(resetMs, nowMs) as real).Floor;
            && back >= now
            && (Admitted(Request(s, now, window, limit).z, back, window, limit) <==> WholeSecondsLeft(resetMs - nowMs))
  {
    var resetMs := Step(s.z, now, window, limit).1.resetMs;
    RetryAfterReachesResetIff(resetMs as real, nowMs);
    var back := (nowMs + 1000.0 * RetryAfterSeconds(resetMs as real, nowMs) as real).Floor;
    RejectedUntilReset(s, now, window, limit, [], back);
  }

  /** One request a minute: one at 0, another at 58.5 s is told to come back in a second, and
      is rejected then too, half a second early. */
  lemma RetryAfterIsTooShort()
    ensures var s := Request(INITIAL, 0, 60000, 1);
            && Valid(s, 60000, 1) && !Admitted(s.z, 58500, 60000, 1)
            && Step(s.z, 58500, 60000, 1).1.resetMs == 60000 && RetryAfterSeconds(60000.0, 58500.0) == 1
            && !Admitted(Request(s, 58500, 60000, 1).z, 59500, 60000, 1)
  {
    InitialIsValid(60000, 1);
    RequestKeepsValid(INITIAL, 0, 60000, 1);
    var s := Request(INITIAL, 0, 60000, 1);
    assert s.z.scores == [0] && s.z.expireAt == Some(60000 + TTL_SLACK_MS);
    RetryIsAdmittedIff(s, 58500, 60000, 1, 58500.0);
  }
}
