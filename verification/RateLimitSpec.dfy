/** One key of the sliding-window limiter: a Redis sorted set of admitted timestamps with an
    expiry, the atomic script that steps it, and what every run of the script keeps. Members
    are unique, so the set is modelled by its scores in order. */
module RateLimitSpec {
  import opened Wrappers

  datatype ZSet = ZSet(scores: seq<nat>, expireAt: Option<nat>)

  datatype Reply = Reply(remaining: int, resetMs: int)

  const NO_KEY := ZSet([], None)
  const TTL_SLACK_MS: nat := 1000

  predicate Sorted(scores: seq<nat>)
  {
    forall i, j :: 0 <= i < j < |scores| ==> scores[i] <= scores[j]
  }

  /** ZREMRANGEBYSCORE from 0 to cutoff on a set in score order. */
  function Prune(scores: seq<nat>, cutoff: int): seq<nat>
  {
    if scores == [] then []
    else if scores[0] > cutoff then scores
    else Prune(scores[1..], cutoff)
  }

  /** ZADD of a new member: behind the entries with a score that is not larger. */
  function Insert(scores: seq<nat>, score: nat): seq<nat>
  {
    if scores == [] then [score]
    else if scores[|scores| - 1] <= score then scores + [score]
    else Insert(scores[..|scores| - 1], score) + [scores[|scores| - 1]]
  }

  /** The key as a command at time now finds it: gone once its expiry has passed. */
  function Live(z: ZSet, now: nat): ZSet
  {
    if z.expireAt.Some? && now >= z.expireAt.value then NO_KEY else z
  }

  /** A pruned key; a sorted set that becomes empty is deleted, expiry and all. */
  function Pruned(z: ZSet, now: nat, window: nat): ZSet
  {
    var kept := Prune(Live(z, now).scores, now - window);
    if kept == [] then NO_KEY else ZSet(kept, Live(z, now).expireAt)
  }

  /** The script: prune, count, read the oldest, then reject or add and set the expiry. */
  function Step(z: ZSet, now: nat, window: nat, limit: int): (ZSet, Reply)
  {
    var p := Pruned(z, now, window);
    var count := |p.scores|;
    var resetMs := if count > 0 then p.scores[0] + window else now + window;
    if count >= limit then (p, Reply(-1, resetMs))
    else (ZSet(Insert(p.scores, now), Some(now + window + TTL_SLACK_MS)), Reply(limit - count - 1, resetMs))
  }

  // ---- runs, with a log of every admitted timestamp ----

  datatype State = State(z: ZSet, log: seq<nat>, clock: nat)

  const INITIAL := State(NO_KEY, [], 0)

  predicate Admitted(z: ZSet, now: nat, window: nat, limit: nat)
  {
    Step(z, now, window, limit).1.remaining >= 0
  }

  function Request(s: State, now: nat, window: nat, limit: nat): State
  {
    State(Step(s.z, now, window, limit).0,
          if Admitted(s.z, now, window, limit) then s.log + [now] else s.log,
          now)
  }

  function Run(s: State, times: seq<nat>, window: nat, limit: nat): State
  {
    if times == [] then s
    else Request(Run(s, times[..|times| - 1], window, limit), times[|times| - 1], window, limit)
  }

  /** How many entries of the log fall in the half-open interval (lo, hi]. */
  function CountIn(log: seq<nat>, lo: int, hi: int): nat
  {
    if log == [] then 0
    else CountIn(log[..|log| - 1], lo, hi) + if lo < log[|log| - 1] <= hi then 1 else 0
  }

  predicate Below(log: seq<nat>, clock: nat)
  {
    forall i :: 0 <= i < |log| ==> log[i] <= clock
  }

  /** From now on the key shows exactly the logged requests still inside the window: nothing
      is missing, whether by pruning or by expiry, and nothing stale is left. */
  ghost predicate ShowsLog(s: State, window: nat)
  {
    forall t: nat :: s.clock <= t ==> Shown(s.z, t, window) == Recent(s.log, t, window)
  }

  /** What the script finds in the key at time t, after pruning. */
  function Shown(z: ZSet, t: nat, window: nat): seq<nat>
  {
    Prune(Live(z, t).scores, t - window)
  }

  /** The logged requests still inside the window that ends at t. */
  function Recent(log: seq<nat>, t: nat, window: nat): seq<nat>
  {
    Prune(log, t - window)
  }

  function CountInWindow(log: seq<nat>, a: int, window: nat): nat
  {
    CountIn(log, a, a + window)
  }

  ghost predicate WindowBound(log: seq<nat>, window: nat, limit: nat)
  {
    forall a: int :: CountInWindow(log, a, window) <= limit
  }

  ghost predicate Valid(s: State, window: nat, limit: nat)
  {
    && Sorted(s.log) && Below(s.log, s.clock)
    && ShowsLog(s, window)
    && WindowBound(s.log, window, limit)
  }

  // ---- pruning ----

  lemma {:induction false} PruneTwice(scores: seq<nat>, first: int, second: int)
    requires first <= second
    ensures Prune(Prune(scores, first), second) == Prune(scores, second)
  {
    if scores != [] && scores[0] <= first {
      PruneTwice(scores[1..], first, second);
    }
  }

  /** Adding the newest score and pruning commute. */
  lemma {:induction false} PruneSnoc(scores: seq<nat>, x: nat, cutoff: int)
    requires Sorted(scores) && Below(scores, x)
    ensures Prune(scores + [x], cutoff) == if x > cutoff then Prune(scores, cutoff) + [x] else []
  {
    if scores == [] {
      assert Prune([], cutoff) == [];
      assert [x][1..] == [];
    } else {
      assert (scores + [x])[1..] == scores[1..] + [x];
      if scores[0] <= cutoff {
        PruneSnoc(scores[1..], x, cutoff);
      }
    }
  }

  /** Pruning a set in score order drops the first k scores, all up to the cutoff. */
  lemma {:induction false} PruneDrops(scores: seq<nat>, cutoff: int) returns (k: nat)
    ensures k <= |scores| && Prune(scores, cutoff) == scores[k..]
    ensures forall i :: 0 <= i < k ==> scores[i] <= cutoff
  {
    k := 0;
    if scores != [] && scores[0] <= cutoff {
      var rest := PruneDrops(scores[1..], cutoff);
      k := rest + 1;
      assert scores[1..][rest..] == scores[k..];
      assert forall i :: 1 <= i < k ==> scores[i] == scores[1..][i - 1];
    }
  }

  lemma {:induction false} PrunedStaysBelow(log: seq<nat>, clock: nat, cutoff: int)
    requires Sorted(log) && Below(log, clock)
    ensures Sorted(Prune(log, cutoff)) && Below(Prune(log, cutoff), clock)
    ensures forall i :: 0 <= i < |Prune(log, cutoff)| ==> cutoff < Prune(log, cutoff)[i]
  {
    if log != [] && log[0] <= cutoff {
      PrunedStaysBelow(log[1..], clock, cutoff);
    }
  }

  lemma {:induction false} CountOfConcat(a: seq<nat>, b: seq<nat>, lo: int, hi: int)
    ensures CountIn(a + b, lo, hi) == CountIn(a, lo, hi) + CountIn(b, lo, hi)
  {
    if b == [] {
      assert a + b == a;
    } else {
      assert (a + b)[..|a + b| - 1] == a + b[..|b| - 1];
      CountOfConcat(a, b[..|b| - 1], lo, hi);
    }
  }

  lemma {:induction false} CountAll(log: seq<nat>, lo: int, hi: int)
    requires forall i :: 0 <= i < |log| ==> lo < log[i] <= hi
    ensures CountIn(log, lo, hi) == |log|
  {
    if log != [] {
      CountAll(log[..|log| - 1], lo, hi);
    }
  }

  lemma {:induction false} CountNone(log: seq<nat>, lo: int, hi: int)
    requires forall i :: 0 <= i < |log| ==> !(lo < log[i] <= hi)
    ensures CountIn(log, lo, hi) == 0
  {
    if log != [] {
      CountNone(log[..|log| - 1], lo, hi);
    }
  }

  lemma CountOne(x: nat, lo: int, hi: int)
    ensures CountIn([x], lo, hi) == if lo < x <= hi then 1 else 0
  {
    assert [x][..0] == [];
    assert CountIn([], lo, hi) == 0;
  }

  /** Counting the window behind t is pruning and counting what is left. */
  lemma CountIsPrunedLength(log: seq<nat>, clock: nat, lo: int, hi: int)
    requires Sorted(log) && Below(log, clock) && clock <= hi
    ensures CountIn(log, lo, hi) == |Prune(log, lo)|
  {
    var k := PruneDrops(log, lo);
    assert forall i :: 0 <= i < |log[k..]| ==> lo < log[k..][i] <= hi by {
      PrunedStaysBelow(log, clock, lo);
    }
    assert log == log[..k] + log[k..];
    CountOfConcat(log[..k], log[k..], lo, hi);
    CountNone(log[..k], lo, hi);
    CountAll(log[k..], lo, hi);
  }

  lemma {:induction false} CountNarrower(log: seq<nat>, lo: int, hi: int, lo2: int, hi2: int)
    requires lo2 <= lo && hi <= hi2
    ensures CountIn(log, lo, hi) <= CountIn(log, lo2, hi2)
  {
    if log != [] {
      CountNarrower(log[..|log| - 1], lo, hi, lo2, hi2);
    }
  }

  // ---- one request ----

  /** The decision depends on the log alone: admitted exactly when fewer than limit logged
      requests are within the window before now. */
  lemma DecidedByLog(s: State, now: nat, window: nat, limit: nat)
    requires Valid(s, window, limit) && s.clock <= now
    ensures Pruned(s.z, now, window).scores == Recent(s.log, now, window)
    ensures |Recent(s.log, now, window)| == CountIn(s.log, now - window, now)
    ensures Admitted(s.z, now, window, limit) <==> CountIn(s.log, now - window, now) < limit
  {
    assert Shown(s.z, now, window) == Recent(s.log, now, window);
    CountIsPrunedLength(s.log, s.clock, now - window, now);
  }

  lemma InsertNewest(scores: seq<nat>, x: nat)
    requires Below(scores, x)
    ensures Insert(scores, x) == scores + [x]
  {
  }

  /** Pruning at now does not change what is shown at any later t. */
  lemma PrunedShowsTheSame(z: ZSet, now: nat, window: nat, t: nat)
    requires now <= t
    ensures Shown(Pruned(z, now, window), t, window) == Shown(z, t, window)
  {
    PruneTwice(Live(z, now).scores, now - window, t - window);
  }

  lemma AdmittedShowsOneMore(scores: seq<nat>, now: nat, window: nat, t: nat)
    requires Sorted(scores) && Below(scores, now) && now <= t
    ensures Shown(ZSet(Insert(scores, now), Some(now + window + TTL_SLACK_MS)), t, window) == Recent(scores + [now], t, window)
  {
    InsertNewest(scores, now);
    PruneSnoc(scores, now, t - window);
  }

  lemma PruneNewest(scores: seq<nat>, clock: nat, now: nat, cutoff: int)
    requires Sorted(scores) && Below(scores, clock) && clock <= now
    ensures Prune(scores + [now], cutoff) == if now > cutoff then Prune(scores, cutoff) + [now] else []
  {
    PruneSnoc(scores, now, cutoff);
  }

  lemma RecentStaysBelow(log: seq<nat>, clock: nat, now: nat, window: nat)
    requires Sorted(log) && Below(log, clock)
    ensures Sorted(Recent(log, now, window)) && Below(Recent(log, now, window), clock)
  {
    PrunedStaysBelow(log, clock, now - window);
  }

  lemma RecentOfPruned(log: seq<nat>, clock: nat, now: nat, window: nat, t: nat)
    requires Sorted(log) && Below(log, clock) && clock <= now <= t
    ensures Recent(Recent(log, now, window) + [now], t, window) == Recent(log + [now], t, window)
  {
    RecentStaysBelow(log, clock, now, window);
    PruneTwice(log, now - window, t - window);
    PruneNewest(log, clock, now, t - window);
    PruneNewest(Recent(log, now, window), clock, now, t - window);
  }

  lemma StillShows(s: State, now: nat, window: nat, limit: nat, t: nat)
    requires Valid(s, window, limit) && s.clock <= now <= t
    ensures var next := Request(s, now, window, limit);
            Shown(next.z, t, window) == Recent(next.log, t, window)
  {
    DecidedByLog(s, now, window, limit);
    if Admitted(s.z, now, window, limit) {
      RecentStaysBelow(s.log, s.clock, now, window);
      RecentOfPruned(s.log, s.clock, now, window, t);
      AdmittedShowsOneMore(Recent(s.log, now, window), now, window, t);
    } else {
      PrunedShowsTheSame(s.z, now, window, t);
    }
  }

  lemma AdmittedKeepsBound(log: seq<nat>, clock: nat, now: nat, window: nat, limit: nat, a: int)
    requires Sorted(log) && Below(log, clock) && clock <= now
    requires CountInWindow(log, a, window) <= limit && CountIn(log, now - window, now) < limit
    ensures CountInWindow(log + [now], a, window) <= limit
  {
    CountOfConcat(log, [now], a, a + window);
    CountOne(now, a, a + window);
    if a < now <= a + window {
      CountIsPrunedLength(log, clock, a, a + window);
      CountIsPrunedLength(log, clock, a, now);
      CountNarrower(log, a, now, now - window, now);
    }
  }

  /** Every step keeps the invariant. */
  lemma RequestKeepsValid(s: State, now: nat, window: nat, limit: nat)
    requires Valid(s, window, limit) && s.clock <= now
    ensures Valid(Request(s, now, window, limit), window, limit)
  {
    var next := Request(s, now, window, limit);
    forall t: nat | now <= t ensures Shown(next.z, t, window) == Recent(next.log, t, window) {
      StillShows(s, now, window, limit, t);
    }
    DecidedByLog(s, now, window, limit);
    if Admitted(s.z, now, window, limit) {
      forall a: int ensures CountInWindow(next.log, a, window) <= limit {
        AdmittedKeepsBound(s.log, s.clock, now, window, limit, a);
      }
    }
  }

  /** Time passing without a request changes nothing that a later request sees. */
  lemma WaitingKeepsValid(s: State, now: nat, window: nat, limit: nat)
    requires Valid(s, window, limit) && s.clock <= now
    ensures Valid(s.(clock := now), window, limit)
  {
  }

  predicate NonDecreasing(from: nat, times: seq<nat>)
  {
    && (forall i :: 0 <= i < |times| ==> from <= times[i])
    && (forall i, j :: 0 <= i < j < |times| ==> times[i] <= times[j])
  }

  lemma {:induction false} RunIsValid(s: State, times: seq<nat>, window: nat, limit: nat)
    requires Valid(s, window, limit) && NonDecreasing(s.clock, times)
    ensures Valid(Run(s, times, window, limit), window, limit)
    ensures Run(s, times, window, limit).clock == if times == [] then s.clock else times[|times| - 1]
  {
    if times != [] {
      RunIsValid(s, times[..|times| - 1], window, limit);
      RequestKeepsValid(Run(s, times[..|times| - 1], window, limit), times[|times| - 1], window, limit);
    }
  }

  lemma InitialIsValid(window: nat, limit: nat)
    ensures Valid(INITIAL, window, limit)
  {
  }

  /** Over every run with a clock that never goes back, every half-open interval one window
      long, (a, a + window] as well as [a, a + window), holds at most limit admitted requests. */
  lemma NoWindowOverflows(times: seq<nat>, window: nat, limit: nat, a: int)
    requires NonDecreasing(0, times)
    ensures CountIn(Run(INITIAL, times, window, limit).log, a, a + window) <= limit
    ensures CountIn(Run(INITIAL, times, window, limit).log, a - 1, a + window - 1) <= limit
  {
    InitialIsValid(window, limit);
    RunIsValid(INITIAL, times, window, limit);
    var log := Run(INITIAL, times, window, limit).log;
    assert CountInWindow(log, a, window) <= limit && CountInWindow(log, a - 1, window) <= limit;
  }

  // ---- the reset time ----

  /** resetMs is the first instant at which one of the logged requests in the window before now
      has left it; with none there, a whole window from now. */
  ghost predicate FirstLeavesAt(log: seq<nat>, now: nat, window: nat, resetMs: int)
  {
    var count := CountIn(log, now - window, now);
    if count == 0 then resetMs == now + window
    else
      && now < resetMs <= now + window
      && CountIn(log, resetMs - window, now) < count
      && forall t: nat :: now <= t < resetMs ==> StillCounted(log, now, window, t)
  }

  predicate StillCounted(log: seq<nat>, now: nat, window: nat, t: nat)
  {
    CountIn(log, t - window, now) == CountIn(log, now - window, now)
  }

  /** The reset time of every reply, whether it admits or rejects. */
  lemma ResetMeans(s: State, now: nat, window: nat, limit: nat)
    requires Valid(s, window, limit) && s.clock <= now
    ensures FirstLeavesAt(s.log, now, window, Step(s.z, now, window, limit).1.resetMs)
  {
    var full, resetMs := Recent(s.log, now, window), Step(s.z, now, window, limit).1.resetMs;
    assert Shown(s.z, now, window) == full;
    CountIsPrunedLength(s.log, s.clock, now - window, now);
    PrunedStaysBelow(s.log, s.clock, now - window);
    if full != [] {
      assert resetMs == full[0] + window;
      CountAfter(s.log, s.clock, now, window, resetMs);
      forall t: nat | now <= t < resetMs ensures StillCounted(s.log, now, window, t) {
        CountAfter(s.log, s.clock, now, window, t);
      }
    }
  }

  /** The whole effect of a request in terms of the log: with fewer than limit requests in the
      window it is logged and told how many more fit, else it is rejected; either way it is told
      when the first of them leaves the window. */
  ghost predicate Answers(log: seq<nat>, now: nat, window: nat, limit: nat, reply: Reply, after: seq<nat>)
  {
    var count := CountIn(log, now - window, now);
    && (if count < limit then reply.remaining == limit - count - 1 && after == log + [now]
        else reply.remaining == -1 && after == log)
    && FirstLeavesAt(log, now, window, reply.resetMs)
  }

  lemma RequestMeans(s: State, now: nat, window: nat, limit: nat)
    requires Valid(s, window, limit) && s.clock <= now
    ensures Answers(s.log, now, window, limit, Step(s.z, now, window, limit).1, Request(s, now, window, limit).log)
  {
    DecidedByLog(s, now, window, limit);
    assert Shown(s.z, now, window) == Recent(s.log, now, window);
    CountIsPrunedLength(s.log, s.clock, now - window, now);
    ResetMeans(s, now, window, limit);
  }

  /** What is still counted at t of the requests in the window before now. */
  lemma CountAfter(log: seq<nat>, clock: nat, now: nat, window: nat, t: int)
    requires Sorted(log) && Below(log, clock) && clock <= now <= t && Recent(log, now, window) != []
    ensures var full := Recent(log, now, window);
            if t - window < full[0] then CountIn(log, t - window, now) == |full| else CountIn(log, t - window, now) < |full|
  {
    var full := Recent(log, now, window);
    PrunedStaysBelow(log, clock, now - window);
    CountIsPrunedLength(log, clock, t - window, now);
    PruneTwice(log, now - window, t - window);
    OldestDecides(full, t - window);
  }

  /** After a rejection the returned reset time is exact: a request at t, with nothing admitted
      in between, is admitted if and only if t has reached it. */
  lemma ResetIsExact(s: State, now: nat, window: nat, limit: nat, t: nat)
    requires Valid(s, window, limit) && limit >= 1 && s.clock <= now <= t
    requires !Admitted(s.z, now, window, limit)
    ensures CountIn(s.log, t - window, t) < limit <==> t >= Step(s.z, now, window, limit).1.resetMs
  {
    FullWindow(s, now, window, limit);
    CountIsPrunedLength(s.log, s.clock, t - window, t);
    PruneTwice(s.log, now - window, t - window);
    OldestDecides(Recent(s.log, now, window), t - window);
  }

  /** A rejection finds exactly limit entries, and reports when the oldest leaves the window. */
  lemma FullWindow(s: State, now: nat, window: nat, limit: nat)
    requires Valid(s, window, limit) && limit >= 1 && s.clock <= now
    requires !Admitted(s.z, now, window, limit)
    ensures var full := Recent(s.log, now, window);
            |full| == limit && Sorted(full) && Step(s.z, now, window, limit).1.resetMs == full[0] + window
  {
    DecidedByLog(s, now, window, limit);
    assert CountInWindow(s.log, now - window, window) <= limit;
    PrunedStaysBelow(s.log, s.clock, now - window);
  }

  /** Pruning a sorted set drops something exactly when it drops the oldest entry. */
  lemma OldestDecides(kept: seq<nat>, cutoff: int)
    requires kept != [] && Sorted(kept)
    ensures |Prune(kept, cutoff)| < |kept| <==> kept[0] <= cutoff
  {
    if kept[0] <= cutoff {
      var k := PruneDrops(kept[1..], cutoff);
    }
  }

  /** The window that ends at t has no room. */
  predicate FullAt(log: seq<nat>, t: nat, window: nat, limit: nat)
  {
    CountIn(log, t - window, t) >= limit
  }

  ghost predicate FullUntil(log: seq<nat>, from: nat, until: int, window: nat, limit: nat)
  {
    forall t: nat :: from <= t < until ==> FullAt(log, t, window, limit)
  }

  lemma FullRejects(s: State, now: nat, window: nat, limit: nat)
    requires Valid(s, window, limit) && s.clock <= now && FullAt(s.log, now, window, limit)
    ensures Request(s, now, window, limit).log == s.log
  {
    DecidedByLog(s, now, window, limit);
  }

  lemma {:induction false} FullAdmitsNothing(s: State, times: seq<nat>, until: int, window: nat, limit: nat)
    requires Valid(s, window, limit) && FullUntil(s.log, s.clock, until, window, limit)
    requires NonDecreasing(s.clock, times) && forall i :: 0 <= i < |times| ==> times[i] < until
    ensures Run(s, times, window, limit).log == s.log
  {
    if times != [] {
      var n := |times| - 1;
      FullAdmitsNothing(s, times[..n], until, window, limit);
      RunIsValid(s, times[..n], window, limit);
      assert FullAt(s.log, times[n], window, limit);
      FullRejects(Run(s, times[..n], window, limit), times[n], window, limit);
    }
  }

  /** Every request before the reset time is rejected, however many are made, and the first
      one at or after it is admitted. */
  lemma RejectedUntilReset(s: State, now: nat, window: nat, limit: nat, times: seq<nat>, t: nat)
    requires Valid(s, window, limit) && limit >= 1 && s.clock <= now <= t
    requires !Admitted(s.z, now, window, limit)
    requires NonDecreasing(now, times) && (times == [] || times[|times| - 1] <= t)
    requires forall i :: 0 <= i < |times| ==> times[i] < Step(s.z, now, window, limit).1.resetMs
    ensures var later := Run(Request(s, now, window, limit), times, window, limit);
            && later.log == s.log
            && (Admitted(later.z, t, window, limit) <==> t >= Step(s.z, now, window, limit).1.resetMs)
  {
    var first, resetMs := Request(s, now, window, limit), Step(s.z, now, window, limit).1.resetMs;
    RequestKeepsValid(s, now, window, limit);
    assert first.log == s.log && first.clock == now;
    forall u: nat | now <= u < resetMs ensures FullAt(s.log, u, window, limit) {
      ResetIsExact(s, now, window, limit, u);
    }
    FullAdmitsNothing(first, times, resetMs, window, limit);
    RunIsValid(first, times, window, limit);
    DecidedByLog(Run(first, times, window, limit), t, window, limit);
    ResetIsExact(s, now, window, limit, t);
  }

  /** k requests at the same instant. */
  function Burst(s: State, now: nat, window: nat, limit: nat, k: nat): State
  {
    if k == 0 then s else Request(Burst(s, now, window, limit, k - 1), now, window, limit)
  }

  lemma OneMoreInWindow(s: State, now: nat, window: nat, limit: nat)
    requires Valid(s, window, limit) && s.clock <= now && window >= 1
    ensures var before := CountIn(s.log, now - window, now);
            CountIn(Request(s, now, window, limit).log, now - window, now) == if before < limit then before + 1 else before
  {
    DecidedByLog(s, now, window, limit);
    CountOfConcat(s.log, [now], now - window, now);
    CountOne(now, now - window, now);
  }

  lemma {:induction false} BurstFillsWindow(s: State, now: nat, window: nat, limit: nat, k: nat)
    requires Valid(s, window, limit) && s.clock <= now && window >= 1
    ensures var burst := Burst(s, now, window, limit, k);
            var before := CountIn(s.log, now - window, now);
            && Valid(burst, window, limit) && burst.clock <= now
            && before <= limit
            && CountIn(burst.log, now - window, now) == if before + k <= limit then before + k else limit
  {
    if k == 0 {
      assert CountInWindow(s.log, now - window, window) <= limit;
    } else {
      BurstFillsWindow(s, now, window, limit, k - 1);
      var before := Burst(s, now, window, limit, k - 1);
      OneMoreInWindow(before, now, window, limit);
      RequestKeepsValid(before, now, window, limit);
    }
  }

  /** The remaining count is exact: of the requests made at the same instant after an admission
      that reports r slots left, precisely the first r are admitted. */
  lemma RemainingIsExact(s: State, now: nat, window: nat, limit: nat, k: nat)
    requires Valid(s, window, limit) && s.clock <= now && window >= 1
    requires Admitted(s.z, now, window, limit)
    ensures Admitted(Burst(s, now, window, limit, k).z, now, window, limit) <==> k <= Step(s.z, now, window, limit).1.remaining
  {
    DecidedByLog(s, now, window, limit);
    BurstFillsWindow(s, now, window, limit, k);
    DecidedByLog(Burst(s, now, window, limit, k), now, window, limit);
  }

  /** An admitted request keeps its key for a second beyond the moment it leaves the window. */
  lemma KeyLives(s: State, now: nat, window: nat, limit: nat, t: nat)
    requires Valid(s, window, limit) && s.clock <= now <= t && Admitted(s.z, now, window, limit)
    ensures Live(Request(s, now, window, limit).z, t).scores != [] <==> t < now + window + 1000
  {
    DecidedByLog(s, now, window, limit);
  }
}
