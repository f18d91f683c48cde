/** The fixed-window rate limiter: one Redis counter per user and window, each with its own expiry. */
module RateLimiter {
  import opened Values

  type Instant = t: real | t >= 0.0 witness 0.0

  /** What Redis made of one INCR + EXPIRE transaction; a failed call may or may not have been applied. */
  datatype Outcome = Replied | Failed(applied: bool)

  datatype Attempt = Attempt(user: UserId, at: Instant, outcome: Outcome)

  datatype Limits = Limits(limit: int, windowSeconds: int)

  datatype Key = Key(user: UserId, window: int)

  datatype Counter = Counter(count: nat, expiresAt: real)

  type Counters = map<Key, Counter>

  /** Floor division, whatever the sign of the divisor. */
  function FloorDiv(a: int, b: int): int
    requires b != 0
  {
    if b > 0 then a / b else (-a) / (-b)
  }

  function Window(at: real, windowSeconds: int): int
    requires windowSeconds != 0
  {
    FloorDiv(at.Floor, windowSeconds)
  }

  /** The value a key reads at an instant: an expired key reads as absent. */
  function Reading(counters: Counters, key: Key, now: real): nat {
    if key in counters && now < counters[key].expiresAt then counters[key].count else 0
  }

  function Increment(counters: Counters, key: Key, now: real, ttl: int): Counters {
    counters[key := Counter(Reading(counters, key, now) + 1, now + ttl as real)]
  }

  /** One call of `allow`. A window of zero seconds fails inside the guarded block, before Redis. */
  function Step(limits: Limits, counters: Counters, a: Attempt): (Counters, bool) {
    if limits.limit <= 0 || limits.windowSeconds == 0 then (counters, true)
    else
      var key := Key(a.user, Window(a.at, limits.windowSeconds));
      var counted := Increment(counters, key, a.at, limits.windowSeconds);
      match a.outcome
      case Replied => (counted, counted[key].count <= limits.limit)
      case Failed(applied) => (if applied then counted else counters, true)
  }

  function CountersAfter(limits: Limits, trace: seq<Attempt>): Counters {
    if trace == [] then map[]
    else Step(limits, CountersAfter(limits, trace[..|trace| - 1]), trace[|trace| - 1]).0
  }

  /** The decision on the last attempt of a trace. */
  predicate Allowed(limits: Limits, trace: seq<Attempt>)
    requires trace != []
  {
    Step(limits, CountersAfter(limits, trace[..|trace| - 1]), trace[|trace| - 1]).1
  }

  /** Attempts may come from any replica; only the shared clock orders them. */
  ghost predicate InClockOrder(trace: seq<Attempt>) {
    forall i, j :: 0 <= i <= j < |trace| ==> trace[i].at <= trace[j].at
  }

  predicate Within(a: Attempt, user: UserId, lo: real, hi: real) {
    a.user == user && lo <= a.at < hi
  }

  // Tallies over a trace, for one user and one half-open interval.

  function Attempts(trace: seq<Attempt>, user: UserId, lo: real, hi: real): nat {
    if trace == [] then 0
    else Attempts(trace[..|trace| - 1], user, lo, hi) + if Within(trace[|trace| - 1], user, lo, hi) then 1 else 0
  }

  function Failures(trace: seq<Attempt>, user: UserId, lo: real, hi: real): nat {
    if trace == [] then 0
    else Failures(trace[..|trace| - 1], user, lo, hi)
         + if Within(trace[|trace| - 1], user, lo, hi) && trace[|trace| - 1].outcome.Failed? then 1 else 0
  }

  /** Allowed attempts, failed calls included. */
  function Granted(limits: Limits, trace: seq<Attempt>, user: UserId, lo: real, hi: real): nat {
    if trace == [] then 0
    else Granted(limits, trace[..|trace| - 1], user, lo, hi)
         + if Within(trace[|trace| - 1], user, lo, hi) && Allowed(limits, trace) then 1 else 0
  }

  /** Allowed attempts that Redis answered. */
  function Earned(limits: Limits, trace: seq<Attempt>, user: UserId, lo: real, hi: real): nat {
    if trace == [] then 0
    else Earned(limits, trace[..|trace| - 1], user, lo, hi)
         + if Within(trace[|trace| - 1], user, lo, hi) && trace[|trace| - 1].outcome.Replied? && Allowed(limits, trace) then 1 else 0
  }

  /** A counter that never expires: how often a key has been incremented at all. */
  function NeverExpiring(trace: seq<Attempt>, key: Key, windowSeconds: int): nat
    requires windowSeconds != 0
  {
    if trace == [] then 0
    else
      var a := trace[|trace| - 1];
      NeverExpiring(trace[..|trace| - 1], key, windowSeconds)
      + if Key(a.user, Window(a.at, windowSeconds)) == key && a.outcome != Failed(false) then 1 else 0
  }

  function Start(window: int, windowSeconds: int): real {
    (window * windowSeconds) as real
  }

  lemma WindowBounds(at: real, windowSeconds: int)
    requires windowSeconds > 0
    ensures var w := Window(at, windowSeconds);
            Start(w, windowSeconds) <= at < Start(w + 1, windowSeconds) == Start(w, windowSeconds) + windowSeconds as real
  {
    var w := Window(at, windowSeconds);
    assert at.Floor == w * windowSeconds + at.Floor % windowSeconds;
    assert w * windowSeconds <= at.Floor <= (w + 1) * windowSeconds - 1;
  }

  lemma StartMonotone(v: int, w: int, windowSeconds: int)
    requires windowSeconds > 0 && v <= w
    ensures Start(v, windowSeconds) <= Start(w, windowSeconds)
  {
    assert v * windowSeconds <= w * windowSeconds;
  }

  lemma WindowUnique(at: real, w: int, windowSeconds: int)
    requires windowSeconds > 0
    ensures Window(at, windowSeconds) == w <==> Start(w, windowSeconds) <= at < Start(w + 1, windowSeconds)
  {
    var v := Window(at, windowSeconds);
    WindowBounds(at, windowSeconds);
    if v < w {
      StartMonotone(v + 1, w, windowSeconds);
    } else if v > w {
      StartMonotone(w + 1, v, windowSeconds);
    }
  }

  lemma StartNext(w: int, windowSeconds: int)
    ensures Start(w + 1, windowSeconds) == Start(w, windowSeconds) + windowSeconds as real
  {
    assert (w + 1) * windowSeconds == w * windowSeconds + windowSeconds;
  }

  lemma WindowMonotone(a: real, b: real, windowSeconds: int)
    requires windowSeconds > 0 && a <= b
    ensures Window(a, windowSeconds) <= Window(b, windowSeconds)
  {
    var v, w := Window(a, windowSeconds), Window(b, windowSeconds);
    WindowBounds(a, windowSeconds);
    WindowBounds(b, windowSeconds);
    if w < v {
      StartMonotone(w + 1, v, windowSeconds);
    }
  }

  lemma NextWindow(at: real, windowSeconds: int)
    requires windowSeconds > 0
    ensures Window(at + windowSeconds as real, windowSeconds) == Window(at, windowSeconds) + 1
  {
    var w := Window(at, windowSeconds);
    WindowBounds(at, windowSeconds);
    StartNext(w, windowSeconds);
    StartNext(w + 1, windowSeconds);
    WindowUnique(at + windowSeconds as real, w + 1, windowSeconds);
  }

  /** A key never expires inside its own window: there, the expiring counter reads what a
      never-expiring one would, on every trace. */
  lemma {:induction false} ExpiryIsTransparent(limits: Limits, trace: seq<Attempt>, key: Key, now: real)
    requires limits.limit > 0 && limits.windowSeconds > 0
    requires InClockOrder(trace)
    requires trace != [] ==> trace[|trace| - 1].at <= now
    requires Window(now, limits.windowSeconds) == key.window
    ensures Reading(CountersAfter(limits, trace), key, now) == NeverExpiring(trace, key, limits.windowSeconds)
  {
    if trace != [] {
      var earlier, a := trace[..|trace| - 1], trace[|trace| - 1];
      ExpiryIsTransparent(limits, earlier, key, now);
      var mine := Key(a.user, Window(a.at, limits.windowSeconds));
      if mine == key {
        ExpiryIsTransparent(limits, earlier, key, a.at);
        WindowBounds(a.at, limits.windowSeconds);
        WindowBounds(now, limits.windowSeconds);
      }
    }
  }

  /** The limiter is the simple one: an answered attempt passes exactly when its window's attempts,
      this one included, do not exceed the limit. */
  lemma DecisionIsCount(limits: Limits, trace: seq<Attempt>)
    requires limits.limit > 0 && limits.windowSeconds > 0
    requires trace != [] && InClockOrder(trace)
    ensures var a := trace[|trace| - 1];
            Allowed(limits, trace) <==>
              a.outcome.Failed?
              || NeverExpiring(trace, Key(a.user, Window(a.at, limits.windowSeconds)), limits.windowSeconds) <= limits.limit
  {
    var earlier, a := trace[..|trace| - 1], trace[|trace| - 1];
    ExpiryIsTransparent(limits, earlier, Key(a.user, Window(a.at, limits.windowSeconds)), a.at);
  }

  /** Within one window: never more than the limit is earned, and the unearned are failures. */
  lemma {:induction false} WindowBound(limits: Limits, trace: seq<Attempt>, user: UserId, w: int)
    requires limits.limit > 0 && limits.windowSeconds > 0
    requires InClockOrder(trace)
    ensures var lo, hi := Start(w, limits.windowSeconds), Start(w + 1, limits.windowSeconds);
            var counted := NeverExpiring(trace, Key(user, w), limits.windowSeconds);
            && Earned(limits, trace, user, lo, hi) <= limits.limit
            && Earned(limits, trace, user, lo, hi) <= counted
            && (Failures(trace, user, lo, hi) == 0 ==>
                  && counted == Attempts(trace, user, lo, hi)
                  && Earned(limits, trace, user, lo, hi) == if counted <= limits.limit then counted else limits.limit)
  {
    if trace != [] {
      var a := trace[|trace| - 1];
      WindowBound(limits, trace[..|trace| - 1], user, w);
      WindowUnique(a.at, w, limits.windowSeconds);
      DecisionIsCount(limits, trace);
    }
  }

  /** Every failed call is allowed, so the total is what was earned plus the failures. */
  lemma {:induction false} GrantedSplits(limits: Limits, trace: seq<Attempt>, user: UserId, lo: real, hi: real)
    requires limits.limit > 0 && limits.windowSeconds > 0
    ensures Granted(limits, trace, user, lo, hi) == Earned(limits, trace, user, lo, hi) + Failures(trace, user, lo, hi)
  {
    if trace != [] {
      GrantedSplits(limits, trace[..|trace| - 1], user, lo, hi);
    }
  }

  /** Without failures a user gets exactly min(attempts, limit) frames per window. */
  lemma ExactPerWindow(limits: Limits, trace: seq<Attempt>, user: UserId, w: int)
    requires limits.limit > 0 && limits.windowSeconds > 0
    requires InClockOrder(trace)
    requires Failures(trace, user, Start(w, limits.windowSeconds), Start(w + 1, limits.windowSeconds)) == 0
    ensures var lo, hi := Start(w, limits.windowSeconds), Start(w + 1, limits.windowSeconds);
            var attempts := Attempts(trace, user, lo, hi);
            Granted(limits, trace, user, lo, hi) == if attempts <= limits.limit then attempts else limits.limit
  {
    WindowBound(limits, trace, user, w);
    GrantedSplits(limits, trace, user, Start(w, limits.windowSeconds), Start(w + 1, limits.windowSeconds));
  }

  /** Each failed call in an interval raises the bound on that interval by at most one. */
  lemma AtMostLimitPerWindow(limits: Limits, trace: seq<Attempt>, user: UserId, w: int)
    requires limits.limit > 0 && limits.windowSeconds > 0
    requires InClockOrder(trace)
    ensures var lo, hi := Start(w, limits.windowSeconds), Start(w + 1, limits.windowSeconds);
            Granted(limits, trace, user, lo, hi) <= limits.limit + Failures(trace, user, lo, hi)
  {
    WindowBound(limits, trace, user, w);
    GrantedSplits(limits, trace, user, Start(w, limits.windowSeconds), Start(w + 1, limits.windowSeconds));
  }

  lemma {:induction false} EarnedCovered(limits: Limits, trace: seq<Attempt>, user: UserId, lo: real, mid: real,
      hi: real, a: real, b: real)
    requires lo <= a && b <= hi && lo <= mid <= hi
    ensures Earned(limits, trace, user, a, b) <= Earned(limits, trace, user, lo, mid) + Earned(limits, trace, user, mid, hi)
  {
    if trace != [] {
      EarnedCovered(limits, trace[..|trace| - 1], user, lo, mid, hi, a, b);
    }
  }

  /** Any half-open interval of one window length, aligned or not, grants at most twice the limit,
      plus one for each failed call inside it. */
  lemma AtMostTwiceInAnyInterval(limits: Limits, trace: seq<Attempt>, user: UserId, from: real)
    requires limits.limit > 0 && limits.windowSeconds > 0
    requires InClockOrder(trace)
    ensures var till := from + limits.windowSeconds as real;
            Granted(limits, trace, user, from, till) <= 2 * limits.limit + Failures(trace, user, from, till)
  {
    var till := from + limits.windowSeconds as real;
    var w := Window(from, limits.windowSeconds);
    WindowBounds(from, limits.windowSeconds);
    WindowBound(limits, trace, user, w);
    WindowBound(limits, trace, user, w + 1);
    StartNext(w, limits.windowSeconds);
    StartNext(w + 1, limits.windowSeconds);
    EarnedCovered(limits, trace, user, Start(w, limits.windowSeconds), Start(w + 1, limits.windowSeconds),
                  Start(w + 2, limits.windowSeconds), from, till);
    GrantedSplits(limits, trace, user, from, till);
  }

  function Burst(user: UserId, at: Instant, n: nat): seq<Attempt> {
    seq(n, i => Attempt(user, at, Replied))
  }

  lemma AppendTallies(trace: seq<Attempt>, a: Attempt, lo: real, hi: real)
    ensures Attempts(trace + [a], a.user, lo, hi) == Attempts(trace, a.user, lo, hi) + if lo <= a.at < hi then 1 else 0
    ensures !a.outcome.Failed? ==> Failures(trace + [a], a.user, lo, hi) == Failures(trace, a.user, lo, hi)
  {
    assert (trace + [a])[..|trace|] == trace;
  }

  lemma {:induction false} BurstTallies(before: seq<Attempt>, user: UserId, at: Instant, n: nat, lo: real, hi: real)
    ensures Attempts(before + Burst(user, at, n), user, lo, hi) == Attempts(before, user, lo, hi) + if lo <= at < hi then n else 0
    ensures Failures(before + Burst(user, at, n), user, lo, hi) == Failures(before, user, lo, hi)
  {
    if n == 0 {
      assert before + Burst(user, at, n) == before;
    } else {
      BurstTallies(before, user, at, n - 1, lo, hi);
      assert before + Burst(user, at, n) == (before + Burst(user, at, n - 1)) + [Attempt(user, at, Replied)];
      AppendTallies(before + Burst(user, at, n - 1), Attempt(user, at, Replied), lo, hi);
    }
  }

  lemma {:induction false} GrantedAdds(limits: Limits, trace: seq<Attempt>, user: UserId, lo: real, mid: real,
                        hi: real, a: real, b: real)
    requires lo <= a && b <= hi && lo <= mid <= hi
    requires forall i :: 0 <= i < |trace| ==> a <= trace[i].at < b
    ensures Granted(limits, trace, user, a, b) == Granted(limits, trace, user, lo, mid) + Granted(limits, trace, user, mid, hi)
  {
    if trace != [] {
      GrantedAdds(limits, trace[..|trace| - 1], user, lo, mid, hi, a, b);
    }
  }

  /** One quota at `early` and one at `late`. */
  function TwoBursts(user: UserId, early: Instant, late: Instant, n: nat): seq<Attempt> {
    Burst(user, early, n) + Burst(user, late, n)
  }

  lemma TwoBurstTallies(user: UserId, early: Instant, late: Instant, n: nat, lo: real, hi: real)
    ensures var trace := TwoBursts(user, early, late, n);
            && Attempts(trace, user, lo, hi) == (if lo <= early < hi then n else 0) + (if lo <= late < hi then n else 0)
            && Failures(trace, user, lo, hi) == 0
  {
    var first := Burst(user, early, n);
    assert [] + first == first;
    BurstTallies([], user, early, n, lo, hi);
    BurstTallies(first, user, late, n, lo, hi);
  }

  /** Bursts in windows 0 and 1 spend both quotas. */
  lemma BothQuotasSpent(limits: Limits, user: UserId, early: Instant, late: Instant)
    requires limits.limit > 0 && limits.windowSeconds > 0
    requires 0.0 <= early < limits.windowSeconds as real <= late < Start(2, limits.windowSeconds)
    ensures var trace := TwoBursts(user, early, late, limits.limit);
            && InClockOrder(trace)
            && Granted(limits, trace, user, Start(0, limits.windowSeconds), Start(1, limits.windowSeconds)) == limits.limit
            && Granted(limits, trace, user, Start(1, limits.windowSeconds), Start(2, limits.windowSeconds)) == limits.limit
  {
    var trace := TwoBursts(user, early, late, limits.limit);
    var span := limits.windowSeconds;
    TwoBurstTallies(user, early, late, limits.limit, Start(0, span), Start(1, span));
    TwoBurstTallies(user, early, late, limits.limit, Start(1, span), Start(2, span));
    ExactPerWindow(limits, trace, user, 0);
    ExactPerWindow(limits, trace, user, 1);
  }

  /** The bound is tight: for every limit and window length some run spends one quota just before a
      boundary and the next just after it. */
  lemma TwiceIsReached(limits: Limits, user: UserId) returns (trace: seq<Attempt>, from: real)
    requires limits.limit > 0 && limits.windowSeconds > 0
    ensures InClockOrder(trace)
    ensures Granted(limits, trace, user, from, from + limits.windowSeconds as real) == 2 * limits.limit
  {
    var span := limits.windowSeconds;
    from := span as real - 0.5;
    StartNext(0, span);
    StartNext(1, span);
    trace := TwoBursts(user, from, span as real, limits.limit);
    BothQuotasSpent(limits, user, from, span as real);
    GrantedAdds(limits, trace, user, Start(0, span), Start(1, span), Start(2, span), from, from + span as real);
  }

  /** Only the current window's key and its predecessor can be live. */
  lemma {:induction false} LiveKeysAreRecent(limits: Limits, trace: seq<Attempt>, key: Key, now: real)
    requires limits.limit > 0 && limits.windowSeconds > 0
    requires InClockOrder(trace)
    requires trace != [] ==> trace[|trace| - 1].at <= now
    requires key in CountersAfter(limits, trace) && now < CountersAfter(limits, trace)[key].expiresAt
    ensures Window(now, limits.windowSeconds) - 1 <= key.window <= Window(now, limits.windowSeconds)
  {
    var earlier, a := trace[..|trace| - 1], trace[|trace| - 1];
    var span := limits.windowSeconds;
    var mine := Key(a.user, Window(a.at, span));
    if mine == key && a.outcome != Failed(false) {
      WindowMonotone(a.at, now, span);
      NextWindow(a.at, span);
      WindowMonotone(now, a.at + span as real, span);
    } else {
      LiveKeysAreRecent(limits, earlier, key, now);
    }
  }

  function LiveKeys(counters: Counters, user: UserId, now: real): set<Key> {
    set key | key in counters && key.user == user && now < counters[key].expiresAt
  }

  /** Storage stays bounded without a sweeper: at any instant a user holds at most two live keys. */
  lemma AtMostTwoLiveKeys(limits: Limits, trace: seq<Attempt>, user: UserId, now: real)
    requires limits.windowSeconds > 0
    requires InClockOrder(trace)
    requires trace != [] ==> trace[|trace| - 1].at <= now
    ensures |LiveKeys(CountersAfter(limits, trace), user, now)| <= 2
  {
    var live := LiveKeys(CountersAfter(limits, trace), user, now);
    if limits.limit <= 0 {
      DisabledStoresNothing(limits, trace);
      assert live == {};
    } else {
      var w := Window(now, limits.windowSeconds);
      forall key | key in live ensures key in {Key(user, w - 1), Key(user, w)} {
        LiveKeysAreRecent(limits, trace, key, now);
      }
      SubsetSize(live, {Key(user, w - 1), Key(user, w)});
    }
  }

  lemma {:induction false} DisabledStoresNothing(limits: Limits, trace: seq<Attempt>)
    requires limits.limit <= 0 || limits.windowSeconds == 0
    ensures CountersAfter(limits, trace) == map[]
  {
    if trace != [] {
      DisabledStoresNothing(limits, trace[..|trace| - 1]);
    }
  }

  /** A window length of zero or less refuses nobody: zero fails before Redis, and a negative
      lifetime leaves every key expired at once. */
  lemma {:induction false} NonPositiveWindowRefusesNobody(limits: Limits, trace: seq<Attempt>)
    requires limits.windowSeconds <= 0
    requires InClockOrder(trace)
    ensures forall key :: key in CountersAfter(limits, trace) ==> trace != [] && CountersAfter(limits, trace)[key].expiresAt < trace[|trace| - 1].at
    ensures trace != [] ==> Allowed(limits, trace)
  {
    if trace != [] {
      NonPositiveWindowRefusesNobody(limits, trace[..|trace| - 1]);
    }
  }

  /** The rule, without a counter: Redis is down, the limit or the window is switched off, or the user's
      attempts in the window, this one included, are within the limit. */
  predicate Permitted(limits: Limits, trace: seq<Attempt>)
    requires trace != []
  {
    var a := trace[|trace| - 1];
    || a.outcome.Failed? || limits.limit <= 0 || limits.windowSeconds <= 0
    || NeverExpiring(trace, Key(a.user, Window(a.at, limits.windowSeconds)), limits.windowSeconds) <= limits.limit
  }

  /** For all settings, that is what the limiter decides. */
  lemma AllowedIffPermitted(limits: Limits, trace: seq<Attempt>)
    requires trace != [] && InClockOrder(trace)
    ensures Allowed(limits, trace) <==> Permitted(limits, trace)
  {
    if limits.limit > 0 && limits.windowSeconds > 0 {
      DecisionIsCount(limits, trace);
    } else if limits.windowSeconds <= 0 {
      NonPositiveWindowRefusesNobody(limits, trace);
    }
  }

  /** The Redis every replica shares. */
  class Redis {
    var counters: Counters
    /** Every attempt made so far, by any replica. */
    ghost var trace: seq<Attempt>

    constructor ()
      ensures counters == map[] && trace == []
    {
      counters := map[];
      trace := [];
    }
  }

  /** One replica's limiter. Its invariant speaks of the shared Redis only, so it is kept by the
      calls of every other replica's limiter with the same limits. */
  class RedisRateLimiter {
    const redis: Redis
    const limits: Limits

    ghost predicate Valid()
      reads this, redis
    {
      redis.counters == CountersAfter(limits, redis.trace)
    }

    constructor (redis: Redis, limits: Limits)
      requires redis.counters == CountersAfter(limits, redis.trace)
      ensures this.redis == redis && this.limits == limits && Valid()
    {
      this.redis := redis;
      this.limits := limits;
    }

    method Allow(user: UserId, now: Instant, outcome: Outcome) returns (allowed: bool)
      requires Valid()
      modifies redis
      ensures Valid()
      ensures redis.trace == old(redis.trace) + [Attempt(user, now, outcome)]
      ensures allowed == Allowed(limits, redis.trace)
    {
      ghost var next := redis.trace + [Attempt(user, now, outcome)];
      assert next[..|next| - 1] == redis.trace;
      redis.trace := next;
      if limits.limit <= 0 || limits.windowSeconds == 0 {
        return true;
      }
      if outcome == Failed(false) {
        return true;
      }
      var key := Key(user, Window(now, limits.windowSeconds));
      var count := Reading(redis.counters, key, now) + 1;
      redis.counters := redis.counters[key := Counter(count, now + limits.windowSeconds as real)];
      allowed := outcome.Failed? || count <= limits.limit;
    }
  }
}
