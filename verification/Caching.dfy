/**
 * The cache of project/cache.py: Redis first, a local cache when Redis fails, and a cooldown that doubles
 * with every failure in a row. The cooldown is 4 seconds after the first failure.
 */
module Caching {
  import opened Wrappers

  const MIN_COOLDOWN := 2
  const MAX_COOLDOWN := 300

  /** How a backend call ends: with a result, with a Redis error, or with any other exception. */
  datatype Reply<R> = Value(result: R) | RedisError | OtherError

  /** The two fields of the circuit breaker. */
  datatype Breaker = Breaker(lastFail: real, cooldown: int)

  /**
   * One call: the clock when availability is checked, the clock when a failure is marked, and what Redis
   * does with the operation in each of its states at that time.
   */
  datatype Call<!S, !Op, R> = Call(op: Op, now: real, stamp: real, redis: (S, Op) -> (S, Reply<R>))

  datatype Cache<S, F> = Cache(breaker: Breaker, redis: S, fallback: F)

  const CLOSED := Breaker(0.0, MIN_COOLDOWN)

  predicate Available(b: Breaker, now: real) {
    now - b.lastFail > b.cooldown as real
  }

  function AfterFailure(b: Breaker, stamp: real): Breaker {
    Breaker(stamp, Min(b.cooldown * 2, MAX_COOLDOWN))
  }

  function AfterSuccess(b: Breaker): Breaker {
    if b.cooldown != MIN_COOLDOWN then CLOSED else b
  }

  function Invoke<S, F, Op, R>(c: Cache<S, F>, call: Call<S, Op, R>, local: (F, Op) -> (F, Reply<R>)):
    (Cache<S, F>, Reply<R>)
  {
    var (f, localReply) := local(c.fallback, call.op);
    if !Available(c.breaker, call.now) then (c.(fallback := f), localReply)
    else
      var (s, reply) := call.redis(c.redis, call.op);
      match reply
      case Value(_) => (Cache(AfterSuccess(c.breaker), s, c.fallback), reply)
      case RedisError => (Cache(AfterFailure(c.breaker, call.stamp), s, f), localReply)
      case OtherError => (c.(redis := s), reply)
  }

  /** The cache object of project/cache.py. */
  class FallbackCache<S, F> {
    var redis: S
    var fallback: F
    var lastFailTime: real
    var cooldown: int

    constructor (redis: S, fallback: F)
      ensures State() == Cache(CLOSED, redis, fallback)
    {
      this.redis, this.fallback, lastFailTime, cooldown := redis, fallback, 0.0, MIN_COOLDOWN;
    }

    function State(): Cache<S, F>
      reads this
    {
      Cache(Breaker(lastFailTime, cooldown), redis, fallback)
    }

    method MarkOk()
      modifies this`lastFailTime, this`cooldown
      ensures State().breaker == AfterSuccess(old(State().breaker))
    {
      if cooldown != MIN_COOLDOWN {
        cooldown := MIN_COOLDOWN;
        lastFailTime := 0.0;
      }
    }

    method MarkFailed(now: real)
      modifies this`lastFailTime, this`cooldown
      ensures State().breaker == AfterFailure(old(State().breaker), now)
    {
      lastFailTime := now;
      cooldown := Min(cooldown * 2, MAX_COOLDOWN);
    }

    method Perform<Op, R>(call: Call<S, Op, R>, local: (F, Op) -> (F, Reply<R>)) returns (reply: Reply<R>)
      modifies this
      ensures (State(), reply) == Invoke(old(State()), call, local)
    {
      if call.now - lastFailTime > cooldown as real {
        var (s, r) := call.redis(redis, call.op);
        redis := s;
        match r {
          case Value(_) =>
            MarkOk();
            return r;
          case RedisError =>
            MarkFailed(call.stamp);
          case OtherError =>
            return r;
        }
      }
      var (f, r) := local(fallback, call.op);
      fallback := f;
      return r;
    }
  }

  function RunCalls<S, F, Op, R>(c: Cache<S, F>, calls: seq<Call<S, Op, R>>, local: (F, Op) -> (F, Reply<R>)):
    (Cache<S, F>, seq<Reply<R>>)
  {
    if calls == [] then (c, [])
    else
      var (before, replies) := RunCalls(c, calls[..|calls| - 1], local);
      var (after, reply) := Invoke(before, calls[|calls| - 1], local);
      (after, replies + [reply])
  }

  // ---- the cooldown ladder ----

  /** The stamps of the Redis failures since the last Redis success, oldest first. */
  function Streak<S, F, Op, R>(c: Cache<S, F>, calls: seq<Call<S, Op, R>>, local: (F, Op) -> (F, Reply<R>)):
    seq<real>
  {
    if calls == [] then []
    else
      var before := RunCalls(c, calls[..|calls| - 1], local).0;
      var stamps := Streak(c, calls[..|calls| - 1], local);
      var call := calls[|calls| - 1];
      if !Available(before.breaker, call.now) then stamps
      else
        match call.redis(before.redis, call.op).1
        case Value(_) => []
        case RedisError => stamps + [call.stamp]
        case OtherError => stamps
  }

  function Pow2(n: nat): int {
    if n == 0 then 1 else 2 * Pow2(n - 1)
  }

  /** The cooldown after `n` failures in a row. */
  function CooldownAfter(n: nat): int {
    Min(Pow2(n + 1), 300)
  }

  /** The clock does not go back during a call. */
  predicate StampedLate<S, Op, R>(call: Call<S, Op, R>) {
    call.now <= call.stamp
  }

  ghost predicate Marked<S, Op, R>(calls: seq<Call<S, Op, R>>) {
    forall i :: 0 <= i < |calls| ==> StampedLate(calls[i])
  }

  ghost predicate Apart(stamps: seq<real>, i: nat)
    requires i + 1 < |stamps|
  {
    stamps[i + 1] > stamps[i] + CooldownAfter(i + 1) as real
  }

  /** The breaker is what the current streak of failures makes it. */
  ghost predicate OnLadder(b: Breaker, stamps: seq<real>) {
    && b.cooldown == CooldownAfter(|stamps|)
    && b.lastFail == (if stamps == [] then 0.0 else stamps[|stamps| - 1])
    && (forall i :: 0 <= i < |stamps| ==> stamps[i] > 0.0)
    && (forall i: nat :: i + 1 < |stamps| ==> Apart(stamps, i))
  }

  lemma {:induction false} PowAtLeast(n: nat)
    ensures Pow2(n) >= n + 1
  {
    if n > 0 { PowAtLeast(n - 1); }
  }

  lemma LadderFailure(b: Breaker, stamps: seq<real>, now: real, stamp: real)
    requires OnLadder(b, stamps) && Available(b, now) && now <= stamp
    ensures OnLadder(AfterFailure(b, stamp), stamps + [stamp])
  {
    PowAtLeast(|stamps| + 1);
    var more := stamps + [stamp];
    forall i: nat | i + 1 < |more| ensures Apart(more, i) {
      if i + 1 < |stamps| { assert Apart(stamps, i); }
    }
  }

  /** A success restores the initial breaker, although `_mark_ok` only acts when the cooldown has grown. */
  lemma SuccessCloses(b: Breaker, stamps: seq<real>)
    requires OnLadder(b, stamps)
    ensures AfterSuccess(b) == CLOSED
  {
    if stamps != [] {
      PowAtLeast(|stamps| - 1);
      assert Pow2(|stamps| + 1) == 4 * Pow2(|stamps| - 1);
    }
  }

  /** After any calls, the breaker is determined by the failures since the last success. */
  lemma {:induction false} BreakerFollowsStreak<S, F, Op, R>(
    s: S, f: F, calls: seq<Call<S, Op, R>>, local: (F, Op) -> (F, Reply<R>))
    requires Marked(calls)
    ensures OnLadder(RunCalls(Cache(CLOSED, s, f), calls, local).0.breaker, Streak(Cache(CLOSED, s, f), calls, local))
  {
    if calls != [] {
      var c, init, call := Cache(CLOSED, s, f), calls[..|calls| - 1], calls[|calls| - 1];
      BreakerFollowsStreak(s, f, init, local);
      var before, stamps := RunCalls(c, init, local).0, Streak(c, init, local);
      assert StampedLate(call);
      if Available(before.breaker, call.now) {
        LadderFailure(before.breaker, stamps, call.now, call.stamp);
        SuccessCloses(before.breaker, stamps);
      }
    }
  }

  /** The least time that `n` failures in a row take up before the next one can happen. */
  function Ladder(n: nat): int {
    if n == 0 then 0 else Ladder(n - 1) + CooldownAfter(n)
  }

  lemma {:induction false} PowGrows(m: nat, n: nat)
    requires m <= n
    ensures Pow2(m) <= Pow2(n)
    decreases n
  {
    if m < n { PowGrows(m, n - 1); }
    PowAtLeast(n);
  }

  lemma {:induction false} LadderClosedForm(n: nat)
    requires n >= 7
    ensures Ladder(n) == 508 + 300 * (n - 7)
  {
    if n == 7 {
      assert Pow2(2) == 4 && Pow2(3) == 8 && Pow2(4) == 16 && Pow2(5) == 32;
      assert Pow2(6) == 64 && Pow2(7) == 128 && Pow2(8) == 256;
      assert Ladder(3) == 28;
      assert Ladder(5) == 124;
    } else {
      LadderClosedForm(n - 1);
      PowGrows(9, n + 1);
      assert Pow2(9) == 2 * Pow2(8) && Pow2(8) == 2 * Pow2(7) && Pow2(7) == 128;
    }
  }

  lemma {:induction false} StreakSpan(b: Breaker, stamps: seq<real>, i: nat, j: nat)
    requires OnLadder(b, stamps) && i < j < |stamps|
    ensures stamps[j] - stamps[i] > (Ladder(j) - Ladder(i)) as real
    decreases j
  {
    assert Apart(stamps, j - 1);
    if i < j - 1 {
      StreakSpan(b, stamps, i, j - 1);
    }
  }

  /**
   * Between the i-th and the j-th failure of a streak lie more than the cooldowns from i to j; from the
   * eighth failure on that is 508 seconds and 300 for each one more.
   */
  lemma BackoffTimeBound<S, F, Op, R>(
    s: S, f: F, calls: seq<Call<S, Op, R>>, local: (F, Op) -> (F, Reply<R>), i: nat, j: nat)
    requires Marked(calls) && i < j < |Streak(Cache(CLOSED, s, f), calls, local)|
    ensures var stamps := Streak(Cache(CLOSED, s, f), calls, local);
            && stamps[j] - stamps[i] > (Ladder(j) - Ladder(i)) as real
            && (i == 0 && j >= 7 ==> stamps[j] - stamps[0] > (508 + 300 * (j - 7)) as real)
  {
    BreakerFollowsStreak(s, f, calls, local);
    StreakSpan(RunCalls(Cache(CLOSED, s, f), calls, local).0.breaker, Streak(Cache(CLOSED, s, f), calls, local), i, j);
    if j >= 7 { LadderClosedForm(j); }
  }

  // ---- each backend by itself ----

  function RedisAlone<S, Op, R>(s: S, calls: seq<Call<S, Op, R>>): (S, seq<Reply<R>>) {
    if calls == [] then (s, [])
    else
      var (before, replies) := RedisAlone(s, calls[..|calls| - 1]);
      var (after, reply) := calls[|calls| - 1].redis(before, calls[|calls| - 1].op);
      (after, replies + [reply])
  }

  function LocalAlone<S, F, Op, R>(f: F, calls: seq<Call<S, Op, R>>, local: (F, Op) -> (F, Reply<R>)):
    (F, seq<Reply<R>>)
  {
    if calls == [] then (f, [])
    else
      var (before, replies) := LocalAlone(f, calls[..|calls| - 1], local);
      var (after, reply) := local(before, calls[|calls| - 1].op);
      (after, replies + [reply])
  }

  // ---- any mixture of successes, failures and waiting ----

  /** With these failures since the last success, the cooldown is over at `now`. */
  predicate CooledDown(stamps: seq<real>, now: real) {
    now - (if stamps == [] then 0.0 else stamps[|stamps| - 1]) > CooldownAfter(|stamps|) as real
  }

  /** During the cooldown the call is the local one: Redis is not touched, and the breaker stays. */
  lemma CooldownIsLocal<S, F, Op, R>(
    s: S, f: F, calls: seq<Call<S, Op, R>>, call: Call<S, Op, R>, local: (F, Op) -> (F, Reply<R>))
    requires Marked(calls) && !CooledDown(Streak(Cache(CLOSED, s, f), calls, local), call.now)
    ensures var c := RunCalls(Cache(CLOSED, s, f), calls, local).0;
            Invoke(c, call, local) ==
            (Cache(c.breaker, c.redis, local(c.fallback, call.op).0), local(c.fallback, call.op).1)
  {
    BreakerFollowsStreak(s, f, calls, local);
  }

  /** After the cooldown the call is Redis' own, unless it ends with a Redis error: then the reply is the local one. */
  lemma AttemptIsRedis<S, F, Op, R>(
    s: S, f: F, calls: seq<Call<S, Op, R>>, call: Call<S, Op, R>, local: (F, Op) -> (F, Reply<R>))
    requires Marked(calls) && CooledDown(Streak(Cache(CLOSED, s, f), calls, local), call.now)
    ensures var c := RunCalls(Cache(CLOSED, s, f), calls, local).0;
            var (after, reply) := Invoke(c, call, local);
            var (redis, answer) := call.redis(c.redis, call.op);
            && after.redis == redis
            && (if answer == RedisError then (after.fallback, reply) == local(c.fallback, call.op)
                else after.fallback == c.fallback && reply == answer)
  {
    BreakerFollowsStreak(s, f, calls, local);
  }

  /** The calls that come after the cooldown, in order. */
  function Attempts<S, F, Op, R>(s: S, f: F, calls: seq<Call<S, Op, R>>, local: (F, Op) -> (F, Reply<R>)):
    seq<Call<S, Op, R>>
  {
    if calls == [] then []
    else
      var init, call := calls[..|calls| - 1], calls[|calls| - 1];
      var attempts := Attempts(s, f, init, local);
      if CooledDown(Streak(Cache(CLOSED, s, f), init, local), call.now) then attempts + [call] else attempts
  }

  /** The calls that come during the cooldown, or that Redis answers with a Redis error. */
  function Fallbacks<S, F, Op, R>(s: S, f: F, calls: seq<Call<S, Op, R>>, local: (F, Op) -> (F, Reply<R>)):
    seq<Call<S, Op, R>>
  {
    if calls == [] then []
    else
      var init, call := calls[..|calls| - 1], calls[|calls| - 1];
      var fallbacks := Fallbacks(s, f, init, local);
      if CooledDown(Streak(Cache(CLOSED, s, f), init, local), call.now)
        && !call.redis(RedisAlone(s, Attempts(s, f, init, local)).0, call.op).1.RedisError?
      then fallbacks
      else fallbacks + [call]
  }

  /** In any run Redis sees the attempted calls alone, and the local cache the fallbacks alone. */
  lemma {:induction false} EachBackendAlone<S, F, Op, R>(
    s: S, f: F, calls: seq<Call<S, Op, R>>, local: (F, Op) -> (F, Reply<R>))
    requires Marked(calls)
    ensures var after := RunCalls(Cache(CLOSED, s, f), calls, local).0;
            && after.redis == RedisAlone(s, Attempts(s, f, calls, local)).0
            && after.fallback == LocalAlone(f, Fallbacks(s, f, calls, local), local).0
  {
    if calls != [] {
      var init, call := calls[..|calls| - 1], calls[|calls| - 1];
      EachBackendAlone(s, f, init, local);
      var attempts, fallbacks := Attempts(s, f, init, local), Fallbacks(s, f, init, local);
      assert (attempts + [call])[..|attempts|] == attempts && (fallbacks + [call])[..|fallbacks|] == fallbacks;
      if CooledDown(Streak(Cache(CLOSED, s, f), init, local), call.now) {
        AttemptIsRedis(s, f, init, call, local);
      } else {
        CooldownIsLocal(s, f, init, call, local);
      }
    }
  }

  // ---- refinement of a single backend ----

  ghost predicate Healthy<S(!new), Op, R>(call: Call<S, Op, R>) {
    call.now > 2.0 && forall s :: call.redis(s, call.op).1 != RedisError
  }

  ghost predicate Down<S(!new), Op, R>(call: Call<S, Op, R>) {
    forall s :: call.redis(s, call.op).1 == RedisError
  }

  /** While Redis raises no Redis error the cache is Redis, and the local cache is never touched. */
  lemma {:induction false} HealthyIsRedis<S(!new), F, Op, R>(
    s: S, f: F, calls: seq<Call<S, Op, R>>, local: (F, Op) -> (F, Reply<R>))
    requires forall i :: 0 <= i < |calls| ==> Healthy(calls[i])
    ensures RunCalls(Cache(CLOSED, s, f), calls, local) ==
            (Cache(CLOSED, RedisAlone(s, calls).0, f), RedisAlone(s, calls).1)
  {
    if calls != [] {
      HealthyIsRedis(s, f, calls[..|calls| - 1], local);
      assert Healthy(calls[|calls| - 1]);
    }
  }

  /** While every Redis attempt fails the cache is the local cache, one local call for each operation. */
  lemma {:induction false} DownIsLocal<S(!new), F, Op, R>(
    c: Cache<S, F>, calls: seq<Call<S, Op, R>>, local: (F, Op) -> (F, Reply<R>))
    requires forall i :: 0 <= i < |calls| ==> Down(calls[i])
    ensures var (after, replies) := RunCalls(c, calls, local);
            (after.fallback, replies) == LocalAlone(c.fallback, calls, local)
  {
    if calls != [] {
      DownIsLocal(c, calls[..|calls| - 1], local);
      assert Down(calls[|calls| - 1]);
    }
  }
}
