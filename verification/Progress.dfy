/**
 * When a poll of processing/main.py leads to the retry pass. Only the guard at the top of the outer loop can
 * skip it; if the catch-up is not ended by an exception, the pass is reached, and it ends with nothing due.
 */
module Progress {
  import opened Wrappers
  import opened Ingestion
  import opened IndexerLoop

  /** The answer lets the catch-up go on: `get_logs` returns, or the entry at hand can be decoded. */
  predicate GoodAnswer(t: Indexer, a: Answer) {
    if t.pending == [] then a.logs.Some? else !t.pending[0].Undecodable?
  }

  /** After the first of `n` steps, all steps but the last begin and end inside the catch-up loop. */
  ghost predicate CatchingFor(trace: nat -> Indexer, n: nat) {
    n >= 1 && forall j: nat :: 1 <= j < n ==> trace(j).phase.Catching?
  }

  /** No answer that the catch-up gets ends it by an exception. */
  ghost predicate Untroubled(world: nat -> Answer, trace: nat -> Indexer) {
    forall n: nat :: CatchingFor(trace, n) && trace(n).phase.Catching? ==> GoodAnswer(trace(n), world(n))
  }

  /** The machine is in the retry pass after `n` steps, with no second poll on the way. */
  ghost predicate Serves(trace: nat -> Indexer, n: nat) {
    CatchingFor(trace, n) && trace(n).phase.Retrying?
  }

  /** The answers from step `from` up to, not including, step `to` were good. */
  ghost predicate GoodBetween(world: nat -> Answer, trace: nat -> Indexer, from: nat, to: nat) {
    forall k: nat :: from <= k < to ==> GoodAnswer(trace(k), world(k))
  }

  ghost predicate ServesQueue(trace: nat -> Indexer) {
    exists n: nat :: Serves(trace, n)
  }

  function ToGo(t: Indexer): nat {
    if t.phase.Catching? && t.start < t.phase.height then t.phase.height - t.start else 0
  }

  /** What the catch-up does to the queue is to add first failures at its end. */
  ghost predicate Grown(s: Indexer, t: Indexer) {
    s.queue <= t.queue && (Counters(s.queue) ==> Counters(t.queue))
  }

  /** The step from `t` to `t'` is a step of the catch-up towards its end; it fails exactly on a bad answer. */
  ghost predicate Advances(t: Indexer, t': Indexer, a: Answer) {
    && Grown(t, t')
    && (t'.phase.Aborted? <==> !GoodAnswer(t, a))
    && !t'.phase.Polling?
    && (t'.phase.Catching? ==>
          Settled(t') && (ToGo(t') < ToGo(t) || (ToGo(t') == ToGo(t) && |t'.pending| < |t.pending|)))
  }

  /** Moving past loops whose guards are false; with entries waiting that leads to the retry pass at most. */
  lemma SettleAdvances(t: Indexer, u: Indexer, a: Answer)
    requires t.phase.Catching? && u.phase == t.phase && u.queue != [] && Grown(t, u) && GoodAnswer(t, a)
    requires ToGo(u) < ToGo(t) || (ToGo(u) == ToGo(t) && |u.pending| < |t.pending|)
    ensures Advances(t, Settle(u), a)
  {
  }

  lemma EntryAdvances(cfg: Config, t: Indexer, a: Answer)
    requires t.phase.Catching? && t.pending != [] && t.queue != []
    ensures Advances(t, Handle(cfg, t, a), a)
  {
    var rest := t.(pending := t.pending[1..]);
    match t.pending[0] {
      case Foreign => SettleAdvances(t, rest, a);
      case Undecodable =>
      case Decoded(m) =>
        if m.body.protocol != cfg.protocol {
          SettleAdvances(t, rest, a);
        } else {
          var ev := Event(|t.seen|, m);
          var done := rest.(seen := t.seen + [ev], log := t.log + [Processed(ev, a.now)]);
          var failed := rest.(seen := t.seen + [ev], log := t.log + [Failed(ev, a.now, a.stamp)],
                              queue := t.queue + [ProcessingRetry(ev, 1, a.stamp)]);
          SettleAdvances(t, if a.succeeds(m) then done else failed, a);
        }
    }
  }

  lemma BatchAdvancesTo(cfg: Config, t: Indexer, a: Answer)
    requires cfg.batch >= 1 && t.phase.Catching? && t.pending == [] && Settled(t) && t.queue != []
    ensures Advances(t, FetchBatch(cfg, t, a), a)
  {
    if a.logs.Some? {
      var range := Min(cfg.batch, t.phase.height - t.start);
      var fetched := t.(start := t.start + range, pending := a.logs.value,
                        log := t.log + [Fetched(t.start, t.start + range - 1, t.phase.height, a.logs.value)]);
      SettleAdvances(t, fetched, a);
    }
  }

  lemma CatchingStep(cfg: Config, t: Indexer, a: Answer)
    requires cfg.batch >= 1 && t.phase.Catching? && Settled(t) && t.queue != []
    ensures Advances(t, Step(cfg, t, a), a)
  {
    if t.pending != [] { EntryAdvances(cfg, t, a); } else { BatchAdvancesTo(cfg, t, a); }
  }

  /** The catch-up that goes on at step `n` ends at step `m`: in the retry pass, or by an exception. */
  lemma {:induction false} CatchingEnds(
    cfg: Config, world: nat -> Answer, s: Indexer, trace: nat -> Indexer, n: nat) returns (m: nat)
    requires cfg.batch >= 1 && s.queue != [] && IsTrace(cfg, world, s, trace) && CatchingFor(trace, n)
    requires trace(n).phase.Catching? && Settled(trace(n)) && Grown(s, trace(n))
    ensures m > n && CatchingFor(trace, m) && trace(m - 1).phase.Catching?
    ensures Grown(s, trace(m)) && (trace(m).phase.Retrying? || trace(m).phase.Aborted?)
    ensures GoodBetween(world, trace, n, if trace(m).phase.Aborted? then m - 1 else m)
    ensures trace(m).phase.Aborted? ==> !GoodAnswer(trace(m - 1), world(m - 1))
    decreases ToGo(trace(n)), |trace(n).pending|
  {
    TraceStep(cfg, world, s, trace, n);
    CatchingStep(cfg, trace(n), world(n));
    m := n + 1;
    if trace(m).phase.Catching? {
      m := CatchingEnds(cfg, world, s, trace, m);
    }
  }

  /** The first step of a round, with entries waiting. */
  lemma PollStep(cfg: Config, s: Indexer, a: Answer)
    requires s.phase.Polling? && s.queue != []
    ensures var t := Step(cfg, s, a);
            && Grown(s, t)
            && (t.phase.Aborted? <==> a.height.None?)
            && (t.phase.Polling? <==> a.height == Some(s.start))
            && Settled(t)
  {
  }

  /** Where a round that begins with entries in the queue first leaves the catch-up loop, and why. */
  lemma RoundLeaves(cfg: Config, world: nat -> Answer, s: Indexer, trace: nat -> Indexer) returns (n: nat)
    requires cfg.batch >= 1 && s.phase.Polling? && s.queue != [] && IsTrace(cfg, world, s, trace)
    ensures CatchingFor(trace, n) && Grown(s, trace(n))
    ensures match trace(n).phase
            case Polling => world(0).height == Some(s.start) && n == 1
            case Retrying =>
              world(0).height.Some? && world(0).height != Some(s.start) && GoodBetween(world, trace, 1, n)
            case Aborted =>
              if n == 1 then world(0).height.None?
              else trace(n - 1).phase.Catching? && !GoodAnswer(trace(n - 1), world(n - 1))
            case Catching(_) => false
  {
    TraceStep(cfg, world, s, trace, 0);
    PollStep(cfg, s, world(0));
    n := 1;
    if trace(1).phase.Catching? {
      n := CatchingEnds(cfg, world, s, trace, 1);
    }
  }

  /** Whatever step leaves the catch-up loop first is the only one that can reach the retry pass. */
  lemma OnlyExit(trace: nat -> Indexer, n: nat, k: nat)
    requires CatchingFor(trace, n) && !trace(n).phase.Catching? && CatchingFor(trace, k)
    ensures k <= n && (k < n <==> trace(k).phase.Catching?)
  {
  }

  /**
   * The exact condition for a round to reach the retry pass: the poll finds another height than the cursor,
   * and no answer ends the catch-up by an exception.
   */
  lemma PassReached(cfg: Config, world: nat -> Answer, s: Indexer, trace: nat -> Indexer)
    requires cfg.batch >= 1 && s.phase.Polling? && s.queue != [] && IsTrace(cfg, world, s, trace)
    ensures ServesQueue(trace)
            <==> world(0).height.Some? && world(0).height.value != s.start && Untroubled(world, trace)
  {
    var n := RoundLeaves(cfg, world, s, trace);
    if trace(n).phase.Retrying? {
      assert Serves(trace, n);
      forall k: nat | CatchingFor(trace, k) && trace(k).phase.Catching? ensures GoodAnswer(trace(k), world(k)) {
        OnlyExit(trace, n, k);
      }
    } else {
      forall k: nat | CatchingFor(trace, k) ensures !Serves(trace, k) {
        OnlyExit(trace, n, k);
      }
      if trace(n).phase.Aborted? && n > 1 {
        assert CatchingFor(trace, n - 1);
      }
    }
  }

  /** With no exception on the way, the guard of the outer loop alone decides whether the queue is served. */
  lemma PollServesQueue(cfg: Config, world: nat -> Answer, s: Indexer, trace: nat -> Indexer)
    requires cfg.batch >= 1 && s.phase.Polling? && s.queue != [] && IsTrace(cfg, world, s, trace)
    requires world(0).height.Some? && Untroubled(world, trace)
    ensures ServesQueue(trace) <==> world(0).height.value != s.start
  {
    PassReached(cfg, world, s, trace);
  }

  /** A catch-up that began at `start` for height `h` has gone no further than `h`, and when it is left, just there. */
  ghost predicate HeadsFor(t: Indexer, start: int, h: int) {
    && (t.phase.Catching? ==> t.phase.height == h && Settled(t))
    && (t.start == start || start < t.start <= h)
    && (t.phase.Retrying? || t.phase.Polling? ==> t.start == if start < h then h else start)
  }

  lemma HeadsOn(cfg: Config, t: Indexer, a: Answer, start: int, h: int)
    requires cfg.batch >= 1 && t.phase.Catching? && HeadsFor(t, start, h)
    ensures HeadsFor(Step(cfg, t, a), start, h)
  {
    CatchUpStep(cfg, t, a);
  }

  /** The catch-up of a round goes to the height that the poll found, and no further. */
  lemma {:induction false} CatchUpReaches(
    cfg: Config, world: nat -> Answer, s: Indexer, trace: nat -> Indexer, h: int, n: nat)
    requires cfg.batch >= 1 && s.phase.Polling? && s.pending == [] && IsTrace(cfg, world, s, trace)
    requires world(0).height == Some(h) && h != s.start && CatchingFor(trace, n)
    ensures HeadsFor(trace(n), s.start, h)
    decreases n
  {
    TraceStep(cfg, world, s, trace, 0);
    if n > 1 {
      var last: nat := n - 1;
      CatchUpReaches(cfg, world, s, trace, h, last);
      TraceStep(cfg, world, s, trace, last);
      HeadsOn(cfg, trace(last), world(last), s.start, h);
    }
  }

  // ---- what the pass does ----

  /** The step from `s` to `t` is an attempt on `ev`. */
  predicate Attempts(s: Indexer, t: Indexer, ev: Event) {
    && |t.log| == |s.log| + 1 && t.log[..|s.log|] == s.log
    && !t.log[|s.log|].Fetched? && t.log[|s.log|].event == ev
  }

  lemma RetryAttempts(s: Indexer, a: Answer)
    requires s.queue != []
    ensures if a.now - s.queue[0].time > RETRY_DELAY then Attempts(s, Retry(s, a), s.queue[0].event)
            else Retry(s, a) == s.(phase := Polling)
  {
    var e := RetryLog(s, a);
  }

  /** The pass begins at the entry that headed the queue at the poll, and attempts it exactly when it is due. */
  lemma HeadServed(cfg: Config, world: nat -> Answer, s: Indexer, trace: nat -> Indexer, n: nat)
    requires cfg.batch >= 1 && s.phase.Polling? && s.queue != [] && IsTrace(cfg, world, s, trace)
    requires Serves(trace, n)
    ensures trace(n).queue != [] && trace(n).queue[0] == s.queue[0]
    ensures if world(n).now - s.queue[0].time > 20.0 then Attempts(trace(n), trace(n + 1), s.queue[0].event)
            else trace(n + 1) == trace(n).(phase := Polling)
  {
    var m := RoundLeaves(cfg, world, s, trace);
    OnlyExit(trace, m, n);
    TraceStep(cfg, world, s, trace, n);
    RetryAttempts(trace(n), world(n));
  }

  /** The retry pass from step `n` on ends before step `m`, back at the poll. */
  ghost predicate PassOver(trace: nat -> Indexer, n: nat, m: nat) {
    n < m && InRetryPass(trace, n, m) && trace(m).phase.Polling?
  }

  /** The pass ends, after no more attempts than the entries have left. */
  lemma {:induction false} PassEnds(cfg: Config, world: nat -> Answer, s: Indexer, trace: nat -> Indexer, n: nat)
    returns (m: nat)
    requires IsTrace(cfg, world, s, trace)
    requires trace(n).phase.Retrying? && trace(n).queue != [] && Counters(trace(n).queue)
    ensures PassOver(trace, n, m) && m - n <= Work(trace(n).queue)
    decreases Work(trace(n).queue)
  {
    TraceStep(cfg, world, s, trace, n);
    WorkBounds(trace(n).queue);
    m := n + 1;
    if world(n).now - trace(n).queue[0].time > RETRY_DELAY {
      RetryUsesWork(trace(n), world(n));
      WorkBounds(trace(m).queue);
      if trace(m).queue != [] {
        m := PassEnds(cfg, world, s, trace, n + 1);
      }
    }
  }

  ghost predicate NothingDue(q: seq<ProcessingRetry>, now: real) {
    forall i :: 0 <= i < |q| ==> now - q[i].time <= 20.0
  }

  lemma LastRetry(s: Indexer, a: Answer)
    requires s.phase.Retrying? && s.queue != [] && Ordered(s.queue, a.now) && Retry(s, a).phase.Polling?
    ensures NothingDue(Retry(s, a).queue, a.now)
  {
  }

  /**
   * A round that reaches the retry pass polls once, ends, and leaves no entry due: every entry that was due
   * when the pass began has been attempted.
   */
  lemma RoundServesDueEntries(cfg: Config, world: nat -> Answer, s: Indexer, trace: nat -> Indexer, n: nat)
    returns (m: nat)
    requires cfg.batch >= 1 && s.phase.Polling? && s.queue != [] && IsTrace(cfg, world, s, trace)
    requires Counters(s.queue) && Monotone(world) && Ordered(s.queue, world(0).now)
    requires Serves(trace, n)
    ensures PassOver(trace, n, m) && NothingDue(trace(m).queue, world(m - 1).now)
  {
    var exit := RoundLeaves(cfg, world, s, trace);
    OnlyExit(trace, exit, n);
    m := PassEnds(cfg, world, s, trace, n);
    var last: nat := m - 1;
    RunOrdered(cfg, world, s, last);
    assert trace(last) == Exec(cfg, world, s, last);
    TraceStep(cfg, world, s, trace, last);
    LastRetry(trace(last), world(last));
  }
}
