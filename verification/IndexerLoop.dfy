/**
 * The indexer loop as it is written in processing/main.py, with its nested loops and local variables, proved
 * to reach exactly the states of the machine; and bounds on the work of its inner loops.
 */
module IndexerLoop {
  import opened Wrappers
  import opened Records
  import opened Ingestion

  // ---- how much work a pass can do ----

  /** The attempts that the entries of the queue have left. */
  function Work(q: seq<ProcessingRetry>): int {
    if q == [] then 0 else MAX_RETRY + 1 - q[0].retry + Work(q[1..])
  }

  lemma {:induction false} WorkAppend(q: seq<ProcessingRetry>, e: ProcessingRetry)
    ensures Work(q + [e]) == Work(q) + MAX_RETRY + 1 - e.retry
  {
    if q == [] {
      assert q + [e] == [e];
    } else {
      assert (q + [e])[1..] == q[1..] + [e];
      WorkAppend(q[1..], e);
    }
  }

  ghost predicate Counters(q: seq<ProcessingRetry>) {
    forall i :: 0 <= i < |q| ==> 1 <= q[i].retry <= MAX_RETRY
  }

  lemma {:induction false} WorkBounds(q: seq<ProcessingRetry>)
    requires Counters(q)
    ensures |q| <= Work(q) <= MAX_RETRY * |q|
  {
    if q != [] {
      WorkBounds(q[1..]);
    }
  }

  /** A step of the retry pass that does not end it at a waiting entry uses up work. */
  lemma RetryUsesWork(s: Indexer, a: Answer)
    requires s.queue != [] && Counters(s.queue) && a.now - s.queue[0].time > RETRY_DELAY
    ensures Counters(Retry(s, a).queue) && Work(Retry(s, a).queue) < Work(s.queue)
  {
    var head := s.queue[0];
    WorkAppend(s.queue[1..], ProcessingRetry(head.event, head.retry + 1, a.stamp));
  }

  /** A pass makes at most five attempts for each entry it found, whatever the clock and the outcomes. */
  lemma {:induction false} PassBounded(cfg: Config, world: nat -> Answer, s: Indexer, k: nat)
    requires Counters(s.queue)
    requires forall j: nat :: j <= k ==> Exec(cfg, world, s, j).phase.Retrying? && Exec(cfg, world, s, j).queue != []
    ensures Counters(Exec(cfg, world, s, k).queue)
    ensures k + Work(Exec(cfg, world, s, k).queue) <= Work(s.queue)
    ensures k < MAX_RETRY * |s.queue|
  {
    WorkBounds(s.queue);
    if k > 0 {
      PassBounded(cfg, world, s, k - 1);
      var before := Exec(cfg, world, s, k - 1);
      assert before.phase.Retrying? && before.queue != [] && Exec(cfg, world, s, k).phase.Retrying?;
      RetryUsesWork(before, world(k - 1));
    }
    WorkBounds(Exec(cfg, world, s, k).queue);
  }

  /** How many `get_logs` calls were made. */
  function Fetches(log: seq<Effect>): nat {
    if log == [] then 0
    else Fetches(log[..|log| - 1]) + if log[|log| - 1].Fetched? then 1 else 0
  }

  /** The cursor after `calls` batches of size `batch` on the way from `from` to `height`. */
  predicate CaughtUp(batch: int, from: int, height: int, start: int, calls: int) {
    && from <= start <= height
    && (start < height ==> start == from + calls * batch)
    && (start == height ==> (calls - 1) * batch < height - from <= calls * batch)
  }

  lemma BatchAdvances(batch: int, from: int, height: int, start: int, calls: int)
    requires batch >= 1 && CaughtUp(batch, from, height, start, calls) && start < height
    ensures CaughtUp(batch, from, height, start + Min(batch, height - start), calls + 1)
  {
    assert (calls + 1) * batch == calls * batch + batch;
  }

  lemma FetchesAppend(log: seq<Effect>, e: Effect)
    ensures Fetches(log + [e]) == Fetches(log) + if e.Fetched? then 1 else 0
  {
    assert (log + [e])[..|log|] == log;
  }

  /** Looking at an event moves no cursor. */
  lemma HandleKeepsCursor(cfg: Config, s: Indexer, a: Answer)
    requires s.pending != []
    ensures var s' := Handle(cfg, s, a); s'.start == s.start && Fetches(s'.log) == Fetches(s.log)
  {
    var s' := Handle(cfg, s, a);
    if s'.log != s.log {
      var e := s'.log[|s.log|];
      assert s'.log == s.log + [e];
      FetchesAppend(s.log, e);
    }
  }

  lemma FetchMovesCursor(cfg: Config, s: Indexer, a: Answer)
    requires s.phase.Catching? && a.logs.Some?
    ensures var s' := FetchBatch(cfg, s, a);
            && s'.start == s.start + Min(cfg.batch, s.phase.height - s.start)
            && Fetches(s'.log) == Fetches(s.log) + 1
  {
    var s' := FetchBatch(cfg, s, a);
    var e := s'.log[|s.log|];
    assert s'.log == s.log + [e];
    FetchesAppend(s.log, e);
  }

  /** One step inside the catch-up loop keeps the target and, if it fetches, advances by one batch. */
  lemma CatchUpStep(cfg: Config, s: Indexer, a: Answer)
    requires cfg.batch >= 1 && s.phase.Catching? && Settled(s)
    ensures var s' := Step(cfg, s, a);
            && (s'.phase.Catching? ==> s'.phase == s.phase && Settled(s'))
            && (!s'.phase.Catching? && !s'.phase.Aborted? ==> s'.start >= s.phase.height)
            && (if s'.start == s.start then Fetches(s'.log) == Fetches(s.log)
                else && s.start < s.phase.height
                     && Fetches(s'.log) == Fetches(s.log) + 1
                     && s'.start == s.start + Min(cfg.batch, s.phase.height - s.start))
  {
    if s.pending != [] {
      HandleKeepsCursor(cfg, s, a);
    } else if a.logs.Some? {
      FetchMovesCursor(cfg, s, a);
    }
  }

  /** How far a catch-up that began in `s` has come in `t`. */
  ghost predicate Chasing(cfg: Config, s: Indexer, t: Indexer)
    requires s.phase.Catching?
  {
    && (t.phase.Catching? ==> t.phase == s.phase && Settled(t))
    && CaughtUp(cfg.batch, s.start, s.phase.height, t.start, Fetches(t.log) - Fetches(s.log))
    && (!t.phase.Catching? && !t.phase.Aborted? ==> t.start == s.phase.height)
  }

  lemma ChasingStep(cfg: Config, s: Indexer, t: Indexer, a: Answer)
    requires cfg.batch >= 1 && s.phase.Catching? && Chasing(cfg, s, t) && t.phase.Catching?
    ensures Chasing(cfg, s, Step(cfg, t, a))
  {
    CatchUpStep(cfg, t, a);
    if Step(cfg, t, a).start != t.start {
      BatchAdvances(cfg.batch, s.start, s.phase.height, t.start, Fetches(t.log) - Fetches(s.log));
    }
  }

  /** The catch-up loop makes the least number of batched calls that covers the gap, and ends at the height. */
  lemma {:induction false} CatchUpCalls(cfg: Config, world: nat -> Answer, s: Indexer, k: nat)
    requires cfg.batch >= 1 && s.phase.Catching? && s.pending == [] && Settled(s)
    requires forall j: nat :: j < k ==> Exec(cfg, world, s, j).phase.Catching?
    ensures Chasing(cfg, s, Exec(cfg, world, s, k))
  {
    if k > 0 {
      CatchUpCalls(cfg, world, s, k - 1);
      ChasingStep(cfg, s, Exec(cfg, world, s, k - 1), world(k - 1));
    }
  }

  // ---- the loop as it is written ----

  /** The inputs of one run of the process. */
  datatype Inputs = Inputs(cfg: Config, stored: Option<int>, world: nat -> Answer)

  /** The variables that live across the nested loops, with the events made and the record of what was done. */
  datatype Locals = Locals(start: int, retryQueue: seq<ProcessingRetry>, seen: seq<Event>, log: seq<Effect>)

  /** `trace` is the run of the machine on these inputs. */
  ghost predicate Traces(run: Inputs, trace: nat -> Indexer) {
    IsTrace(run.cfg, run.world, Initial(run.cfg, run.stored), trace)
  }

  function Joined(phase: Phase, pending: seq<Log>, v: Locals): Indexer {
    Indexer(phase, v.start, pending, v.retryQueue, v.seen, v.log)
  }

  /** After `ticks` answers the machine is where the loop is, past every loop whose guard is false. */
  ghost predicate At(trace: nat -> Indexer, ticks: nat, phase: Phase, pending: seq<Log>, v: Locals) {
    trace(ticks) == Settle(Joined(phase, pending, v))
  }

  /** The machine is inside the catch-up loop from step `from` up to, not including, step `to`. */
  ghost predicate CatchingUp(trace: nat -> Indexer, from: nat, to: nat) {
    from <= to && forall j: nat :: from <= j < to ==> trace(j).phase.Catching?
  }

  ghost predicate InRetryPass(trace: nat -> Indexer, from: nat, to: nat) {
    from <= to && forall j: nat :: from <= j < to ==> trace(j).phase.Retrying?
  }

  /** How many of the first `k` steps are polls. */
  ghost function Polls(trace: nat -> Indexer, k: nat): nat {
    if k == 0 then 0 else Polls(trace, k - 1) + if trace(k - 1).phase.Polling? then 1 else 0
  }

  lemma {:induction false} NoPolls(trace: nat -> Indexer, from: nat, to: nat)
    requires CatchingUp(trace, from, to) || InRetryPass(trace, from, to)
    ensures Polls(trace, to) == Polls(trace, from)
  {
    if from < to {
      var last: nat := to - 1;
      assert trace(last).phase.Catching? || trace(last).phase.Retrying?;
      NoPolls(trace, from, last);
    }
  }

  lemma Longer(trace: nat -> Indexer, from: nat, mid: nat, to: nat)
    ensures CatchingUp(trace, from, mid) && CatchingUp(trace, mid, to) ==> CatchingUp(trace, from, to)
    ensures InRetryPass(trace, from, mid) && InRetryPass(trace, mid, to) ==> InRetryPass(trace, from, to)
  {
  }

  /** What the event loop makes of a message of this protocol. */
  function AfterEvent(v: Locals, m: Message, a: Answer): Locals {
    var ev := Event(|v.seen|, m);
    if a.succeeds(m) then v.(seen := v.seen + [ev], log := v.log + [Processed(ev, a.now)])
    else v.(seen := v.seen + [ev], log := v.log + [Failed(ev, a.now, a.stamp)],
            retryQueue := v.retryQueue + [ProcessingRetry(ev, 1, a.stamp)])
  }

  /** What the retry loop makes of a due entry at the head. */
  function AfterRetry(v: Locals, a: Answer): Locals
    requires v.retryQueue != []
  {
    var head, rest := v.retryQueue[0], v.retryQueue[1..];
    if a.succeeds(head.event.message) then v.(retryQueue := rest, log := v.log + [Processed(head.event, a.now)])
    else if head.retry < MAX_RETRY then
      v.(retryQueue := rest + [ProcessingRetry(head.event, head.retry + 1, a.stamp)],
         log := v.log + [Failed(head.event, a.now, a.stamp)])
    else v.(retryQueue := rest, log := v.log + [Abandoned(head.event, a.now)])
  }

  lemma Tick(run: Inputs, trace: nat -> Indexer, ticks: nat, phase: Phase, pending: seq<Log>, v: Locals)
    requires Traces(run, trace)
    requires At(trace, ticks, phase, pending, v)
    requires phase.Catching? && pending == [] ==> v.start < phase.height
    requires phase.Retrying? ==> v.retryQueue != []
    ensures trace(ticks) == Joined(phase, pending, v)
    ensures trace(ticks + 1) == Step(run.cfg, Joined(phase, pending, v), run.world(ticks))
  {
    TraceStep(run.cfg, run.world, Initial(run.cfg, run.stored), trace, ticks);
  }

  lemma PollTick(run: Inputs, trace: nat -> Indexer, ticks: nat, v: Locals)
    requires Traces(run, trace)
    requires At(trace, ticks, Polling, [], v)
    ensures Polls(trace, ticks + 1) == Polls(trace, ticks) + 1
    ensures match run.world(ticks).height
            case None => At(trace, ticks + 1, Aborted, [], v)
            case Some(h) => At(trace, ticks + 1, if h == v.start then Polling else Catching(h), [], v)
  {
    Tick(run, trace, ticks, Polling, [], v);
  }

  lemma FetchTick(run: Inputs, trace: nat -> Indexer, ticks: nat, height: int, v: Locals)
    requires Traces(run, trace)
    requires At(trace, ticks, Catching(height), [], v) && v.start < height
    ensures CatchingUp(trace, ticks, ticks + 1)
    ensures match run.world(ticks).logs
            case None => At(trace, ticks + 1, Aborted, [], v)
            case Some(logs) =>
              var next := v.start + Min(run.cfg.batch, height - v.start);
              At(trace, ticks + 1, Catching(height), logs,
                v.(start := next, log := v.log + [Fetched(v.start, next - 1, height, logs)]))
  {
    Tick(run, trace, ticks, Catching(height), [], v);
  }

  lemma EventTick(run: Inputs, trace: nat -> Indexer, ticks: nat, height: int, pending: seq<Log>, v: Locals)
    requires Traces(run, trace) && pending != [] && At(trace, ticks, Catching(height), pending, v)
    ensures CatchingUp(trace, ticks, ticks + 1)
    ensures match pending[0]
            case Foreign => At(trace, ticks + 1, Catching(height), pending[1..], v)
            case Undecodable => At(trace, ticks + 1, Aborted, pending, v)
            case Decoded(m) =>
              At(trace, ticks + 1, Catching(height), pending[1..],
                if m.body.protocol == run.cfg.protocol then AfterEvent(v, m, run.world(ticks)) else v)
  {
    Tick(run, trace, ticks, Catching(height), pending, v);
  }

  lemma RetryTick(run: Inputs, trace: nat -> Indexer, ticks: nat, v: Locals)
    requires Traces(run, trace) && v.retryQueue != [] && At(trace, ticks, Retrying, [], v)
    ensures InRetryPass(trace, ticks, ticks + 1)
    ensures if run.world(ticks).now - v.retryQueue[0].time <= RETRY_DELAY then At(trace, ticks + 1, Polling, [], v)
            else At(trace, ticks + 1, Retrying, [], AfterRetry(v, run.world(ticks)))
  {
    Tick(run, trace, ticks, Retrying, [], v);
  }

  lemma CountersHold(run: Inputs, trace: nat -> Indexer, ticks: nat, v: Locals)
    requires run.cfg.batch >= 1 && Traces(run, trace) && At(trace, ticks, Retrying, [], v)
    ensures Counters(v.retryQueue)
  {
    RunInvariant(run.cfg, run.stored, run.world, ticks);
    var s := Exec(run.cfg, run.world, Initial(run.cfg, run.stored), ticks);
    forall i | 0 <= i < |s.queue| ensures 1 <= s.queue[i].retry <= MAX_RETRY {
      assert EntryOk(s.log, s.queue[i]);
    }
  }

  /** A due attempt uses up work. */
  lemma AttemptUsesWork(run: Inputs, trace: nat -> Indexer, ticks: nat, v: Locals)
    requires run.cfg.batch >= 1 && Traces(run, trace) && v.retryQueue != [] && At(trace, ticks, Retrying, [], v)
    ensures 0 <= Work(AfterRetry(v, run.world(ticks)).retryQueue) < Work(v.retryQueue)
  {
    var head, rest, a := v.retryQueue[0], v.retryQueue[1..], run.world(ticks);
    CountersHold(run, trace, ticks, v);
    WorkAppend(rest, ProcessingRetry(head.event, head.retry + 1, a.stamp));
    WorkBounds(AfterRetry(v, a).retryQueue);
  }

  /** The event loop over one batch. `aborted` tells that an event could not be decoded; `rest` begins with it. */
  method HandleEvents(run: Inputs, ghost trace: nat -> Indexer, ticks0: nat, height: int, events: seq<Log>, v0: Locals)
    returns (aborted: bool, rest: seq<Log>, v: Locals, ticks: nat)
    requires Traces(run, trace)
    requires At(trace, ticks0, Catching(height), events, v0)
    ensures CatchingUp(trace, ticks0, ticks) && v.start == v0.start
    ensures !aborted ==> ticks == ticks0 + |events| && At(trace, ticks, Catching(height), [], v)
    ensures aborted ==>
              && At(trace, ticks, Aborted, rest, v)
              && ticks0 < ticks <= ticks0 + |events|
              && rest == events[ticks - ticks0 - 1..] && rest[0].Undecodable?
  {
    v, ticks := v0, ticks0;
    var i := 0;
    while i < |events|
      invariant 0 <= i <= |events| && ticks == ticks0 + i && v.start == v0.start
      invariant CatchingUp(trace, ticks0, ticks)
      invariant At(trace, ticks, Catching(height), events[i..], v)
    {
      assert events[i..][1..] == events[i + 1..];
      var answer := run.world(ticks);
      EventTick(run, trace, ticks, height, events[i..], v);
      Longer(trace, ticks0, ticks, ticks + 1);
      ticks := ticks + 1;
      match events[i] {
        case Foreign =>
        case Undecodable =>
          return true, events[i..], v, ticks;
        case Decoded(m) =>
          if m.body.protocol == run.cfg.protocol {
            var ev := Event(|v.seen|, m);
            v := v.(seen := v.seen + [ev]);
            if answer.succeeds(m) {
              v := v.(log := v.log + [Processed(ev, answer.now)]);
            } else {
              v := v.(log := v.log + [Failed(ev, answer.now, answer.stamp)]);
              v := v.(retryQueue := v.retryQueue + [ProcessingRetry(ev, 1, answer.stamp)]);
            }
          }
      }
      i := i + 1;
    }
    return false, [], v, ticks;
  }

  /** The retry loop; it stops at the first entry that is not yet due. */
  method RetryPass(run: Inputs, ghost trace: nat -> Indexer, ticks0: nat, v0: Locals) returns (v: Locals, ticks: nat)
    requires run.cfg.batch >= 1 && Traces(run, trace) && At(trace, ticks0, Retrying, [], v0)
    ensures InRetryPass(trace, ticks0, ticks) && At(trace, ticks, Polling, [], v) && v.start == v0.start
    ensures v.retryQueue != [] ==> ticks > ticks0 && run.world(ticks - 1).now - v.retryQueue[0].time <= RETRY_DELAY
  {
    v, ticks := v0, ticks0;
    while v.retryQueue != []
      invariant InRetryPass(trace, ticks0, ticks) && At(trace, ticks, Retrying, [], v) && v.start == v0.start
      decreases Work(v.retryQueue)
    {
      var head, answer := v.retryQueue[0], run.world(ticks);
      RetryTick(run, trace, ticks, v);
      Longer(trace, ticks0, ticks, ticks + 1);
      ticks := ticks + 1;
      if answer.now - head.time <= RETRY_DELAY {
        return;
      }
      AttemptUsesWork(run, trace, ticks - 1, v);
      v := v.(retryQueue := v.retryQueue[1..]);
      if answer.succeeds(head.event.message) {
        v := v.(log := v.log + [Processed(head.event, answer.now)]);
      } else if head.retry < MAX_RETRY {
        v := v.(retryQueue := v.retryQueue + [ProcessingRetry(head.event, head.retry + 1, answer.stamp)]);
        v := v.(log := v.log + [Failed(head.event, answer.now, answer.stamp)]);
      } else {
        v := v.(log := v.log + [Abandoned(head.event, answer.now)]);
      }
    }
  }

  /** The catch-up loop: batches up to `height`, and the events of each. */
  method CatchUp(run: Inputs, ghost trace: nat -> Indexer, ticks0: nat, height: int, v0: Locals)
    returns (aborted: bool, rest: seq<Log>, v: Locals, ticks: nat)
    requires run.cfg.batch >= 1 && Traces(run, trace) && At(trace, ticks0, Catching(height), [], v0)
    ensures CatchingUp(trace, ticks0, ticks)
    ensures !aborted ==>
              && At(trace, ticks, Retrying, [], v)
              && v.start == if v0.start < height then height else v0.start
    ensures aborted ==> ticks > ticks0 && At(trace, ticks, Aborted, rest, v)
  {
    aborted, rest, v, ticks := false, [], v0, ticks0;
    while v.start < height
      invariant v.start == v0.start || v.start <= height
      invariant CatchingUp(trace, ticks0, ticks) && At(trace, ticks, Catching(height), [], v)
      decreases height - v.start
    {
      var range := Min(run.cfg.batch, height - v.start);
      var answer := run.world(ticks);
      FetchTick(run, trace, ticks, height, v);
      Longer(trace, ticks0, ticks, ticks + 1);
      ticks := ticks + 1;
      if answer.logs.None? {
        return true, [], v, ticks;
      }
      v := v.(log := v.log + [Fetched(v.start, v.start + range - 1, height, answer.logs.value)]);
      v := v.(start := v.start + range);
      ghost var fetched := ticks;
      aborted, rest, v, ticks := HandleEvents(run, trace, ticks, height, answer.logs.value, v);
      Longer(trace, ticks0, fetched, ticks);
      if aborted {
        return;
      }
    }
  }

  /** The variables before the outer loop. */
  function Fresh(run: Inputs): Locals {
    Locals(1 + if run.stored.Some? && run.stored.value != 0 then run.stored.value else run.cfg.startHeight - 1,
           [], [], [])
  }

  lemma Begin(run: Inputs) returns (trace: nat -> Indexer)
    ensures Traces(run, trace) && At(trace, 0, Polling, [], Fresh(run)) && Polls(trace, 0) == 0
  {
    trace := TraceOf(run.cfg, run.world, Initial(run.cfg, run.stored));
    TraceStep(run.cfg, run.world, Initial(run.cfg, run.stored), trace, 0);
  }

  /** How many of the first `k` steps of the run are polls. */
  ghost function PollsOf(run: Inputs, k: nat): nat {
    Polls(Trace(run.cfg, run.world, Initial(run.cfg, run.stored)), k)
  }

  lemma {:induction false} SamePolls(run: Inputs, trace: nat -> Indexer, k: nat)
    requires Traces(run, trace)
    ensures PollsOf(run, k) == Polls(trace, k)
  {
    if k > 0 {
      var last: nat := k - 1;
      SamePolls(run, trace, last);
      assert trace(last) == Exec(run.cfg, run.world, Initial(run.cfg, run.stored), last);
    }
  }

  /** What is known of a trace is known of the machine. */
  lemma End(run: Inputs, trace: nat -> Indexer, ticks: nat, phase: Phase, pending: seq<Log>, v: Locals)
    requires Traces(run, trace) && At(trace, ticks, phase, pending, v) && (phase.Polling? || phase.Aborted?)
    ensures Joined(phase, pending, v) == Exec(run.cfg, run.world, Initial(run.cfg, run.stored), ticks)
    ensures PollsOf(run, ticks) == Polls(trace, ticks)
  {
    assert trace(ticks) == Exec(run.cfg, run.world, Initial(run.cfg, run.stored), ticks);
    SamePolls(run, trace, ticks);
  }

  /**
   * `polls` rounds of the outer loop, or fewer when an exception ends it: the result is the state of the
   * machine when it is about to poll once more, or the state in which it has aborted.
   */
  method Run(cfg: Config, stored: Option<int>, world: nat -> Answer, polls: nat) returns (final: Indexer, ticks: nat)
    requires cfg.batch >= 1
    ensures final == Exec(cfg, world, Initial(cfg, stored), ticks)
    ensures final.phase.Polling? || final.phase.Aborted?
    ensures final.phase.Polling? ==> PollsOf(Inputs(cfg, stored, world), ticks) == polls
    ensures final.phase.Aborted? ==> 1 <= PollsOf(Inputs(cfg, stored, world), ticks) <= polls
  {
    var run := Inputs(cfg, stored, world);
    var v := Fresh(run);
    ghost var trace := Begin(run);
    ticks := 0;
    for poll := 0 to polls
      invariant At(trace, ticks, Polling, [], v) && Polls(trace, ticks) == poll
    {
      var height := world(ticks).height;
      PollTick(run, trace, ticks, v);
      ticks := ticks + 1;
      if height.None? {
        End(run, trace, ticks, Aborted, [], v);
        return Joined(Aborted, [], v), ticks;
      }
      if height.value == v.start {
        continue;
      }
      var aborted, rest;
      ghost var polled := ticks;
      aborted, rest, v, ticks := CatchUp(run, trace, ticks, height.value, v);
      NoPolls(trace, polled, ticks);
      if aborted {
        End(run, trace, ticks, Aborted, rest, v);
        return Joined(Aborted, rest, v), ticks;
      }
      ghost var caughtUp := ticks;
      v, ticks := RetryPass(run, trace, ticks, v);
      NoPolls(trace, caughtUp, ticks);
    }
    End(run, trace, ticks, Polling, [], v);
    return Joined(Polling, [], v), ticks;
  }
}
