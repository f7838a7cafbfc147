/**
 * The indexer of processing/main.py as a state machine: a block cursor that walks the chain in bounded
 * batches, and a timed retry queue for the events whose processing failed. There is one transition for each
 * answer of the environment; module IndexerLoop ties the loop as it is written to these transitions.
 */
module Ingestion {
  import opened Wrappers
  import opened Records

  const MAX_RETRY := 5
  const RETRY_DELAY := 20.0

  datatype Config = Config(protocol: int, startHeight: int, batch: int)

  /** One entry of a `get_logs` answer, by what the event loop does with it. */
  datatype Log = Foreign | Undecodable | Decoded(message: Message)

  /** A decoded event object. Two equal messages are still two objects, told apart by `id`. */
  datatype Event = Event(id: nat, message: Message)

  datatype ProcessingRetry = ProcessingRetry(event: Event, retry: int, time: real)

  /**
   * What the environment answers during one step; `None` stands for a raised exception. `now` is the clock
   * before processing, `stamp` the clock after a failure, `succeeds` says which messages `process` accepts.
   */
  datatype Answer = Answer(
    height: Option<int>, logs: Option<seq<Log>>, now: real, succeeds: Message -> bool, stamp: real)

  /** What a run does, in order. */
  datatype Effect =
    | Fetched(first: int, last: int, height: int, logs: seq<Log>)
    | Processed(event: Event, started: real)
    | Failed(event: Event, started: real, stamp: real)
    | Abandoned(event: Event, started: real)

  datatype Phase = Polling | Catching(height: int) | Retrying | Aborted

  /** `pending` is the part of the last batch still to be looked at, `seen` the event objects made so far. */
  datatype Indexer = Indexer(
    phase: Phase, start: int, pending: seq<Log>, queue: seq<ProcessingRetry>, seen: seq<Event>, log: seq<Effect>)

  /** A stored maximum of 0 counts as absent. */
  function RestartCursor(cfg: Config, stored: Option<int>): int {
    1 + if stored.Some? && stored.value != 0 then stored.value else cfg.startHeight - 1
  }

  function Initial(cfg: Config, stored: Option<int>): Indexer {
    Indexer(Polling, RestartCursor(cfg, stored), [], [], [], [])
  }

  // ---- the small-step machine ----

  /** Moves past every loop whose guard is false; no answer is needed for that. */
  function Settle(s: Indexer): Indexer {
    if s.phase.Catching? && s.pending == [] && s.start >= s.phase.height then
      s.(phase := if s.queue == [] then Polling else Retrying)
    else if s.phase.Retrying? && s.queue == [] then s.(phase := Polling)
    else s
  }

  function Poll(s: Indexer, a: Answer): Indexer {
    match a.height
    case None => s.(phase := Aborted)
    case Some(h) => if h == s.start then s else Settle(s.(phase := Catching(h)))
  }

  function FetchBatch(cfg: Config, s: Indexer, a: Answer): Indexer
    requires s.phase.Catching?
  {
    var range := Min(cfg.batch, s.phase.height - s.start);
    match a.logs
    case None => s.(phase := Aborted)
    case Some(logs) =>
      Settle(s.(start := s.start + range, pending := logs,
                log := s.log + [Fetched(s.start, s.start + range - 1, s.phase.height, logs)]))
  }

  function Handle(cfg: Config, s: Indexer, a: Answer): Indexer
    requires s.pending != []
  {
    var rest := s.(pending := s.pending[1..]);
    match s.pending[0]
    case Foreign => Settle(rest)
    case Undecodable => s.(phase := Aborted)
    case Decoded(m) =>
      if m.body.protocol != cfg.protocol then Settle(rest)
      else
        var ev := Event(|s.seen|, m);
        Settle(
          if a.succeeds(m) then rest.(seen := s.seen + [ev], log := s.log + [Processed(ev, a.now)])
          else rest.(seen := s.seen + [ev], log := s.log + [Failed(ev, a.now, a.stamp)],
                     queue := s.queue + [ProcessingRetry(ev, 1, a.stamp)]))
  }

  function Retry(s: Indexer, a: Answer): Indexer
    requires s.queue != []
  {
    var head := s.queue[0];
    var rest := s.(queue := s.queue[1..]);
    if a.now - head.time <= RETRY_DELAY then s.(phase := Polling)
    else
      Settle(
        if a.succeeds(head.event.message) then rest.(log := s.log + [Processed(head.event, a.now)])
        else if head.retry < MAX_RETRY then
          rest.(queue := s.queue[1..] + [ProcessingRetry(head.event, head.retry + 1, a.stamp)],
                log := s.log + [Failed(head.event, a.now, a.stamp)])
        else rest.(log := s.log + [Abandoned(head.event, a.now)]))
  }

  function Step(cfg: Config, s: Indexer, a: Answer): Indexer {
    match s.phase
    case Polling => Poll(s, a)
    case Catching(h) => if s.pending != [] then Handle(cfg, s, a) else FetchBatch(cfg, s, a)
    case Retrying => if s.queue != [] then Retry(s, a) else s
    case Aborted => s
  }

  function Exec(cfg: Config, world: nat -> Answer, s: Indexer, k: nat): Indexer {
    if k == 0 then s else Step(cfg, Exec(cfg, world, s, k - 1), world(k - 1))
  }

  /** The run from `s`: the state after each number of answers. */
  function Trace(cfg: Config, world: nat -> Answer, s: Indexer): nat -> Indexer {
    (k: nat) => Exec(cfg, world, s, k)
  }

  /** `trace` is the run from `s`. The trigger keeps proofs about a trace from unfolding it. */
  ghost predicate IsTrace(cfg: Config, world: nat -> Answer, s: Indexer, trace: nat -> Indexer) {
    forall k: nat {:trigger Exec(cfg, world, s, k)} :: trace(k) == Exec(cfg, world, s, k)
  }

  lemma TraceOf(cfg: Config, world: nat -> Answer, s: Indexer) returns (trace: nat -> Indexer)
    ensures IsTrace(cfg, world, s, trace)
  {
    trace := Trace(cfg, world, s);
  }

  lemma TraceStep(cfg: Config, world: nat -> Answer, s: Indexer, trace: nat -> Indexer, k: nat)
    requires IsTrace(cfg, world, s, trace)
    ensures trace(0) == s && trace(k + 1) == Step(cfg, trace(k), world(k))
  {
    assert Exec(cfg, world, s, 0) == s;
    assert Exec(cfg, world, s, k + 1) == Step(cfg, Exec(cfg, world, s, k), world(k));
  }

  // ---- every event object has one fate ----

  /** How many queue entries hold `ev`. */
  function Queued(q: seq<ProcessingRetry>, ev: Event): nat {
    if q == [] then 0 else (if q[0].event == ev then 1 else 0) + Queued(q[1..], ev)
  }

  /** The attempts to process `ev`, oldest first. */
  function AttemptsOf(log: seq<Effect>, ev: Event): seq<Effect> {
    if log == [] then []
    else
      var init := AttemptsOf(log[..|log| - 1], ev);
      var last := log[|log| - 1];
      if !last.Fetched? && last.event == ev then init + [last] else init
  }

  predicate Made(seen: seq<Event>, ev: Event) {
    ev.id < |seen| && seen[ev.id] == ev
  }

  ghost predicate Numbered(seen: seq<Event>) {
    forall i :: 0 <= i < |seen| ==> seen[i].id == i
  }

  ghost predicate Gap(attempts: seq<Effect>, i: nat)
    requires i + 1 < |attempts|
  {
    && attempts[i].Failed?
    && !attempts[i + 1].Fetched?
    && attempts[i + 1].started > attempts[i].stamp + 20.0
  }

  /** All attempts but the last failed, and each began more than 20 seconds after the failure before it. */
  ghost predicate Spaced(attempts: seq<Effect>) {
    forall i: nat :: i + 1 < |attempts| ==> Gap(attempts, i)
  }

  /**
   * An event object that was made is processed, queued once or given up; it is given up exactly when its
   * sixth attempt fails. An object that was never made leaves no trace.
   */
  ghost predicate Fate(seen: seq<Event>, queue: seq<ProcessingRetry>, log: seq<Effect>, ev: Event) {
    var attempts := AttemptsOf(log, ev);
    if !Made(seen, ev) then attempts == [] && Queued(queue, ev) == 0
    else
      && 1 <= |attempts| <= 6
      && Spaced(attempts)
      && match attempts[|attempts| - 1]
         case Processed(_, _) => Queued(queue, ev) == 0
         case Failed(_, _, _) => Queued(queue, ev) == 1 && |attempts| <= 5
         case Abandoned(_, _) => Queued(queue, ev) == 0 && |attempts| == 6
         case Fetched(_, _, _, _) => false
  }

  /** A queue entry counts the failures of its event and carries the stamp of the latest. */
  ghost predicate EntryOk(log: seq<Effect>, e: ProcessingRetry) {
    var attempts := AttemptsOf(log, e.event);
    && 1 <= e.retry <= MAX_RETRY
    && |attempts| == e.retry
    && attempts[|attempts| - 1].Failed?
    && attempts[|attempts| - 1].stamp == e.time
  }

  ghost predicate Sound(s: Indexer) {
    && Numbered(s.seen)
    && (forall ev :: Fate(s.seen, s.queue, s.log, ev))
    && (forall i :: 0 <= i < |s.queue| ==> EntryOk(s.log, s.queue[i]) && Made(s.seen, s.queue[i].event))
  }

  /** The three fates, read off the last attempt. */
  lemma FateCases(s: Indexer, ev: Event)
    requires Sound(s) && Made(s.seen, ev)
    ensures var attempts := AttemptsOf(s.log, ev);
            && attempts != [] && Spaced(attempts)
            && match attempts[|attempts| - 1]
               case Processed(_, _) => Queued(s.queue, ev) == 0
               case Failed(_, _, _) => Queued(s.queue, ev) == 1 && |attempts| <= 5
               case Abandoned(_, _) => Queued(s.queue, ev) == 0 && |attempts| == 6
               case Fetched(_, _, _, _) => false
  {
    assert Fate(s.seen, s.queue, s.log, ev);
  }

  lemma {:induction false} QueuedAppend(q: seq<ProcessingRetry>, e: ProcessingRetry, ev: Event)
    ensures Queued(q + [e], ev) == Queued(q, ev) + if e.event == ev then 1 else 0
  {
    if q == [] {
      assert q + [e] == [e];
    } else {
      assert (q + [e])[1..] == q[1..] + [e];
      QueuedAppend(q[1..], e, ev);
    }
  }

  lemma {:induction false} QueuedMember(q: seq<ProcessingRetry>, i: nat)
    requires i < |q|
    ensures Queued(q, q[i].event) >= 1
  {
    if i > 0 {
      QueuedMember(q[1..], i - 1);
    }
  }

  lemma AttemptsAppend(log: seq<Effect>, e: Effect, ev: Event)
    ensures AttemptsOf(log + [e], ev) ==
            if !e.Fetched? && e.event == ev then AttemptsOf(log, ev) + [e] else AttemptsOf(log, ev)
  {
    assert (log + [e])[..|log|] == log;
  }

  /** What the first attempt on a new event leaves in the queue. */
  ghost predicate Begins(s: Indexer, ev: Event, e: Effect, queue: seq<ProcessingRetry>) {
    && ev.id == |s.seen|
    && match e
       case Processed(made, _) => made == ev && queue == s.queue
       case Failed(made, _, stamp) => made == ev && queue == s.queue + [ProcessingRetry(ev, 1, stamp)]
       case _ => false
  }

  lemma FirstFate(s: Indexer, ev: Event, e: Effect, queue: seq<ProcessingRetry>, other: Event)
    requires Sound(s) && Begins(s, ev, e, queue)
    ensures Fate(s.seen + [ev], queue, s.log + [e], other)
  {
    assert Fate(s.seen, s.queue, s.log, other);
    AttemptsAppend(s.log, e, other);
    if e.Failed? { QueuedAppend(s.queue, ProcessingRetry(ev, 1, e.stamp), other); }
  }

  lemma FirstEntry(s: Indexer, ev: Event, e: Effect, queue: seq<ProcessingRetry>, i: nat)
    requires Sound(s) && Begins(s, ev, e, queue) && i < |queue|
    ensures EntryOk(s.log + [e], queue[i]) && Made(s.seen + [ev], queue[i].event)
  {
    AttemptsAppend(s.log, e, queue[i].event);
    if i < |s.queue| {
      assert EntryOk(s.log, s.queue[i]) && Made(s.seen, s.queue[i].event);
    } else {
      assert Fate(s.seen, s.queue, s.log, ev);
    }
  }

  /** The first attempt makes the event object. */
  lemma FirstAttempt(s: Indexer, ev: Event, e: Effect, queue: seq<ProcessingRetry>)
    requires Sound(s) && Begins(s, ev, e, queue)
    ensures Sound(s.(seen := s.seen + [ev], queue := queue, log := s.log + [e]))
  {
    forall other ensures Fate(s.seen + [ev], queue, s.log + [e], other) {
      FirstFate(s, ev, e, queue, other);
    }
    forall i | 0 <= i < |queue| ensures EntryOk(s.log + [e], queue[i]) && Made(s.seen + [ev], queue[i].event) {
      FirstEntry(s, ev, e, queue, i);
    }
  }

  /** What an attempt on the head of the queue leaves in its place. */
  ghost predicate Follows(s: Indexer, e: Effect, queue: seq<ProcessingRetry>)
    requires s.queue != []
  {
    var head := s.queue[0];
    match e
    case Fetched(_, _, _, _) => false
    case Processed(ev, started) => ev == head.event && started > head.time + RETRY_DELAY && queue == s.queue[1..]
    case Abandoned(ev, started) =>
      ev == head.event && started > head.time + RETRY_DELAY && queue == s.queue[1..] && head.retry == MAX_RETRY
    case Failed(ev, started, stamp) =>
      && ev == head.event && started > head.time + RETRY_DELAY && head.retry < MAX_RETRY
      && queue == s.queue[1..] + [ProcessingRetry(ev, head.retry + 1, stamp)]
  }

  lemma SpacedAppend(attempts: seq<Effect>, e: Effect)
    requires attempts != [] && Spaced(attempts)
    requires attempts[|attempts| - 1].Failed? && !e.Fetched?
    requires e.started > attempts[|attempts| - 1].stamp + RETRY_DELAY
    ensures Spaced(attempts + [e])
  {
    forall i: nat | i + 1 < |attempts + [e]| ensures Gap(attempts + [e], i) {
      if i + 1 < |attempts| { assert Gap(attempts, i); }
    }
  }

  lemma OtherFate(s: Indexer, e: Effect, queue: seq<ProcessingRetry>, ev: Event)
    requires Sound(s) && s.queue != [] && Follows(s, e, queue) && ev != s.queue[0].event
    ensures Fate(s.seen, queue, s.log + [e], ev)
  {
    assert Fate(s.seen, s.queue, s.log, ev);
    AttemptsAppend(s.log, e, ev);
    if e.Failed? { QueuedAppend(s.queue[1..], queue[|queue| - 1], ev); }
  }

  lemma HeadFate(s: Indexer, e: Effect, queue: seq<ProcessingRetry>)
    requires Sound(s) && s.queue != [] && Follows(s, e, queue)
    ensures Fate(s.seen, queue, s.log + [e], s.queue[0].event)
  {
    var head := s.queue[0];
    var attempts := AttemptsOf(s.log, head.event);
    assert EntryOk(s.log, head) && Made(s.seen, head.event);
    assert Fate(s.seen, s.queue, s.log, head.event);
    AttemptsAppend(s.log, e, head.event);
    SpacedAppend(attempts, e);
    if e.Failed? { QueuedAppend(s.queue[1..], queue[|queue| - 1], head.event); }
  }

  lemma NextEntry(s: Indexer, e: Effect, queue: seq<ProcessingRetry>, i: nat)
    requires Sound(s) && s.queue != [] && Follows(s, e, queue) && i < |queue|
    ensures EntryOk(s.log + [e], queue[i]) && Made(s.seen, queue[i].event)
  {
    var head := s.queue[0];
    assert EntryOk(s.log, head) && Made(s.seen, head.event);
    AttemptsAppend(s.log, e, queue[i].event);
    if i < |s.queue| - 1 {
      assert queue[i] == s.queue[1..][i] == s.queue[i + 1];
      assert EntryOk(s.log, s.queue[i + 1]) && Made(s.seen, s.queue[i + 1].event);
      assert Fate(s.seen, s.queue, s.log, head.event);
      QueuedMember(s.queue[1..], i);
    }
  }

  /** The next attempt on the event at the head of the queue. */
  lemma NextAttempt(s: Indexer, e: Effect, queue: seq<ProcessingRetry>)
    requires Sound(s) && s.queue != [] && Follows(s, e, queue)
    ensures Sound(s.(queue := queue, log := s.log + [e]))
  {
    forall ev ensures Fate(s.seen, queue, s.log + [e], ev) {
      if ev == s.queue[0].event { HeadFate(s, e, queue); } else { OtherFate(s, e, queue, ev); }
    }
    forall i | 0 <= i < |queue| ensures EntryOk(s.log + [e], queue[i]) && Made(s.seen, queue[i].event) {
      NextEntry(s, e, queue, i);
    }
  }

  lemma HandleSound(cfg: Config, s: Indexer, a: Answer)
    requires Sound(s) && s.pending != []
    ensures Sound(Handle(cfg, s, a))
  {
    if s.pending[0].Decoded? && s.pending[0].message.body.protocol == cfg.protocol {
      var ev := Event(|s.seen|, s.pending[0].message);
      if a.succeeds(ev.message) {
        FirstAttempt(s, ev, Processed(ev, a.now), s.queue);
      } else {
        FirstAttempt(s, ev, Failed(ev, a.now, a.stamp), s.queue + [ProcessingRetry(ev, 1, a.stamp)]);
      }
    }
  }

  /** Effects that are no attempts change no fate. */
  lemma FetchedSound(s: Indexer, e: Effect)
    requires Sound(s) && e.Fetched?
    ensures Sound(s.(log := s.log + [e]))
  {
    forall ev ensures Fate(s.seen, s.queue, s.log + [e], ev) {
      assert Fate(s.seen, s.queue, s.log, ev);
      AttemptsAppend(s.log, e, ev);
    }
    forall i | 0 <= i < |s.queue| ensures EntryOk(s.log + [e], s.queue[i]) {
      assert EntryOk(s.log, s.queue[i]);
      AttemptsAppend(s.log, e, s.queue[i].event);
    }
  }

  lemma FetchSound(cfg: Config, s: Indexer, a: Answer)
    requires Sound(s) && s.phase.Catching?
    ensures Sound(FetchBatch(cfg, s, a))
  {
    if a.logs.Some? {
      var range := Min(cfg.batch, s.phase.height - s.start);
      FetchedSound(s, Fetched(s.start, s.start + range - 1, s.phase.height, a.logs.value));
    }
  }

  lemma RetrySound(s: Indexer, a: Answer)
    requires Sound(s) && s.queue != []
    ensures Sound(Retry(s, a))
  {
    var head := s.queue[0];
    if a.now - head.time > RETRY_DELAY {
      assert EntryOk(s.log, head);
      if a.succeeds(head.event.message) {
        NextAttempt(s, Processed(head.event, a.now), s.queue[1..]);
      } else if head.retry < MAX_RETRY {
        NextAttempt(s, Failed(head.event, a.now, a.stamp),
          s.queue[1..] + [ProcessingRetry(head.event, head.retry + 1, a.stamp)]);
      } else {
        NextAttempt(s, Abandoned(head.event, a.now), s.queue[1..]);
      }
    }
  }

  lemma StepSound(cfg: Config, s: Indexer, a: Answer)
    requires Sound(s)
    ensures Sound(Step(cfg, s, a))
  {
    if s.phase.Catching? {
      if s.pending != [] { HandleSound(cfg, s, a); } else { FetchSound(cfg, s, a); }
    } else if s.phase.Retrying? && s.queue != [] {
      RetrySound(s, a);
    }
  }

  // ---- nothing fetched is lost before it becomes an event ----

  /** The messages among `logs` that this indexer has to process. */
  function Matching(cfg: Config, logs: seq<Log>): seq<Message> {
    if logs == [] then []
    else if logs[0].Decoded? && logs[0].message.body.protocol == cfg.protocol
    then [logs[0].message] + Matching(cfg, logs[1..])
    else Matching(cfg, logs[1..])
  }

  /** The messages for this indexer in all `get_logs` answers, in order. */
  function FetchedIn(cfg: Config, log: seq<Effect>): seq<Message> {
    if log == [] then []
    else
      var init := FetchedIn(cfg, log[..|log| - 1]);
      var last := log[|log| - 1];
      if last.Fetched? then init + Matching(cfg, last.logs) else init
  }

  function MessagesOf(seen: seq<Event>): seq<Message> {
    if seen == [] then [] else MessagesOf(seen[..|seen| - 1]) + [seen[|seen| - 1].message]
  }

  /** What was fetched is what became an event followed by what is pending, in chain order. */
  ghost predicate Traced(cfg: Config, seen: seq<Event>, pending: seq<Log>, log: seq<Effect>) {
    FetchedIn(cfg, log) == MessagesOf(seen) + Matching(cfg, pending)
  }

  lemma FetchedAppend(cfg: Config, log: seq<Effect>, e: Effect)
    ensures FetchedIn(cfg, log + [e]) ==
            if e.Fetched? then FetchedIn(cfg, log) + Matching(cfg, e.logs) else FetchedIn(cfg, log)
  {
    assert (log + [e])[..|log|] == log;
  }

  lemma EventTraced(cfg: Config, s: Indexer, ev: Event, e: Effect)
    requires Traced(cfg, s.seen, s.pending, s.log)
    requires s.pending != [] && s.pending[0] == Decoded(ev.message) && ev.message.body.protocol == cfg.protocol
    requires !e.Fetched?
    ensures Traced(cfg, s.seen + [ev], s.pending[1..], s.log + [e])
  {
    FetchedAppend(cfg, s.log, e);
    assert (s.seen + [ev])[..|s.seen|] == s.seen;
  }

  lemma HandleTraced(cfg: Config, s: Indexer, a: Answer)
    requires Traced(cfg, s.seen, s.pending, s.log) && s.pending != []
    ensures var s' := Handle(cfg, s, a); Traced(cfg, s'.seen, s'.pending, s'.log)
  {
    if s.pending[0].Decoded? && s.pending[0].message.body.protocol == cfg.protocol {
      var ev := Event(|s.seen|, s.pending[0].message);
      var s' := Handle(cfg, s, a);
      var e := if a.succeeds(ev.message) then Processed(ev, a.now) else Failed(ev, a.now, a.stamp);
      assert s'.seen == s.seen + [ev] && s'.pending == s.pending[1..] && s'.log == s.log + [e];
      EventTraced(cfg, s, ev, e);
    } else {
      assert Matching(cfg, s.pending[1..]) == Matching(cfg, s.pending);
    }
  }

  lemma BatchTraced(cfg: Config, seen: seq<Event>, log: seq<Effect>, e: Effect)
    requires Traced(cfg, seen, [], log) && e.Fetched?
    ensures Traced(cfg, seen, e.logs, log + [e])
  {
    FetchedAppend(cfg, log, e);
    assert Matching(cfg, []) == [];
  }

  lemma FetchTraced(cfg: Config, s: Indexer, a: Answer)
    requires Traced(cfg, s.seen, s.pending, s.log) && s.pending == [] && s.phase.Catching?
    ensures var s' := FetchBatch(cfg, s, a); Traced(cfg, s'.seen, s'.pending, s'.log)
  {
    if a.logs.Some? {
      var range := Min(cfg.batch, s.phase.height - s.start);
      BatchTraced(cfg, s.seen, s.log, Fetched(s.start, s.start + range - 1, s.phase.height, a.logs.value));
    }
  }

  predicate IsFailure(e: Effect, a: Answer) {
    e.Failed? && e.started == a.now && e.stamp == a.stamp
  }

  /** What a step adds to the log: nothing, or one effect; an attempt fails no later than it is stamped. */
  lemma HandleLog(cfg: Config, s: Indexer, a: Answer) returns (e: Option<Effect>)
    requires s.pending != []
    ensures Handle(cfg, s, a).log == if e.None? then s.log else s.log + [e.value]
    ensures e.Some? ==> e.value.Processed? || IsFailure(e.value, a)
  {
    if s.pending[0].Decoded? && s.pending[0].message.body.protocol == cfg.protocol {
      var ev := Event(|s.seen|, s.pending[0].message);
      e := Some(if a.succeeds(ev.message) then Processed(ev, a.now) else Failed(ev, a.now, a.stamp));
    } else {
      e := None;
    }
  }

  lemma RetryLog(s: Indexer, a: Answer) returns (e: Option<Effect>)
    requires s.queue != []
    ensures Retry(s, a).log == if e.None? then s.log else s.log + [e.value]
    ensures Retry(s, a).seen == s.seen && Retry(s, a).pending == s.pending
    ensures e.Some? ==> e.value.Processed? || e.value.Abandoned? || IsFailure(e.value, a)
  {
    var head := s.queue[0];
    if a.now - head.time <= RETRY_DELAY {
      e := None;
    } else if a.succeeds(head.event.message) {
      e := Some(Processed(head.event, a.now));
    } else if head.retry < MAX_RETRY {
      e := Some(Failed(head.event, a.now, a.stamp));
    } else {
      e := Some(Abandoned(head.event, a.now));
    }
  }

  lemma RetryTraced(cfg: Config, s: Indexer, a: Answer)
    requires Traced(cfg, s.seen, s.pending, s.log) && s.queue != []
    ensures var s' := Retry(s, a); Traced(cfg, s'.seen, s'.pending, s'.log)
  {
    var e := RetryLog(s, a);
    if e.Some? {
      FetchedAppend(cfg, s.log, e.value);
    }
  }

  lemma StepTraced(cfg: Config, s: Indexer, a: Answer)
    requires Traced(cfg, s.seen, s.pending, s.log)
    ensures var s' := Step(cfg, s, a); Traced(cfg, s'.seen, s'.pending, s'.log)
  {
    var s' := Step(cfg, s, a);
    if s.phase.Catching? {
      if s.pending != [] { HandleTraced(cfg, s, a); } else { FetchTraced(cfg, s, a); }
    } else if s.phase.Retrying? && s.queue != [] {
      RetryTraced(cfg, s, a);
    } else {
      assert s'.seen == s.seen && s'.pending == s.pending && s'.log == s.log;
    }
  }

  // ---- block coverage ----

  /** How many `get_logs` calls asked for block `b`. */
  function TimesFetched(log: seq<Effect>, b: int): nat {
    if log == [] then 0
    else
      var last := log[|log| - 1];
      TimesFetched(log[..|log| - 1], b) + if last.Fetched? && last.first <= b <= last.last then 1 else 0
  }

  ghost predicate GoodRange(cfg: Config, e: Effect) {
    e.Fetched? ==> e.first <= e.last < e.height && e.last - e.first + 1 <= cfg.batch
  }

  /** Every block from the first cursor up to the present one was asked for once, and no other block. */
  ghost predicate Covered(cfg: Config, from: int, start: int, log: seq<Effect>) {
    && from <= start
    && (forall b :: TimesFetched(log, b) == if from <= b < start then 1 else 0)
    && (forall i :: 0 <= i < |log| ==> GoodRange(cfg, log[i]))
  }

  /** The guard of the catch-up loop is known to hold where the machine is about to fetch. */
  predicate Settled(s: Indexer) {
    s.phase.Catching? && s.pending == [] ==> s.start < s.phase.height
  }

  lemma CoveredAppend(cfg: Config, from: int, start: int, log: seq<Effect>, e: Effect)
    requires Covered(cfg, from, start, log) && GoodRange(cfg, e)
    requires e.Fetched? ==> e.first == start
    ensures Covered(cfg, from, if e.Fetched? then e.last + 1 else start, log + [e])
  {
    var start' := if e.Fetched? then e.last + 1 else start;
    forall b ensures TimesFetched(log + [e], b) == if from <= b < start' then 1 else 0 {
      assert (log + [e])[..|log|] == log;
      assert TimesFetched(log, b) == if from <= b < start then 1 else 0;
    }
  }

  lemma FetchCovered(cfg: Config, from: int, s: Indexer, a: Answer)
    requires cfg.batch >= 1 && Covered(cfg, from, s.start, s.log) && s.phase.Catching? && s.start < s.phase.height
    ensures var s' := FetchBatch(cfg, s, a); Covered(cfg, from, s'.start, s'.log) && Settled(s')
  {
    if a.logs.Some? {
      var s' := FetchBatch(cfg, s, a);
      var e := s'.log[|s.log|];
      assert s'.log == s.log + [e];
      CoveredAppend(cfg, from, s.start, s.log, e);
    }
  }

  lemma HandleCovered(cfg: Config, from: int, s: Indexer, a: Answer)
    requires Covered(cfg, from, s.start, s.log) && s.pending != []
    ensures var s' := Handle(cfg, s, a); Covered(cfg, from, s'.start, s'.log)
  {
    var e := HandleLog(cfg, s, a);
    if e.Some? { CoveredAppend(cfg, from, s.start, s.log, e.value); }
  }

  lemma RetryCovered(cfg: Config, from: int, s: Indexer, a: Answer)
    requires Covered(cfg, from, s.start, s.log) && s.queue != []
    ensures var s' := Retry(s, a); Covered(cfg, from, s'.start, s'.log)
  {
    var e := RetryLog(s, a);
    if e.Some? { CoveredAppend(cfg, from, s.start, s.log, e.value); }
  }

  lemma StepSettled(cfg: Config, s: Indexer, a: Answer)
    requires Settled(s)
    ensures Settled(Step(cfg, s, a))
  {
  }

  lemma StepCovered(cfg: Config, from: int, s: Indexer, a: Answer)
    requires cfg.batch >= 1 && Covered(cfg, from, s.start, s.log) && Settled(s)
    ensures var s' := Step(cfg, s, a); Covered(cfg, from, s'.start, s'.log) && Settled(s')
  {
    StepSettled(cfg, s, a);
    if s.phase.Catching? {
      if s.pending != [] { HandleCovered(cfg, from, s, a); } else { FetchCovered(cfg, from, s, a); }
    } else if s.phase.Retrying? && s.queue != [] {
      RetryCovered(cfg, from, s, a);
    }
  }

  // ---- the cursor against the contents of the chain ----

  /** The entries of the blocks from `from` up to, not including, `to`. */
  function BlockLogs(blocks: int -> seq<Log>, from: int, to: int): seq<Log>
    decreases to - from
  {
    if to <= from then [] else BlockLogs(blocks, from, to - 1) + blocks(to - 1)
  }

  lemma {:induction false} BlocksAppend(blocks: int -> seq<Log>, a: int, b: int, c: int)
    requires a <= b <= c
    ensures BlockLogs(blocks, a, c) == BlockLogs(blocks, a, b) + BlockLogs(blocks, b, c)
    decreases c - b
  {
    if b < c {
      BlocksAppend(blocks, a, b, c - 1);
    } else {
      assert BlockLogs(blocks, b, c) == [];
    }
  }

  lemma {:induction false} MatchingAppend(cfg: Config, a: seq<Log>, b: seq<Log>)
    ensures Matching(cfg, a + b) == Matching(cfg, a) + Matching(cfg, b)
  {
    if a == [] {
      assert a + b == b;
    } else {
      assert (a + b)[1..] == a[1..] + b;
      MatchingAppend(cfg, a[1..], b);
    }
  }

  /** A node that is asked for the next batch answers with the entries of these blocks, or not at all. */
  ghost predicate FaithfulAnswer(cfg: Config, blocks: int -> seq<Log>, s: Indexer, a: Answer) {
    s.phase.Catching? && s.pending == [] && a.logs.Some? ==>
      a.logs.value == BlockLogs(blocks, s.start, Min(s.start + cfg.batch, s.phase.height))
  }

  /** Every matching message of the blocks from `from` up to the cursor was fetched, in order, and nothing else. */
  ghost predicate HasRead(cfg: Config, blocks: int -> seq<Log>, from: int, s: Indexer) {
    && from <= s.start && Settled(s)
    && FetchedIn(cfg, s.log) == Matching(cfg, BlockLogs(blocks, from, s.start))
  }

  lemma FetchReads(cfg: Config, blocks: int -> seq<Log>, from: int, s: Indexer, a: Answer)
    requires cfg.batch >= 1 && HasRead(cfg, blocks, from, s) && FaithfulAnswer(cfg, blocks, s, a)
    requires s.phase.Catching? && s.pending == []
    ensures HasRead(cfg, blocks, from, FetchBatch(cfg, s, a))
  {
    if a.logs.Some? {
      var next := Min(s.start + cfg.batch, s.phase.height);
      FetchedAppend(cfg, s.log, Fetched(s.start, next - 1, s.phase.height, a.logs.value));
      BlocksAppend(blocks, from, s.start, next);
      MatchingAppend(cfg, BlockLogs(blocks, from, s.start), a.logs.value);
    }
  }

  lemma HandleReads(cfg: Config, blocks: int -> seq<Log>, from: int, s: Indexer, a: Answer)
    requires HasRead(cfg, blocks, from, s) && s.pending != []
    ensures HasRead(cfg, blocks, from, Handle(cfg, s, a))
  {
    var e := HandleLog(cfg, s, a);
    if e.Some? { FetchedAppend(cfg, s.log, e.value); }
  }

  lemma RetryReads(cfg: Config, blocks: int -> seq<Log>, from: int, s: Indexer, a: Answer)
    requires HasRead(cfg, blocks, from, s) && s.queue != []
    ensures HasRead(cfg, blocks, from, Retry(s, a))
  {
    var e := RetryLog(s, a);
    if e.Some? { FetchedAppend(cfg, s.log, e.value); }
  }

  lemma StepReads(cfg: Config, blocks: int -> seq<Log>, from: int, s: Indexer, a: Answer)
    requires cfg.batch >= 1 && HasRead(cfg, blocks, from, s) && FaithfulAnswer(cfg, blocks, s, a)
    ensures HasRead(cfg, blocks, from, Step(cfg, s, a))
  {
    if s.phase.Catching? {
      if s.pending != [] { HandleReads(cfg, blocks, from, s, a); } else { FetchReads(cfg, blocks, from, s, a); }
    } else if s.phase.Retrying? && s.queue != [] {
      RetryReads(cfg, blocks, from, s, a);
    }
  }

  // ---- the order of the queue ----

  ghost predicate Ordered(q: seq<ProcessingRetry>, now: real) {
    && (forall i, j :: 0 <= i < j < |q| ==> q[i].time <= q[j].time)
    && (forall i :: 0 <= i < |q| ==> q[i].time <= now)
  }

  /** Clock readings never go back. */
  ghost predicate Monotone(world: nat -> Answer) {
    && (forall i: nat :: world(i).now <= world(i).stamp)
    && (forall i: nat, j: nat :: i < j ==> world(i).stamp <= world(j).now)
  }

  lemma RetryOrdered(s: Indexer, a: Answer, before: real)
    requires s.queue != [] && Ordered(s.queue, before) && before <= a.now <= a.stamp
    ensures Ordered(Retry(s, a).queue, a.stamp)
  {
    assert Ordered(s.queue[1..], before);
  }

  lemma StepOrdered(cfg: Config, s: Indexer, a: Answer, before: real)
    requires Ordered(s.queue, before) && before <= a.now <= a.stamp
    ensures Ordered(Step(cfg, s, a).queue, a.stamp)
  {
    if s.phase.Retrying? && s.queue != [] {
      RetryOrdered(s, a, before);
    }
  }

  // ---- every run ----

  /** The three invariants of the loop, at every point of every run from a fresh start. */
  lemma {:induction false} RunInvariant(cfg: Config, stored: Option<int>, world: nat -> Answer, k: nat)
    requires cfg.batch >= 1
    ensures var s := Exec(cfg, world, Initial(cfg, stored), k);
            Sound(s) && Traced(cfg, s.seen, s.pending, s.log) &&
            Settled(s) && Covered(cfg, RestartCursor(cfg, stored), s.start, s.log)
  {
    if k > 0 {
      RunInvariant(cfg, stored, world, k - 1);
      var s := Exec(cfg, world, Initial(cfg, stored), k - 1);
      StepSound(cfg, s, world(k - 1));
      StepTraced(cfg, s, world(k - 1));
      StepCovered(cfg, RestartCursor(cfg, stored), s, world(k - 1));
    }
  }

  lemma {:induction false} RunOrdered(cfg: Config, world: nat -> Answer, s: Indexer, k: nat)
    requires Monotone(world) && Ordered(s.queue, world(0).now)
    ensures Ordered(Exec(cfg, world, s, k).queue, world(k).now)
  {
    if k > 0 {
      RunOrdered(cfg, world, s, k - 1);
      StepOrdered(cfg, Exec(cfg, world, s, k - 1), world(k - 1), world(k - 1).now);
    }
  }

  /** When a retry pass ends, no entry of the queue was due. */
  lemma PassEndsWithNothingDue(cfg: Config, stored: Option<int>, world: nat -> Answer, k: nat, i: nat)
    requires Monotone(world)
    requires Exec(cfg, world, Initial(cfg, stored), k).phase.Retrying?
    requires Exec(cfg, world, Initial(cfg, stored), k + 1).phase.Polling?
    requires i < |Exec(cfg, world, Initial(cfg, stored), k + 1).queue|
    ensures world(k).now - Exec(cfg, world, Initial(cfg, stored), k + 1).queue[i].time <= 20.0
  {
    RunOrdered(cfg, world, Initial(cfg, stored), k);
  }

  ghost predicate AllStamped(attempts: seq<Effect>) {
    forall i :: 0 <= i < |attempts| && attempts[i].Failed? ==> attempts[i].started <= attempts[i].stamp
  }

  lemma StampedAppend(log: seq<Effect>, e: Effect, ev: Event)
    requires AllStamped(AttemptsOf(log, ev)) && (e.Failed? ==> e.started <= e.stamp)
    ensures AllStamped(AttemptsOf(log + [e], ev))
  {
    AttemptsAppend(log, e, ev);
  }

  lemma StepStamped(cfg: Config, s: Indexer, a: Answer, ev: Event)
    requires AllStamped(AttemptsOf(s.log, ev)) && a.now <= a.stamp
    ensures AllStamped(AttemptsOf(Step(cfg, s, a).log, ev))
  {
    if s.phase.Catching? && s.pending != [] {
      var e := HandleLog(cfg, s, a);
      if e.Some? { StampedAppend(s.log, e.value, ev); }
    } else if s.phase.Catching? {
      var range := Min(cfg.batch, s.phase.height - s.start);
      if a.logs.Some? {
        StampedAppend(s.log, Fetched(s.start, s.start + range - 1, s.phase.height, a.logs.value), ev);
      }
    } else if s.phase.Retrying? && s.queue != [] {
      var e := RetryLog(s, a);
      if e.Some? { StampedAppend(s.log, e.value, ev); }
    }
  }

  lemma {:induction false} StampsFollowStarts(cfg: Config, stored: Option<int>, world: nat -> Answer, k: nat, ev: Event)
    requires Monotone(world)
    ensures AllStamped(AttemptsOf(Exec(cfg, world, Initial(cfg, stored), k).log, ev))
  {
    if k > 0 {
      StampsFollowStarts(cfg, stored, world, k - 1, ev);
      StepStamped(cfg, Exec(cfg, world, Initial(cfg, stored), k - 1), world(k - 1), ev);
    }
  }

  predicate GivenUp(attempts: seq<Effect>) {
    attempts != [] && attempts[|attempts| - 1].Abandoned?
  }

  /** Six attempts, the last more than 100 seconds after the first failure. */
  predicate SixAttempts(attempts: seq<Effect>) {
    |attempts| == 6 && attempts[0].Failed? && attempts[5].Abandoned? && attempts[5].started > attempts[0].stamp + 100.0
  }

  lemma GapsAddUp(attempts: seq<Effect>)
    requires |attempts| == 6 && Spaced(attempts) && AllStamped(attempts) && GivenUp(attempts)
    ensures SixAttempts(attempts)
  {
    assert Gap(attempts, 0) && Gap(attempts, 1) && Gap(attempts, 2) && Gap(attempts, 3) && Gap(attempts, 4);
  }

  lemma AbandonedAttempts(s: Indexer, ev: Event)
    requires Sound(s) && GivenUp(AttemptsOf(s.log, ev)) && AllStamped(AttemptsOf(s.log, ev))
    ensures SixAttempts(AttemptsOf(s.log, ev))
  {
    assert Fate(s.seen, s.queue, s.log, ev);
    FateCases(s, ev);
    GapsAddUp(AttemptsOf(s.log, ev));
  }

  /** An event that is given up had six attempts, the last more than 100 seconds after its first failure. */
  lemma AbandonedLate(cfg: Config, stored: Option<int>, world: nat -> Answer, k: nat, ev: Event)
    requires cfg.batch >= 1 && Monotone(world)
    requires GivenUp(AttemptsOf(Exec(cfg, world, Initial(cfg, stored), k).log, ev))
    ensures SixAttempts(AttemptsOf(Exec(cfg, world, Initial(cfg, stored), k).log, ev))
  {
    RunInvariant(cfg, stored, world, k);
    StampsFollowStarts(cfg, stored, world, k, ev);
    AbandonedAttempts(Exec(cfg, world, Initial(cfg, stored), k), ev);
  }

  /** What has become of the i-th message that was fetched. */
  ghost predicate AccountedFor(cfg: Config, s: Indexer, i: nat)
    requires i < |FetchedIn(cfg, s.log)|
  {
    var m := FetchedIn(cfg, s.log)[i];
    if i < |s.seen| then s.seen[i] == Event(i, m) && Fate(s.seen, s.queue, s.log, s.seen[i])
    else i - |s.seen| < |Matching(cfg, s.pending)| && m == Matching(cfg, s.pending)[i - |s.seen|]
  }

  lemma {:induction false} MessagesOfAt(seen: seq<Event>)
    ensures |MessagesOf(seen)| == |seen|
    ensures forall i :: 0 <= i < |seen| ==> MessagesOf(seen)[i] == seen[i].message
  {
    if seen != [] {
      MessagesOfAt(seen[..|seen| - 1]);
    }
  }

  lemma TracedAt(cfg: Config, seen: seq<Event>, pending: seq<Log>, log: seq<Effect>, i: nat)
    requires Traced(cfg, seen, pending, log) && i < |FetchedIn(cfg, log)|
    ensures if i < |seen| then seen[i].message == FetchedIn(cfg, log)[i]
            else i - |seen| < |Matching(cfg, pending)| && Matching(cfg, pending)[i - |seen|] == FetchedIn(cfg, log)[i]
  {
    MessagesOfAt(seen);
  }

  lemma SoundAccounts(cfg: Config, s: Indexer, i: nat)
    requires Sound(s) && Traced(cfg, s.seen, s.pending, s.log) && i < |FetchedIn(cfg, s.log)|
    ensures AccountedFor(cfg, s, i)
  {
    TracedAt(cfg, s.seen, s.pending, s.log, i);
    if i < |s.seen| {
      assert Fate(s.seen, s.queue, s.log, s.seen[i]);
    }
  }

  /** The i-th message fetched is the i-th event object, with one fate, or it is still pending. */
  lemma EveryMessageAccountedFor(cfg: Config, stored: Option<int>, world: nat -> Answer, k: nat, i: nat)
    requires cfg.batch >= 1
    requires i < |FetchedIn(cfg, Exec(cfg, world, Initial(cfg, stored), k).log)|
    ensures AccountedFor(cfg, Exec(cfg, world, Initial(cfg, stored), k), i)
  {
    RunInvariant(cfg, stored, world, k);
    SoundAccounts(cfg, Exec(cfg, world, Initial(cfg, stored), k), i);
  }

  /** With entries waiting, a poll leaves the state as it is exactly when the height is at the cursor. */
  lemma IdlePoll(cfg: Config, s: Indexer, a: Answer)
    requires s.phase.Polling? && s.queue != []
    ensures Step(cfg, s, a) == s <==> a.height == Some(s.start)
  {
  }

  ghost predicate Idle(cfg: Config, world: nat -> Answer, s: Indexer, k: nat) {
    forall j: nat :: j <= k ==> Exec(cfg, world, s, j) == s
  }

  ghost predicate StandsStill(world: nat -> Answer, height: int, k: nat) {
    forall i: nat :: i < k ==> world(i).height == Some(height)
  }

  /** The queue is starved for `k` polls, with nothing else going on, exactly when the chain stands still. */
  lemma {:induction false} RetriesStarve(cfg: Config, world: nat -> Answer, s: Indexer, k: nat)
    requires s.phase.Polling? && s.queue != []
    ensures Idle(cfg, world, s, k) <==> StandsStill(world, s.start, k)
  {
    if k > 0 {
      var last: nat := k - 1;
      RetriesStarve(cfg, world, s, last);
      IdlePoll(cfg, s, world(last));
      if Idle(cfg, world, s, k) {
        assert Exec(cfg, world, s, last) == s && Exec(cfg, world, s, k) == s;
        assert Idle(cfg, world, s, last);
      }
      if StandsStill(world, s.start, k) {
        assert StandsStill(world, s.start, last) && Exec(cfg, world, s, last) == s;
      }
    }
  }
}
