/**
 * When an attempt on a relayed message stores it: one step of the system, said of the message, the providers'
 * replies and the tables alone. A reply may be refused, a round taken, a payload too long for its columns; in
 * every other case the step stores the message with its data.
 */
module Delivery {
  import opened Wrappers
  import opened Records
  import opened LeafEncoding
  import opened Providers
  import opened Storage
  import opened Ingestion
  import opened Pipeline
  import opened Acceptance
  import Database

  // ---- what can be stored ----

  /** Reply `i` is the earliest that is accepted, and it gives `p`. */
  ghost predicate EarliestFtso(lib: Library, m: Message, replies: seq<FtsoReply>, i: nat, p: FtsoPayload) {
    && i < |replies| && VerifyFtso(lib, m, replies[i]) == Ok(p)
    && forall j: nat :: j < i ==> VerifyFtso(lib, m, replies[j]).Err?
  }

  ghost predicate EarliestFdc(lib: Library, m: Message, replies: seq<FdcReply>, i: nat, p: FdcPayload) {
    && i < |replies| && VerifyFdc(lib, m, replies[i]) == Ok(p)
    && forall j: nat :: j < i ==> VerifyFdc(lib, m, replies[j]).Err?
  }

  ghost predicate FtsoAnswers(lib: Library, m: Message, replies: seq<FtsoReply>, p: FtsoPayload) {
    exists i: nat :: EarliestFtso(lib, m, replies, i, p)
  }

  ghost predicate FdcAnswers(lib: Library, m: Message, replies: seq<FdcReply>, p: FdcPayload) {
    exists i: nat :: EarliestFdc(lib, m, replies, i, p)
  }

  /** The texts of an accepted payload fit their columns; its numbers always do. */
  predicate FtsoTextsFit(p: FtsoPayload) {
    |p.random.body.value| <= 64 && forall i :: 0 <= i < |p.feeds| ==> |p.feeds[i].body.id| <= 42
  }

  predicate FdcRoundsFit(p: FdcPayload) {
    forall i :: 0 <= i < |p| ==> 0 <= p[i].round <= 9_223_372_036_854_775_807
  }

  /** The message is one of FTSO, its round is free, and the earliest accepted payload fits the schema. */
  ghost predicate FtsoStorable(lib: Library, db: Tables, m: Message, replies: seq<FtsoReply>) {
    && m.body.protocol == 100 && MessageFits(m) && Relayed(db, 100, m.round) == []
    && exists p :: FtsoAnswers(lib, m, replies, p) && FtsoTextsFit(p)
  }

  ghost predicate FdcStorable(lib: Library, db: Tables, m: Message, replies: seq<FdcReply>) {
    && m.body.protocol == 200 && MessageFits(m) && Relayed(db, 200, m.round) == []
    && exists p :: FdcAnswers(lib, m, replies, p) && FdcRoundsFit(p)
  }

  /** The message and all rows of the earliest accepted payload were added, and nothing else changed. */
  ghost predicate FtsoStored(lib: Library, db: Tables, m: Message, replies: seq<FtsoReply>, after: Tables) {
    && Relayed(after, 100, m.round) == [m]
    && exists p :: FtsoAnswers(lib, m, replies, p) &&
         after == Tables(db.messages + [m], db.randoms + [p.random], db.feeds + p.feeds, db.attestations)
  }

  ghost predicate FdcStored(lib: Library, db: Tables, m: Message, replies: seq<FdcReply>, after: Tables) {
    && Relayed(after, 200, m.round) == [m]
    && exists p :: FdcAnswers(lib, m, replies, p) &&
         after == Tables(db.messages + [m], db.randoms, db.feeds, db.attestations + p)
  }

  /** What the fallback gives, as the earliest accepted answer. */
  lemma FtsoFetched(lib: Library, m: Message, replies: seq<FtsoReply>)
    requires m.body.protocol == FTSO
    ensures var fetched := Fetch(FTSO, m, replies, r => VerifyFtso(lib, m, r));
            && (fetched.Ok? ==> FtsoAnswers(lib, m, replies, fetched.value))
            && (forall p :: FtsoAnswers(lib, m, replies, p) ==> fetched == Ok(p))
  {
    FetchEarliest(FTSO, m, replies, r => VerifyFtso(lib, m, r));
    var fetched := Fetch(FTSO, m, replies, r => VerifyFtso(lib, m, r));
    if fetched.Ok? {
      var i: nat :| FirstToAccept(replies, r => VerifyFtso(lib, m, r), i, fetched.value);
      assert EarliestFtso(lib, m, replies, i, fetched.value);
    }
  }

  lemma FdcFetched(lib: Library, m: Message, replies: seq<FdcReply>)
    requires m.body.protocol == FDC
    ensures var fetched := Fetch(FDC, m, replies, r => VerifyFdc(lib, m, r));
            && (fetched.Ok? ==> FdcAnswers(lib, m, replies, fetched.value))
            && (forall p :: FdcAnswers(lib, m, replies, p) ==> fetched == Ok(p))
  {
    FetchEarliest(FDC, m, replies, r => VerifyFdc(lib, m, r));
    var fetched := Fetch(FDC, m, replies, r => VerifyFdc(lib, m, r));
    if fetched.Ok? {
      var i: nat :| FirstToAccept(replies, r => VerifyFdc(lib, m, r), i, fetched.value);
      assert EarliestFdc(lib, m, replies, i, fetched.value);
    }
  }

  /** `FtsoProcessor.process` succeeds exactly on a storable message, and then stores it. */
  lemma FtsoProcess(lib: Library, db: Tables, m: Message, replies: seq<FtsoReply>)
    ensures var after := Database.ProcessFtso(lib, db, m, replies);
            && (after.Some? <==> FtsoStorable(lib, db, m, replies))
            && (after.Some? ==> FtsoStored(lib, db, m, replies, after.value))
  {
    if m.body.protocol == FTSO {
      FtsoFetched(lib, m, replies);
      var fetched := Fetch(FTSO, m, replies, r => VerifyFtso(lib, m, r));
      if fetched.Ok? {
        var i: nat :| EarliestFtso(lib, m, replies, i, fetched.value);
        AcceptedFtsoStored(lib, db, m, replies[i]);
        RelayedAppend(db, m, FTSO, m.round);
      }
    }
  }

  lemma FdcProcess(lib: Library, db: Tables, m: Message, replies: seq<FdcReply>)
    ensures var after := Database.ProcessFdc(lib, db, m, replies);
            && (after.Some? <==> FdcStorable(lib, db, m, replies))
            && (after.Some? ==> FdcStored(lib, db, m, replies, after.value))
  {
    if m.body.protocol == FDC {
      FdcFetched(lib, m, replies);
      var fetched := Fetch(FDC, m, replies, r => VerifyFdc(lib, m, r));
      if fetched.Ok? {
        FdcStoredExactly(db, m, fetched.value);
        RelayedAppend(db, m, FDC, m.round);
      }
    }
  }

  // ---- one attempt of the indexer ----

  /** The first attempt on message `m`, made at `a.now`, succeeded or failed. */
  ghost predicate FirstAttempt(s: Indexer, s': Indexer, m: Message, a: Answer, succeeded: bool)
    requires s.pending != []
  {
    var ev := Event(|s.seen|, m);
    && s'.seen == s.seen + [ev] && s'.pending == s.pending[1..] && s'.start == s.start
    && (if succeeded then s'.log == s.log + [Processed(ev, a.now)] && s'.queue == s.queue
        else s'.log == s.log + [Failed(ev, a.now, a.stamp)]
             && s'.queue == s.queue + [ProcessingRetry(ev, 1, a.stamp)])
  }

  /** A further attempt on the head of the queue succeeded, failed, or failed for the sixth time. */
  ghost predicate NextAttempt(s: Indexer, s': Indexer, a: Answer, succeeded: bool)
    requires s.queue != []
  {
    var head, rest := s.queue[0], s.queue[1..];
    && s'.seen == s.seen && s'.pending == s.pending && s'.start == s.start
    && (if succeeded then s'.log == s.log + [Processed(head.event, a.now)] && s'.queue == rest
        else if head.retry < 5 then
          && s'.log == s.log + [Failed(head.event, a.now, a.stamp)]
          && s'.queue == rest + [ProcessingRetry(head.event, head.retry + 1, a.stamp)]
        else s'.log == s.log + [Abandoned(head.event, a.now)] && s'.queue == rest)
  }

  /** The entry at hand is a message of the protocol that the indexer is for. */
  predicate AtMessage(cfg: Config, s: Indexer, m: Message) {
    && s.phase.Catching? && s.pending != [] && s.pending[0] == Decoded(m)
    && m.body.protocol == cfg.protocol
  }

  /** The retry pass is at an entry that is due. */
  predicate AtDueEntry(s: Indexer, a: Answer) {
    s.phase.Retrying? && s.queue != [] && a.now - s.queue[0].time > 20.0
  }

  lemma HandleAttempts(cfg: Config, s: Indexer, a: Answer, m: Message)
    requires AtMessage(cfg, s, m)
    ensures FirstAttempt(s, Step(cfg, s, a), m, a, a.succeeds(m))
  {
  }

  lemma RetryAttempts(cfg: Config, s: Indexer, a: Answer)
    requires AtDueEntry(s, a)
    ensures NextAttempt(s, Step(cfg, s, a), a, a.succeeds(s.queue[0].event.message))
  {
  }

  // ---- one attempt of the system ----

  /** A step that processes message `m` or nothing changes the tables as `process` does, or not at all. */
  lemma FtsoTables(lib: Library, setup: Setup, sys: System, a: Answer, replies: int -> seq<FtsoReply>, m: Message)
    requires var s' := Step(setup.ftso, sys.ftso, FtsoAnswer(lib, sys.db, a, replies));
             && |s'.log| == |sys.ftso.log| + 1
             && (s'.log[|sys.ftso.log|].Processed? <==> FtsoStorable(lib, sys.db, m, replies(m.round)))
             && (s'.log[|sys.ftso.log|].Processed? ==> s'.log[|sys.ftso.log|].event.message == m)
    ensures var after := Next(lib, setup, sys, FtsoTick(a, replies));
            if FtsoStorable(lib, sys.db, m, replies(m.round)) then
              FtsoStored(lib, sys.db, m, replies(m.round), after.db)
            else after.db == sys.db
  {
    FtsoProcess(lib, sys.db, m, replies(m.round));
  }

  lemma FdcTables(lib: Library, setup: Setup, sys: System, a: Answer, replies: int -> seq<FdcReply>, m: Message)
    requires var s' := Step(setup.fdc, sys.fdc, FdcAnswer(lib, sys.db, a, replies));
             && |s'.log| == |sys.fdc.log| + 1
             && (s'.log[|sys.fdc.log|].Processed? <==> FdcStorable(lib, sys.db, m, replies(m.round)))
             && (s'.log[|sys.fdc.log|].Processed? ==> s'.log[|sys.fdc.log|].event.message == m)
    ensures var after := Next(lib, setup, sys, FdcTick(a, replies));
            if FdcStorable(lib, sys.db, m, replies(m.round)) then
              FdcStored(lib, sys.db, m, replies(m.round), after.db)
            else after.db == sys.db
  {
    FdcProcess(lib, sys.db, m, replies(m.round));
  }

  /**
   * The first attempt on an FTSO message stores it, with the data of the earliest provider that is accepted,
   * exactly when it is storable; otherwise it queues the event and changes no table.
   */
  lemma FtsoFirstAttempt(
    lib: Library, setup: Setup, sys: System, a: Answer, replies: int -> seq<FtsoReply>, m: Message)
    requires AtMessage(setup.ftso, sys.ftso, m)
    ensures var after := Next(lib, setup, sys, FtsoTick(a, replies));
            var storable := FtsoStorable(lib, sys.db, m, replies(m.round));
            && FirstAttempt(sys.ftso, after.ftso, m, a, storable)
            && (if storable then FtsoStored(lib, sys.db, m, replies(m.round), after.db) else after.db == sys.db)
  {
    FtsoProcess(lib, sys.db, m, replies(m.round));
    HandleAttempts(setup.ftso, sys.ftso, FtsoAnswer(lib, sys.db, a, replies), m);
    FtsoTables(lib, setup, sys, a, replies, m);
  }

  lemma FdcFirstAttempt(
    lib: Library, setup: Setup, sys: System, a: Answer, replies: int -> seq<FdcReply>, m: Message)
    requires AtMessage(setup.fdc, sys.fdc, m)
    ensures var after := Next(lib, setup, sys, FdcTick(a, replies));
            var storable := FdcStorable(lib, sys.db, m, replies(m.round));
            && FirstAttempt(sys.fdc, after.fdc, m, a, storable)
            && (if storable then FdcStored(lib, sys.db, m, replies(m.round), after.db) else after.db == sys.db)
  {
    FdcProcess(lib, sys.db, m, replies(m.round));
    HandleAttempts(setup.fdc, sys.fdc, FdcAnswer(lib, sys.db, a, replies), m);
    FdcTables(lib, setup, sys, a, replies, m);
  }

  /** The same for a due entry of the retry queue, which is given up when its fifth retry is not storable. */
  lemma FtsoNextAttempt(lib: Library, setup: Setup, sys: System, a: Answer, replies: int -> seq<FtsoReply>)
    requires AtDueEntry(sys.ftso, a)
    ensures var after, m := Next(lib, setup, sys, FtsoTick(a, replies)), sys.ftso.queue[0].event.message;
            var storable := FtsoStorable(lib, sys.db, m, replies(m.round));
            && NextAttempt(sys.ftso, after.ftso, a, storable)
            && (if storable then FtsoStored(lib, sys.db, m, replies(m.round), after.db) else after.db == sys.db)
  {
    var m := sys.ftso.queue[0].event.message;
    FtsoProcess(lib, sys.db, m, replies(m.round));
    RetryAttempts(setup.ftso, sys.ftso, FtsoAnswer(lib, sys.db, a, replies));
    FtsoTables(lib, setup, sys, a, replies, m);
  }

  lemma FdcNextAttempt(lib: Library, setup: Setup, sys: System, a: Answer, replies: int -> seq<FdcReply>)
    requires AtDueEntry(sys.fdc, a)
    ensures var after, m := Next(lib, setup, sys, FdcTick(a, replies)), sys.fdc.queue[0].event.message;
            var storable := FdcStorable(lib, sys.db, m, replies(m.round));
            && NextAttempt(sys.fdc, after.fdc, a, storable)
            && (if storable then FdcStored(lib, sys.db, m, replies(m.round), after.db) else after.db == sys.db)
  {
    var m := sys.fdc.queue[0].event.message;
    FdcProcess(lib, sys.db, m, replies(m.round));
    RetryAttempts(setup.fdc, sys.fdc, FdcAnswer(lib, sys.db, a, replies));
    FdcTables(lib, setup, sys, a, replies, m);
  }
}
