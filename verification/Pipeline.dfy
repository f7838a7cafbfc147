/**
 * The whole system: the FTSO indexer, the FDC indexer and the history sweeper over one database, in any
 * interleaving of their steps, with either indexer restarted at any time.
 */
module Pipeline {
  import opened Wrappers
  import opened Records
  import opened LeafEncoding
  import opened Providers
  import opened Agreement
  import opened Storage
  import opened Ingestion
  import Database

  datatype Setup = Setup(ftso: Config, fdc: Config)

  datatype Archive = Archive(ftso: FtsoArchive, fdc: FdcArchive)

  /** `horizon` is the highest sweep cut-off so far; `archive` records the publications that were stored. */
  datatype System = System(db: Tables, archive: Archive, horizon: int, ftso: Indexer, fdc: Indexer)

  /** The replies of the providers depend on the round that is asked for. */
  datatype Action =
    | FtsoTick(answer: Answer, ftsoReplies: int -> seq<FtsoReply>)
    | FdcTick(answer: Answer, fdcReplies: int -> seq<FdcReply>)
    | HistoryTick(cutoff: int)
    | FtsoRestart
    | FdcRestart

  /** The highest stored block of a protocol. */
  function MaxBlock(messages: seq<Message>, protocol: int): Option<int> {
    if messages == [] then None
    else
      var rest := MaxBlock(messages[1..], protocol);
      if messages[0].body.protocol != protocol then rest
      else if rest.Some? && rest.value >= messages[0].body.block then rest
      else Some(messages[0].body.block)
  }

  function Genesis(setup: Setup): System {
    System(EMPTY, Archive(map[], map[]), 0, Initial(setup.ftso, None), Initial(setup.fdc, None))
  }

  /** The message that a step has just processed. */
  function JustProcessed(s: Indexer, s': Indexer): Option<Message> {
    if |s'.log| > |s.log| && s'.log[|s.log|].Processed? then Some(s'.log[|s.log|].event.message) else None
  }

  function FtsoAnswer(lib: Library, db: Tables, a: Answer, replies: int -> seq<FtsoReply>): Answer {
    a.(succeeds := (m: Message) => Database.ProcessFtso(lib, db, m, replies(m.round)).Some?)
  }

  function FdcAnswer(lib: Library, db: Tables, a: Answer, replies: int -> seq<FdcReply>): Answer {
    a.(succeeds := (m: Message) => Database.ProcessFdc(lib, db, m, replies(m.round)).Some?)
  }

  function StoredFtso(lib: Library, sys: System, m: Message, replies: seq<FtsoReply>): System {
    match (Fetch(FTSO, m, replies, r => VerifyFtso(lib, m, r)), Database.ProcessFtso(lib, sys.db, m, replies))
    case (Ok(p), Some(db)) => sys.(db := db, archive := sys.archive.(ftso := sys.archive.ftso[m.round := (m, p)]))
    case _ => sys
  }

  function StoredFdc(lib: Library, sys: System, m: Message, replies: seq<FdcReply>): System {
    match (Fetch(FDC, m, replies, r => VerifyFdc(lib, m, r)), Database.ProcessFdc(lib, sys.db, m, replies))
    case (Ok(p), Some(db)) => sys.(db := db, archive := sys.archive.(fdc := sys.archive.fdc[m.round := (m, p)]))
    case _ => sys
  }

  function Next(lib: Library, setup: Setup, sys: System, action: Action): System {
    match action
    case FtsoTick(a, replies) =>
      var s := Step(setup.ftso, sys.ftso, FtsoAnswer(lib, sys.db, a, replies));
      var stored :=
        match JustProcessed(sys.ftso, s)
        case None => sys
        case Some(m) => StoredFtso(lib, sys, m, replies(m.round));
      stored.(ftso := s)
    case FdcTick(a, replies) =>
      var s := Step(setup.fdc, sys.fdc, FdcAnswer(lib, sys.db, a, replies));
      var stored :=
        match JustProcessed(sys.fdc, s)
        case None => sys
        case Some(m) => StoredFdc(lib, sys, m, replies(m.round));
      stored.(fdc := s)
    case HistoryTick(c) =>
      sys.(db := Sweep(sys.db, c), archive := Archive(Since(sys.archive.ftso, c), Since(sys.archive.fdc, c)),
           horizon := if c > sys.horizon then c else sys.horizon)
    case FtsoRestart => sys.(ftso := Initial(setup.ftso, MaxBlock(sys.db.messages, FTSO)))
    case FdcRestart => sys.(fdc := Initial(setup.fdc, MaxBlock(sys.db.messages, FDC)))
  }

  function Reach(lib: Library, setup: Setup, actions: seq<Action>): System {
    if actions == [] then Genesis(setup)
    else Next(lib, setup, Reach(lib, setup, actions[..|actions| - 1]), actions[|actions| - 1])
  }

  // ---- what one step does to the tables ----

  /** The publication that an FTSO step stores. */
  function FtsoPut(lib: Library, setup: Setup, sys: System, a: Answer, replies: int -> seq<FtsoReply>):
    Option<(Message, FtsoPayload)>
  {
    match JustProcessed(sys.ftso, Step(setup.ftso, sys.ftso, FtsoAnswer(lib, sys.db, a, replies)))
    case None => None
    case Some(m) =>
      match Fetch(FTSO, m, replies(m.round), r => VerifyFtso(lib, m, r))
      case Ok(p) => Some((m, p))
      case Err(_) => None
  }

  function FdcPut(lib: Library, setup: Setup, sys: System, a: Answer, replies: int -> seq<FdcReply>):
    Option<(Message, FdcPayload)>
  {
    match JustProcessed(sys.fdc, Step(setup.fdc, sys.fdc, FdcAnswer(lib, sys.db, a, replies)))
    case None => None
    case Some(m) =>
      match Fetch(FDC, m, replies(m.round), r => VerifyFdc(lib, m, r))
      case Ok(p) => Some((m, p))
      case Err(_) => None
  }

  /** The log of an indexer grows by at most one effect a step, and a message is processed only if it succeeds. */
  lemma StepLog(cfg: Config, s: Indexer, a: Answer)
    ensures var s' := Step(cfg, s, a);
            || s'.log == s.log
            || (&& |s'.log| == |s.log| + 1 && s'.log == s.log + [s'.log[|s.log|]]
                && (s'.log[|s.log|].Processed? ==> a.succeeds(s'.log[|s.log|].event.message)))
  {
  }

  /** What the provider gave when a message was accepted. */
  lemma FtsoAccepted(lib: Library, m: Message, replies: seq<FtsoReply>, p: FtsoPayload) returns (i: nat)
    requires Fetch(FTSO, m, replies, r => VerifyFtso(lib, m, r)) == Ok(p)
    ensures m.body.protocol == FTSO && i < |replies| && VerifyFtso(lib, m, replies[i]) == Ok(p)
  {
    FetchEarliest(FTSO, m, replies, r => VerifyFtso(lib, m, r));
    i :| FirstToAccept(replies, r => VerifyFtso(lib, m, r), i, p);
  }

  lemma FdcAccepted(lib: Library, m: Message, replies: seq<FdcReply>, p: FdcPayload) returns (i: nat)
    requires Fetch(FDC, m, replies, r => VerifyFdc(lib, m, r)) == Ok(p)
    ensures m.body.protocol == FDC && i < |replies| && VerifyFdc(lib, m, replies[i]) == Ok(p)
  {
    FetchEarliest(FDC, m, replies, r => VerifyFdc(lib, m, r));
    i :| FirstToAccept(replies, r => VerifyFdc(lib, m, r), i, p);
  }

  /** The log grew by one processed event with message `m`. */
  ghost predicate LogsProcessed(s: Indexer, s': Indexer, m: Message) {
    && |s'.log| == |s.log| + 1 && s'.log == s.log + [s'.log[|s.log|]]
    && s'.log[|s.log|].Processed? && s'.log[|s.log|].event.message == m
  }

  /** The log grew by at most one effect, and no event was processed. */
  ghost predicate LogsNothingProcessed(s: Indexer, s': Indexer) {
    || s'.log == s.log
    || (|s'.log| == |s.log| + 1 && s'.log == s.log + [s'.log[|s.log|]] && !s'.log[|s.log|].Processed?)
  }

  /** A step of the FTSO indexer processes a message and stores it, or does nothing to the tables. */
  lemma FtsoEffect(lib: Library, setup: Setup, sys: System, a: Answer, replies: int -> seq<FtsoReply>)
    ensures var after := Next(lib, setup, sys, FtsoTick(a, replies));
            match FtsoPut(lib, setup, sys, a, replies)
            case None =>
              after == sys.(ftso := after.ftso) && LogsNothingProcessed(sys.ftso, after.ftso)
            case Some((m, p)) =>
              && m.body.protocol == FTSO && Backed(lib, p, m.body.root)
              && StoreFtso(sys.db, m, p) == Some(after.db)
              && after == sys.(ftso := after.ftso, db := after.db,
                               archive := sys.archive.(ftso := sys.archive.ftso[m.round := (m, p)]))
              && LogsProcessed(sys.ftso, after.ftso, m)
  {
    var answer := FtsoAnswer(lib, sys.db, a, replies);
    StepLog(setup.ftso, sys.ftso, answer);
    var just := JustProcessed(sys.ftso, Step(setup.ftso, sys.ftso, answer));
    if just.Some? {
      var m := just.value;
      assert Database.ProcessFtso(lib, sys.db, m, replies(m.round)).Some?;
      var p := Fetch(FTSO, m, replies(m.round), r => VerifyFtso(lib, m, r)).value;
      var i := FtsoAccepted(lib, m, replies(m.round), p);
      AcceptedIsBacked(lib, m, replies(m.round)[i]);
    }
  }

  lemma FdcEffect(lib: Library, setup: Setup, sys: System, a: Answer, replies: int -> seq<FdcReply>)
    ensures var after := Next(lib, setup, sys, FdcTick(a, replies));
            match FdcPut(lib, setup, sys, a, replies)
            case None =>
              after == sys.(fdc := after.fdc) && LogsNothingProcessed(sys.fdc, after.fdc)
            case Some((m, p)) =>
              && m.body.protocol == FDC && BackedFdc(lib, p, m.body.root)
              && StoreFdc(sys.db, m, p) == Some(after.db)
              && after == sys.(fdc := after.fdc, db := after.db,
                               archive := sys.archive.(fdc := sys.archive.fdc[m.round := (m, p)]))
              && LogsProcessed(sys.fdc, after.fdc, m)
  {
    var answer := FdcAnswer(lib, sys.db, a, replies);
    StepLog(setup.fdc, sys.fdc, answer);
    var just := JustProcessed(sys.fdc, Step(setup.fdc, sys.fdc, answer));
    if just.Some? {
      var m := just.value;
      assert Database.ProcessFdc(lib, sys.db, m, replies(m.round)).Some?;
      var p := Fetch(FDC, m, replies(m.round), r => VerifyFdc(lib, m, r)).value;
      var i := FdcAccepted(lib, m, replies(m.round), p);
    }
  }

  // ---- the invariant that needs no assumption ----

  /** The message that an archive has for a round. */
  function Announced<P>(ar: map<int, (Message, P)>, r: int): seq<Message> {
    if r in ar then [ar[r].0] else []
  }

  /** What the message table holds of a protocol and a round. */
  function Expected(ar: Archive, protocol: int, r: int): seq<Message> {
    if protocol == FTSO then Announced(ar.ftso, r)
    else if protocol == FDC then Announced(ar.fdc, r)
    else []
  }

  ghost predicate MessagesArchived(db: Tables, ar: Archive) {
    forall protocol, r :: Relayed(db, protocol, r) == Expected(ar, protocol, r)
  }

  /** Every archived publication fits the schema and has the root that was relayed for its round. */
  ghost predicate Verified(lib: Library, ar: Archive) {
    && (forall r :: r in ar.ftso ==>
          var (m, p) := ar.ftso[r];
          m.round == r && m.body.protocol == FTSO && FitsFtso(m, p) && Backed(lib, p, m.body.root))
    && (forall r :: r in ar.fdc ==>
          var (m, p) := ar.fdc[r];
          m.round == r && m.body.protocol == FDC && FitsFdc(m, p) && BackedFdc(lib, p, m.body.root))
  }

  /** A processed event is archived as it was relayed, unless a sweep has passed its round. */
  ghost predicate Kept<P>(entries: map<int, (Message, P)>, horizon: int, e: Effect) {
    e.Processed? ==>
      var m := e.event.message;
      m.round >= 0 && (m.round < horizon || (m.round in entries && entries[m.round].0 == m))
  }

  ghost predicate Delivered<P>(log: seq<Effect>, entries: map<int, (Message, P)>, horizon: int) {
    forall i :: 0 <= i < |log| ==> Kept(entries, horizon, log[i])
  }

  /** Two events of the same round are both processed only if a sweep has passed that round. */
  ghost predicate Once(log: seq<Effect>, horizon: int) {
    forall i, j :: 0 <= i < j < |log| && log[i].Processed? && log[j].Processed? ==>
      log[i].event.message.round == log[j].event.message.round ==> log[j].event.message.round < horizon
  }

  /** What holds of one indexer and the archive of its protocol. */
  ghost predicate Accounted<P>(s: Indexer, entries: map<int, (Message, P)>, horizon: int) {
    Sound(s) && Delivered(s.log, entries, horizon) && Once(s.log, horizon)
  }

  ghost predicate Invariant(lib: Library, sys: System) {
    && MessagesArchived(sys.db, sys.archive)
    && Verified(lib, sys.archive)
    && Accounted(sys.ftso, sys.archive.ftso, sys.horizon)
    && Accounted(sys.fdc, sys.archive.fdc, sys.horizon)
  }

  lemma DeliveredIdle<P>(log: seq<Effect>, entries: map<int, (Message, P)>, horizon: int, e: Effect)
    requires Delivered(log, entries, horizon) && Once(log, horizon) && !e.Processed?
    ensures Delivered(log + [e], entries, horizon) && Once(log + [e], horizon)
  {
    forall i | 0 <= i < |log + [e]| ensures Kept(entries, horizon, (log + [e])[i]) {
      if i < |log| { assert Kept(entries, horizon, log[i]); }
    }
  }

  lemma DeliveredMore<P>(log: seq<Effect>, entries: map<int, (Message, P)>, horizon: int, e: Effect, p: P)
    requires Delivered(log, entries, horizon) && Once(log, horizon)
    requires e.Processed? && e.event.message.round !in entries && e.event.message.round >= 0
    ensures Delivered(log + [e], entries[e.event.message.round := (e.event.message, p)], horizon)
    ensures Once(log + [e], horizon)
  {
    var entries' := entries[e.event.message.round := (e.event.message, p)];
    forall i | 0 <= i < |log + [e]| ensures Kept(entries', horizon, (log + [e])[i]) {
      if i < |log| { assert Kept(entries, horizon, log[i]); }
    }
    forall i | 0 <= i < |log| && log[i].Processed? && log[i].event.message.round == e.event.message.round
      ensures log[i].event.message.round < horizon
    {
      assert Kept(entries, horizon, log[i]);
    }
  }

  lemma DeliveredAfterSweep<P>(log: seq<Effect>, entries: map<int, (Message, P)>, horizon: int, c: int)
    requires Delivered(log, entries, horizon) && Once(log, horizon)
    ensures var h := if c > horizon then c else horizon;
            Delivered(log, Since(entries, c), h) && Once(log, h)
  {
    forall i | 0 <= i < |log|
      ensures Kept(Since(entries, c), if c > horizon then c else horizon, log[i])
    {
      assert Kept(entries, horizon, log[i]);
    }
  }

  /** The message table after a message was stored in a round that had none. */
  lemma MessageStored(db: Tables, db': Tables, m: Message, protocol: int, r: int)
    requires db'.messages == db.messages + [m] && Relayed(db, m.body.protocol, m.round) == []
    ensures Relayed(db', protocol, r) ==
            if r == m.round && protocol == m.body.protocol then [m] else Relayed(db, protocol, r)
  {
    RelayedAppend(db, m, protocol, r);
  }

  lemma FtsoTickKeeps(lib: Library, setup: Setup, sys: System, a: Answer, replies: int -> seq<FtsoReply>)
    requires Invariant(lib, sys)
    ensures Invariant(lib, Next(lib, setup, sys, FtsoTick(a, replies)))
  {
    var after := Next(lib, setup, sys, FtsoTick(a, replies));
    StepSound(setup.ftso, sys.ftso, FtsoAnswer(lib, sys.db, a, replies));
    FtsoEffect(lib, setup, sys, a, replies);
    match FtsoPut(lib, setup, sys, a, replies) {
      case None =>
        if after.ftso.log != sys.ftso.log {
          DeliveredIdle(sys.ftso.log, sys.archive.ftso, sys.horizon, after.ftso.log[|sys.ftso.log|]);
        }
      case Some((m, p)) =>
        assert Relayed(sys.db, FTSO, m.round) == Expected(sys.archive, FTSO, m.round);
        forall protocol, r ensures Relayed(after.db, protocol, r) == Expected(after.archive, protocol, r) {
          assert Relayed(sys.db, protocol, r) == Expected(sys.archive, protocol, r);
          MessageStored(sys.db, after.db, m, protocol, r);
        }
        DeliveredMore(sys.ftso.log, sys.archive.ftso, sys.horizon, after.ftso.log[|sys.ftso.log|], p);
    }
  }

  lemma FdcTickKeeps(lib: Library, setup: Setup, sys: System, a: Answer, replies: int -> seq<FdcReply>)
    requires Invariant(lib, sys)
    ensures Invariant(lib, Next(lib, setup, sys, FdcTick(a, replies)))
  {
    var after := Next(lib, setup, sys, FdcTick(a, replies));
    StepSound(setup.fdc, sys.fdc, FdcAnswer(lib, sys.db, a, replies));
    FdcEffect(lib, setup, sys, a, replies);
    match FdcPut(lib, setup, sys, a, replies) {
      case None =>
        if after.fdc.log != sys.fdc.log {
          DeliveredIdle(sys.fdc.log, sys.archive.fdc, sys.horizon, after.fdc.log[|sys.fdc.log|]);
        }
      case Some((m, p)) =>
        assert Relayed(sys.db, FDC, m.round) == Expected(sys.archive, FDC, m.round);
        forall protocol, r ensures Relayed(after.db, protocol, r) == Expected(after.archive, protocol, r) {
          assert Relayed(sys.db, protocol, r) == Expected(sys.archive, protocol, r);
          MessageStored(sys.db, after.db, m, protocol, r);
        }
        DeliveredMore(sys.fdc.log, sys.archive.fdc, sys.horizon, after.fdc.log[|sys.fdc.log|], p);
    }
  }

  lemma HistoryTickKeeps(lib: Library, setup: Setup, sys: System, c: int)
    requires Invariant(lib, sys)
    ensures Invariant(lib, Next(lib, setup, sys, HistoryTick(c)))
  {
    var after := Next(lib, setup, sys, HistoryTick(c));
    forall protocol, r ensures Relayed(after.db, protocol, r) == Expected(after.archive, protocol, r) {
      assert Relayed(sys.db, protocol, r) == Expected(sys.archive, protocol, r);
      RoundAfterSweep(sys.db, c, r);
    }
    DeliveredAfterSweep(sys.ftso.log, sys.archive.ftso, sys.horizon, c);
    DeliveredAfterSweep(sys.fdc.log, sys.archive.fdc, sys.horizon, c);
  }

  lemma InitialSound(cfg: Config, stored: Option<int>)
    ensures Sound(Initial(cfg, stored))
  {
  }

  /** The invariant holds in every state that any interleaving can reach, whatever chain and providers say. */
  lemma {:induction false} ReachableInvariant(lib: Library, setup: Setup, actions: seq<Action>)
    ensures Invariant(lib, Reach(lib, setup, actions))
  {
    if actions == [] {
      InitialSound(setup.ftso, None);
      InitialSound(setup.fdc, None);
    } else {
      var sys := Reach(lib, setup, actions[..|actions| - 1]);
      ReachableInvariant(lib, setup, actions[..|actions| - 1]);
      match actions[|actions| - 1] {
        case FtsoTick(a, replies) => FtsoTickKeeps(lib, setup, sys, a, replies);
        case FdcTick(a, replies) => FdcTickKeeps(lib, setup, sys, a, replies);
        case HistoryTick(c) => HistoryTickKeeps(lib, setup, sys, c);
        case FtsoRestart => InitialSound(setup.ftso, MaxBlock(sys.db.messages, FTSO));
        case FdcRestart => InitialSound(setup.fdc, MaxBlock(sys.db.messages, FDC));
      }
    }
  }

  lemma {:induction false} OfProtocolMembers(rows: seq<Message>, protocol: int, m: Message)
    ensures m in OfProtocol(rows, protocol) <==> m in rows && m.body.protocol == protocol
  {
    if rows != [] {
      OfProtocolMembers(rows[1..], protocol, m);
    }
  }

  /** Which rows the uniqueness constraint looks at. */
  lemma RelayedMembers(db: Tables, protocol: int, r: int, m: Message)
    ensures m in Relayed(db, protocol, r) <==> m in db.messages && m.round == r && m.body.protocol == protocol
  {
    RowsOfMembers(db.messages, r, m);
    OfProtocolMembers(RowsOf(db.messages, r), protocol, m);
  }

  predicate SameKey(m: Message, n: Message) {
    m.round == n.round && m.body.protocol == n.body.protocol
  }

  /** Two rows of one protocol and round are two relayed messages, also if they are equal. */
  lemma {:induction false} TwoRowsCount(rows: seq<Message>, i: nat, j: nat)
    requires i < j < |rows| && SameKey(rows[i], rows[j])
    ensures |OfProtocol(RowsOf(rows, rows[i].round), rows[i].body.protocol)| >= 2
  {
    var r, protocol := rows[i].round, rows[i].body.protocol;
    if i > 0 {
      TwoRowsCount(rows[1..], i - 1, j - 1);
      RowsOfAppend([rows[0]], rows[1..], r);
      OfProtocolAppend(RowsOf([rows[0]], r), RowsOf(rows[1..], r), protocol);
      assert rows == [rows[0]] + rows[1..];
    } else {
      assert rows[j] == rows[1..][j - 1];
      RowsOfMembers(rows[1..], r, rows[j]);
      OfProtocolMembers(RowsOf(rows[1..], r), protocol, rows[j]);
    }
  }

  lemma OneMessage(lib: Library, setup: Setup, actions: seq<Action>, protocol: int, r: int)
    ensures |Relayed(Reach(lib, setup, actions).db, protocol, r)| <= 1
  {
    ReachableInvariant(lib, setup, actions);
    var sys := Reach(lib, setup, actions);
    assert Relayed(sys.db, protocol, r) == Expected(sys.archive, protocol, r);
  }

  /** No two rows have the same protocol and round, under any duplicates, retries and restarts. */
  lemma AtMostOnce(lib: Library, setup: Setup, actions: seq<Action>)
    ensures var rows := Reach(lib, setup, actions).db.messages;
            forall i, j :: 0 <= i < j < |rows| ==> !SameKey(rows[i], rows[j])
  {
    var rows := Reach(lib, setup, actions).db.messages;
    forall i, j | 0 <= i < j < |rows| ensures !SameKey(rows[i], rows[j]) {
      OneMessage(lib, setup, actions, rows[i].body.protocol, rows[i].round);
      if SameKey(rows[i], rows[j]) { TwoRowsCount(rows, i, j); }
    }
  }

  // ---- what becomes of every event ----

  lemma {:induction false} AttemptsAreLogged(log: seq<Effect>, ev: Event, e: Effect)
    requires e in AttemptsOf(log, ev)
    ensures e in log && !e.Fetched? && e.event == ev
  {
    if e in AttemptsOf(log[..|log| - 1], ev) {
      AttemptsAreLogged(log[..|log| - 1], ev, e);
    }
  }

  /** A sweep has reached the round. */
  ghost predicate Swept(actions: seq<Action>, round: int) {
    exists i :: 0 <= i < |actions| && actions[i].HistoryTick? && round < actions[i].cutoff
  }

  lemma {:induction false} HorizonIsSwept(lib: Library, setup: Setup, actions: seq<Action>, round: int)
    requires 0 <= round < Reach(lib, setup, actions).horizon
    ensures Swept(actions, round)
  {
    var init, action := actions[..|actions| - 1], actions[|actions| - 1];
    if action.HistoryTick? && round < action.cutoff {
      assert actions[|actions| - 1].HistoryTick?;
    } else {
      HorizonIsSwept(lib, setup, init, round);
      var i :| 0 <= i < |init| && init[i].HistoryTick? && round < init[i].cutoff;
      assert actions[i] == init[i];
    }
  }

  /**
   * The event is still queued after at most five failures, or was given up after six failed attempts, or was
   * processed, and then its message is the one stored for its round, unless a sweep has reached that round.
   */
  ghost predicate Resolved(s: Indexer, db: Tables, protocol: int, swept: bool, ev: Event) {
    var attempts := AttemptsOf(s.log, ev);
    && attempts != []
    && match attempts[|attempts| - 1]
       case Failed(_, _, _) => Queued(s.queue, ev) == 1 && |attempts| <= 5
       case Abandoned(_, _) => Queued(s.queue, ev) == 0 && |attempts| == 6
       case Processed(_, _) =>
         Queued(s.queue, ev) == 0 && (Relayed(db, protocol, ev.message.round) == [ev.message] || swept)
       case Fetched(_, _, _, _) => false
  }

  lemma AccountedResolves<P>(
    s: Indexer, entries: map<int, (Message, P)>, horizon: int, db: Tables, protocol: int, swept: bool, ev: Event)
    requires Accounted(s, entries, horizon) && Made(s.seen, ev)
    requires Relayed(db, protocol, ev.message.round) == Announced(entries, ev.message.round)
    requires 0 <= ev.message.round < horizon ==> swept
    ensures Resolved(s, db, protocol, swept, ev)
  {
    FateCases(s, ev);
    var attempts := AttemptsOf(s.log, ev);
    var last := attempts[|attempts| - 1];
    AttemptsAreLogged(s.log, ev, last);
    var i :| 0 <= i < |s.log| && s.log[i] == last;
    assert Kept(entries, horizon, s.log[i]);
  }

  function IndexerOf(sys: System, protocol: int): Indexer
    requires protocol == FTSO || protocol == FDC
  {
    if protocol == FTSO then sys.ftso else sys.fdc
  }

  function ConfigOf(setup: Setup, protocol: int): Config
    requires protocol == FTSO || protocol == FDC
  {
    if protocol == FTSO then setup.ftso else setup.fdc
  }

  /** From the indexer to the tables: what becomes of every event that a running indexer has made. */
  lemma EveryEventResolved(lib: Library, setup: Setup, actions: seq<Action>, protocol: int, ev: Event)
    requires protocol == FTSO || protocol == FDC
    requires Made(IndexerOf(Reach(lib, setup, actions), protocol).seen, ev)
    ensures var sys := Reach(lib, setup, actions);
            Resolved(IndexerOf(sys, protocol), sys.db, protocol, Swept(actions, ev.message.round), ev)
  {
    ReachableInvariant(lib, setup, actions);
    var sys, r := Reach(lib, setup, actions), ev.message.round;
    assert Relayed(sys.db, protocol, r) == Expected(sys.archive, protocol, r);
    if 0 <= r < sys.horizon { HorizonIsSwept(lib, setup, actions, r); }
    if protocol == FTSO {
      AccountedResolves(sys.ftso, sys.archive.ftso, sys.horizon, sys.db, protocol, Swept(actions, r), ev);
    } else {
      AccountedResolves(sys.fdc, sys.archive.fdc, sys.horizon, sys.db, protocol, Swept(actions, r), ev);
    }
  }

  // ---- each indexer of the system is a run of the machine ----

  /** The answer that an action gives to the indexer of a protocol. */
  function TurnOf(action: Action, protocol: int): Option<Answer> {
    match action
    case FtsoTick(a, _) => if protocol == FTSO then Some(a) else None
    case FdcTick(a, _) => if protocol == FDC then Some(a) else None
    case _ => None
  }

  /** The latest clock reading of the indexer of a protocol; `epoch` is a time before the first. */
  function Clock(actions: seq<Action>, protocol: int, epoch: real): real {
    if actions == [] then epoch
    else
      match TurnOf(actions[|actions| - 1], protocol)
      case None => Clock(actions[..|actions| - 1], protocol, epoch)
      case Some(a) => a.stamp
  }

  /** The clock readings of the indexer of a protocol never go back, also across its restarts. */
  ghost predicate Clocked(actions: seq<Action>, protocol: int, epoch: real) {
    actions != [] ==>
      && Clocked(actions[..|actions| - 1], protocol, epoch)
      && match TurnOf(actions[|actions| - 1], protocol)
         case None => true
         case Some(a) => Clock(actions[..|actions| - 1], protocol, epoch) <= a.now <= a.stamp
  }

  ghost predicate ClockedUpTo(world: nat -> Answer, now: real) {
    Monotone(world) && forall i: nat :: world(i).stamp <= now
  }

  /** A world that has given `k` answers gives `a` next; after that time stands still. */
  function Extend(world: nat -> Answer, k: nat, a: Answer): nat -> Answer {
    (i: nat) => if i < k then world(i) else if i == k then a else a.(now := a.stamp)
  }

  lemma {:induction false} SameAnswers(cfg: Config, world: nat -> Answer, other: nat -> Answer, s: Indexer, k: nat)
    requires forall i: nat :: i < k ==> world(i) == other(i)
    ensures Exec(cfg, world, s, k) == Exec(cfg, other, s, k)
  {
    if k > 0 {
      SameAnswers(cfg, world, other, s, k - 1);
    }
  }

  /** A run from `first` over answers that are these but for what `process` accepts. */
  ghost predicate IsRun(cfg: Config, first: Indexer, turns: seq<Answer>, world: nat -> Answer, s: Indexer) {
    && s == Exec(cfg, world, first, |turns|)
    && forall i :: 0 <= i < |turns| ==> world(i) == turns[i].(succeeds := world(i).succeeds)
  }

  lemma RunBegins(cfg: Config, first: Indexer, now: real) returns (world: nat -> Answer)
    ensures IsRun(cfg, first, [], world, first) && ClockedUpTo(world, now)
  {
    world := (i: nat) => Answer(None, None, now, m => false, now);
  }

  lemma RunExtends(
    cfg: Config, first: Indexer, turns: seq<Answer>, world: nat -> Answer, s: Indexer, a: Answer, t: Answer)
    requires IsRun(cfg, first, turns, world, s) && a == t.(succeeds := a.succeeds)
    ensures IsRun(cfg, first, turns + [t], Extend(world, |turns|, a), Step(cfg, s, a))
  {
    SameAnswers(cfg, world, Extend(world, |turns|, a), first, |turns|);
  }

  lemma ClockExtends(world: nat -> Answer, k: nat, a: Answer, now: real)
    requires ClockedUpTo(world, now) && now <= a.now <= a.stamp
    ensures ClockedUpTo(Extend(world, k, a), a.stamp)
  {
  }

  /** Where a process of the protocol starts when the tables are those of `sys`. */
  function Started(setup: Setup, sys: System, protocol: int): Indexer
    requires protocol == FTSO || protocol == FDC
  {
    Initial(ConfigOf(setup, protocol), MaxBlock(sys.db.messages, protocol))
  }

  predicate IsStart(action: Action, protocol: int) {
    if protocol == FTSO then action.FtsoRestart? else action.FdcRestart?
  }

  /** How many actions came before the last start of the process. */
  function LastStart(actions: seq<Action>, protocol: int): (n: nat)
    ensures n <= |actions|
  {
    if actions == [] then 0
    else if IsStart(actions[|actions| - 1], protocol) then |actions| - 1
    else LastStart(actions[..|actions| - 1], protocol)
  }

  /** The answers that the process has had since then. */
  function Turns(actions: seq<Action>, protocol: int): seq<Answer> {
    if actions == [] || IsStart(actions[|actions| - 1], protocol) then []
    else
      match TurnOf(actions[|actions| - 1], protocol)
      case None => Turns(actions[..|actions| - 1], protocol)
      case Some(a) => Turns(actions[..|actions| - 1], protocol) + [a]
  }

  /** An action starts the process afresh, lets it step on the answer given, or leaves it alone. */
  ghost predicate Moves(
    cfg: Config, restarted: Indexer, s: Indexer, s': Indexer, starts: bool, turn: Option<Answer>, a: Answer)
  {
    if starts then turn == None && s' == restarted
    else if turn.Some? then a == turn.value.(succeeds := a.succeeds) && s' == Step(cfg, s, a)
    else s' == s
  }

  lemma IndexerMoves(lib: Library, setup: Setup, sys: System, action: Action, protocol: int) returns (a: Answer)
    requires protocol == FTSO || protocol == FDC
    ensures Moves(ConfigOf(setup, protocol), Started(setup, sys, protocol), IndexerOf(sys, protocol),
              IndexerOf(Next(lib, setup, sys, action), protocol),
              IsStart(action, protocol), TurnOf(action, protocol), a)
  {
    match action {
      case FtsoTick(answer, replies) => a := FtsoAnswer(lib, sys.db, answer, replies);
      case FdcTick(answer, replies) => a := FdcAnswer(lib, sys.db, answer, replies);
      case _ => a := Answer(None, None, 0.0, m => false, 0.0);
    }
  }

  /** The run of the process since its last start, from the tables as they were then. */
  ghost predicate RunsSince(lib: Library, setup: Setup, actions: seq<Action>, protocol: int, world: nat -> Answer)
    requires protocol == FTSO || protocol == FDC
  {
    IsRun(ConfigOf(setup, protocol),
      Started(setup, Reach(lib, setup, actions[..LastStart(actions, protocol)]), protocol),
      Turns(actions, protocol), world, IndexerOf(Reach(lib, setup, actions), protocol))
  }

  /** The clock after one more action, and whether it can still be trusted. */
  lemma ClockMoves(actions: seq<Action>, protocol: int, epoch: real)
    requires actions != []
    ensures var init, turn := actions[..|actions| - 1], TurnOf(actions[|actions| - 1], protocol);
            var before := Clock(init, protocol, epoch);
            && Clock(actions, protocol, epoch) == (if turn.Some? then turn.value.stamp else before)
            && (Clocked(actions, protocol, epoch) <==>
                  Clocked(init, protocol, epoch) && (turn.Some? ==> before <= turn.value.now <= turn.value.stamp))
  {
  }

  /** A run goes on after a move, or a new one begins. */
  lemma RunMoves(cfg: Config, first: Indexer, turns: seq<Answer>, world: nat -> Answer, s: Indexer,
                 restarted: Indexer, s': Indexer, starts: bool, turn: Option<Answer>, a: Answer,
                 clocked: bool, now: real)
    returns (world': nat -> Answer)
    requires IsRun(cfg, first, turns, world, s) && Moves(cfg, restarted, s, s', starts, turn, a)
    requires clocked ==> ClockedUpTo(world, now) && (turn.Some? ==> now <= turn.value.now <= turn.value.stamp)
    ensures if starts then IsRun(cfg, restarted, [], world', s')
            else IsRun(cfg, first, if turn.Some? then turns + [turn.value] else turns, world', s')
    ensures clocked ==> ClockedUpTo(world', if turn.Some? then turn.value.stamp else now)
  {
    if starts {
      world' := RunBegins(cfg, restarted, now);
    } else if turn.Some? {
      RunExtends(cfg, first, turns, world, s, a, turn.value);
      if clocked { ClockExtends(world, |turns|, a, now); }
      world' := Extend(world, |turns|, a);
    } else {
      world' := world;
    }
  }

  /**
   * Each indexer of the system is where the machine is after the answers since the last start of its process,
   * run from the tables as they were then; a clock that does not go back stays so.
   */
  lemma {:induction false} IndexerIsRun(lib: Library, setup: Setup, actions: seq<Action>, protocol: int, epoch: real)
    returns (world: nat -> Answer)
    requires protocol == FTSO || protocol == FDC
    ensures RunsSince(lib, setup, actions, protocol, world)
    ensures Clocked(actions, protocol, epoch) ==> ClockedUpTo(world, Clock(actions, protocol, epoch))
  {
    var cfg := ConfigOf(setup, protocol);
    if actions == [] {
      world := RunBegins(cfg, IndexerOf(Genesis(setup), protocol), epoch);
    } else {
      var init, action := actions[..|actions| - 1], actions[|actions| - 1];
      var sys := Reach(lib, setup, init);
      world := IndexerIsRun(lib, setup, init, protocol, epoch);
      assert init[..LastStart(init, protocol)] == actions[..LastStart(init, protocol)];
      ClockMoves(actions, protocol, epoch);
      var a := IndexerMoves(lib, setup, sys, action, protocol);
      world := RunMoves(
        cfg, Started(setup, Reach(lib, setup, init[..LastStart(init, protocol)]), protocol), Turns(init, protocol),
        world, IndexerOf(sys, protocol), Started(setup, sys, protocol), IndexerOf(Reach(lib, setup, actions), protocol),
        IsStart(action, protocol), TurnOf(action, protocol), a,
        Clocked(actions, protocol, epoch), Clock(init, protocol, epoch));
    }
  }

  /**
   * With a clock that does not go back, the queue of each indexer of the system is in order of time, and what
   * it has given up had six attempts over more than 100 seconds.
   */
  lemma ClockedIndexer(lib: Library, setup: Setup, actions: seq<Action>, protocol: int, epoch: real, ev: Event)
    requires protocol == FTSO || protocol == FDC
    requires Clocked(actions, protocol, epoch)
    ensures var s := IndexerOf(Reach(lib, setup, actions), protocol);
            && Ordered(s.queue, Clock(actions, protocol, epoch))
            && (GivenUp(AttemptsOf(s.log, ev)) ==> SixAttempts(AttemptsOf(s.log, ev)))
  {
    var cfg, k := ConfigOf(setup, protocol), |Turns(actions, protocol)|;
    var s := IndexerOf(Reach(lib, setup, actions), protocol);
    var world := IndexerIsRun(lib, setup, actions, protocol, epoch);
    var stored := MaxBlock(Reach(lib, setup, actions[..LastStart(actions, protocol)]).db.messages, protocol);
    RunOrdered(cfg, world, Initial(cfg, stored), k);
    assert world(k).now <= world(k).stamp;
    StampsFollowStarts(cfg, stored, world, k, ev);
    ReachableInvariant(lib, setup, actions);
    if GivenUp(AttemptsOf(s.log, ev)) {
      AbandonedAttempts(s, ev);
    }
  }

  // ---- restarts ----

  /** The highest block of the stored messages of a protocol. */
  ghost predicate Highest(messages: seq<Message>, protocol: int, b: int) {
    && (exists m :: m in messages && m.body.protocol == protocol && m.body.block == b)
    && (forall m :: m in messages && m.body.protocol == protocol ==> m.body.block <= b)
  }

  /** The block after the highest stored one, or the configured start if there is none or it is 0. */
  ghost predicate StartsAt(cfg: Config, messages: seq<Message>, protocol: int, cursor: int) {
    && ((forall m :: m in messages ==> m.body.protocol != protocol) ==> cursor == cfg.startHeight)
    && (forall b :: Highest(messages, protocol, b) ==> cursor == if b == 0 then cfg.startHeight else b + 1)
  }

  lemma {:induction false} MaxBlockIsMax(messages: seq<Message>, protocol: int)
    ensures match MaxBlock(messages, protocol)
            case None => forall m :: m in messages ==> m.body.protocol != protocol
            case Some(b) => Highest(messages, protocol, b)
  {
    if messages != [] {
      MaxBlockIsMax(messages[1..], protocol);
      assert messages[0] in messages;
      assert forall m :: m in messages <==> m == messages[0] || m in messages[1..];
    }
  }

  lemma CursorAtStart(cfg: Config, messages: seq<Message>, protocol: int)
    ensures StartsAt(cfg, messages, protocol, RestartCursor(cfg, MaxBlock(messages, protocol)))
  {
    MaxBlockIsMax(messages, protocol);
  }

  /** A restart changes only its indexer, which then polls from the restart cursor with nothing in hand. */
  lemma RestartStep(lib: Library, setup: Setup, sys: System)
    ensures var after := Next(lib, setup, sys, FtsoRestart);
            && after == sys.(ftso := Indexer(Polling, after.ftso.start, [], [], [], []))
            && StartsAt(setup.ftso, sys.db.messages, FTSO, after.ftso.start)
    ensures var after := Next(lib, setup, sys, FdcRestart);
            && after == sys.(fdc := Indexer(Polling, after.fdc.start, [], [], [], []))
            && StartsAt(setup.fdc, sys.db.messages, FDC, after.fdc.start)
  {
    CursorAtStart(setup.ftso, sys.db.messages, FTSO);
    CursorAtStart(setup.fdc, sys.db.messages, FDC);
  }

  /** A restart skips no block: every block above all stored ones is at the cursor or above, unless that block is 0. */
  lemma RestartSkipsNothing(cfg: Config, messages: seq<Message>, protocol: int, cursor: int, highest: int, b: int)
    requires StartsAt(cfg, messages, protocol, cursor)
    requires Highest(messages, protocol, highest) && highest != 0 && b > highest
    ensures b >= cursor
  {
  }

  /**
   * A restart begins above the block of every stored message of its protocol, unless the highest stored
   * block is 0 and the configured start does not lie above it.
   */
  lemma RestartAboveStored(cfg: Config, messages: seq<Message>)
    requires MaxBlock(messages, cfg.protocol).Some?
    ensures var stored := MaxBlock(messages, cfg.protocol);
            (forall m :: m in messages && m.body.protocol == cfg.protocol ==>
               m.body.block < RestartCursor(cfg, stored))
            <==> stored.value != 0 || cfg.startHeight > 0
  {
    MaxBlockIsMax(messages, cfg.protocol);
  }

  /** A sweep takes every row of a round below the cut-off, no other row, and touches no indexer. */
  lemma HistoryStep(lib: Library, setup: Setup, sys: System, c: int, r: int)
    ensures var after := Next(lib, setup, sys, HistoryTick(c));
            && after.ftso == sys.ftso && after.fdc == sys.fdc
            && (forall protocol :: Relayed(after.db, protocol, r) == if r < c then [] else Relayed(sys.db, protocol, r))
            && FtsoRound(after.db, r) == (if r < c then FtsoView([], [], []) else FtsoRound(sys.db, r))
            && FdcRound(after.db, r) == (if r < c then FdcView([], []) else FdcRound(sys.db, r))
  {
    RoundAfterSweep(sys.db, c, r);
  }

  // ---- from the chain to the tables ----

  /** At every moment of the run the node of this process answers with what the blocks hold, or not at all. */
  ghost predicate HonestNode(
    lib: Library, setup: Setup, actions: seq<Action>, protocol: int, blocks: int -> seq<Log>)
    requires protocol == FTSO || protocol == FDC
  {
    actions != [] ==>
      var init, turn := actions[..|actions| - 1], TurnOf(actions[|actions| - 1], protocol);
      && HonestNode(lib, setup, init, protocol, blocks)
      && (turn.Some? ==>
            FaithfulAnswer(ConfigOf(setup, protocol), blocks, IndexerOf(Reach(lib, setup, init), protocol), turn.value))
  }

  /** The cursor from which the process last started. */
  function FirstCursor(lib: Library, setup: Setup, actions: seq<Action>, protocol: int): int
    requires protocol == FTSO || protocol == FDC
  {
    Started(setup, Reach(lib, setup, actions[..LastStart(actions, protocol)]), protocol).start
  }

  lemma MoveReads(cfg: Config, blocks: int -> seq<Log>, from: int, restarted: Indexer, s: Indexer, s': Indexer,
                  starts: bool, turn: Option<Answer>, a: Answer)
    requires cfg.batch >= 1 && HasRead(cfg, blocks, from, s) && Moves(cfg, restarted, s, s', starts, turn, a)
    requires turn.Some? ==> FaithfulAnswer(cfg, blocks, s, turn.value)
    requires restarted == Indexer(Polling, restarted.start, [], [], [], [])
    ensures HasRead(cfg, blocks, if starts then restarted.start else from, s')
  {
    if !starts && turn.Some? {
      StepReads(cfg, blocks, from, s, a);
    }
  }

  /** Every matching message in the blocks from the restart cursor up to the present one was fetched, in order. */
  lemma {:induction false} ReadsTheChain(
    lib: Library, setup: Setup, actions: seq<Action>, protocol: int, blocks: int -> seq<Log>)
    requires protocol == FTSO || protocol == FDC
    requires ConfigOf(setup, protocol).batch >= 1 && HonestNode(lib, setup, actions, protocol, blocks)
    ensures HasRead(ConfigOf(setup, protocol), blocks, FirstCursor(lib, setup, actions, protocol),
              IndexerOf(Reach(lib, setup, actions), protocol))
  {
    var cfg := ConfigOf(setup, protocol);
    if actions != [] {
      var init, action := actions[..|actions| - 1], actions[|actions| - 1];
      var sys := Reach(lib, setup, init);
      ReadsTheChain(lib, setup, init, protocol, blocks);
      assert init[..LastStart(init, protocol)] == actions[..LastStart(init, protocol)];
      var a := IndexerMoves(lib, setup, sys, action, protocol);
      MoveReads(cfg, blocks, FirstCursor(lib, setup, init, protocol), Started(setup, sys, protocol),
        IndexerOf(sys, protocol), IndexerOf(Reach(lib, setup, actions), protocol),
        IsStart(action, protocol), TurnOf(action, protocol), a);
    }
  }

  /** What has become of the i-th matching message of some blocks. */
  ghost predicate MessageResolved(s: Indexer, sys: System, actions: seq<Action>, cfg: Config, protocol: int,
                                  messages: seq<Message>, i: nat)
    requires i < |messages|
  {
    var m := messages[i];
    if i < |s.seen| then
      s.seen[i] == Event(i, m) && Resolved(s, sys.db, protocol, Swept(actions, m.round), s.seen[i])
    else i - |s.seen| < |Matching(cfg, s.pending)| && Matching(cfg, s.pending)[i - |s.seen|] == m
  }

  /**
   * From the chain to the tables. The process last started from the block after the highest one stored then.
   * Since that, each block up to the present cursor was asked for once, and each matching message in these
   * blocks is still pending or became an event that is queued, given up, or stored unless swept.
   */
  lemma ChainToTables(
    lib: Library, setup: Setup, actions: seq<Action>, protocol: int, blocks: int -> seq<Log>, i: nat)
    requires protocol == FTSO || protocol == FDC
    requires ConfigOf(setup, protocol).batch >= 1 && HonestNode(lib, setup, actions, protocol, blocks)
    ensures var cfg, sys, from := ConfigOf(setup, protocol), Reach(lib, setup, actions),
                                  FirstCursor(lib, setup, actions, protocol);
            var s, atStart := IndexerOf(sys, protocol), Reach(lib, setup, actions[..LastStart(actions, protocol)]);
            var messages := Matching(cfg, BlockLogs(blocks, from, s.start));
            && StartsAt(cfg, atStart.db.messages, protocol, from)
            && Covered(cfg, from, s.start, s.log)
            && (i < |messages| ==> MessageResolved(s, sys, actions, cfg, protocol, messages, i))
  {
    var cfg, sys := ConfigOf(setup, protocol), Reach(lib, setup, actions);
    var s, stored := IndexerOf(sys, protocol), Reach(lib, setup, actions[..LastStart(actions, protocol)]).db.messages;
    var world := IndexerIsRun(lib, setup, actions, protocol, 0.0);
    RunInvariant(cfg, MaxBlock(stored, protocol), world, |Turns(actions, protocol)|);
    CursorAtStart(cfg, stored, protocol);
    ReadsTheChain(lib, setup, actions, protocol, blocks);
    if i < |FetchedIn(cfg, s.log)| {
      SoundAccounts(cfg, s, i);
      if i < |s.seen| {
        EveryEventResolved(lib, setup, actions, protocol, s.seen[i]);
      }
    }
  }
}
