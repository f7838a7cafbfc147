/**
 * The four tables, the two storing transactions, and the history sweep. An archive says what the tables are
 * for: for each protocol, at most one publication a round. The tables refine an archive when, round by
 * round, they hold exactly its rows.
 */
module Storage {
  import opened Wrappers
  import opened Records
  import opened Providers
  import opened Agreement

  datatype Tables = Tables(
    messages: seq<Message>, randoms: seq<Row<Random>>, feeds: seq<Row<Feed>>, attestations: seq<Row<Attestation>>)

  const EMPTY := Tables([], [], [], [])

  /** The messages of one protocol and round; the uniqueness constraint is on this pair. */
  function OfProtocol(rows: seq<Message>, protocol: int): seq<Message> {
    if rows == [] then []
    else if rows[0].body.protocol == protocol then [rows[0]] + OfProtocol(rows[1..], protocol)
    else OfProtocol(rows[1..], protocol)
  }

  function Relayed(db: Tables, protocol: int, r: int): seq<Message> {
    OfProtocol(RowsOf(db.messages, r), protocol)
  }

  // ---- column limits of the schema ----

  const INT16 := 0x8000
  const INT32 := 0x8000_0000
  const INT64 := 0x8000_0000_0000_0000

  predicate FitsMessage(m: Message) {
    && -INT32 <= m.body.block < INT32 && 0 <= m.body.protocol < INT16 && 0 <= m.round < INT32
    && |m.body.root| <= 64
  }

  predicate FitsRandom(r: Row<Random>) {
    0 <= r.round < INT64 && |r.body.value| <= 64
  }

  predicate FitsFeed(f: Row<Feed>) {
    && 0 <= f.round < INT64 && |f.body.id| <= 42 && -INT64 <= f.body.value < INT64
    && 0 <= f.body.turnout < INT64 && -INT32 <= f.body.decimals < INT32
  }

  predicate FitsAttestation(a: Row<Attestation>) {
    0 <= a.round < INT64
  }

  predicate FitsFtso(m: Message, p: FtsoPayload) {
    FitsMessage(m) && FitsRandom(p.random) && forall i :: 0 <= i < |p.feeds| ==> FitsFeed(p.feeds[i])
  }

  predicate FitsFdc(m: Message, p: FdcPayload) {
    FitsMessage(m) && forall i :: 0 <= i < |p| ==> FitsAttestation(p[i])
  }

  // ---- the transactions ----

  /** All three inserts, or `None` and no change. */
  function StoreFtso(db: Tables, m: Message, p: FtsoPayload): Option<Tables> {
    if Relayed(db, m.body.protocol, m.round) != [] || !FitsFtso(m, p) then None
    else Some(db.(messages := db.messages + [m], randoms := db.randoms + [p.random], feeds := db.feeds + p.feeds))
  }

  function StoreFdc(db: Tables, m: Message, p: FdcPayload): Option<Tables> {
    if Relayed(db, m.body.protocol, m.round) != [] || !FitsFdc(m, p) then None
    else Some(db.(messages := db.messages + [m], attestations := db.attestations + p))
  }

  /** The deletion of every row of a round below `c`. */
  function Sweep(db: Tables, c: int): Tables {
    Tables(RowsFrom(db.messages, c), RowsFrom(db.randoms, c), RowsFrom(db.feeds, c), RowsFrom(db.attestations, c))
  }

  // ---- the archives that the tables stand for ----

  type FtsoArchive = map<int, (Message, FtsoPayload)>

  type FdcArchive = map<int, (Message, FdcPayload)>

  /** All FTSO rows of a round, and all FDC rows of a round. */
  datatype FtsoView = FtsoView(messages: seq<Message>, randoms: seq<Row<Random>>, feeds: seq<Row<Feed>>)

  datatype FdcView = FdcView(messages: seq<Message>, attestations: seq<Row<Attestation>>)

  function FtsoRound(db: Tables, r: int): FtsoView {
    FtsoView(Relayed(db, FTSO, r), RowsOf(db.randoms, r), RowsOf(db.feeds, r))
  }

  function FdcRound(db: Tables, r: int): FdcView {
    FdcView(Relayed(db, FDC, r), RowsOf(db.attestations, r))
  }

  function FtsoExpected(ar: FtsoArchive, r: int): FtsoView {
    if r in ar then FtsoView([ar[r].0], [ar[r].1.random], ar[r].1.feeds) else FtsoView([], [], [])
  }

  function FdcExpected(ar: FdcArchive, r: int): FdcView {
    if r in ar then FdcView([ar[r].0], ar[r].1) else FdcView([], [])
  }

  ghost predicate FtsoRefines(db: Tables, ar: FtsoArchive) {
    forall r :: FtsoRound(db, r) == FtsoExpected(ar, r)
  }

  ghost predicate FdcRefines(db: Tables, ar: FdcArchive) {
    forall r :: FdcRound(db, r) == FdcExpected(ar, r)
  }

  lemma {:induction false} OfProtocolAppend(a: seq<Message>, b: seq<Message>, protocol: int)
    ensures OfProtocol(a + b, protocol) == OfProtocol(a, protocol) + OfProtocol(b, protocol)
  {
    if a == [] {
      assert a + b == b;
    } else {
      assert (a + b)[1..] == a[1..] + b;
      OfProtocolAppend(a[1..], b, protocol);
    }
  }

  /** One more message changes only its own protocol and round. */
  lemma RelayedAppend(db: Tables, m: Message, protocol: int, r: int)
    ensures OfProtocol(RowsOf(db.messages + [m], r), protocol) ==
            if m.round == r && m.body.protocol == protocol then Relayed(db, protocol, r) + [m]
            else Relayed(db, protocol, r)
  {
    RowsOfAppend(db.messages, [m], r);
    OfProtocolAppend(RowsOf(db.messages, r), RowsOf([m], r), protocol);
  }

  /** What a round looks like after an FTSO transaction, whatever rounds the payload is tagged with. */
  lemma FtsoRoundAfterStore(db: Tables, m: Message, p: FtsoPayload, r: int)
    requires m.body.protocol == FTSO && StoreFtso(db, m, p).Some?
    ensures var db' := StoreFtso(db, m, p).value;
            && Relayed(db', FTSO, r) == (if r == m.round then [m] else Relayed(db, FTSO, r))
            && RowsOf(db'.randoms, r) == RowsOf(db.randoms, r) + RowsOf([p.random], r)
            && RowsOf(db'.feeds, r) == RowsOf(db.feeds, r) + RowsOf(p.feeds, r)
            && FdcRound(db', r) == FdcRound(db, r)
  {
    RelayedAppend(db, m, FTSO, r);
    RelayedAppend(db, m, FDC, r);
    RowsOfAppend(db.randoms, [p.random], r);
    RowsOfAppend(db.feeds, p.feeds, r);
  }

  lemma FdcRoundAfterStore(db: Tables, m: Message, p: FdcPayload, r: int)
    requires m.body.protocol == FDC && StoreFdc(db, m, p).Some?
    ensures var db' := StoreFdc(db, m, p).value;
            && Relayed(db', FDC, r) == (if r == m.round then [m] else Relayed(db, FDC, r))
            && RowsOf(db'.attestations, r) == RowsOf(db.attestations, r) + RowsOf(p, r)
            && FtsoRound(db', r) == FtsoRound(db, r)
  {
    RelayedAppend(db, m, FDC, r);
    RelayedAppend(db, m, FTSO, r);
    RowsOfAppend(db.attestations, p, r);
  }

  /** The publications of rounds from `c` on. */
  function Since<P>(ar: map<int, (Message, P)>, c: int): map<int, (Message, P)> {
    map r | r in ar && r >= c :: ar[r]
  }

  /** A transaction fails exactly on a round that is archived already or on a row the schema cannot hold. */
  lemma FtsoStoreFails(db: Tables, ar: FtsoArchive, m: Message, p: FtsoPayload)
    requires FtsoRefines(db, ar) && m.body.protocol == FTSO
    ensures StoreFtso(db, m, p).None? <==> m.round in ar || !FitsFtso(m, p)
  {
    assert FtsoRound(db, m.round) == FtsoExpected(ar, m.round);
  }

  lemma FdcStoreFails(db: Tables, ar: FdcArchive, m: Message, p: FdcPayload)
    requires FdcRefines(db, ar) && m.body.protocol == FDC
    ensures StoreFdc(db, m, p).None? <==> m.round in ar || !FitsFdc(m, p)
  {
    assert FdcRound(db, m.round) == FdcExpected(ar, m.round);
  }

  /** Each transaction leaves the tables of the other protocol as they are. */
  lemma FtsoStoreKeepsFdc(db: Tables, m: Message, p: FtsoPayload, ar: FdcArchive)
    requires m.body.protocol == FTSO && StoreFtso(db, m, p).Some?
    ensures FdcRefines(StoreFtso(db, m, p).value, ar) <==> FdcRefines(db, ar)
  {
    var db' := StoreFtso(db, m, p).value;
    forall r ensures FdcRound(db', r) == FdcRound(db, r) {
      FtsoRoundAfterStore(db, m, p, r);
    }
  }

  lemma FdcStoreKeepsFtso(db: Tables, m: Message, p: FdcPayload, ar: FtsoArchive)
    requires m.body.protocol == FDC && StoreFdc(db, m, p).Some?
    ensures FtsoRefines(StoreFdc(db, m, p).value, ar) <==> FtsoRefines(db, ar)
  {
    var db' := StoreFdc(db, m, p).value;
    forall r ensures FtsoRound(db', r) == FtsoRound(db, r) {
      FdcRoundAfterStore(db, m, p, r);
    }
  }

  /** A filtered list is the whole list only if everything in it passes. */
  lemma {:induction false} RowsOfLength<T>(rows: seq<Row<T>>, r: int)
    ensures |RowsOf(rows, r)| <= |rows|
    ensures |RowsOf(rows, r)| == |rows| ==> Tagged(rows, r)
  {
    if rows != [] {
      RowsOfLength(rows[1..], r);
    }
  }

  lemma TaggedFtsoRound(db: Tables, m: Message, p: FtsoPayload, r: int)
    requires m.body.protocol == FTSO && StoreFtso(db, m, p).Some? && TaggedFtso(p, m.round)
    requires FtsoRound(db, m.round) == FtsoView([], [], [])
    ensures var db' := StoreFtso(db, m, p).value;
            && FtsoRound(db', r) == (if r == m.round then FtsoView([m], [p.random], p.feeds) else FtsoRound(db, r))
            && FdcRound(db', r) == FdcRound(db, r)
  {
    FtsoRoundAfterStore(db, m, p, r);
    RowsOfTagged([p.random], m.round, r);
    RowsOfTagged(p.feeds, m.round, r);
  }

  lemma TaggedFtsoStore(db: Tables, ar: FtsoArchive, m: Message, p: FtsoPayload)
    requires FtsoRefines(db, ar) && m.body.protocol == FTSO && StoreFtso(db, m, p).Some? && TaggedFtso(p, m.round)
    ensures FtsoRefines(StoreFtso(db, m, p).value, ar[m.round := (m, p)])
  {
    FtsoStoreFails(db, ar, m, p);
    assert FtsoRound(db, m.round) == FtsoExpected(ar, m.round);
    forall r {
      TaggedFtsoRound(db, m, p, r);
    }
  }

  lemma RefiningFtsoStore(db: Tables, ar: FtsoArchive, m: Message, p: FtsoPayload)
    requires FtsoRefines(db, ar) && m.body.protocol == FTSO && StoreFtso(db, m, p).Some?
    requires FtsoRefines(StoreFtso(db, m, p).value, ar[m.round := (m, p)])
    ensures TaggedFtso(p, m.round)
  {
    var db', ar', r := StoreFtso(db, m, p).value, ar[m.round := (m, p)], m.round;
    FtsoStoreFails(db, ar, m, p);
    assert FtsoRound(db, r) == FtsoExpected(ar, r) && FtsoRound(db', r) == FtsoExpected(ar', r);
    FtsoRoundAfterStore(db, m, p, r);
    RowsOfLength([p.random], r);
    RowsOfLength(p.feeds, r);
    assert [p.random][0] == p.random;
  }

  /**
   * A successful FTSO transaction adds one publication to the archive, and changes nothing else, exactly
   * when all its rows carry the round of the message.
   */
  lemma FtsoStoreRefines(db: Tables, ar: FtsoArchive, m: Message, p: FtsoPayload)
    requires FtsoRefines(db, ar) && m.body.protocol == FTSO && StoreFtso(db, m, p).Some?
    ensures FtsoRefines(StoreFtso(db, m, p).value, ar[m.round := (m, p)]) <==> TaggedFtso(p, m.round)
  {
    if TaggedFtso(p, m.round) { TaggedFtsoStore(db, ar, m, p); }
    if FtsoRefines(StoreFtso(db, m, p).value, ar[m.round := (m, p)]) { RefiningFtsoStore(db, ar, m, p); }
  }

  lemma TaggedFdcRound(db: Tables, m: Message, p: FdcPayload, r: int)
    requires m.body.protocol == FDC && StoreFdc(db, m, p).Some? && Tagged(p, m.round)
    requires FdcRound(db, m.round) == FdcView([], [])
    ensures var db' := StoreFdc(db, m, p).value;
            && FdcRound(db', r) == (if r == m.round then FdcView([m], p) else FdcRound(db, r))
            && FtsoRound(db', r) == FtsoRound(db, r)
  {
    FdcRoundAfterStore(db, m, p, r);
    RowsOfTagged(p, m.round, r);
  }

  lemma TaggedFdcStore(db: Tables, ar: FdcArchive, m: Message, p: FdcPayload)
    requires FdcRefines(db, ar) && m.body.protocol == FDC && StoreFdc(db, m, p).Some? && Tagged(p, m.round)
    ensures FdcRefines(StoreFdc(db, m, p).value, ar[m.round := (m, p)])
  {
    FdcStoreFails(db, ar, m, p);
    assert FdcRound(db, m.round) == FdcExpected(ar, m.round);
    forall r {
      TaggedFdcRound(db, m, p, r);
    }
  }

  lemma RefiningFdcStore(db: Tables, ar: FdcArchive, m: Message, p: FdcPayload)
    requires FdcRefines(db, ar) && m.body.protocol == FDC && StoreFdc(db, m, p).Some?
    requires FdcRefines(StoreFdc(db, m, p).value, ar[m.round := (m, p)])
    ensures Tagged(p, m.round)
  {
    var db', ar', r := StoreFdc(db, m, p).value, ar[m.round := (m, p)], m.round;
    FdcStoreFails(db, ar, m, p);
    assert FdcRound(db, r) == FdcExpected(ar, r) && FdcRound(db', r) == FdcExpected(ar', r);
    FdcRoundAfterStore(db, m, p, r);
    RowsOfLength(p, r);
  }

  lemma FdcStoreRefines(db: Tables, ar: FdcArchive, m: Message, p: FdcPayload)
    requires FdcRefines(db, ar) && m.body.protocol == FDC && StoreFdc(db, m, p).Some?
    ensures FdcRefines(StoreFdc(db, m, p).value, ar[m.round := (m, p)]) <==> Tagged(p, m.round)
  {
    if Tagged(p, m.round) { TaggedFdcStore(db, ar, m, p); }
    if FdcRefines(StoreFdc(db, m, p).value, ar[m.round := (m, p)]) { RefiningFdcStore(db, ar, m, p); }
  }

  /** What a sweep at `c` leaves of each round. */
  lemma RoundAfterSweep(db: Tables, c: int, r: int)
    ensures forall protocol :: Relayed(Sweep(db, c), protocol, r) == if r < c then [] else Relayed(db, protocol, r)
    ensures FtsoRound(Sweep(db, c), r) == if r < c then FtsoView([], [], []) else FtsoRound(db, r)
    ensures FdcRound(Sweep(db, c), r) == if r < c then FdcView([], []) else FdcRound(db, r)
  {
    RowsOfFrom(db.messages, c, r);
    RowsOfFrom(db.randoms, c, r);
    RowsOfFrom(db.feeds, c, r);
    RowsOfFrom(db.attestations, c, r);
  }

  /** A sweep forgets the rounds below the cut-off and keeps every other round whole. */
  lemma SweepRefines(db: Tables, ftso: FtsoArchive, fdc: FdcArchive, c: int)
    ensures FtsoRefines(db, ftso) ==> FtsoRefines(Sweep(db, c), Since(ftso, c))
    ensures FdcRefines(db, fdc) ==> FdcRefines(Sweep(db, c), Since(fdc, c))
  {
    if FtsoRefines(db, ftso) {
      forall r ensures FtsoRound(Sweep(db, c), r) == FtsoExpected(Since(ftso, c), r) {
        assert FtsoRound(db, r) == FtsoExpected(ftso, r);
        RoundAfterSweep(db, c, r);
      }
    }
    if FdcRefines(db, fdc) {
      forall r ensures FdcRound(Sweep(db, c), r) == FdcExpected(Since(fdc, c), r) {
        assert FdcRound(db, r) == FdcExpected(fdc, r);
        RoundAfterSweep(db, c, r);
      }
    }
  }

  // ---- sweep algebra ----

  lemma SweepTwice(db: Tables, c: int, d: int)
    ensures Sweep(Sweep(db, c), d) == Sweep(db, if c < d then d else c)
  {
    RowsFromFrom(db.messages, c, d);
    RowsFromFrom(db.randoms, c, d);
    RowsFromFrom(db.feeds, c, d);
    RowsFromFrom(db.attestations, c, d);
  }

  /** A sweep commutes with storing a round it does not reach, also when the store is rejected. */
  lemma SweepCommutesFtso(db: Tables, c: int, m: Message, p: FtsoPayload)
    requires m.round >= c && TaggedFtso(p, m.round)
    ensures StoreFtso(Sweep(db, c), m, p) ==
            match StoreFtso(db, m, p) case None => None case Some(db') => Some(Sweep(db', c))
  {
    RowsOfFrom(db.messages, c, m.round);
    RowsFromAppend(db.messages, [m], c);
    RowsFromTagged([m], m.round, c);
    RowsFromAppend(db.randoms, [p.random], c);
    RowsFromTagged([p.random], m.round, c);
    RowsFromAppend(db.feeds, p.feeds, c);
    RowsFromTagged(p.feeds, m.round, c);
  }

  lemma SweepCommutesFdc(db: Tables, c: int, m: Message, p: FdcPayload)
    requires m.round >= c && Tagged(p, m.round)
    ensures StoreFdc(Sweep(db, c), m, p) ==
            match StoreFdc(db, m, p) case None => None case Some(db') => Some(Sweep(db', c))
  {
    RowsOfFrom(db.messages, c, m.round);
    RowsFromAppend(db.messages, [m], c);
    RowsFromTagged([m], m.round, c);
    RowsFromAppend(db.attestations, p, c);
    RowsFromTagged(p, m.round, c);
  }

  datatype Op =
    | PutFtso(message: Message, ftso: FtsoPayload)
    | PutFdc(message: Message, fdc: FdcPayload)
    | Purge(cutoff: int)

  /** A rejected transaction leaves the tables as they are. */
  function Apply(db: Tables, op: Op): Tables {
    match op
    case PutFtso(m, p) => (match StoreFtso(db, m, p) case None => db case Some(db') => db')
    case PutFdc(m, p) => (match StoreFdc(db, m, p) case None => db case Some(db') => db')
    case Purge(c) => Sweep(db, c)
  }

  function ApplyAll(db: Tables, ops: seq<Op>): Tables {
    if ops == [] then db else Apply(ApplyAll(db, ops[..|ops| - 1]), ops[|ops| - 1])
  }

  function WithoutPurges(ops: seq<Op>): seq<Op> {
    if ops == [] then []
    else
      var init := WithoutPurges(ops[..|ops| - 1]);
      if ops[|ops| - 1].Purge? then init else init + [ops[|ops| - 1]]
  }

  /** The store has a round of at least `c`, or the purge a cut-off of at most `c`. */
  ghost predicate Current(op: Op, c: int) {
    match op
    case PutFtso(m, p) => m.round >= c && TaggedFtso(p, m.round)
    case PutFdc(m, p) => m.round >= c && Tagged(p, m.round)
    case Purge(d) => d <= c
  }

  lemma ApplyCommutes(db: Tables, op: Op, c: int)
    requires Current(op, c)
    ensures Sweep(Apply(db, op), c) == if op.Purge? then Sweep(db, c) else Apply(Sweep(db, c), op)
  {
    match op {
      case PutFtso(m, p) => SweepCommutesFtso(db, c, m, p);
      case PutFdc(m, p) => SweepCommutesFdc(db, c, m, p);
      case Purge(d) => SweepTwice(db, d, c);
    }
  }

  lemma {:induction false} PurgesMoveToTheEnd(db: Tables, ops: seq<Op>, c: int)
    requires forall i :: 0 <= i < |ops| ==> Current(ops[i], c)
    ensures Sweep(ApplyAll(db, ops), c) == Sweep(ApplyAll(db, WithoutPurges(ops)), c)
  {
    if ops != [] {
      var init, op := ops[..|ops| - 1], ops[|ops| - 1];
      PurgesMoveToTheEnd(db, init, c);
      ApplyCommutes(ApplyAll(db, init), op, c);
      if !op.Purge? {
        ApplyCommutes(ApplyAll(db, WithoutPurges(init)), op, c);
        assert WithoutPurges(ops)[..|WithoutPurges(init)|] == WithoutPurges(init);
      }
    }
  }

  lemma {:induction false} PurgedStaysPurged(db: Tables, ops: seq<Op>, c: int)
    requires forall i :: 0 <= i < |ops| ==> Current(ops[i], c)
    requires Purge(c) in ops
    ensures Sweep(ApplyAll(db, ops), c) == ApplyAll(db, ops)
  {
    var init, op := ops[..|ops| - 1], ops[|ops| - 1];
    var before := ApplyAll(db, init);
    if op == Purge(c) {
      SweepTwice(before, c, c);
    } else {
      assert Purge(c) in init;
      PurgedStaysPurged(db, init, c);
      ApplyCommutes(before, op, c);
      if op.Purge? {
        SweepTwice(before, c, op.cutoff);
      }
    }
  }

  /**
   * When sweeps, the last of them at `c`, run between stores of rounds from `c` on, the tables end up as if
   * one sweep had run after all the stores.
   */
  lemma SweepsInterleaveFreely(db: Tables, ops: seq<Op>, c: int)
    requires forall i :: 0 <= i < |ops| ==> Current(ops[i], c)
    requires Purge(c) in ops
    ensures ApplyAll(db, ops) == Sweep(ApplyAll(db, WithoutPurges(ops)), c)
  {
    PurgesMoveToTheEnd(db, ops, c);
    PurgedStaysPurged(db, ops, c);
  }

  // ---- a sweep whose statements take separate snapshots ----

  /** The deletes from number `i` up to, not including, number `j`: attestations, feeds, randoms, messages. */
  function Deletes(db: Tables, c: int, i: nat, j: nat): Tables {
    Tables(
      if i <= 3 < j then RowsFrom(db.messages, c) else db.messages,
      if i <= 2 < j then RowsFrom(db.randoms, c) else db.randoms,
      if i <= 1 < j then RowsFrom(db.feeds, c) else db.feeds,
      if i <= 0 < j then RowsFrom(db.attestations, c) else db.attestations)
  }

  lemma RelayedFrom(db: Tables, c: int, i: nat, j: nat, protocol: int, r: int)
    ensures Relayed(Deletes(db, c, i, j), protocol, r) == if i <= 3 < j && r < c then [] else Relayed(db, protocol, r)
  {
    RowsOfFrom(db.messages, c, r);
  }

  /**
   * If each delete of a sweep took its own snapshot and a store committed after the first `k` of them, the
   * round would end whole, kept or gone, exactly when the sweep does not reach it or `k` is 0 or 4. Otherwise
   * the message is lost and the data stay.
   */
  lemma FdcStoreDuringSweep(db: Tables, c: int, k: nat, m: Message, p: FdcPayload)
    requires k <= 4 && m.body.protocol == FDC && Tagged(p, m.round)
    requires FdcRound(Deletes(db, c, 0, k), m.round) == FdcView([], [])
    requires StoreFdc(Deletes(db, c, 0, k), m, p).Some?
    ensures var stored := StoreFdc(Deletes(db, c, 0, k), m, p).value;
            FdcRound(Deletes(stored, c, k, 4), m.round) ==
            if m.round >= c || k == 4 then FdcView([m], p)
            else if k == 0 then FdcView([], [])
            else FdcView([], p)
  {
    var before, r := Deletes(db, c, 0, k), m.round;
    var stored := StoreFdc(before, m, p).value;
    TaggedFdcRound(before, m, p, r);
    RelayedFrom(stored, c, k, 4, FDC, r);
    RowsOfFrom(stored.attestations, c, r);
  }

  /** For FTSO the round survives whole or not at all also when `k` is 1: the first delete is not of its tables. */
  lemma FtsoStoreDuringSweep(db: Tables, c: int, k: nat, m: Message, p: FtsoPayload)
    requires k <= 4 && m.body.protocol == FTSO && TaggedFtso(p, m.round)
    requires FtsoRound(Deletes(db, c, 0, k), m.round) == FtsoView([], [], [])
    requires StoreFtso(Deletes(db, c, 0, k), m, p).Some?
    ensures var stored := StoreFtso(Deletes(db, c, 0, k), m, p).value;
            FtsoRound(Deletes(stored, c, k, 4), m.round) ==
            if m.round >= c || k == 4 then FtsoView([m], [p.random], p.feeds)
            else if k <= 1 then FtsoView([], [], [])
            else FtsoView([], if k == 3 then [p.random] else [], p.feeds)
  {
    var before, r := Deletes(db, c, 0, k), m.round;
    var stored := StoreFtso(before, m, p).value;
    TaggedFtsoRound(before, m, p, r);
    RelayedFrom(stored, c, k, 4, FTSO, r);
    RowsOfFrom(stored.randoms, c, r);
    RowsOfFrom(stored.feeds, c, r);
  }
}
