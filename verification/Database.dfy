/**
 * The database as the processes use it: rows are inserted table by table inside a transaction that rolls
 * back when one insert fails, and the history command deletes table by table.
 */
module Database {
  import opened Wrappers
  import opened Records
  import opened LeafEncoding
  import opened Providers
  import opened Agreement
  import opened Storage

  class Store {
    var messages: seq<Message>
    var randoms: seq<Row<Random>>
    var feeds: seq<Row<Feed>>
    var attestations: seq<Row<Attestation>>

    constructor ()
      ensures State() == EMPTY
    {
      messages, randoms, feeds, attestations := [], [], [], [];
    }

    function State(): Tables
      reads this
    {
      Tables(messages, randoms, feeds, attestations)
    }

    method CreateMessage(m: Message) returns (ok: bool)
      modifies this`messages
      ensures ok <==> Relayed(old(State()), m.body.protocol, m.round) == [] && FitsMessage(m)
      ensures messages == if ok then old(messages) + [m] else old(messages)
    {
      ok := Relayed(State(), m.body.protocol, m.round) == [] && FitsMessage(m);
      if ok { messages := messages + [m]; }
    }

    method CreateRandom(r: Row<Random>) returns (ok: bool)
      modifies this`randoms
      ensures ok <==> FitsRandom(r)
      ensures randoms == if ok then old(randoms) + [r] else old(randoms)
    {
      ok := FitsRandom(r);
      if ok { randoms := randoms + [r]; }
    }

    method CreateFeeds(rows: seq<Row<Feed>>) returns (ok: bool)
      modifies this`feeds
      ensures ok <==> forall i :: 0 <= i < |rows| ==> FitsFeed(rows[i])
      ensures feeds == if ok then old(feeds) + rows else old(feeds)
    {
      ok := forall i :: 0 <= i < |rows| ==> FitsFeed(rows[i]);
      if ok { feeds := feeds + rows; }
    }

    method CreateAttestations(rows: seq<Row<Attestation>>) returns (ok: bool)
      modifies this`attestations
      ensures ok <==> forall i :: 0 <= i < |rows| ==> FitsAttestation(rows[i])
      ensures attestations == if ok then old(attestations) + rows else old(attestations)
    {
      ok := forall i :: 0 <= i < |rows| ==> FitsAttestation(rows[i]);
      if ok { attestations := attestations + rows; }
    }

    method Rollback(saved: Tables)
      modifies this
      ensures State() == saved
    {
      messages, randoms, feeds, attestations := saved.messages, saved.randoms, saved.feeds, saved.attestations;
    }
  }

  /** What `FtsoProcessor.process` does to the tables; `None` when it raises. */
  function ProcessFtso(lib: Library, db: Tables, m: Message, replies: seq<FtsoReply>): Option<Tables> {
    match Fetch(FTSO, m, replies, r => VerifyFtso(lib, m, r))
    case Err(_) => None
    case Ok(payload) => StoreFtso(db, m, payload)
  }

  function ProcessFdc(lib: Library, db: Tables, m: Message, replies: seq<FdcReply>): Option<Tables> {
    match Fetch(FDC, m, replies, r => VerifyFdc(lib, m, r))
    case Err(_) => None
    case Ok(payload) => StoreFdc(db, m, payload)
  }

  lemma {:induction false} NoneTagged(rows: FdcPayload, r: int)
    requires forall i :: 0 <= i < |rows| ==> rows[i].round != r
    ensures RowsOf(rows, r) == []
  {
    if rows != [] {
      NoneTagged(rows[1..], r);
    }
  }

  /**
   * No check stands between a wrong round tag and the tables: whenever an answer is accepted, the same answer
   * under any other rounds is stored as well, and leaves the message of the round without its data.
   */
  lemma MistaggedAttestation(lib: Library, db: Tables, m: Message, rows: FdcPayload, tags: seq<int>)
    requires VerifyFdc(lib, m, FdcData(rows)).Ok? && |tags| == |rows|
    requires m.body.protocol == FDC && FitsMessage(m) && FdcRound(db, m.round) == FdcView([], [])
    requires forall i :: 0 <= i < |tags| ==> 0 <= tags[i] < INT64 && tags[i] != m.round
    ensures var after := ProcessFdc(lib, db, m, [FdcData(Retag(rows, tags))]);
            && after.Some?
            && FdcRound(after.value, m.round) == FdcView([m], [])
            && forall r :: RowsOf(after.value.attestations, r)
                           == RowsOf(db.attestations, r) + RowsOf(Retag(rows, tags), r)
  {
    var moved := Retag(rows, tags);
    FdcRoundIsNotChecked(lib, m, rows, tags);
    assert FitsFdc(m, moved);
    NoneTagged(moved, m.round);
    FdcRoundAfterStore(db, m, moved, m.round);
    forall r ensures RowsOf(db.attestations + moved, r) == RowsOf(db.attestations, r) + RowsOf(moved, r) {
      RowsOfAppend(db.attestations, moved, r);
    }
  }

  /** `FtsoProcessor.process`; the result tells whether it returns without an exception. */
  method RunFtsoProcess(lib: Library, store: Store, m: Message, replies: seq<FtsoReply>) returns (ok: bool)
    modifies store
    ensures match ProcessFtso(lib, old(store.State()), m, replies)
            case None => !ok && store.State() == old(store.State())
            case Some(after) => ok && store.State() == after
  {
    var data := FetchMerkleTree(FTSO, m, replies, r => VerifyFtso(lib, m, r));
    if data.Err? {
      return false;
    }
    var saved := store.State();
    ok := store.CreateMessage(m);
    if ok { ok := store.CreateRandom(data.value.random); }
    if ok { ok := store.CreateFeeds(data.value.feeds); }
    if !ok { store.Rollback(saved); }
  }

  /** `FdcProcessor.process`. */
  method RunFdcProcess(lib: Library, store: Store, m: Message, replies: seq<FdcReply>) returns (ok: bool)
    modifies store
    ensures match ProcessFdc(lib, old(store.State()), m, replies)
            case None => !ok && store.State() == old(store.State())
            case Some(after) => ok && store.State() == after
  {
    var data := FetchMerkleTree(FDC, m, replies, r => VerifyFdc(lib, m, r));
    if data.Err? {
      return false;
    }
    var saved := store.State();
    ok := store.CreateMessage(m);
    if ok { ok := store.CreateAttestations(data.value); }
    if !ok { store.Rollback(saved); }
  }

  function Latest(epochs: seq<int>): int
    requires epochs != []
  {
    if |epochs| == 1 then epochs[0]
    else
      var before := Latest(epochs[..|epochs| - 1]);
      if before < epochs[|epochs| - 1] then epochs[|epochs| - 1] else before
  }

  /**
   * The history command over the voting epochs at which it wakes up. However often it runs, the outcome is
   * that of one sweep at its latest cut-off.
   */
  method DeleteHistory(store: Store, keep: Option<int>, epochs: seq<int>)
    modifies store
    ensures store.State() == if keep.None? || epochs == [] then old(store.State())
                             else Sweep(old(store.State()), Latest(epochs) - keep.value)
  {
    if keep.None? {
      return;
    }
    for i := 0 to |epochs|
      invariant store.State() == if i == 0 then old(store.State())
                                 else Sweep(old(store.State()), Latest(epochs[..i]) - keep.value)
    {
      var votingRound := epochs[i] - keep.value;
      ghost var before := store.State();
      store.attestations := RowsFrom(store.attestations, votingRound);
      store.feeds := RowsFrom(store.feeds, votingRound);
      store.randoms := RowsFrom(store.randoms, votingRound);
      store.messages := RowsFrom(store.messages, votingRound);
      assert epochs[..i + 1][..i] == epochs[..i];
      if i > 0 {
        SweepTwice(old(store.State()), Latest(epochs[..i]) - keep.value, votingRound);
      }
    }
    assert epochs[..|epochs|] == epochs;
  }
}
