/**
 * What acceptance means: under collision-freedom of the hash and of the tree, the relayed root leaves the
 * providers no choice in any hashed field.
 */
module Agreement {
  import opened Wrappers
  import opened Records
  import opened Hex
  import opened LeafEncoding
  import opened Providers

  ghost predicate SameMembers(a: seq<Bytes>, b: seq<Bytes>) {
    forall h :: h in a <==> h in b
  }

  /** Both trees have roots, and these are the same text up to case and prefix. */
  predicate SameRoot(lib: Library, a: seq<Bytes>, b: seq<Bytes>) {
    && lib.merkleRoot(a).Some? && lib.merkleRoot(b).Some?
    && NormalRoot(lib.merkleRoot(a).value) == NormalRoot(lib.merkleRoot(b).value)
  }

  /** Trees with the same root have the same leaves. */
  ghost predicate RootPins(lib: Library) {
    forall a, b :: SameRoot(lib, a, b) ==> SameMembers(a, b)
  }

  /** The random and the feeds hash to leaves whose tree has the given root. */
  predicate Backed(lib: Library, p: FtsoPayload, root: string) {
    match FtsoLeaves(lib, p.random, p.feeds)
    case None => false
    case Some(leaves) => lib.merkleRoot(leaves).Some? && NormalRoot(lib.merkleRoot(leaves).value) == root
  }

  predicate BackedFdc(lib: Library, p: FdcPayload, root: string) {
    match FdcLeaves(lib, p)
    case None => false
    case Some(leaves) => lib.merkleRoot(leaves).Some? && NormalRoot(lib.merkleRoot(leaves).value) == root
  }

  lemma {:induction false} FeedHashesAt(lib: Library, feeds: seq<Row<Feed>>)
    requires FeedHashes(lib, feeds).Some?
    ensures |FeedHashes(lib, feeds).value| == |feeds|
    ensures forall i :: 0 <= i < |feeds| ==> FeedHash(lib, feeds[i]) == Some(FeedHashes(lib, feeds).value[i])
  {
    if feeds != [] {
      FeedHashesAt(lib, feeds[1..]);
    }
  }

  lemma {:induction false} FdcLeavesAt(lib: Library, rows: seq<Row<Attestation>>)
    requires FdcLeaves(lib, rows).Some?
    ensures |FdcLeaves(lib, rows).value| == |rows|
    ensures forall i :: 0 <= i < |rows| ==> AttestationHash(lib, rows[i]) == Some(FdcLeaves(lib, rows).value[i])
  {
    if rows != [] {
      FdcLeavesAt(lib, rows[1..]);
    }
  }

  lemma AcceptedIsBacked(lib: Library, m: Message, reply: FtsoReply)
    requires VerifyFtso(lib, m, reply).Ok?
    ensures Backed(lib, VerifyFtso(lib, m, reply).value, m.body.root)
  {
  }

  /** The same root, so every leaf of one payload is a leaf of the other. */
  lemma SharedLeaf(lib: Library, p: FtsoPayload, q: FtsoPayload, root: string, i: nat) returns (j: nat)
    requires RootPins(lib) && Backed(lib, p, root) && Backed(lib, q, root)
    requires i < |FtsoLeaves(lib, p.random, p.feeds).value|
    ensures j < |FtsoLeaves(lib, q.random, q.feeds).value|
    ensures FtsoLeaves(lib, q.random, q.feeds).value[j] == FtsoLeaves(lib, p.random, p.feeds).value[i]
  {
    var a, b := FtsoLeaves(lib, p.random, p.feeds).value, FtsoLeaves(lib, q.random, q.feeds).value;
    assert SameRoot(lib, a, b) && SameMembers(a, b);
    assert a[i] in b;
    j :| 0 <= j < |b| && b[j] == a[i];
  }

  lemma LeavesOf(lib: Library, p: FtsoPayload)
    requires FtsoLeaves(lib, p.random, p.feeds).Some?
    ensures var leaves := FtsoLeaves(lib, p.random, p.feeds).value;
            && |leaves| == 1 + |p.feeds|
            && RandomHash(lib, p.random) == Some(leaves[0])
            && forall i :: 0 <= i < |p.feeds| ==> FeedHash(lib, p.feeds[i]) == Some(leaves[i + 1])
  {
    FeedHashesAt(lib, p.feeds);
  }

  /** The same root, so the same random in every hashed field. */
  lemma SameRandom(lib: Library, p: FtsoPayload, q: FtsoPayload, root: string)
    requires CollisionFree(lib) && RootPins(lib) && Backed(lib, p, root) && Backed(lib, q, root)
    ensures RandomFields(lib, p.random) == RandomFields(lib, q.random) && p.random.round == q.random.round
  {
    LeavesOf(lib, p);
    LeavesOf(lib, q);
    var j := SharedLeaf(lib, p, q, root, 0);
    if j > 0 {
      LeafKindsDisjoint(lib, q.feeds[j - 1], p.random);
      assert false;
    }
    RandomLeafPinsFields(lib, p.random, q.random);
  }

  /** The same root, so every feed of one payload has a feed with the same hashed fields in the other. */
  lemma SameFeed(lib: Library, p: FtsoPayload, q: FtsoPayload, root: string, i: nat) returns (j: nat)
    requires CollisionFree(lib) && RootPins(lib) && Backed(lib, p, root) && Backed(lib, q, root)
    requires i < |p.feeds|
    ensures j < |q.feeds|
    ensures FeedFields(lib, p.feeds[i]) == FeedFields(lib, q.feeds[j]) && p.feeds[i].round == q.feeds[j].round
  {
    LeavesOf(lib, p);
    LeavesOf(lib, q);
    var k := SharedLeaf(lib, p, q, root, i + 1);
    LeafKindsDisjoint(lib, p.feeds[i], q.random);
    j := k - 1;
    FeedLeafPinsFields(lib, p.feeds[i], q.feeds[j]);
  }

  ghost predicate HasFeed(lib: Library, feeds: seq<Row<Feed>>, fields: Option<seq<AbiValue>>) {
    exists i :: 0 <= i < |feeds| && FeedFields(lib, feeds[i]) == fields
  }

  ghost predicate SameFields(lib: Library, p: FtsoPayload, q: FtsoPayload) {
    && RandomFields(lib, p.random) == RandomFields(lib, q.random)
    && (forall i :: 0 <= i < |p.feeds| ==> HasFeed(lib, q.feeds, FeedFields(lib, p.feeds[i])))
    && (forall j :: 0 <= j < |q.feeds| ==> HasFeed(lib, p.feeds, FeedFields(lib, q.feeds[j])))
  }

  lemma BackedAgree(lib: Library, p: FtsoPayload, q: FtsoPayload, root: string)
    requires CollisionFree(lib) && RootPins(lib) && Backed(lib, p, root) && Backed(lib, q, root)
    ensures SameFields(lib, p, q)
  {
    SameRandom(lib, p, q, root);
    forall i | 0 <= i < |p.feeds| ensures HasFeed(lib, q.feeds, FeedFields(lib, p.feeds[i])) {
      var j := SameFeed(lib, p, q, root, i);
    }
    forall j | 0 <= j < |q.feeds| ensures HasFeed(lib, p.feeds, FeedFields(lib, q.feeds[j])) {
      var i := SameFeed(lib, q, p, root, j);
    }
  }

  /** Any two FTSO answers accepted for a message agree, as sets, on every hashed field. */
  lemma FtsoProvidersAgree(lib: Library, m: Message, r: FtsoReply, s: FtsoReply)
    requires CollisionFree(lib) && RootPins(lib)
    requires VerifyFtso(lib, m, r).Ok? && VerifyFtso(lib, m, s).Ok?
    ensures SameFields(lib, VerifyFtso(lib, m, r).value, VerifyFtso(lib, m, s).value)
  {
    AcceptedIsBacked(lib, m, r);
    AcceptedIsBacked(lib, m, s);
    BackedAgree(lib, VerifyFtso(lib, m, r).value, VerifyFtso(lib, m, s).value, m.body.root);
  }

  ghost predicate HasResponse(lib: Library, rows: FdcPayload, response: Option<Bytes>) {
    exists i :: 0 <= i < |rows| && lib.hexString(rows[i].body.response) == response
  }

  lemma SameResponse(lib: Library, p: FdcPayload, q: FdcPayload, root: string, i: nat)
    requires CollisionFree(lib) && RootPins(lib) && BackedFdc(lib, p, root) && BackedFdc(lib, q, root)
    requires i < |p|
    ensures HasResponse(lib, q, lib.hexString(p[i].body.response))
  {
    var a, b := FdcLeaves(lib, p).value, FdcLeaves(lib, q).value;
    FdcLeavesAt(lib, p);
    FdcLeavesAt(lib, q);
    assert SameRoot(lib, a, b) && SameMembers(a, b);
    assert a[i] in b;
    var j :| 0 <= j < |b| && b[j] == a[i];
    assert AttestationHash(lib, p[i]) == AttestationHash(lib, q[j]);
    assert lib.hexString(q[j].body.response) == lib.hexString(p[i].body.response);
  }

  ghost predicate SameResponses(lib: Library, p: FdcPayload, q: FdcPayload) {
    && (forall i :: 0 <= i < |p| ==> HasResponse(lib, q, lib.hexString(p[i].body.response)))
    && (forall j :: 0 <= j < |q| ==> HasResponse(lib, p, lib.hexString(q[j].body.response)))
  }

  lemma BackedFdcAgree(lib: Library, p: FdcPayload, q: FdcPayload, root: string)
    requires CollisionFree(lib) && RootPins(lib) && BackedFdc(lib, p, root) && BackedFdc(lib, q, root)
    ensures SameResponses(lib, p, q)
  {
    forall i | 0 <= i < |p| ensures HasResponse(lib, q, lib.hexString(p[i].body.response)) {
      SameResponse(lib, p, q, root, i);
    }
    forall j | 0 <= j < |q| ensures HasResponse(lib, p, lib.hexString(q[j].body.response)) {
      SameResponse(lib, q, p, root, j);
    }
  }

  /** Any two FDC answers accepted for a message have the same set of response bytes. */
  lemma FdcProvidersAgree(lib: Library, m: Message, r: FdcReply, s: FdcReply)
    requires CollisionFree(lib) && RootPins(lib)
    requires VerifyFdc(lib, m, r).Ok? && VerifyFdc(lib, m, s).Ok?
    ensures SameResponses(lib, VerifyFdc(lib, m, r).value, VerifyFdc(lib, m, s).value)
  {
    BackedFdcAgree(lib, VerifyFdc(lib, m, r).value, VerifyFdc(lib, m, s).value, m.body.root);
  }

  // ---- which round the accepted rows are tagged with ----

  ghost predicate TaggedFtso(p: FtsoPayload, r: int) {
    p.random.round == r && Tagged(p.feeds, r)
  }

  /** The leaves behind the relayed root were published for the message's own round. */
  ghost predicate HonestRoot(lib: Library, m: Message) {
    exists p :: Backed(lib, p, m.body.root) && TaggedFtso(p, m.round)
  }

  /** The round is hashed into every FTSO leaf, so a provider cannot move data to another round. */
  lemma FtsoRowsCarryTheRound(lib: Library, m: Message, reply: FtsoReply)
    requires CollisionFree(lib) && RootPins(lib) && HonestRoot(lib, m)
    requires VerifyFtso(lib, m, reply).Ok?
    ensures TaggedFtso(VerifyFtso(lib, m, reply).value, m.round)
  {
    var q := VerifyFtso(lib, m, reply).value;
    AcceptedIsBacked(lib, m, reply);
    var p :| Backed(lib, p, m.body.root) && TaggedFtso(p, m.round);
    SameRandom(lib, q, p, m.body.root);
    forall i | 0 <= i < |q.feeds| ensures q.feeds[i].round == m.round {
      var j := SameFeed(lib, q, p, m.body.root, i);
    }
  }

  /** The same attestations under other round tags. */
  function Retag(rows: FdcPayload, tags: seq<int>): FdcPayload
    requires |tags| == |rows|
  {
    if rows == [] then [] else [Row(tags[0], rows[0].body)] + Retag(rows[1..], tags[1..])
  }

  lemma {:induction false} RetagLeaves(lib: Library, rows: FdcPayload, tags: seq<int>)
    requires |tags| == |rows|
    ensures FdcLeaves(lib, Retag(rows, tags)) == FdcLeaves(lib, rows)
    ensures |Retag(rows, tags)| == |rows| && forall i :: 0 <= i < |rows| ==> Retag(rows, tags)[i].round == tags[i]
  {
    if rows != [] {
      RetagLeaves(lib, rows[1..], tags[1..]);
    }
  }

  /** No FDC leaf covers the round: an accepted answer stays accepted whatever rounds its rows claim. */
  lemma FdcRoundIsNotChecked(lib: Library, m: Message, rows: FdcPayload, tags: seq<int>)
    requires |tags| == |rows| && VerifyFdc(lib, m, FdcData(rows)).Ok?
    ensures VerifyFdc(lib, m, FdcData(Retag(rows, tags))) == Ok(Retag(rows, tags))
    ensures |Retag(rows, tags)| == |rows| && forall i :: 0 <= i < |rows| ==> Retag(rows, tags)[i].round == tags[i]
  {
    RetagLeaves(lib, rows, tags);
  }
}
