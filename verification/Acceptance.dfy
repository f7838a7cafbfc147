/**
 * Exactly which answers of a provider are accepted, said of the root that the Merkle tree gives for the leaves,
 * and what is then stored: processing/ftso_processing.py and processing/fdc_processing.py.
 */
module Acceptance {
  import opened Wrappers
  import opened Records
  import opened Hex
  import opened LeafEncoding
  import opened Providers
  import opened Agreement
  import opened Storage

  /** The text is that of the bytes in any letter case, with or without the prefix. */
  predicate IsTextOf(text: string, chain: Bytes) {
    Lower(text) == ToHex(chain) || Lower(text) == "0x" + ToHex(chain)
  }

  /** The tree over the leaves has a root, and it is the root on the chain. */
  predicate TreeHasRoot(lib: Library, leaves: seq<Bytes>, chain: Bytes) {
    lib.merkleRoot(leaves).Some? && IsTextOf(lib.merkleRoot(leaves).value, chain)
  }

  /** The leaf of the random, then the leaves of the feeds, in order. */
  ghost predicate AreFtsoLeaves(lib: Library, random: Row<Random>, feeds: seq<Row<Feed>>, leaves: seq<Bytes>) {
    && |leaves| == 1 + |feeds|
    && RandomHash(lib, random) == Some(leaves[0])
    && forall i :: 0 <= i < |feeds| ==> FeedHash(lib, feeds[i]) == Some(leaves[i + 1])
  }

  /** The hashes of the response bytes, in order. */
  ghost predicate AreFdcLeaves(lib: Library, rows: FdcPayload, leaves: seq<Bytes>) {
    && |leaves| == |rows|
    && forall i :: 0 <= i < |rows| ==>
         var response := lib.hexString(rows[i].body.response);
         response.Some? && leaves[i] == lib.keccak(response.value)
  }

  lemma RootComparison(text: string, chain: Bytes)
    ensures NormalRoot(text) == ToHex(chain) <==> IsTextOf(text, chain)
  {
    RootTextAccepted(text, chain);
    StoredRootFaithful(chain, chain);
  }

  lemma {:induction false} FeedLeavesAre(lib: Library, feeds: seq<Row<Feed>>, leaves: seq<Bytes>)
    ensures FeedHashes(lib, feeds) == Some(leaves) <==>
            |leaves| == |feeds| && forall i :: 0 <= i < |feeds| ==> FeedHash(lib, feeds[i]) == Some(leaves[i])
  {
    if feeds != [] && leaves != [] {
      FeedLeavesAre(lib, feeds[1..], leaves[1..]);
      assert leaves == [leaves[0]] + leaves[1..];
      if |leaves| == |feeds| && forall i :: 0 <= i < |feeds| ==> FeedHash(lib, feeds[i]) == Some(leaves[i]) {
        forall i | 0 <= i < |feeds| - 1 ensures FeedHash(lib, feeds[1..][i]) == Some(leaves[1..][i]) {
          assert feeds[1..][i] == feeds[i + 1] && leaves[1..][i] == leaves[i + 1];
        }
      }
      if FeedHashes(lib, feeds) == Some(leaves) {
        forall i | 0 <= i < |feeds| ensures FeedHash(lib, feeds[i]) == Some(leaves[i]) {
          if i > 0 { assert feeds[1..][i - 1] == feeds[i] && leaves[1..][i - 1] == leaves[i]; }
        }
      }
    }
  }

  lemma FtsoLeavesAre(lib: Library, random: Row<Random>, feeds: seq<Row<Feed>>, leaves: seq<Bytes>)
    ensures FtsoLeaves(lib, random, feeds) == Some(leaves) <==> AreFtsoLeaves(lib, random, feeds, leaves)
  {
    if leaves != [] {
      FeedLeavesAre(lib, feeds, leaves[1..]);
      assert leaves == [leaves[0]] + leaves[1..];
      if AreFtsoLeaves(lib, random, feeds, leaves) {
        forall i | 0 <= i < |feeds| ensures FeedHash(lib, feeds[i]) == Some(leaves[1..][i]) {
          assert leaves[1..][i] == leaves[i + 1];
        }
      }
      if FtsoLeaves(lib, random, feeds) == Some(leaves) {
        forall i | 0 <= i < |feeds| ensures FeedHash(lib, feeds[i]) == Some(leaves[i + 1]) {
          assert leaves[1..][i] == leaves[i + 1];
        }
      }
    }
  }

  lemma {:induction false} FdcLeavesAre(lib: Library, rows: FdcPayload, leaves: seq<Bytes>)
    ensures FdcLeaves(lib, rows) == Some(leaves) <==> AreFdcLeaves(lib, rows, leaves)
  {
    if rows != [] && leaves != [] {
      FdcLeavesAre(lib, rows[1..], leaves[1..]);
      assert leaves == [leaves[0]] + leaves[1..];
      if AreFdcLeaves(lib, rows, leaves) {
        forall i | 0 <= i < |rows| - 1
          ensures AttestationHash(lib, rows[1..][i]) == Some(leaves[1..][i])
        {
          assert rows[1..][i] == rows[i + 1] && leaves[1..][i] == leaves[i + 1];
        }
        assert AreFdcLeaves(lib, rows[1..], leaves[1..]);
      }
      if FdcLeaves(lib, rows) == Some(leaves) {
        assert AreFdcLeaves(lib, rows[1..], leaves[1..]);
        forall i | 0 <= i < |rows| ensures AttestationHash(lib, rows[i]) == Some(leaves[i]) {
          if i > 0 { assert rows[1..][i - 1] == rows[i] && leaves[1..][i - 1] == leaves[i]; }
        }
      }
    }
  }

  // ---- acceptance ----

  /** An FDC answer is accepted, as it is, exactly when its responses hash to leaves under the relayed root. */
  lemma FdcAcceptance(lib: Library, m: Message, reply: FdcReply, chain: Bytes)
    requires m.body.root == ToHex(chain)
    ensures VerifyFdc(lib, m, reply).Ok? <==>
            reply.FdcData? && exists leaves ::
              AreFdcLeaves(lib, reply.attestations, leaves) && TreeHasRoot(lib, leaves, chain)
    ensures VerifyFdc(lib, m, reply).Ok? ==> VerifyFdc(lib, m, reply).value == reply.attestations
  {
    if reply.FdcData? {
      forall leaves ensures FdcLeaves(lib, reply.attestations) == Some(leaves) <==>
                            AreFdcLeaves(lib, reply.attestations, leaves) {
        FdcLeavesAre(lib, reply.attestations, leaves);
      }
      forall text ensures NormalRoot(text) == ToHex(chain) <==> IsTextOf(text, chain) {
        RootComparison(text, chain);
      }
    }
  }

  /** The payload that an FTSO answer is read as. */
  function AsRead(reply: FtsoReply): FtsoPayload
    requires reply.FtsoData?
  {
    FtsoPayload(ReadRandom(reply.random), ReadFeeds(reply.medians))
  }

  /**
   * An FTSO answer is accepted exactly when the root it claims is the relayed one and its rows, as they are read,
   * hash to leaves under the relayed root.
   */
  lemma FtsoAcceptance(lib: Library, m: Message, reply: FtsoReply, chain: Bytes)
    requires m.body.root == ToHex(chain)
    ensures VerifyFtso(lib, m, reply).Ok? <==>
            && reply.FtsoData? && IsTextOf(reply.root, chain)
            && exists leaves ::
                 && AreFtsoLeaves(lib, AsRead(reply).random, AsRead(reply).feeds, leaves)
                 && TreeHasRoot(lib, leaves, chain)
    ensures VerifyFtso(lib, m, reply).Ok? ==> VerifyFtso(lib, m, reply).value == AsRead(reply)
  {
    if reply.FtsoData? {
      var p := AsRead(reply);
      forall leaves ensures FtsoLeaves(lib, p.random, p.feeds) == Some(leaves) <==>
                            AreFtsoLeaves(lib, p.random, p.feeds, leaves) {
        FtsoLeavesAre(lib, p.random, p.feeds, leaves);
      }
      forall text ensures NormalRoot(text) == ToHex(chain) <==> IsTextOf(text, chain) {
        RootComparison(text, chain);
      }
    }
  }

  /** An answer that is accepted for two messages shows that their roots are the same. */
  lemma AcceptanceFixesRoot(lib: Library, m: Message, n: Message)
    ensures forall r :: VerifyFtso(lib, m, r).Ok? && VerifyFtso(lib, n, r).Ok? ==> m.body.root == n.body.root
    ensures forall r :: VerifyFdc(lib, m, r).Ok? && VerifyFdc(lib, n, r).Ok? ==> m.body.root == n.body.root
  {
  }

  // ---- the rows as they are read ----

  /** The text of a stored column: small letters, no prefix. */
  ghost predicate StoredAs(text: string, stored: string) {
    && |stored| == |Bare(text)|
    && forall i :: 0 <= i < |stored| ==>
         stored[i] as int ==
         var c := Bare(text)[i] as int; if 'A' as int <= c <= 'Z' as int then c + 32 else c
  }

  lemma NormalStored(text: string)
    ensures StoredAs(text, UnPrefix0x(Lower(text)))
    ensures forall b :: ReadHex(Bare(text)) == Some(b) ==> UnPrefix0x(Lower(text)) == ToHex(b)
  {
    BareLower(text);
    LowerAt(Bare(text));
    forall b | ReadHex(Bare(text)) == Some(b) ensures UnPrefix0x(Lower(text)) == ToHex(b) {
      NormalText(text, b);
    }
  }

  /**
   * What is read from an answer: every median in order, with its numbers; the id and the random value in small
   * letters without prefix, so that a text of hex digits becomes the hex text of the bytes it stands for.
   */
  lemma RowsAsRead(reply: FtsoReply)
    requires reply.FtsoData?
    ensures var r := AsRead(reply).random;
            && r.round == reply.random.round && r.body.secure == reply.random.body.secure
            && StoredAs(reply.random.body.value, r.body.value)
            && forall b :: ReadHex(Bare(reply.random.body.value)) == Some(b) ==> r.body.value == ToHex(b)
    ensures |AsRead(reply).feeds| == |reply.medians|
    ensures forall i :: 0 <= i < |reply.medians| ==>
              var f, given := AsRead(reply).feeds[i], reply.medians[i];
              && f.round == given.round && f.body.value == given.body.value
              && f.body.turnout == given.body.turnout && f.body.decimals == given.body.decimals
              && StoredAs(given.body.id, f.body.id)
              && forall b :: ReadHex(Bare(given.body.id)) == Some(b) ==> f.body.id == ToHex(b)
  {
    NormalStored(reply.random.body.value);
    forall i | 0 <= i < |reply.medians| {
      NormalStored(reply.medians[i].body.id);
    }
  }

  // ---- accepted data and the columns ----

  /** The relayed message fits its columns: three integers, and at most 64 characters of root. */
  predicate MessageFits(m: Message) {
    && -2_147_483_648 <= m.body.block <= 2_147_483_647
    && 0 <= m.body.protocol <= 32_767
    && 0 <= m.round <= 2_147_483_647
    && |m.body.root| <= 64
  }

  lemma RandomFitsColumns(lib: Library, row: Row<Random>)
    requires RandomHash(lib, row).Some?
    ensures FitsRandom(row) <==> |row.body.value| <= 64
  {
    RandomHasLeaf(lib, row);
  }

  lemma FeedFitsColumns(lib: Library, row: Row<Feed>)
    requires FeedHash(lib, row).Some?
    ensures FitsFeed(row) <==> |row.body.id| <= 42
  {
    FeedHasLeaf(lib, row);
  }

  /**
   * The numbers of rows that have leaves always fit their columns, which are wider than the ABI types. So an
   * accepted FTSO answer is stored unless the round is taken, the message does not fit, or a text is too long.
   */
  lemma AcceptedFtsoStored(lib: Library, db: Tables, m: Message, reply: FtsoReply)
    requires VerifyFtso(lib, m, reply).Ok?
    ensures var p := VerifyFtso(lib, m, reply).value;
            StoreFtso(db, m, p).Some? <==>
            && Relayed(db, m.body.protocol, m.round) == [] && MessageFits(m)
            && |p.random.body.value| <= 64
            && forall i :: 0 <= i < |p.feeds| ==> |p.feeds[i].body.id| <= 42
  {
    var p := VerifyFtso(lib, m, reply).value;
    AcceptedIsBacked(lib, m, reply);
    LeavesOf(lib, p);
    RandomFitsColumns(lib, p.random);
    forall i | 0 <= i < |p.feeds| ensures FitsFeed(p.feeds[i]) <==> |p.feeds[i].body.id| <= 42 {
      FeedFitsColumns(lib, p.feeds[i]);
    }
  }

  /** No FDC leaf covers a number, so attestations fit only if the rounds they claim do. */
  lemma FdcStoredExactly(db: Tables, m: Message, p: FdcPayload)
    ensures StoreFdc(db, m, p).Some? <==>
            && Relayed(db, m.body.protocol, m.round) == [] && MessageFits(m)
            && forall i :: 0 <= i < |p| ==> 0 <= p[i].round <= 9_223_372_036_854_775_807
  {
  }
}
