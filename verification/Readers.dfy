/**
 * What the readers see: the latest rounds of fsp/views.py, and the Merkle tree that ftso/views.py rebuilds
 * from the stored rows.
 */
module Readers {
  import opened Wrappers
  import opened Records
  import opened Hex
  import opened LeafEncoding
  import opened Providers
  import opened Agreement
  import opened Acceptance
  import opened Storage
  import opened Pipeline
  import opened Completeness

  /** The root of a tree does not depend on the order of its leaves. */
  ghost predicate OrderFree(lib: Library) {
    forall a, b :: multiset(a) == multiset(b) ==> lib.merkleRoot(a) == lib.merkleRoot(b)
  }

  /**
   * The leaves of `get_merkle_tree_for_round`, when the unordered query returns the feeds as `order`; `None`
   * when it raises.
   */
  function RoundLeaves(lib: Library, db: Tables, r: int, order: seq<Row<Feed>>): Option<seq<Bytes>> {
    var randoms := RowsOf(db.randoms, r);
    if randoms == [] then None else FtsoLeaves(lib, randoms[0], order)
  }

  /** The rebuilt tree has the leaf of the first stored random of the round, then those of the feeds as they come. */
  lemma RoundLeavesAre(lib: Library, db: Tables, r: int, order: seq<Row<Feed>>, leaves: seq<Bytes>)
    ensures RoundLeaves(lib, db, r, order) == Some(leaves) <==>
            RowsOf(db.randoms, r) != [] && AreFtsoLeaves(lib, RowsOf(db.randoms, r)[0], order, leaves)
  {
    if RowsOf(db.randoms, r) != [] {
      FtsoLeavesAre(lib, RowsOf(db.randoms, r)[0], order, leaves);
    }
  }

  lemma PermutationWithout(a: seq<Row<Feed>>, b: seq<Row<Feed>>) returns (j: nat)
    requires multiset(a) == multiset(b) && a != []
    ensures j < |b| && b[j] == a[0] && multiset(a[1..]) == multiset(b[..j] + b[j + 1..])
  {
    assert a[0] in multiset(b);
    j :| 0 <= j < |b| && b[j] == a[0];
    assert a == [a[0]] + a[1..];
    assert b == b[..j] + ([b[j]] + b[j + 1..]);
    calc {
      multiset(a[1..]);
      multiset(a) - multiset{a[0]};
      multiset(b) - multiset{b[j]};
      multiset(b[..j]) + multiset(b[j + 1..]);
      multiset(b[..j] + b[j + 1..]);
    }
  }

  lemma HashesCons(lib: Library, rows: seq<Row<Feed>>)
    requires rows != []
    ensures FeedHashes(lib, rows).Some? <==> FeedHash(lib, rows[0]).Some? && FeedHashes(lib, rows[1..]).Some?
    ensures FeedHashes(lib, rows).Some? ==>
              multiset(FeedHashes(lib, rows).value) ==
              multiset{FeedHash(lib, rows[0]).value} + multiset(FeedHashes(lib, rows[1..]).value)
  {
    if FeedHashes(lib, rows).Some? {
      assert FeedHashes(lib, rows).value == [FeedHash(lib, rows[0]).value] + FeedHashes(lib, rows[1..]).value;
    }
  }

  /** The leaf of one feed and those of the others, when `j` is taken out of `b`. */
  ghost predicate Splits(lib: Library, b: seq<Row<Feed>>, j: nat, rest: seq<Row<Feed>>)
    requires j < |b|
  {
    && FeedHashes(lib, b).Some? && FeedHash(lib, b[j]).Some? && FeedHashes(lib, rest).Some?
    && multiset(FeedHashes(lib, b).value)
       == multiset{FeedHash(lib, b[j]).value} + multiset(FeedHashes(lib, rest).value)
  }

  lemma SplitsBehind(lib: Library, b: seq<Row<Feed>>, j: nat, rest: seq<Row<Feed>>)
    requires 0 < j < |b| && FeedHashes(lib, b).Some? && rest != [] && rest[0] == b[0]
    requires Splits(lib, b[1..], j - 1, rest[1..])
    ensures Splits(lib, b, j, rest)
  {
    HashesCons(lib, b);
    HashesCons(lib, rest);
    assert b[1..][j - 1] == b[j];
  }

  lemma {:induction false} HashesWithout(lib: Library, b: seq<Row<Feed>>, j: nat)
    requires j < |b| && FeedHashes(lib, b).Some?
    ensures Splits(lib, b, j, b[..j] + b[j + 1..])
  {
    var rest := b[..j] + b[j + 1..];
    HashesCons(lib, b);
    if j == 0 {
      assert rest == b[1..];
    } else {
      HashesWithout(lib, b[1..], j - 1);
      assert rest[1..] == b[1..][..j - 1] + b[1..][j..];
      SplitsBehind(lib, b, j, rest);
    }
  }

  lemma {:induction false} HashesOfPermutation(lib: Library, a: seq<Row<Feed>>, b: seq<Row<Feed>>)
    requires multiset(a) == multiset(b) && FeedHashes(lib, b).Some?
    ensures FeedHashes(lib, a).Some?
    ensures multiset(FeedHashes(lib, a).value) == multiset(FeedHashes(lib, b).value)
  {
    if a == [] {
      assert |multiset(b)| == |b|;
    } else {
      var j := PermutationWithout(a, b);
      HashesWithout(lib, b, j);
      HashesOfPermutation(lib, a[1..], b[..j] + b[j + 1..]);
      HashesCons(lib, a);
    }
  }

  lemma PermutedLeaves(lib: Library, random: Row<Random>, order: seq<Row<Feed>>, feeds: seq<Row<Feed>>, root: string)
    requires OrderFree(lib) && multiset(order) == multiset(feeds)
    requires Backed(lib, FtsoPayload(random, feeds), root)
    ensures var leaves := FtsoLeaves(lib, random, order);
            && leaves.Some? && lib.merkleRoot(leaves.value).Some?
            && NormalRoot(lib.merkleRoot(leaves.value).value) == root
            && forall i :: 0 <= i < |feeds| ==>
                 FeedHash(lib, feeds[i]).Some? && FeedHash(lib, feeds[i]).value in leaves.value
  {
    HashesOfPermutation(lib, order, feeds);
    var a, b := FeedHashes(lib, order).value, FeedHashes(lib, feeds).value;
    var h := RandomHash(lib, random).value;
    assert multiset([h] + a) == multiset([h] + b);
    FeedHashesAt(lib, feeds);
    forall i | 0 <= i < |feeds| ensures FeedHash(lib, feeds[i]).Some? && FeedHash(lib, feeds[i]).value in [h] + a {
      assert b[i] in multiset(b);
      assert b[i] in a;
    }
  }

  /**
   * In every reachable state the tree rebuilt for a round exists exactly when the round has a message, and
   * then it has the relayed root and a leaf for every stored feed, in whatever order the rows come.
   */
  lemma RebuiltTreeHasRelayedRoot(
    lib: Library, setup: Setup, chain: iset<Message>, actions: seq<Action>, r: int, order: seq<Row<Feed>>)
    requires OrderFree(lib) && HonestFtso(lib, chain, actions)
    requires multiset(order) == multiset(RowsOf(Reach(lib, setup, actions).db.feeds, r))
    ensures var db := Reach(lib, setup, actions).db;
            var leaves := RoundLeaves(lib, db, r, order);
            && (leaves.Some? <==> Relayed(db, FTSO, r) != [])
            && (leaves.Some? ==>
                  lib.merkleRoot(leaves.value).Some?
                  && NormalRoot(lib.merkleRoot(leaves.value).value) == Relayed(db, FTSO, r)[0].body.root
                  && forall i :: 0 <= i < |RowsOf(db.feeds, r)| ==>
                       FeedHash(lib, RowsOf(db.feeds, r)[i]).Some?
                       && FeedHash(lib, RowsOf(db.feeds, r)[i]).value in leaves.value)
  {
    var db := Reach(lib, setup, actions).db;
    FtsoRoundsWhole(lib, setup, chain, actions, r);
    if Relayed(db, FTSO, r) != [] {
      PermutedLeaves(lib, RowsOf(db.randoms, r)[0], order, RowsOf(db.feeds, r), Relayed(db, FTSO, r)[0].body.root);
    }
  }

  // ---- latest rounds ----

  function MaxRound<T>(rows: seq<Row<T>>): Option<int> {
    if rows == [] then None
    else
      var rest := MaxRound(rows[1..]);
      if rest.Some? && rest.value >= rows[0].round then rest else Some(rows[0].round)
  }

  lemma {:induction false} MaxRoundIsMax<T>(rows: seq<Row<T>>)
    ensures match MaxRound(rows)
            case None => rows == []
            case Some(r) =>
              && (forall i :: 0 <= i < |rows| ==> rows[i].round <= r)
              && exists i :: 0 <= i < |rows| && rows[i].round == r
  {
    if rows != [] {
      MaxRoundIsMax(rows[1..]);
    }
  }

  /** `-1` twice when the protocol is not configured or has no message. */
  function LatestEntry(messages: seq<Message>, protocol: int, configured: bool, start: int -> int): (int, int) {
    var latest := MaxRound(OfProtocol(messages, protocol));
    if configured && latest.Some? then (latest.value, start(latest.value)) else (-1, -1)
  }

  /** The `status` view; `start` gives the starting time of a voting round. */
  method Status(messages: seq<Message>, ftso: bool, fdc: bool, now: int, start: int -> int)
    returns (data: map<string, (int, int)>)
    ensures data.Keys == {"active", "latest_ftso", "latest_fdc"}
    ensures data["active"] == (now, start(now))
    ensures data["latest_ftso"] == LatestEntry(messages, FTSO, ftso, start)
    ensures data["latest_fdc"] == LatestEntry(messages, FDC, fdc, start)
  {
    data := map["active" := (now, start(now)), "latest_ftso" := (-1, -1), "latest_fdc" := (-1, -1)];
    var latestFtso, latestFdc := None, None;
    if ftso {
      latestFtso := MaxRound(OfProtocol(messages, FTSO));
    }
    if fdc {
      latestFdc := MaxRound(OfProtocol(messages, FDC));
    }
    if latestFtso.Some? {
      data := data["latest_ftso" := (latestFtso.value, start(latestFtso.value))];
    }
    if latestFdc.Some? {
      data := data["latest_fdc" := (latestFdc.value, start(latestFdc.value))];
    }
  }

  /** The latest round of a protocol is the latest with a relayed message. */
  lemma LatestIsRelayed(db: Tables, protocol: int)
    ensures match MaxRound(OfProtocol(db.messages, protocol))
            case None => forall r :: Relayed(db, protocol, r) == []
            case Some(r) => Relayed(db, protocol, r) != [] && forall s :: Relayed(db, protocol, s) != [] ==> s <= r
  {
    var rows := OfProtocol(db.messages, protocol);
    MaxRoundIsMax(rows);
    forall s | Relayed(db, protocol, s) != []
      ensures Relayed(db, protocol, s)[0] in rows && Relayed(db, protocol, s)[0].round == s
    {
      var m := Relayed(db, protocol, s)[0];
      OfProtocolMembers(RowsOf(db.messages, s), protocol, m);
      RowsOfMembers(db.messages, s, m);
      OfProtocolMembers(db.messages, protocol, m);
    }
    if rows != [] {
      var r := MaxRound(rows).value;
      var i :| 0 <= i < |rows| && rows[i].round == r;
      OfProtocolMembers(db.messages, protocol, rows[i]);
      RowsOfMembers(db.messages, r, rows[i]);
      OfProtocolMembers(RowsOf(db.messages, r), protocol, rows[i]);
    }
  }

  /**
   * An entry of the status report: `-1` twice exactly when the protocol is not configured or no message of it
   * is stored, and otherwise the greatest round with a message, and its start.
   */
  ghost predicate Reports(db: Tables, protocol: int, configured: bool, start: int -> int, entry: (int, int)) {
    var silent := !configured || forall r :: Relayed(db, protocol, r) == [];
    && (entry.0 == -1 <==> silent)
    && (silent ==> entry.1 == -1)
    && (!silent ==>
          && entry.1 == start(entry.0)
          && Relayed(db, protocol, entry.0) != []
          && forall r :: Relayed(db, protocol, r) != [] ==> r <= entry.0)
  }

  /** The stored messages fit the schema, so no round is negative and `-1` is never a round. */
  lemma RoundsAreNatural(lib: Library, setup: Setup, actions: seq<Action>, protocol: int, r: int)
    requires Relayed(Reach(lib, setup, actions).db, protocol, r) != []
    ensures r >= 0
  {
    ReachableInvariant(lib, setup, actions);
    var sys := Reach(lib, setup, actions);
    assert Relayed(sys.db, protocol, r) == Expected(sys.archive, protocol, r);
  }

  /** In every reachable state, with no assumption, the entries of the report are exact. */
  lemma StatusExact(
    lib: Library, setup: Setup, actions: seq<Action>, protocol: int, configured: bool, start: int -> int)
    ensures var db := Reach(lib, setup, actions).db;
            Reports(db, protocol, configured, start, LatestEntry(db.messages, protocol, configured, start))
  {
    var db := Reach(lib, setup, actions).db;
    LatestIsRelayed(db, protocol);
    var latest := MaxRound(OfProtocol(db.messages, protocol));
    if latest.Some? {
      RoundsAreNatural(lib, setup, actions, protocol, latest.value);
    }
  }

  /** In every reachable state the FTSO round that `status` reports has complete, verified data. */
  lemma FtsoStatusComplete(
    lib: Library, setup: Setup, chain: iset<Message>, actions: seq<Action>, configured: bool, start: int -> int)
    requires HonestFtso(lib, chain, actions)
    ensures var db := Reach(lib, setup, actions).db;
            var round := LatestEntry(db.messages, FTSO, configured, start).0;
            round != -1 ==> FtsoRound(db, round).messages != [] && FtsoWhole(lib, FtsoRound(db, round))
  {
    var db := Reach(lib, setup, actions).db;
    StatusExact(lib, setup, actions, FTSO, configured, start);
    FtsoRoundsWhole(lib, setup, chain, actions, LatestEntry(db.messages, FTSO, configured, start).0);
  }

  lemma FdcStatusComplete(
    lib: Library, setup: Setup, actions: seq<Action>, configured: bool, start: int -> int)
    requires lib.merkleRoot([]).None? && FdcStoresTagged(lib, setup, actions)
    ensures var db := Reach(lib, setup, actions).db;
            var round := LatestEntry(db.messages, FDC, configured, start).0;
            round != -1 ==> FdcRound(db, round).messages != [] && FdcWhole(lib, FdcRound(db, round))
  {
    var db := Reach(lib, setup, actions).db;
    StatusExact(lib, setup, actions, FDC, configured, start);
    FdcRoundsWhole(lib, setup, actions, LatestEntry(db.messages, FDC, configured, start).0);
  }

  /** `get_requested_round_id` */
  function RequestedRound(db: Tables, query: Option<int>): Option<int> {
    if query.Some? then query else MaxRound(db.feeds)
  }

  /** A query is taken as it is; its tree exists exactly when the round has a message. */
  lemma QueriedRound(lib: Library, setup: Setup, chain: iset<Message>, actions: seq<Action>, query: int)
    requires HonestFtso(lib, chain, actions)
    ensures var db := Reach(lib, setup, actions).db;
            match RequestedRound(db, Some(query))
            case None => false
            case Some(r) =>
              r == query && (RoundLeaves(lib, db, r, RowsOf(db.feeds, r)).Some? <==> Relayed(db, FTSO, query) != [])
  {
    FtsoRoundsWhole(lib, setup, chain, actions, query);
  }

  /**
   * Without a query the requested round is one whose tree exists; it is the round that `status` reports
   * exactly when that round has a feed.
   */
  lemma RequestedRoundHasTree(lib: Library, setup: Setup, chain: iset<Message>, actions: seq<Action>)
    requires HonestFtso(lib, chain, actions)
    ensures var db := Reach(lib, setup, actions).db;
            var latest := MaxRound(OfProtocol(db.messages, FTSO));
            match RequestedRound(db, None)
            case None => forall r :: RowsOf(db.feeds, r) == []
            case Some(r) =>
              && RoundLeaves(lib, db, r, RowsOf(db.feeds, r)).Some?
              && latest.Some? && r <= latest.value
              && (r == latest.value <==> RowsOf(db.feeds, latest.value) != [])
  {
    var db := Reach(lib, setup, actions).db;
    MaxRoundIsMax(db.feeds);
    LatestIsRelayed(db, FTSO);
    if db.feeds != [] {
      var r := MaxRound(db.feeds).value;
      var i :| 0 <= i < |db.feeds| && db.feeds[i].round == r;
      RowsOfMembers(db.feeds, r, db.feeds[i]);
      FtsoRoundsWhole(lib, setup, chain, actions, r);
      var latest := MaxRound(OfProtocol(db.messages, FTSO)).value;
      if RowsOf(db.feeds, latest) != [] {
        RowsOfMembers(db.feeds, latest, RowsOf(db.feeds, latest)[0]);
      }
    }
  }
}
