/**
 * How data is accepted: each processor asks its providers in order and takes the first answer whose Merkle
 * root matches the relayed message (processing/processing.py, ftso_processing.py and fdc_processing.py).
 */
module Providers {
  import opened Wrappers
  import opened Records
  import opened Hex
  import opened LeafEncoding

  const FTSO := 100
  const FDC := 200

  datatype Failure = Unavailable | ChainMismatch | BadLeaf | TreeMismatch

  datatype FetchError = WrongProtocol | AllFailed(errors: seq<Failure>)

  /** What a client's `get_data` gives; `Down` stands for every way in which it raises. */
  datatype FtsoReply = FtsoDown | FtsoData(root: string, random: Row<Random>, medians: seq<Row<Feed>>)

  datatype FdcReply = FdcDown | FdcData(attestations: seq<Row<Attestation>>)

  datatype FtsoPayload = FtsoPayload(random: Row<Random>, feeds: seq<Row<Feed>>)

  type FdcPayload = seq<Row<Attestation>>

  function ReadRandom(r: Row<Random>): Row<Random> {
    r.(body := r.body.(value := UnPrefix0x(Lower(r.body.value))))
  }

  function ReadFeeds(medians: seq<Row<Feed>>): seq<Row<Feed>> {
    seq(|medians|, i requires 0 <= i < |medians| =>
      medians[i].(body := medians[i].body.(id := UnPrefix0x(Lower(medians[i].body.id)))))
  }

  function FeedHashes(lib: Library, feeds: seq<Row<Feed>>): Option<seq<Bytes>> {
    if feeds == [] then Some([])
    else
      match (FeedHash(lib, feeds[0]), FeedHashes(lib, feeds[1..]))
      case (Some(h), Some(rest)) => Some([h] + rest)
      case _ => None
  }

  function FtsoLeaves(lib: Library, random: Row<Random>, feeds: seq<Row<Feed>>): Option<seq<Bytes>> {
    match (RandomHash(lib, random), FeedHashes(lib, feeds))
    case (Some(h), Some(rest)) => Some([h] + rest)
    case _ => None
  }

  function AttestationHash(lib: Library, row: Row<Attestation>): Option<Bytes> {
    Hashed(lib, lib.hexString(row.body.response))
  }

  function FdcLeaves(lib: Library, rows: seq<Row<Attestation>>): Option<seq<Bytes>> {
    if rows == [] then Some([])
    else
      match (AttestationHash(lib, rows[0]), FdcLeaves(lib, rows[1..]))
      case (Some(h), Some(rest)) => Some([h] + rest)
      case _ => None
  }

  predicate HasRoot(lib: Library, leaves: seq<Bytes>, root: string) {
    lib.merkleRoot(leaves).Some? && NormalRoot(lib.merkleRoot(leaves).value) == root
  }

  function VerifyFtso(lib: Library, m: Message, reply: FtsoReply): Result<FtsoPayload, Failure> {
    match reply
    case FtsoDown => Err(Unavailable)
    case FtsoData(root, random, medians) =>
      if NormalRoot(root) != m.body.root then Err(ChainMismatch)
      else
        var payload := FtsoPayload(ReadRandom(random), ReadFeeds(medians));
        match FtsoLeaves(lib, payload.random, payload.feeds)
        case None => Err(BadLeaf)
        case Some(leaves) => if HasRoot(lib, leaves, NormalRoot(root)) then Ok(payload) else Err(TreeMismatch)
  }

  function VerifyFdc(lib: Library, m: Message, reply: FdcReply): Result<FdcPayload, Failure> {
    match reply
    case FdcDown => Err(Unavailable)
    case FdcData(attestations) =>
      match FdcLeaves(lib, attestations)
      case None => Err(BadLeaf)
      case Some(leaves) => if HasRoot(lib, leaves, m.body.root) then Ok(attestations) else Err(TreeMismatch)
  }

  // ---- the fallback over providers ----

  function TryAll<C, D>(clients: seq<C>, single: C -> Result<D, Failure>, errors: seq<Failure>):
    Result<D, FetchError>
  {
    if clients == [] then Err(AllFailed(errors))
    else
      match single(clients[0])
      case Ok(data) => Ok(data)
      case Err(e) => TryAll(clients[1..], single, errors + [e])
  }

  function Fetch<C, D>(protocol: int, m: Message, clients: seq<C>, single: C -> Result<D, Failure>):
    Result<D, FetchError>
  {
    if m.body.protocol != protocol then Err(WrongProtocol) else TryAll(clients, single, [])
  }

  /** `fetch_merkle_tree`, for either processor. */
  method FetchMerkleTree<C, D>(protocol: int, m: Message, clients: seq<C>, single: C -> Result<D, Failure>)
    returns (r: Result<D, FetchError>)
    ensures r == Fetch(protocol, m, clients, single)
  {
    if m.body.protocol != protocol {
      return Err(WrongProtocol);
    }
    var errors := [];
    for i := 0 to |clients|
      invariant TryAll(clients, single, []) == TryAll(clients[i..], single, errors)
    {
      assert clients[i..][1..] == clients[i + 1..];
      match single(clients[i]) {
        case Ok(data) => return Ok(data);
        case Err(e) => errors := errors + [e];
      }
    }
    return Err(AllFailed(errors));
  }

  /** Client `i` accepts `data`, and every client before it refuses. */
  ghost predicate FirstToAccept<C, D>(clients: seq<C>, single: C -> Result<D, Failure>, i: nat, data: D) {
    && i < |clients|
    && single(clients[i]) == Ok(data)
    && forall j :: 0 <= j < i ==> single(clients[j]).Err?
  }

  lemma {:induction false} TryAllEarliest<C, D>(
    clients: seq<C>, single: C -> Result<D, Failure>, errors: seq<Failure>)
    ensures match TryAll(clients, single, errors)
            case Ok(data) => exists i: nat :: FirstToAccept(clients, single, i, data)
            case Err(e) =>
              && (forall i :: 0 <= i < |clients| ==> single(clients[i]).Err?)
              && e.AllFailed? && |e.errors| == |errors| + |clients|
              && e.errors[..|errors|] == errors
              && (forall i :: 0 <= i < |clients| ==> single(clients[i]) == Err(e.errors[|errors| + i]))
  {
    if clients != [] && single(clients[0]).Ok? {
      assert FirstToAccept(clients, single, 0, single(clients[0]).value);
    } else if clients != [] {
      var more := errors + [single(clients[0]).error];
      TryAllEarliest(clients[1..], single, more);
      match TryAll(clients[1..], single, more) {
        case Ok(data) =>
          var i: nat :| FirstToAccept(clients[1..], single, i, data);
          forall j | 0 <= j < i + 1 ensures single(clients[j]).Err? {
            if j > 0 { assert clients[1..][j - 1] == clients[j]; }
          }
          assert FirstToAccept(clients, single, i + 1, data);
        case Err(e) =>
          forall i | 0 <= i < |clients| ensures single(clients[i]) == Err(e.errors[|errors| + i]) {
            if i > 0 {
              assert clients[1..][i - 1] == clients[i];
            } else {
              assert e.errors[..|more|][|errors|] == more[|errors|];
            }
          }
          assert e.errors[..|errors|] == e.errors[..|more|][..|errors|] == errors;
      }
    }
  }

  /**
   * A message of another protocol is refused. Otherwise the answer is the earliest verifying provider's data;
   * there is none exactly when every provider fails, and then every provider's error is reported in order.
   */
  lemma FetchEarliest<C, D>(protocol: int, m: Message, clients: seq<C>, single: C -> Result<D, Failure>)
    ensures if m.body.protocol != protocol then Fetch(protocol, m, clients, single) == Err(WrongProtocol)
            else
              match Fetch(protocol, m, clients, single)
              case Ok(data) => exists i: nat :: FirstToAccept(clients, single, i, data)
              case Err(e) =>
                && e.AllFailed? && |e.errors| == |clients|
                && forall i :: 0 <= i < |clients| ==> single(clients[i]) == Err(e.errors[i])
  {
    TryAllEarliest(clients, single, []);
  }
}
