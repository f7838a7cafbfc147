/**
 * The Merkle leaves of ftso/models.py: the ABI encoding of a static struct, hashed. The encoding follows
 * "Formal Specification of the Encoding" in the Solidity Contract ABI Specification.
 */
module LeafEncoding {
  import opened Wrappers
  import opened Records

  /**
   * Library code that the program calls: `bytes.fromhex`, `int(text, 16)`, the byte reading of a hex string
   * by `keccak(hexstr=...)`, the hash itself, and the root of a Merkle tree over a list of leaf hashes.
   * `None` stands for a raised exception, or for a tree without a root.
   */
  datatype Library = Library(
    fromHex: string -> Option<Bytes>,
    parseHex: string -> Option<int>,
    hexString: string -> Option<Bytes>,
    keccak: Bytes -> Bytes,
    merkleRoot: seq<Bytes> -> Option<string>)

  /** Sizes are in bytes: `UInt(4)` is uint32. */
  datatype AbiType = UInt(size: nat) | SInt(size: nat) | FixedBytes(size: nat) | Bool

  datatype AbiValue = Num(n: int) | Raw(bytes: Bytes) | Flag(b: bool)

  datatype Component = Component(name: string, ty: AbiType)

  /** The number of bytes of a word. */
  const WORD := 32

  predicate WellFormed(w: nat, t: AbiType) {
    if t.Bool? then 1 <= w else 1 <= t.size <= w
  }

  // ---- one word ----

  function Pow256(k: nat): (p: int)
    ensures p >= 1
  {
    if k == 0 then 1 else 256 * Pow256(k - 1)
  }

  /** `n` as `size` bytes, most significant first. */
  function ToBytes(n: nat, size: nat): Bytes {
    if size == 0 then [] else ToBytes(n / 256, size - 1) + [n % 256]
  }

  function FromBytes(b: Bytes): nat {
    if b == [] then 0 else FromBytes(b[..|b| - 1]) * 256 + b[|b| - 1]
  }

  function Zeros(k: nat): Bytes {
    seq(k, _ => 0)
  }

  lemma {:induction false} PowMonotone(j: nat, k: nat)
    requires j <= k
    ensures 1 <= Pow256(j) <= Pow256(k)
    decreases k
  {
    if j < k {
      PowMonotone(j, k - 1);
    } else if j > 0 {
      PowMonotone(j - 1, j - 1);
    }
  }

  function EncodeOne(w: nat, t: AbiType, v: AbiValue): Option<Bytes>
    requires WellFormed(w, t)
  {
    match (t, v)
    case (UInt(k), Num(n)) => if 0 <= n < Pow256(k) then Some(ToBytes(n, w)) else None
    case (SInt(k), Num(n)) =>
      PowMonotone(k, w);
      if -Pow256(k) <= 2 * n < Pow256(k) then Some(ToBytes(if n < 0 then n + Pow256(w) else n, w)) else None
    case (FixedBytes(k), Raw(b)) => if |b| <= k then Some(b + Zeros(w - |b|)) else None
    case (Bool, Flag(b)) => Some(ToBytes(if b then 1 else 0, w))
    case _ => None
  }

  function DecodeOne(w: nat, t: AbiType, word: Bytes): AbiValue
    requires WellFormed(w, t) && |word| == w
  {
    var n := FromBytes(word);
    match t
    case UInt(_) => Num(n)
    case SInt(_) => Num(if 2 * n < Pow256(w) then n else n - Pow256(w))
    case FixedBytes(k) => Raw(word[..k])
    case Bool => Flag(n == 1)
  }

  /** What a value means once encoded: a byte string is read with its zero padding. */
  function Meaning(t: AbiType, v: AbiValue): AbiValue {
    match (t, v)
    case (FixedBytes(k), Raw(b)) => if |b| <= k then Raw(b + Zeros(k - |b|)) else v
    case _ => v
  }

  lemma {:induction false} BytesRoundTrip(n: nat, size: nat)
    requires n < Pow256(size)
    ensures |ToBytes(n, size)| == size && FromBytes(ToBytes(n, size)) == n
  {
    if size > 0 {
      BytesRoundTrip(n / 256, size - 1);
      var b := ToBytes(n, size);
      assert b[..|b| - 1] == ToBytes(n / 256, size - 1);
    }
  }

  lemma SignedRoundTrip(w: nat, n: int, k: nat)
    requires 1 <= k <= w && -Pow256(k) <= 2 * n < Pow256(k)
    ensures var word := EncodeOne(w, SInt(k), Num(n));
            word.Some? && |word.value| == w && DecodeOne(w, SInt(k), word.value) == Num(n)
  {
    PowMonotone(k, w);
    BytesRoundTrip(if n < 0 then n + Pow256(w) else n, w);
  }

  lemma WordRoundTrip(w: nat, t: AbiType, v: AbiValue)
    requires WellFormed(w, t) && EncodeOne(w, t, v).Some?
    ensures |EncodeOne(w, t, v).value| == w
    ensures DecodeOne(w, t, EncodeOne(w, t, v).value) == Meaning(t, v)
  {
    PowMonotone(1, w);
    match (t, v) {
      case (UInt(k), Num(n)) =>
        PowMonotone(k, w);
        BytesRoundTrip(n, w);
      case (SInt(k), Num(n)) =>
        SignedRoundTrip(w, n, k);
      case (FixedBytes(k), Raw(b)) =>
        assert (b + Zeros(w - |b|))[..k] == b + Zeros(k - |b|);
      case (Bool, Flag(b)) =>
        BytesRoundTrip(if b then 1 else 0, w);
    }
  }

  // ---- the word as a number, apart from the decoder ----

  lemma {:induction false} NumberOfPadded(b: Bytes, k: nat)
    ensures FromBytes(b + Zeros(k)) == FromBytes(b) * Pow256(k)
  {
    if k == 0 {
      assert b + Zeros(0) == b;
    } else {
      var padded := b + Zeros(k);
      assert padded[..|padded| - 1] == b + Zeros(k - 1);
      NumberOfPadded(b, k - 1);
    }
  }

  lemma {:induction false} NumberBound(b: Bytes)
    ensures FromBytes(b) < Pow256(|b|)
  {
    if b != [] {
      NumberBound(b[..|b| - 1]);
    }
  }

  /** Words of one width are equal when their numbers are. */
  lemma {:induction false} NumberPinsBytes(a: Bytes, b: Bytes)
    requires |a| == |b| && FromBytes(a) == FromBytes(b)
    ensures a == b
  {
    if a != [] {
      var n := |a| - 1;
      assert FromBytes(a) == FromBytes(a[..n]) * 256 + a[n] && FromBytes(b) == FromBytes(b[..n]) * 256 + b[n];
      NumberPinsBytes(a[..n], b[..n]);
      assert a == a[..n] + [a[n]] && b == b[..n] + [b[n]];
    }
  }

  /** Which values a type admits. */
  predicate Admits(t: AbiType, v: AbiValue) {
    match (t, v)
    case (UInt(k), Num(n)) => 0 <= n < Pow256(k)
    case (SInt(k), Num(n)) => -Pow256(k) <= 2 * n < Pow256(k)
    case (FixedBytes(k), Raw(b)) => |b| <= k
    case (Bool, Flag(_)) => true
    case _ => false
  }

  /** The number that the encoding specification gives for a word: two's complement, bytes to the left. */
  function WordNumber(w: nat, t: AbiType, v: AbiValue): int
    requires WellFormed(w, t) && Admits(t, v)
  {
    match v
    case Num(n) => if n < 0 then n + Pow256(w) else n
    case Raw(b) => FromBytes(b) * Pow256(w - |b|)
    case Flag(b) => if b then 1 else 0
  }

  lemma EncodedNumber(w: nat, t: AbiType, v: AbiValue)
    requires WellFormed(w, t)
    ensures EncodeOne(w, t, v).Some? <==> Admits(t, v)
    ensures Admits(t, v) ==>
              var word := EncodeOne(w, t, v).value; |word| == w && FromBytes(word) == WordNumber(w, t, v)
  {
    if Admits(t, v) {
      PowMonotone(1, w);
      match v {
        case Num(n) =>
          PowMonotone(t.size, w);
          BytesRoundTrip(if n < 0 then n + Pow256(w) else n, w);
        case Raw(b) => NumberOfPadded(b, w - |b|);
        case Flag(b) => BytesRoundTrip(if b then 1 else 0, w);
      }
    }
  }

  /** A word is the encoding of a value exactly when it has the right width and the right number. */
  lemma WordExactly(w: nat, t: AbiType, v: AbiValue, word: Bytes)
    requires WellFormed(w, t) && Admits(t, v)
    ensures EncodeOne(w, t, v) == Some(word) <==> |word| == w && FromBytes(word) == WordNumber(w, t, v)
  {
    EncodedNumber(w, t, v);
    if |word| == w && FromBytes(word) == WordNumber(w, t, v) {
      NumberPinsBytes(word, EncodeOne(w, t, v).value);
    }
  }

  // ---- a struct ----

  function Encode(w: nat, types: seq<AbiType>, values: seq<AbiValue>): Option<Bytes>
    requires |types| == |values| && forall i :: 0 <= i < |types| ==> WellFormed(w, types[i])
  {
    if types == [] then Some([])
    else
      match (EncodeOne(w, types[0], values[0]), Encode(w, types[1..], values[1..]))
      case (Some(word), Some(rest)) => Some(word + rest)
      case _ => None
  }

  function Width(w: nat, types: seq<AbiType>): nat {
    if types == [] then 0 else w + Width(w, types[1..])
  }

  function Decode(w: nat, types: seq<AbiType>, data: Bytes): seq<AbiValue>
    requires |data| == Width(w, types) && forall i :: 0 <= i < |types| ==> WellFormed(w, types[i])
  {
    if types == [] then [] else [DecodeOne(w, types[0], data[..w])] + Decode(w, types[1..], data[w..])
  }

  function Meanings(types: seq<AbiType>, values: seq<AbiValue>): seq<AbiValue>
    requires |types| == |values|
  {
    if types == [] then [] else [Meaning(types[0], values[0])] + Meanings(types[1..], values[1..])
  }

  lemma {:induction false} MeaningsAt(types: seq<AbiType>, values: seq<AbiValue>)
    requires |types| == |values|
    ensures |Meanings(types, values)| == |types|
    ensures forall i :: 0 <= i < |types| ==> Meanings(types, values)[i] == Meaning(types[i], values[i])
  {
    if types != [] {
      MeaningsAt(types[1..], values[1..]);
    }
  }

  /** Decoding gives back every field of an encodable struct of any static shape. */
  lemma {:induction false} StructRoundTrip(w: nat, types: seq<AbiType>, values: seq<AbiValue>)
    requires |types| == |values| && forall i :: 0 <= i < |types| ==> WellFormed(w, types[i])
    requires Encode(w, types, values).Some?
    ensures |Encode(w, types, values).value| == Width(w, types)
    ensures Decode(w, types, Encode(w, types, values).value) == Meanings(types, values)
  {
    if types != [] {
      WordRoundTrip(w, types[0], values[0]);
      StructRoundTrip(w, types[1..], values[1..]);
      var word, rest := EncodeOne(w, types[0], values[0]).value, Encode(w, types[1..], values[1..]).value;
      assert (word + rest)[..w] == word && (word + rest)[w..] == rest;
    }
  }

  function NthWord(data: Bytes, i: nat): Bytes
    requires |data| >= 32 * i + 32
  {
    if i == 0 then data[..32] else NthWord(data[32..], i - 1)
  }

  lemma {:induction false} NthWordIsSlice(data: Bytes, i: nat)
    requires |data| >= 32 * i + 32
    ensures NthWord(data, i) == data[32 * i..32 * i + 32]
  {
    if i > 0 {
      NthWordIsSlice(data[32..], i - 1);
    }
  }

  lemma NthWordBehind(word: Bytes, rest: Bytes, i: nat)
    requires |word| == 32 && |rest| >= 32 * i + 32
    ensures NthWord(word + rest, i + 1) == NthWord(rest, i)
  {
    assert (word + rest)[32..] == rest;
  }

  lemma {:induction false} EncodedSize(types: seq<AbiType>, values: seq<AbiValue>)
    requires |types| == |values| && forall i :: 0 <= i < |types| ==> WellFormed(WORD, types[i])
    requires Encode(WORD, types, values).Some?
    ensures |Encode(WORD, types, values).value| == 32 * |types|
  {
    if types != [] {
      EncodedNumber(WORD, types[0], values[0]);
      EncodedSize(types[1..], values[1..]);
    }
  }

  /** The words of an encoded struct are the encodings of its fields, in order. */
  lemma {:induction false} EncodeAt(types: seq<AbiType>, values: seq<AbiValue>, i: nat)
    requires |types| == |values| && forall i :: 0 <= i < |types| ==> WellFormed(WORD, types[i])
    requires Encode(WORD, types, values).Some? && i < |types|
    requires |Encode(WORD, types, values).value| == 32 * |types|
    ensures EncodeOne(WORD, types[i], values[i]) == Some(NthWord(Encode(WORD, types, values).value, i))
  {
    var word, rest := EncodeOne(WORD, types[0], values[0]).value, Encode(WORD, types[1..], values[1..]).value;
    EncodedNumber(WORD, types[0], values[0]);
    EncodedSize(types[1..], values[1..]);
    if i == 0 {
      assert (word + rest)[..32] == word;
    } else {
      EncodeAt(types[1..], values[1..], i - 1);
      NthWordBehind(word, rest, i - 1);
    }
  }

  // ---- the two leaf structs ----

  const FEED_ABI := [
    Component("votingRoundId", UInt(4)), Component("id", FixedBytes(21)), Component("value", SInt(4)),
    Component("turnoutBIPS", UInt(2)), Component("decimals", SInt(1))]

  const RANDOM_ABI := [
    Component("votingRoundId", UInt(4)), Component("value", UInt(32)), Component("isSecure", Bool)]

  ghost predicate GoodAbi(abi: seq<Component>) {
    forall i :: 0 <= i < |abi| ==> WellFormed(WORD, abi[i].ty)
  }

  function Types(abi: seq<Component>): seq<AbiType> {
    seq(|abi|, i requires 0 <= i < |abi| => abi[i].ty)
  }

  function Values(abi: seq<Component>, mapper: map<string, AbiValue>): seq<AbiValue>
    requires forall i :: 0 <= i < |abi| ==> abi[i].name in mapper
  {
    seq(|abi|, i requires 0 <= i < |abi| && abi[i].name in mapper => mapper[abi[i].name])
  }

  /** The hash of a struct; `None` when a name is missing or a value does not fit its type. */
  method BaseHash(lib: Library, abi: seq<Component>, mapper: map<string, AbiValue>) returns (hash: Option<Bytes>)
    requires GoodAbi(abi)
    ensures (exists i :: 0 <= i < |abi| && abi[i].name !in mapper) ==> hash == None
    ensures (forall i :: 0 <= i < |abi| ==> abi[i].name in mapper) ==>
              match Encode(WORD, Types(abi), Values(abi, mapper))
              case None => hash == None
              case Some(preimage) => hash == Some(lib.keccak(preimage))
  {
    var types, values := [], [];
    var k := 0;
    while k < |abi|
      invariant 0 <= k <= |abi| && |types| == |values| == k
      invariant forall i :: 0 <= i < k ==>
                  types[i] == abi[i].ty && abi[i].name in mapper && values[i] == mapper[abi[i].name]
    {
      if abi[k].name !in mapper {
        return None;
      }
      types := types + [abi[k].ty];
      values := values + [mapper[abi[k].name]];
      k := k + 1;
    }
    assert types == Types(abi) && values == Values(abi, mapper);
    var preimage := Encode(WORD, types, values);
    return match preimage case None => None case Some(b) => Some(lib.keccak(b));
  }

  ghost predicate CollisionFree(lib: Library) {
    forall a, b :: lib.keccak(a) == lib.keccak(b) ==> a == b
  }

  function FeedValues(row: Row<Feed>, id: Bytes): seq<AbiValue> {
    [Num(row.round), Raw(id), Num(row.body.value), Num(row.body.turnout), Num(row.body.decimals)]
  }

  function RandomValues(row: Row<Random>, value: int): seq<AbiValue> {
    [Num(row.round), Num(value), Flag(row.body.secure)]
  }

  function FeedPreimage(lib: Library, row: Row<Feed>): Option<Bytes> {
    match lib.fromHex(row.body.id)
    case None => None
    case Some(id) => Encode(WORD, Types(FEED_ABI), FeedValues(row, id))
  }

  function RandomPreimage(lib: Library, row: Row<Random>): Option<Bytes> {
    match lib.parseHex(row.body.value)
    case None => None
    case Some(value) => Encode(WORD, Types(RANDOM_ABI), RandomValues(row, value))
  }

  function Hashed(lib: Library, preimage: Option<Bytes>): Option<Bytes> {
    match preimage case None => None case Some(b) => Some(lib.keccak(b))
  }

  function FeedHash(lib: Library, row: Row<Feed>): Option<Bytes> {
    Hashed(lib, FeedPreimage(lib, row))
  }

  function RandomHash(lib: Library, row: Row<Random>): Option<Bytes> {
    Hashed(lib, RandomPreimage(lib, row))
  }

  /** The `hash` property of a feed row. */
  method HashFeed(lib: Library, row: Row<Feed>) returns (hash: Option<Bytes>)
    ensures hash == FeedHash(lib, row)
  {
    var id := lib.fromHex(row.body.id);
    if id.None? {
      return None;
    }
    var mapper := map[
      "votingRoundId" := Num(row.round), "id" := Raw(id.value), "value" := Num(row.body.value),
      "turnoutBIPS" := Num(row.body.turnout), "decimals" := Num(row.body.decimals)];
    hash := BaseHash(lib, FEED_ABI, mapper);
    assert Values(FEED_ABI, mapper) == FeedValues(row, id.value);
  }

  /** The `hash` property of a random row. */
  method HashRandom(lib: Library, row: Row<Random>) returns (hash: Option<Bytes>)
    ensures hash == RandomHash(lib, row)
  {
    var value := lib.parseHex(row.body.value);
    if value.None? {
      return None;
    }
    var mapper := map[
      "votingRoundId" := Num(row.round), "value" := Num(value.value), "isSecure" := Flag(row.body.secure)];
    hash := BaseHash(lib, RANDOM_ABI, mapper);
    assert Values(RANDOM_ABI, mapper) == RandomValues(row, value.value);
  }

  function Padded(b: Bytes, size: nat): Bytes {
    if |b| <= size then b + Zeros(size - |b|) else b
  }

  /** Everything that the hash of a feed row covers; a short id is read with trailing zero bytes. */
  function FeedFields(lib: Library, row: Row<Feed>): Option<seq<AbiValue>> {
    match lib.fromHex(row.body.id)
    case None => None
    case Some(id) =>
      Some([Num(row.round), Raw(Padded(id, 21)), Num(row.body.value), Num(row.body.turnout), Num(row.body.decimals)])
  }

  function RandomFields(lib: Library, row: Row<Random>): Option<seq<AbiValue>> {
    match lib.parseHex(row.body.value)
    case None => None
    case Some(value) => Some([Num(row.round), Num(value), Flag(row.body.secure)])
  }

  lemma UIntFits(w: nat, k: nat, n: int)
    requires WellFormed(w, UInt(k))
    ensures EncodeOne(w, UInt(k), Num(n)).Some? <==> 0 <= n < Pow256(k)
  {
  }

  lemma PowersOf256()
    ensures Pow256(1) == 0x100 && Pow256(2) == 0x1_0000 && Pow256(4) == 0x1_0000_0000
  {
  }

  /** A struct can be encoded exactly when each of its fields can. */
  lemma {:induction false} EncodeSucceeds(w: nat, types: seq<AbiType>, values: seq<AbiValue>)
    requires |types| == |values| && forall i :: 0 <= i < |types| ==> WellFormed(w, types[i])
    ensures Encode(w, types, values).Some? <==>
            forall i :: 0 <= i < |types| ==> EncodeOne(w, types[i], values[i]).Some?
  {
    if types != [] {
      EncodeSucceeds(w, types[1..], values[1..]);
      if Encode(w, types[1..], values[1..]).None? {
        var i :| 0 <= i < |types| - 1 && EncodeOne(w, types[1..][i], values[1..][i]).None?;
        assert EncodeOne(w, types[i + 1], values[i + 1]).None?;
      }
    }
  }

  /** A feed row has a leaf exactly when its id is at most 21 bytes of hex and its numbers fit the ABI types. */
  lemma FeedHasLeaf(lib: Library, row: Row<Feed>)
    ensures FeedHash(lib, row).Some? <==>
            && lib.fromHex(row.body.id).Some? && |lib.fromHex(row.body.id).value| <= 21
            && 0 <= row.round < 0x1_0000_0000
            && -0x8000_0000 <= row.body.value < 0x8000_0000
            && 0 <= row.body.turnout < 0x1_0000
            && -0x80 <= row.body.decimals < 0x80
  {
    if lib.fromHex(row.body.id).Some? {
      var t, v := Types(FEED_ABI), FeedValues(row, lib.fromHex(row.body.id).value);
      PowersOf256();
      EncodeSucceeds(WORD, t, v);
      assert EncodeOne(WORD, t[0], v[0]).Some? <==> 0 <= row.round < 0x1_0000_0000;
      assert EncodeOne(WORD, t[1], v[1]).Some? <==> |lib.fromHex(row.body.id).value| <= 21;
      assert EncodeOne(WORD, t[2], v[2]).Some? <==> -0x8000_0000 <= row.body.value < 0x8000_0000;
      assert EncodeOne(WORD, t[3], v[3]).Some? <==> 0 <= row.body.turnout < 0x1_0000;
      assert EncodeOne(WORD, t[4], v[4]).Some? <==> -0x80 <= row.body.decimals < 0x80;
    }
  }

  lemma RandomHasLeaf(lib: Library, row: Row<Random>)
    ensures RandomHash(lib, row).Some? <==>
            && lib.parseHex(row.body.value).Some? && 0 <= lib.parseHex(row.body.value).value < Pow256(32)
            && 0 <= row.round < 0x1_0000_0000
  {
    if lib.parseHex(row.body.value).Some? {
      var t, v := Types(RANDOM_ABI), RandomValues(row, lib.parseHex(row.body.value).value);
      PowersOf256();
      EncodeSucceeds(WORD, t, v);
      assert EncodeOne(WORD, t[0], v[0]).Some? <==> 0 <= row.round < 0x1_0000_0000;
      UIntFits(WORD, 32, lib.parseHex(row.body.value).value);
      assert EncodeOne(WORD, t[2], v[2]).Some?;
    }
  }

  lemma {:induction false} WidthIs(w: nat, types: seq<AbiType>)
    ensures Width(w, types) == w * |types|
  {
    if types != [] {
      WidthIs(w, types[1..]);
      assert w + w * (|types| - 1) == w * |types|;
    }
  }

  lemma FeedPreimageDecodes(lib: Library, row: Row<Feed>)
    requires FeedPreimage(lib, row).Some?
    ensures Width(WORD, Types(FEED_ABI)) == |FeedPreimage(lib, row).value| == 160
    ensures FeedFields(lib, row) == Some(Decode(WORD, Types(FEED_ABI), FeedPreimage(lib, row).value))
  {
    WidthIs(WORD, Types(FEED_ABI));
    var values := FeedValues(row, lib.fromHex(row.body.id).value);
    StructRoundTrip(WORD, Types(FEED_ABI), values);
    MeaningsAt(Types(FEED_ABI), values);
    FeedHasLeaf(lib, row);
    assert Meanings(Types(FEED_ABI), values) == FeedFields(lib, row).value;
  }

  lemma RandomPreimageDecodes(lib: Library, row: Row<Random>)
    requires RandomPreimage(lib, row).Some?
    ensures Width(WORD, Types(RANDOM_ABI)) == |RandomPreimage(lib, row).value| == 96
    ensures RandomFields(lib, row) == Some(Decode(WORD, Types(RANDOM_ABI), RandomPreimage(lib, row).value))
  {
    WidthIs(WORD, Types(RANDOM_ABI));
    var values := RandomValues(row, lib.parseHex(row.body.value).value);
    StructRoundTrip(WORD, Types(RANDOM_ABI), values);
    MeaningsAt(Types(RANDOM_ABI), values);
    assert Meanings(Types(RANDOM_ABI), values) == RandomFields(lib, row).value;
  }

  /** The number in the i-th word of a preimage. */
  function WordAt(preimage: Bytes, i: nat): nat
    requires 32 * i + 32 <= |preimage|
  {
    FromBytes(preimage[32 * i..32 * i + 32])
  }

  lemma FieldWord(types: seq<AbiType>, values: seq<AbiValue>, i: nat)
    requires |types| == |values| && forall i :: 0 <= i < |types| ==> WellFormed(WORD, types[i])
    requires Encode(WORD, types, values).Some? && i < |types|
    ensures |Encode(WORD, types, values).value| == 32 * |types| && Admits(types[i], values[i])
    ensures WordAt(Encode(WORD, types, values).value, i) == WordNumber(WORD, types[i], values[i])
  {
    EncodedSize(types, values);
    EncodeAt(types, values, i);
    NthWordIsSlice(Encode(WORD, types, values).value, i);
    EncodedNumber(WORD, types[i], values[i]);
  }

  /** `n` in two's complement of 32 bytes. */
  function TwosComplement(n: int): int {
    if n < 0 then n + Pow256(32) else n
  }

  /** The words of a feed leaf as numbers; the id stands at the left end of its word. */
  function FeedNumbers(row: Row<Feed>, id: Bytes): seq<int>
    requires |id| <= 21
  {
    [row.round, FromBytes(id) * Pow256(32 - |id|), TwosComplement(row.body.value), row.body.turnout,
     TwosComplement(row.body.decimals)]
  }

  function RandomNumbers(row: Row<Random>, value: int): seq<int> {
    [row.round, value, if row.body.secure then 1 else 0]
  }

  /** The preimage of a feed leaf, word by word. */
  lemma FeedPreimageWords(lib: Library, row: Row<Feed>, i: nat)
    requires FeedPreimage(lib, row).Some? && i < 5
    ensures var p, id := FeedPreimage(lib, row).value, lib.fromHex(row.body.id);
            && |p| == 160 && id.Some? && |id.value| <= 21
            && WordAt(p, i) == FeedNumbers(row, id.value)[i]
  {
    FeedHasLeaf(lib, row);
    FieldWord(Types(FEED_ABI), FeedValues(row, lib.fromHex(row.body.id).value), i);
  }

  lemma RandomPreimageWords(lib: Library, row: Row<Random>, i: nat)
    requires RandomPreimage(lib, row).Some? && i < 3
    ensures var p, value := RandomPreimage(lib, row).value, lib.parseHex(row.body.value);
            && |p| == 96 && value.Some?
            && WordAt(p, i) == RandomNumbers(row, value.value)[i]
  {
    FieldWord(Types(RANDOM_ABI), RandomValues(row, lib.parseHex(row.body.value).value), i);
  }

  /** Feed rows with the same leaf agree on every hashed field. */
  lemma FeedLeafPinsFields(lib: Library, a: Row<Feed>, b: Row<Feed>)
    requires CollisionFree(lib) && FeedHash(lib, a).Some? && FeedHash(lib, a) == FeedHash(lib, b)
    ensures FeedFields(lib, a) == FeedFields(lib, b) && a.round == b.round
  {
    FeedPreimageDecodes(lib, a);
    FeedPreimageDecodes(lib, b);
    assert lib.keccak(FeedPreimage(lib, a).value) == lib.keccak(FeedPreimage(lib, b).value);
    assert FeedFields(lib, a).value[0] == Num(a.round) && FeedFields(lib, b).value[0] == Num(b.round);
  }

  lemma RandomLeafPinsFields(lib: Library, a: Row<Random>, b: Row<Random>)
    requires CollisionFree(lib) && RandomHash(lib, a).Some? && RandomHash(lib, a) == RandomHash(lib, b)
    ensures RandomFields(lib, a) == RandomFields(lib, b) && a.round == b.round
  {
    RandomPreimageDecodes(lib, a);
    RandomPreimageDecodes(lib, b);
    assert lib.keccak(RandomPreimage(lib, a).value) == lib.keccak(RandomPreimage(lib, b).value);
    assert RandomFields(lib, a).value[0] == Num(a.round) && RandomFields(lib, b).value[0] == Num(b.round);
  }

  /** No leaf is both a feed leaf and a random leaf. */
  lemma LeafKindsDisjoint(lib: Library, feed: Row<Feed>, random: Row<Random>)
    requires CollisionFree(lib) && FeedHash(lib, feed).Some?
    ensures FeedHash(lib, feed) != RandomHash(lib, random)
  {
    FeedPreimageDecodes(lib, feed);
    if RandomHash(lib, random).Some? {
      RandomPreimageDecodes(lib, random);
      var a, b := FeedPreimage(lib, feed).value, RandomPreimage(lib, random).value;
      assert lib.keccak(a) == lib.keccak(b) ==> a == b;
    }
  }
}
