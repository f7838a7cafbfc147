/** Hexadecimal text and the `0x` prefix: processing/utils.py, and the comparison of Merkle roots as text. */
module Hex {
  import opened Wrappers
  import opened Records

  function UnPrefix0x(s: string): string {
    if |s| >= 2 && s[..2] == "0x" then s[2..] else s
  }

  /** `str.lower` on ASCII letters. */
  function LowerChar(c: char): char {
    if 'A' <= c <= 'Z' then c - 'A' + 'a' else c
  }

  function Lower(s: string): string {
    if s == "" then "" else [LowerChar(s[0])] + Lower(s[1..])
  }

  /** The text that every root is compared as. */
  function NormalRoot(s: string): string {
    UnPrefix0x(Lower(s))
  }

  function Digit(d: int): char
    requires 0 <= d < 16
  {
    "0123456789abcdef"[d]
  }

  /** `bytes.hex()` */
  function ToHex(b: Bytes): string {
    if b == [] then "" else [Digit(b[0] / 16), Digit(b[0] % 16)] + ToHex(b[1..])
  }

  lemma DigitFacts(d: int, e: int)
    requires 0 <= d < 16 && 0 <= e < 16
    ensures LowerChar(Digit(d)) == Digit(d) && Digit(d) != 'x'
    ensures Digit(d) == Digit(e) ==> d == e
  {
  }

  lemma {:induction false} LowerAppend(s: string, t: string)
    ensures Lower(s + t) == Lower(s) + Lower(t)
  {
    if s == "" {
      assert s + t == t;
    } else {
      assert (s + t)[1..] == s[1..] + t;
      LowerAppend(s[1..], t);
    }
  }

  lemma {:induction false} HexIsLower(b: Bytes)
    ensures Lower(ToHex(b)) == ToHex(b) && |ToHex(b)| == 2 * |b|
    ensures |ToHex(b)| >= 2 ==> ToHex(b)[..2] != "0x"
  {
    if b != [] {
      HexIsLower(b[1..]);
      DigitFacts(b[0] / 16, b[0] % 16);
      DigitFacts(b[0] % 16, b[0] / 16);
      var pair := [Digit(b[0] / 16), Digit(b[0] % 16)];
      LowerAppend(pair, ToHex(b[1..]));
      assert pair[1..] == [pair[1]];
      assert Lower(pair) == pair;
      assert ToHex(b)[..2] == pair;
    }
  }

  lemma {:induction false} HexInjective(a: Bytes, b: Bytes)
    requires ToHex(a) == ToHex(b)
    ensures a == b
  {
    HexIsLower(a);
    HexIsLower(b);
    if a != [] {
      var x, y := ToHex(a), ToHex(b);
      assert x[0] == y[0] && x[1] == y[1];
      DigitFacts(a[0] / 16, b[0] / 16);
      DigitFacts(a[0] % 16, b[0] % 16);
      assert x[2..] == ToHex(a[1..]) && y[2..] == ToHex(b[1..]);
      HexInjective(a[1..], b[1..]);
    }
  }

  /** The root stored for a relayed message is the plain hex text of the 32 bytes: it pins them down. */
  lemma StoredRootFaithful(a: Bytes, b: Bytes)
    ensures NormalRoot(ToHex(a)) == ToHex(a)
    ensures NormalRoot(ToHex(a)) == NormalRoot(ToHex(b)) ==> a == b
  {
    HexIsLower(a);
    HexIsLower(b);
    if NormalRoot(ToHex(a)) == NormalRoot(ToHex(b)) {
      HexInjective(a, b);
    }
  }

  // ---- what a text stands for, whatever its case and prefix ----

  /** The value of a hex digit of either case. */
  function DigitValue(c: char): Option<byte> {
    if '0' <= c <= '9' then Some(c as int - '0' as int)
    else if 'a' <= c <= 'f' then Some(c as int - 'a' as int + 10)
    else if 'A' <= c <= 'F' then Some(c as int - 'A' as int + 10)
    else None
  }

  /** The bytes that a text of hex digits stands for. */
  function ReadHex(s: string): Option<Bytes> {
    if s == "" then Some([])
    else if |s| == 1 then None
    else
      match (DigitValue(s[0]), DigitValue(s[1]), ReadHex(s[2..]))
      case (Some(a), Some(b), Some(rest)) => if a < 16 && b < 16 then Some([16 * a + b] + rest) else None
      case _ => None
  }

  /** The text behind a prefix `0x` or `0X`. */
  function Bare(s: string): string {
    if |s| >= 2 && s[0] == '0' && (s[1] == 'x' || s[1] == 'X') then s[2..] else s
  }

  lemma DigitRead(c: char, d: int)
    requires 0 <= d < 16
    ensures LowerChar(c) == Digit(d) <==> DigitValue(c) == Some(d)
  {
    assert DigitValue(Digit(d)) == Some(d);
  }

  /** Lower case changes ASCII capitals to their small letters and nothing else. */
  lemma {:induction false} LowerAt(s: string)
    ensures |Lower(s)| == |s|
    ensures forall i :: 0 <= i < |s| ==>
              Lower(s)[i] as int == if 'A' <= s[i] <= 'Z' then s[i] as int + 32 else s[i] as int
  {
    if s != "" {
      LowerAt(s[1..]);
      forall i | 0 <= i < |s|
        ensures Lower(s)[i] as int == if 'A' <= s[i] <= 'Z' then s[i] as int + 32 else s[i] as int
      {
        if i > 0 { assert Lower(s)[i] == Lower(s[1..])[i - 1] && s[i] == s[1..][i - 1]; }
      }
    }
  }

  predicate PairIs(c: char, d: char, x: byte) {
    && DigitValue(c).Some? && DigitValue(d).Some? && DigitValue(c).value < 16 && DigitValue(d).value < 16
    && 16 * DigitValue(c).value + DigitValue(d).value == x
  }

  /** The first byte of a text. */
  lemma PairRead(c: char, d: char, x: byte)
    ensures LowerChar(c) == Digit(x / 16) && LowerChar(d) == Digit(x % 16) <==>
            PairIs(c, d, x)
  {
    DigitRead(c, x / 16);
    DigitRead(d, x % 16);
  }

  lemma LowerPair(s: string)
    requires |s| >= 2
    ensures Lower(s) == [LowerChar(s[0]), LowerChar(s[1])] + Lower(s[2..])
  {
    assert s[1..][0] == s[1] && s[1..][1..] == s[2..];
    assert Lower(s) == [LowerChar(s[0])] + ([LowerChar(s[1])] + Lower(s[2..]));
  }

  lemma PairsEqual(a: char, b: char, rest: string, c: char, d: char, tail: string)
    ensures [a, b] + rest == [c, d] + tail <==> a == c && b == d && rest == tail
  {
    var x, y := [a, b] + rest, [c, d] + tail;
    assert x[2..] == rest && y[2..] == tail;
    assert x[0] == a && x[1] == b && y[0] == c && y[1] == d;
  }

  lemma ReadCons(s: string, b: Bytes)
    requires |s| >= 2 && b != []
    ensures ReadHex(s) == Some(b) <==> PairIs(s[0], s[1], b[0]) && ReadHex(s[2..]) == Some(b[1..])
  {
    assert b == [b[0]] + b[1..];
  }

  lemma ShortReads(s: string, b: Bytes)
    requires |s| < 2 || b == []
    ensures Lower(s) == ToHex(b) <==> ReadHex(s) == Some(b)
  {
    LowerAt(s);
    HexIsLower(b);
    assert |ToHex(b)| == |s| ==> |s| != 1 && (s == "" <==> b == []);
  }

  /** A text lowers to the hex text of some bytes exactly when it reads as those bytes. */
  lemma {:induction false} ReadsAs(s: string, b: Bytes)
    ensures Lower(s) == ToHex(b) <==> ReadHex(s) == Some(b)
  {
    if |s| >= 2 && b != [] {
      ReadsAs(s[2..], b[1..]);
      ReadCons(s, b);
      LowerPair(s);
      PairRead(s[0], s[1], b[0]);
      PairsEqual(
        LowerChar(s[0]), LowerChar(s[1]), Lower(s[2..]), Digit(b[0] / 16), Digit(b[0] % 16), ToHex(b[1..]));
    } else {
      ShortReads(s, b);
    }
  }

  lemma BareLower(s: string)
    ensures Lower(Bare(s)) == UnPrefix0x(Lower(s))
  {
    LowerAt(s);
    if |s| >= 2 {
      LowerAppend(s[..2], s[2..]);
      LowerAt(s[..2]);
      assert s == s[..2] + s[2..];
      assert Lower(s)[2..] == Lower(s[2..]);
      assert Lower(s)[..2] == [Lower(s)[0], Lower(s)[1]];
    }
  }

  /** Normal text is what a text with or without prefix, in any case, stands for. */
  lemma NormalText(text: string, b: Bytes)
    ensures NormalRoot(text) == ToHex(b) <==> ReadHex(Bare(text)) == Some(b)
  {
    BareLower(text);
    ReadsAs(Bare(text), b);
  }

  /** A provider's root text is accepted exactly when, up to case, it is the chain's root with or without `0x`. */
  lemma RootTextAccepted(text: string, chain: Bytes)
    ensures NormalRoot(text) == NormalRoot(ToHex(chain)) <==>
            Lower(text) == ToHex(chain) || Lower(text) == "0x" + ToHex(chain)
  {
    HexIsLower(chain);
    var low, hex := Lower(text), ToHex(chain);
    assert ("0x" + hex)[..2] == "0x" && ("0x" + hex)[2..] == hex;
    if |low| >= 2 && low[..2] == "0x" {
      assert low == "0x" + low[2..];
    }
  }
}
