/** RLP as the wallet writes it, and a strict decoder written from Appendix B of the Ethereum Yellow Paper. */
module Rlp {
  import opened Bytes
  import opened Common

  datatype Item = Str(data: Bytes) | List(items: Items)
  datatype Items = End | And(head: Item, tail: Items)

  // ---------------------------------------------------------------------------
  // Integers
  // ---------------------------------------------------------------------------

  /** Big-endian without leading zeros; zero is the empty string. */
  function Be(n: nat): Bytes { if n == 0 then [] else Be(n / 256) + [n % 256] }

  function FromBe(s: Bytes): nat
  {
    if |s| == 0 then 0 else FromBe(s[..|s| - 1]) * 256 + s[|s| - 1]
  }

  type Nibble = x: int | 0 <= x < 16

  /** `n.toString(16)`. */
  function Hex(n: nat): seq<Nibble> { if n < 16 then [n] else Hex(n / 16) + [n % 16] }

  function PadEven(hex: seq<Nibble>): seq<Nibble> { if |hex| % 2 == 0 then hex else [0] + hex }

  /** `hexToBytes`: two digits to a byte. */
  function Pack(hex: seq<Nibble>): Bytes
  {
    var n := |hex|;
    if n < 2 then []
    else
      var b: Byte := (hex[n - 2] as int) * 16 + hex[n - 1] as int;
      Pack(hex[..n - 2]) + [b]
  }

  function RlpLength(n: nat): Bytes { Pack(PadEven(Hex(n))) }

  // ---------------------------------------------------------------------------
  // Encoder
  // ---------------------------------------------------------------------------

  function Header(short: nat, n: nat): Bytes
    requires short <= 0xc0
  {
    if n <= 55 then [short + n]
    else
      var len := RlpLength(n);
      [(short + 55 + |len|) % 256] + len
  }

  function RlpBytes(data: Bytes): Bytes
  {
    if |data| == 1 && data[0] < 0x80 then data else Header(0x80, |data|) + data
  }

  function RlpUint(value: int): Option<Bytes>
  {
    if value < 0 then None
    else if value == 0 then Some([0x80])
    else Some(RlpBytes(Pack(PadEven(Hex(value)))))
  }

  function RlpList(payload: Bytes): Bytes { Header(0xc0, |payload|) + payload }

  function Encode(x: Item): Bytes
  {
    match x
    case Str(data) => RlpBytes(data)
    case List(items) => RlpList(EncodeAll(items))
  }

  function EncodeAll(items: Items): Bytes
  {
    match items
    case End => []
    case And(head, tail) => Encode(head) + EncodeAll(tail)
  }

  /** Every string and every list payload is below 2^64 bytes, as Appendix B demands. */
  predicate Encodable(x: Item)
  {
    match x
    case Str(data) => |data| < Pow256(8)
    case List(items) => AllEncodable(items) && |EncodeAll(items)| < Pow256(8)
  }

  predicate AllEncodable(items: Items)
  {
    match items
    case End => true
    case And(head, tail) => Encodable(head) && AllEncodable(tail)
  }

  // ---------------------------------------------------------------------------
  // Decoder
  // ---------------------------------------------------------------------------

  /** One framed payload and what follows it. */
  datatype Frame = Frame(isList: bool, payload: Bytes, rest: Bytes)

  function Cut(isList: bool, b: Bytes, from: nat, len: nat): Option<Frame>
  {
    if from + len > |b| then None else Some(Frame(isList, b[from..from + len], b[from + len..]))
  }

  /** A length of length `n` after the first byte: no leading zero, and longer than the short form allows. */
  function CutLong(isList: bool, b: Bytes, n: nat): Option<Frame>
    requires n >= 1
  {
    if 1 + n > |b| || b[1] == 0 || FromBe(b[1..1 + n]) <= 55 then None
    else Cut(isList, b, 1 + n, FromBe(b[1..1 + n]))
  }

  function Split(b: Bytes): Option<Frame>
  {
    if |b| == 0 then None
    else if b[0] < 0x80 then Some(Frame(false, [b[0]], b[1..]))
    else if b[0] <= 0xb7 then
      if b[0] == 0x81 && |b| >= 2 && b[1] < 0x80 then None else Cut(false, b, 1, b[0] - 0x80)
    else if b[0] < 0xc0 then CutLong(false, b, b[0] - 0xb7)
    else if b[0] <= 0xf7 then Cut(true, b, 1, b[0] - 0xc0)
    else CutLong(true, b, b[0] - 0xf7)
  }

  datatype Parsed = Parsed(item: Item, rest: Bytes)

  function Decode(b: Bytes): (r: Option<Parsed>)
    ensures r.Some? ==> |r.value.rest| < |b|
    decreases |b|, 0
  {
    match Split(b)
    case None => None
    case Some(f) =>
      if !f.isList then Some(Parsed(Str(f.payload), f.rest))
      else
        match DecodeAll(f.payload)
        case None => None
        case Some(items) => Some(Parsed(List(items), f.rest))
  }

  /** The items that fill a payload exactly. */
  function DecodeAll(b: Bytes): Option<Items>
    decreases |b|, 1
  {
    if |b| == 0 then Some(End)
    else
      match Decode(b)
      case None => None
      case Some(first) =>
        match DecodeAll(first.rest)
        case None => None
        case Some(tail) => Some(And(first.item, tail))
  }

  // ---------------------------------------------------------------------------
  // Integers round-trip
  // ---------------------------------------------------------------------------

  lemma {:induction false} BeLength(n: nat, k: nat)
    ensures n < Pow256(k) <==> |Be(n)| <= k
  {
    if n > 0 && k > 0 {
      BeLength(n / 256, k - 1);
    }
  }

  lemma {:induction false} BeRoundTrip(n: nat)
    ensures FromBe(Be(n)) == n
    ensures n > 0 ==> Be(n)[0] != 0
  {
    if n > 0 {
      BeRoundTrip(n / 256);
      assert Be(n)[..|Be(n)| - 1] == Be(n / 256);
    }
  }

  lemma {:induction false} FromBePositive(s: Bytes)
    requires |s| > 0 && s[0] != 0
    ensures FromBe(s) > 0
  {
    if |s| > 1 {
      FromBePositive(s[..|s| - 1]);
    }
  }

  lemma {:induction false} FromBeRoundTrip(s: Bytes)
    requires |s| > 0 ==> s[0] != 0
    ensures Be(FromBe(s)) == s
  {
    if |s| > 0 {
      var front, last := s[..|s| - 1], s[|s| - 1];
      FromBeRoundTrip(front);
      FromBePositive(s);
      assert FromBe(s) / 256 == FromBe(front) && FromBe(s) % 256 == last;
      assert s == front + [last];
    }
  }

  lemma {:induction false} LeadingZero(s: Bytes)
    ensures FromBe([0] + s) == FromBe(s)
  {
    if |s| > 0 {
      LeadingZero(s[..|s| - 1]);
      assert ([0] + s)[..|s|] == [0] + s[..|s| - 1];
    }
  }

  lemma HexStep(n: nat)
    requires n >= 256
    ensures Hex(n) == Hex(n / 256) + [n / 16 % 16, n % 16]
  {
    assert n / 16 / 16 == n / 256;
  }

  lemma {:induction false} PackPadSnoc(hex: seq<Nibble>, a: Nibble, b: Nibble)
    ensures Pack(PadEven(hex + [a, b])) == Pack(PadEven(hex)) + [a * 16 + b]
  {
    var long := PadEven(hex + [a, b]);
    assert long == PadEven(hex) + [a, b];
    assert long[..|long| - 2] == PadEven(hex);
  }

  lemma PackPair(a: Nibble, b: Nibble)
    ensures Pack([a, b]) == [a * 16 + b]
  {
  }

  lemma HexSmall(n: nat)
    requires 0 < n < 256
    ensures RlpLength(n) == [n] && Be(n) == [n]
  {
    assert PadEven(Hex(n)) == [n / 16, n % 16];
    PackPair(n / 16, n % 16);
    assert Be(n / 256) == [];
  }

  /** The hexadecimal detour of the source yields the minimal big-endian bytes. */
  lemma {:induction false} HexIsBe(n: nat)
    requires n > 0
    ensures RlpLength(n) == Be(n)
  {
    if n < 256 {
      HexSmall(n);
    } else {
      hide Hex, Pack, PadEven;
      HexIsBe(n / 256);
      HexStep(n);
      PackPadSnoc(Hex(n / 256), n / 16 % 16, n % 16);
      assert n / 16 % 16 * 16 + n % 16 == n % 256;
    }
  }
}
