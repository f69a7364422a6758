/** The encoder and the decoder are inverse to each other. */
module RlpTheorems {
  import opened Bytes
  import opened Common
  import opened Rlp

  /** What the encoder writes around a payload. */
  function Framed(isList: bool, payload: Bytes): Bytes { if isList then RlpList(payload) else RlpBytes(payload) }

  lemma LongHeader(short: nat, n: nat)
    requires short <= 0xc0 && 55 < n < Pow256(8)
    ensures 1 <= |Be(n)| <= 8 && Be(n)[0] != 0 && FromBe(Be(n)) == n
    ensures Header(short, n) == [short + 55 + |Be(n)|] + Be(n)
  {
    hide Be, FromBe, RlpLength, Pow256;
    HexIsBe(n);
    BeLength(n, 8);
    BeRoundTrip(n);
    BeNonEmpty(n);
  }

  lemma BeNonEmpty(n: nat)
    requires n > 0
    ensures |Be(n)| > 0
  {
  }

  lemma Slices(a: Bytes, b: Bytes, c: Bytes)
    ensures (a + b + c)[|a|..|a| + |b|] == b && (a + b + c)[|a| + |b|..] == c
  {
  }

  lemma CutLongFramed(isList: bool, first: Byte, len: Bytes, payload: Bytes, rest: Bytes)
    requires |len| >= 1 && len[0] != 0 && FromBe(len) == |payload| > 55
    ensures CutLong(isList, [first] + len + payload + rest, |len|) == Some(Frame(isList, payload, rest))
  {
    hide FromBe;
    var b := [first] + len + payload + rest;
    assert b == [first] + len + (payload + rest);
    Slices([first], len, payload + rest);
    Slices([first] + len, payload, rest);
  }

  lemma CutShortFramed(isList: bool, first: Byte, payload: Bytes, rest: Bytes)
    ensures Cut(isList, [first] + payload + rest, 1, |payload|) == Some(Frame(isList, payload, rest))
  {
  }

  lemma SplitFramed(isList: bool, payload: Bytes, rest: Bytes)
    requires |payload| < Pow256(8)
    ensures Split(Framed(isList, payload) + rest) == Some(Frame(isList, payload, rest))
  {
    hide Be, FromBe, CutLong, Cut, RlpLength, Pow256;
    var b := Framed(isList, payload) + rest;
    if !isList && |payload| == 1 && payload[0] < 0x80 {
      assert b[1..] == rest && [b[0]] == payload;
    } else if |payload| <= 55 {
      var first: Byte := (if isList then 0xc0 else 0x80) + |payload|;
      assert b == [first] + payload + rest;
      CutShortFramed(isList, first, payload, rest);
    } else {
      var short := if isList then 0xc0 else 0x80;
      LongHeader(short, |payload|);
      var len := Be(|payload|);
      var first: Byte := short + 55 + |len|;
      assert b == [first] + len + payload + rest;
      CutLongFramed(isList, first, len, payload, rest);
    }
  }

  lemma {:induction false} FromBeBelow(s: Bytes)
    ensures FromBe(s) < Pow256(|s|)
  {
    if |s| > 0 {
      FromBeBelow(s[..|s| - 1]);
    }
  }

  lemma {:induction false} Pow256Monotone(a: nat, b: nat)
    requires a <= b
    ensures 1 <= Pow256(a) <= Pow256(b)
  {
    if a < b {
      Pow256Monotone(a, b - 1);
    } else if a > 0 {
      Pow256Monotone(a - 1, b - 1);
    }
  }

  lemma SplitLongIsFramed(b: Bytes, isList: bool, f: Frame)
    requires |b| > 0 && Split(b) == Some(f) && (if isList then b[0] > 0xf7 else 0xb7 < b[0] < 0xc0)
    ensures |f.payload| < Pow256(8) && b == Framed(f.isList, f.payload) + f.rest
  {
    hide Be, FromBe, Header, Pow256;
    var short := if isList then 0xc0 else 0x80;
    var n := b[0] - short - 55;
    var len := b[1..1 + n];
    FromBeBelow(len);
    Pow256Monotone(n, 8);
    FromBeRoundTrip(len);
    LongHeader(short, |f.payload|);
    assert b == [b[0]] + len + f.payload + f.rest;
  }

  lemma ShortPayload(n: nat)
    requires n < 256
    ensures n < Pow256(8)
  {
  }

  /** Whatever the decoder accepts as a frame is what the encoder writes. */
  lemma SplitIsFramed(b: Bytes, f: Frame)
    requires Split(b) == Some(f)
    ensures |f.payload| < Pow256(8) && b == Framed(f.isList, f.payload) + f.rest
  {
    hide Be, FromBe, RlpLength, Pow256, CutLong;
    if b[0] > 0xf7 {
      SplitLongIsFramed(b, true, f);
    } else if 0xb7 < b[0] < 0xc0 {
      SplitLongIsFramed(b, false, f);
    } else {
      ShortPayload(|f.payload|);
      if b[0] < 0x80 {
        assert b == [b[0]] + b[1..];
      } else {
        assert b == [b[0]] + f.payload + f.rest;
      }
    }
  }

  /** Unique decodability: every item tree comes back from its encoding, whatever follows it. */
  lemma {:induction false} RoundTrip(x: Item, rest: Bytes)
    requires Encodable(x)
    ensures Decode(Encode(x) + rest) == Some(Parsed(x, rest))
    decreases x, 1
  {
    hide Split, RlpBytes, RlpList;
    match x
    case Str(data) =>
      SplitFramed(false, data, rest);
    case List(items) =>
      SplitFramed(true, EncodeAll(items), rest);
      RoundTripAll(items);
  }

  lemma {:induction false} RoundTripAll(items: Items)
    requires AllEncodable(items)
    ensures DecodeAll(EncodeAll(items)) == Some(items)
    decreases items, 0
  {
    hide Decode, Encode;
    match items
    case End =>
    case And(head, tail) =>
      RoundTrip(head, EncodeAll(tail));
      RoundTripAll(tail);
      EncodeNonEmpty(head);
  }

  lemma EncodeNonEmpty(x: Item)
    ensures |Encode(x)| > 0
  {
  }

  /** Canonical form: the decoder accepts nothing but encodings, and returns what follows them. */
  lemma {:induction false} DecodeIsEncode(b: Bytes, p: Parsed)
    requires Decode(b) == Some(p)
    ensures Encodable(p.item) && b == Encode(p.item) + p.rest
    decreases |b|, 0
  {
    hide Split, RlpBytes, RlpList;
    var f := Split(b).value;
    SplitIsFramed(b, f);
    SplitShrinks(b);
    if f.isList {
      DecodeAllIsEncodeAll(f.payload, DecodeAll(f.payload).value);
    }
  }

  lemma SplitShrinks(b: Bytes)
    requires Split(b).Some?
    ensures |Split(b).value.payload| < |b| || !Split(b).value.isList
  {
  }

  lemma {:induction false} DecodeAllIsEncodeAll(b: Bytes, items: Items)
    requires DecodeAll(b) == Some(items)
    ensures AllEncodable(items) && b == EncodeAll(items)
    decreases |b|, 1
  {
    hide Decode, Encode;
    if |b| > 0 {
      var first := Decode(b).value;
      DecodeIsEncode(b, first);
      DecodeAllIsEncodeAll(first.rest, items.tail);
    }
  }

  /** No encoding is a proper prefix of another: equal strings split the same way. */
  lemma PrefixFree(x: Item, y: Item, r: Bytes, s: Bytes)
    requires Encodable(x) && Encodable(y) && Encode(x) + r == Encode(y) + s
    ensures x == y && r == s
  {
    hide Decode, Encode;
    RoundTrip(x, r);
    RoundTrip(y, s);
  }

  lemma Injective(x: Item, y: Item)
    requires Encodable(x) && Encodable(y) && Encode(x) == Encode(y)
    ensures x == y
  {
    hide Decode, Encode;
    assert Encode(x) + [] == Encode(y) + [];
    PrefixFree(x, y, [], []);
  }
}
