/** Legacy (EIP-155) and EIP-1559 envelopes, and what their bytes determine. */
module RawEvm {
  import opened Bytes
  import opened Common
  import opened Rlp
  import opened RlpTheorems

  // ---------------------------------------------------------------------------
  // Scalars
  // ---------------------------------------------------------------------------

  function Scalar(n: nat): Item { Str(Be(n)) }

  /** Errors on negatives only; otherwise the string of the minimal big-endian bytes. */
  lemma UintIsScalar(value: int)
    ensures RlpUint(value) == if value < 0 then None else Some(Encode(Scalar(value)))
  {
    if value > 0 {
      HexIsBe(value);
    } else {
      assert [0x80] + [] == [0x80];
    }
  }

  /** Leading zeros do not change the number. */
  lemma {:induction false} StripKeepsNumber(bytes: Bytes, i: nat)
    requires i <= |bytes| && forall k :: 0 <= k < i ==> bytes[k] == 0
    ensures FromBe(bytes[i..]) == FromBe(bytes)
  {
    if i > 0 {
      StripKeepsNumber(bytes[1..], i - 1);
      LeadingZero(bytes[1..]);
      assert bytes == [0] + bytes[1..] && bytes[1..][i - 1..] == bytes[i..];
    } else {
      assert bytes[0..] == bytes;
    }
  }

  method RlpU256(bytes: Bytes) returns (r: Option<Bytes>)
    ensures r == if |bytes| != 32 then None else RlpUint(FromBe(bytes))
  {
    if |bytes| != 32 { return None; }
    var i := 0;
    while i < |bytes| && bytes[i] == 0
      invariant 0 <= i <= |bytes|
      invariant forall k :: 0 <= k < i ==> bytes[k] == 0
    {
      i := i + 1;
    }
    StripKeepsNumber(bytes, i);
    FromBeRoundTrip(bytes[i..]);
    UintIsScalar(FromBe(bytes));
    return Some(RlpBytes(bytes[i..]));
  }

  /** The signature halves skip that stripping, so they are canonical scalars exactly without a leading zero. */
  lemma SignatureScalarIff(r: Bytes)
    requires |r| == 32
    ensures Encode(Str(r)) == Encode(Scalar(FromBe(r))) <==> r[0] != 0
  {
    hide Be, FromBe, Encode, Pow256;
    if r[0] != 0 {
      FromBeRoundTrip(r);
    } else if Encode(Str(r)) == Encode(Scalar(FromBe(r))) {
      SizeFits(32);
      FromBeBelow(r);
      BeLength(FromBe(r), 32);
      SizeFits(|Be(FromBe(r))|);
      Injective(Str(r), Scalar(FromBe(r)));
      BeHeads(FromBe(r));
    }
  }

  lemma BeHeads(n: nat)
    ensures |Be(n)| > 0 ==> Be(n)[0] != 0
  {
  }

  lemma SizeFits(n: nat)
    requires n <= 255
    ensures n < Pow256(8)
  {
  }

  // ---------------------------------------------------------------------------
  // Envelopes
  // ---------------------------------------------------------------------------

  /** Fields shared by both envelopes; the numbers are what the caller passes, so they may be negative. */
  datatype Shared = Shared(chainId: int, nonce: int, gasLimit: int, to: Option<Bytes>, value: Bytes, data: Bytes)

  datatype Envelope = Legacy(common: Shared, gasPrice: int) | Eip1559(common: Shared, maxPriority: int, maxFee: int)

  datatype Signature = Signature(y: int, r: Bytes, s: Bytes)

  predicate IsSignature(sig: Signature) { (sig.y == 0 || sig.y == 1) && |sig.r| == 32 && |sig.s| == 32 }

  function RlpAddress(to: Option<Bytes>): Option<Bytes>
  {
    if to.None? then Some([0x80]) else if |to.value| != 20 then None else Some(RlpBytes(to.value))
  }

  /** The parts one after another, or nothing if building one of them threw. */
  function Join(parts: seq<Option<Bytes>>): Option<Bytes>
  {
    if |parts| == 0 then Some([])
    else if parts[0].None? || Join(parts[1..]).None? then None
    else Some(parts[0].value + Join(parts[1..]).value)
  }

  function ListOf(parts: seq<Option<Bytes>>): Option<Bytes>
  {
    var payload := Join(parts);
    if payload.None? then None else Some(RlpList(payload.value))
  }

  function Prefix(e: Envelope): Bytes { if e.Legacy? then [] else [0x02] }

  /** The encoded fields before the signature, given the stripped value. */
  function BodyParts(e: Envelope, value: Option<Bytes>): seq<Option<Bytes>>
  {
    var c := e.common;
    match e
    case Legacy(_, gasPrice) =>
      [RlpUint(c.nonce), RlpUint(gasPrice), RlpUint(c.gasLimit), RlpAddress(c.to), value, Some(RlpBytes(c.data))]
    case Eip1559(_, maxPriority, maxFee) =>
      [RlpUint(c.chainId), RlpUint(c.nonce), RlpUint(maxPriority), RlpUint(maxFee), RlpUint(c.gasLimit),
       RlpAddress(c.to), value, Some(RlpBytes(c.data)), ListOf([])]
  }

  function UnsignedParts(e: Envelope): seq<Option<Bytes>>
  {
    if e.Legacy? then [RlpUint(e.common.chainId), RlpUint(0), RlpUint(0)] else []
  }

  /** The recovery value: EIP-155 for legacy, the bare parity for type 2. */
  function V(e: Envelope, y: int): int { if e.Legacy? then e.common.chainId * 2 + 35 + y else y }

  function SignedParts(e: Envelope, sig: Signature): seq<Option<Bytes>>
  {
    [RlpUint(V(e, sig.y)), Some(RlpBytes(sig.r)), Some(RlpBytes(sig.s))]
  }

  function WithPrefix(e: Envelope, list: Option<Bytes>): Option<Bytes>
  {
    if list.None? then None else Some(Prefix(e) + list.value)
  }

  // What the bytes mean

  predicate Valid(e: Envelope)
  {
    var c := e.common;
    && c.chainId >= 0 && c.nonce >= 0 && c.gasLimit >= 0 && (c.to.Some? ==> |c.to.value| == 20) && |c.value| == 32
    && match e
       case Legacy(_, gasPrice) => gasPrice >= 0
       case Eip1559(_, maxPriority, maxFee) => maxPriority >= 0 && maxFee >= 0
  }

  function Address(to: Option<Bytes>): Item { if to.None? then Str([]) else Str(to.value) }

  function Fields(e: Envelope): seq<Item>
    requires Valid(e)
  {
    var c := e.common;
    match e
    case Legacy(_, gasPrice) =>
      [Scalar(c.nonce), Scalar(gasPrice), Scalar(c.gasLimit), Address(c.to), Scalar(FromBe(c.value)), Str(c.data)]
    case Eip1559(_, maxPriority, maxFee) =>
      [Scalar(c.chainId), Scalar(c.nonce), Scalar(maxPriority), Scalar(maxFee), Scalar(c.gasLimit), Address(c.to),
       Scalar(FromBe(c.value)), Str(c.data), List(End)]
  }

  function Of(xs: seq<Item>): Items { if |xs| == 0 then End else And(xs[0], Of(xs[1..])) }

  function UnsignedItems(e: Envelope): seq<Item>
    requires Valid(e)
  {
    Fields(e) + if e.Legacy? then [Scalar(e.common.chainId), Scalar(0), Scalar(0)] else []
  }

  function SignedItems(e: Envelope, sig: Signature): seq<Item>
    requires Valid(e) && IsSignature(sig)
  {
    Fields(e) + [Scalar(V(e, sig.y)), Str(sig.r), Str(sig.s)]
  }

  function Preimage(e: Envelope): Bytes
    requires Valid(e)
  {
    Prefix(e) + Encode(List(Of(UnsignedItems(e))))
  }

  function Signed(e: Envelope, sig: Signature): Bytes
    requires Valid(e) && IsSignature(sig)
  {
    Prefix(e) + Encode(List(Of(SignedItems(e, sig))))
  }

  // ---------------------------------------------------------------------------
  // Assembly
  // ---------------------------------------------------------------------------

  ghost predicate Built(parts: seq<Option<Bytes>>, xs: seq<Item>)
  {
    |parts| == |xs| && forall i :: 0 <= i < |xs| ==> parts[i] == Some(Encode(xs[i]))
  }

  lemma {:induction false} BuiltJoins(parts: seq<Option<Bytes>>, xs: seq<Item>)
    requires Built(parts, xs)
    ensures Join(parts) == Some(EncodeAll(Of(xs)))
  {
    hide Encode;
    if |xs| > 0 {
      BuiltJoins(parts[1..], xs[1..]);
    }
  }

  lemma {:induction false} JoinThrows(parts: seq<Option<Bytes>>, i: nat)
    requires i < |parts| && parts[i].None?
    ensures Join(parts).None?
  {
    if i > 0 {
      JoinThrows(parts[1..], i - 1);
    }
  }

  lemma AddressIsItem(to: Option<Bytes>)
    ensures RlpAddress(to) == if to.Some? && |to.value| != 20 then None else Some(Encode(Address(to)))
  {
    assert [0x80] + [] == [0x80];
  }

  lemma BodyBuilt(e: Envelope, value: Option<Bytes>)
    requires Valid(e) && value == RlpUint(FromBe(e.common.value))
    ensures Built(BodyParts(e, value), Fields(e))
  {
    hide RlpUint, RlpAddress, FromBe, Be;
    var c := e.common;
    UintIsScalar(c.chainId);
    UintIsScalar(c.nonce);
    UintIsScalar(c.gasLimit);
    UintIsScalar(FromBe(c.value));
    AddressIsItem(c.to);
    match e
    case Legacy(_, gasPrice) => UintIsScalar(gasPrice);
    case Eip1559(_, maxPriority, maxFee) =>
      UintIsScalar(maxPriority);
      UintIsScalar(maxFee);
      assert Join([]) == Some(EncodeAll(End));
  }

  /** Which part throws for an invalid envelope. */
  function Thrower(e: Envelope): nat
    requires !Valid(e)
  {
    var c := e.common;
    match e
    case Legacy(_, gasPrice) =>
      if c.nonce < 0 then 0 else if gasPrice < 0 then 1 else if c.gasLimit < 0 then 2
      else if c.to.Some? && |c.to.value| != 20 then 3 else if |c.value| != 32 then 4 else 6
    case Eip1559(_, maxPriority, maxFee) =>
      if c.chainId < 0 then 0 else if c.nonce < 0 then 1 else if maxPriority < 0 then 2 else if maxFee < 0 then 3
      else if c.gasLimit < 0 then 4 else if c.to.Some? && |c.to.value| != 20 then 5 else 6
  }

  method BuildPreimage(e: Envelope) returns (r: Option<Bytes>)
    ensures r == if Valid(e) then Some(Preimage(e)) else None
  {
    hide Encode, FromBe, Be, Join, RlpUint, RlpAddress;
    var value := RlpU256(e.common.value);
    var parts := BodyParts(e, value) + UnsignedParts(e);
    if Valid(e) {
      BodyBuilt(e, value);
      UintIsScalar(e.common.chainId);
      UintIsScalar(0);
      BuiltJoins(parts, UnsignedItems(e));
      ListIsEncoded(UnsignedItems(e));
    } else {
      PartThrows(e, value);
      JoinThrows(parts, Thrower(e));
    }
    return WithPrefix(e, ListOf(parts));
  }

  lemma PartThrows(e: Envelope, value: Option<Bytes>)
    requires !Valid(e) && (|e.common.value| != 32 ==> value.None?)
    ensures var parts := BodyParts(e, value) + UnsignedParts(e); Thrower(e) < |parts| && parts[Thrower(e)].None?
  {
    hide RlpBytes, Hex, Pack, PadEven, ListOf;
  }

  lemma ListIsEncoded(xs: seq<Item>)
    ensures Encode(List(Of(xs))) == RlpList(EncodeAll(Of(xs)))
  {
  }

  /** The signature comes from the key holder; building it throws whenever building the preimage does. */
  method BuildSigned(e: Envelope, sig: Signature) returns (r: Option<Bytes>)
    requires IsSignature(sig)
    ensures r == if Valid(e) then Some(Signed(e, sig)) else None
  {
    hide Encode, FromBe, Be, Join, RlpUint, RlpAddress;
    var unsigned := BuildPreimage(e);
    if unsigned.None? { return None; }
    var value := RlpU256(e.common.value);
    var parts := BodyParts(e, value) + SignedParts(e, sig);
    BodyBuilt(e, value);
    UintIsScalar(V(e, sig.y));
    ListIsEncoded(SignedItems(e, sig));
    assert Built(SignedParts(e, sig), [Scalar(V(e, sig.y)), Str(sig.r), Str(sig.s)]) by { StringsBuilt(e, sig); }
    BuiltJoins(parts, SignedItems(e, sig));
    return WithPrefix(e, ListOf(parts));
  }

  lemma StringsBuilt(e: Envelope, sig: Signature)
    requires Valid(e) && IsSignature(sig)
    ensures Built(SignedParts(e, sig), [Scalar(V(e, sig.y)), Str(sig.r), Str(sig.s)])
  {
    UintIsScalar(V(e, sig.y));
  }

  // ---------------------------------------------------------------------------
  // What the bytes determine
  // ---------------------------------------------------------------------------

  lemma {:induction false} OfInjective(xs: seq<Item>, ys: seq<Item>)
    requires Of(xs) == Of(ys)
    ensures xs == ys
  {
    if |xs| > 0 && |ys| > 0 {
      OfInjective(xs[1..], ys[1..]);
      assert xs == [xs[0]] + xs[1..] && ys == [ys[0]] + ys[1..];
    }
  }

  lemma ScalarInjective(m: nat, n: nat)
    requires Scalar(m) == Scalar(n)
    ensures m == n
  {
    BeRoundTrip(m);
    BeRoundTrip(n);
  }

  lemma {:induction false} FromBeInjective(a: Bytes, b: Bytes)
    requires |a| == |b| && FromBe(a) == FromBe(b)
    ensures a == b
  {
    if |a| > 0 {
      var front, front' := a[..|a| - 1], b[..|b| - 1];
      assert a == front + [a[|a| - 1]] && b == front' + [b[|b| - 1]];
      FromBeInjective(front, front');
    }
  }

  lemma ListHead(items: Items)
    requires Encodable(List(items))
    ensures |Encode(List(items))| > 0 && Encode(List(items))[0] >= 0xc0
  {
    var n := |EncodeAll(items)|;
    if n > 55 {
      LongHeader(0xc0, n);
    }
  }

  /** Equal bytes have the same type prefix and the same list. */
  lemma SameList(e: Envelope, f: Envelope, xs: seq<Item>, ys: seq<Item>)
    requires Encodable(List(Of(xs))) && Encodable(List(Of(ys)))
    requires Prefix(e) + Encode(List(Of(xs))) == Prefix(f) + Encode(List(Of(ys)))
    ensures e.Legacy? == f.Legacy? && xs == ys
  {
    hide Encode, Encodable;
    ListHead(Of(xs));
    ListHead(Of(ys));
    var a, b := Encode(List(Of(xs))), Encode(List(Of(ys)));
    assert (Prefix(e) + a)[0] == (Prefix(f) + b)[0];
    assert a == (Prefix(e) + a)[|Prefix(e)|..] && b == (Prefix(f) + b)[|Prefix(f)|..];
    Injective(List(Of(xs)), List(Of(ys)));
    OfInjective(xs, ys);
  }

  lemma SameAddress(to: Option<Bytes>, to': Option<Bytes>)
    requires (to.Some? ==> |to.value| == 20) && (to'.Some? ==> |to'.value| == 20) && Address(to) == Address(to')
    ensures to == to'
  {
  }

  /** The listed fields fix the envelope, but for the chain id of a legacy one, which is elsewhere. */
  lemma SameFields(e: Envelope, f: Envelope)
    requires Valid(e) && Valid(f) && e.Legacy? == f.Legacy? && Fields(e) == Fields(f)
    requires e.Legacy? ==> e.common.chainId == f.common.chainId
    ensures e == f
  {
    hide Be, FromBe;
    var xs, ys := Fields(e), Fields(f);
    var k := if e.Legacy? then 2 else 4;
    assert xs[0] == ys[0] && xs[1] == ys[1] && xs[2] == ys[2] && xs[3] == ys[3] && xs[4] == ys[4] && xs[5] == ys[5];
    assert xs[k + 1] == ys[k + 1] && xs[k + 2] == ys[k + 2] && xs[k + 3] == ys[k + 3];
    var c, d := e.common, f.common;
    SameAddress(c.to, d.to);
    ScalarInjective(FromBe(c.value), FromBe(d.value));
    FromBeInjective(c.value, d.value);
    ScalarInjective(c.nonce, d.nonce);
    ScalarInjective(c.gasLimit, d.gasLimit);
    match e
    case Legacy(_, gasPrice) => ScalarInjective(gasPrice, f.gasPrice);
    case Eip1559(_, maxPriority, maxFee) =>
      ScalarInjective(c.chainId, d.chainId);
      ScalarInjective(maxPriority, f.maxPriority);
      ScalarInjective(maxFee, f.maxFee);
  }

  lemma SplitAt(xs: seq<Item>, ys: seq<Item>, a: seq<Item>, b: seq<Item>)
    requires |xs| == |ys| && xs + a == ys + b
    ensures xs == ys && a == b
  {
    assert xs == (xs + a)[..|xs|] && ys == (ys + b)[..|ys|] && a == (xs + a)[|xs|..] && b == (ys + b)[|ys|..];
  }

  /** A signing preimage determines the envelope type and every field. */
  lemma PreimageInjective(e: Envelope, f: Envelope)
    requires Valid(e) && Valid(f) && Preimage(e) == Preimage(f)
    requires Encodable(List(Of(UnsignedItems(e)))) && Encodable(List(Of(UnsignedItems(f))))
    ensures e == f
  {
    hide Encode, Encodable, Of, Be, FromBe;
    var xs, ys := UnsignedItems(e), UnsignedItems(f);
    SameList(e, f, xs, ys);
    if e.Legacy? {
      assert xs[6] == ys[6];
      ScalarInjective(e.common.chainId, f.common.chainId);
    }
    SplitAt(Fields(e), Fields(f), xs[|Fields(e)|..], ys[|Fields(f)|..]);
    SameFields(e, f);
  }

  /** A signed envelope determines its fields and its signature; in the legacy form through v. */
  lemma SignedInjective(e: Envelope, f: Envelope, sig: Signature, sig': Signature)
    requires Valid(e) && Valid(f) && IsSignature(sig) && IsSignature(sig') && Signed(e, sig) == Signed(f, sig')
    requires Encodable(List(Of(SignedItems(e, sig)))) && Encodable(List(Of(SignedItems(f, sig'))))
    ensures e == f && sig == sig'
  {
    hide Encode, Encodable, Of, Be, FromBe, Fields;
    SameList(e, f, SignedItems(e, sig), SignedItems(f, sig'));
    FieldCount(e);
    FieldCount(f);
    var a, b := [Scalar(V(e, sig.y)), Str(sig.r), Str(sig.s)], [Scalar(V(f, sig'.y)), Str(sig'.r), Str(sig'.s)];
    SplitAt(Fields(e), Fields(f), a, b);
    assert a[0] == b[0] && a[1] == b[1] && a[2] == b[2];
    ScalarInjective(V(e, sig.y), V(f, sig'.y));
    SameFields(e, f);
  }

  lemma FieldCount(e: Envelope)
    requires Valid(e)
    ensures |Fields(e)| == if e.Legacy? then 6 else 9
  {
  }

  /** Behind the type prefix, the decoder finds the unsigned fields followed by the signature. */
  lemma SignedDecodes(e: Envelope, sig: Signature)
    requires Valid(e) && IsSignature(sig) && Encodable(List(Of(SignedItems(e, sig))))
    ensures Decode(Signed(e, sig)[|Prefix(e)|..]) ==
            Some(Parsed(List(Of(Fields(e) + [Scalar(V(e, sig.y)), Str(sig.r), Str(sig.s)])), []))
  {
    hide Encode, Decode, Encodable, Of, Fields;
    var x := List(Of(SignedItems(e, sig)));
    assert Signed(e, sig)[|Prefix(e)|..] == Encode(x) + [];
    RoundTrip(x, []);
  }

  /** No signed envelope is a signing preimage of any envelope. */
  lemma SignedIsNoPreimage(e: Envelope, f: Envelope, sig: Signature)
    requires Valid(e) && Valid(f) && IsSignature(sig)
    requires Encodable(List(Of(SignedItems(e, sig)))) && Encodable(List(Of(UnsignedItems(f))))
    ensures Signed(e, sig) != Preimage(f)
  {
    hide Encode, Encodable, Of, FromBe, Fields;
    FieldCount(e);
    FieldCount(f);
    var xs, ys := SignedItems(e, sig), UnsignedItems(f);
    if e.Legacy? && f.Legacy? {
      assert xs[8] == Str(sig.s) && ys[8] == Str(Be(0));
    }
    if Signed(e, sig) == Preimage(f) {
      SameList(e, f, xs, ys);
    }
  }
}
