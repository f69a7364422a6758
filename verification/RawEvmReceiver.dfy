/** What an Ethereum node reads from a signed envelope, by EIP-155, EIP-2718 and EIP-1559. */
module RawEvmReceiver {
  import opened Bytes
  import opened Common
  import opened RawEvm
  import opened Rlp
  import opened RlpTheorems

  datatype Received =
    | LegacyTx(chainId: nat, nonce: nat, gasPrice: nat, gasLimit: nat, to: Bytes, value: nat, data: Bytes,
               parity: nat, r: Bytes, s: Bytes)
    | DynamicTx(chainId: nat, nonce: nat, maxPriority: nat, maxFee: nat, gasLimit: nat, to: Bytes, value: nat,
                data: Bytes, parity: nat, r: Bytes, s: Bytes)

  function ToSeq(items: Items): seq<Item>
  {
    match items
    case End => []
    case And(head, tail) => [head] + ToSeq(tail)
  }

  /** The members of the list that fills the bytes exactly. */
  function Members(b: Bytes): Option<seq<Item>>
  {
    match Decode(b)
    case Some(Parsed(List(items), rest)) => if rest == [] then Some(ToSeq(items)) else None
    case _ => None
  }

  /** Every member is a string, but for the access list of a type-2 envelope. */
  predicate IsEnvelope(xs: seq<Item>, dynamic: bool)
  {
    && |xs| == (if dynamic then 12 else 9)
    && forall i :: 0 <= i < |xs| ==> xs[i].Str? == !(dynamic && i == 8)
  }

  predicate IsDynamic(b: Bytes) { |b| > 0 && b[0] == 2 }

  function Payload(b: Bytes): Bytes { if IsDynamic(b) then b[1..] else b }

  /** EIP-155: v is 35 plus twice the chain id plus the parity. */
  function ChainOf(v: nat): nat
    requires v >= 35
  {
    (v - 35) / 2
  }

  function ParityOf(v: nat): nat
    requires v >= 35
  {
    (v - 35) % 2
  }

  function ReadLegacy(xs: seq<Item>): Option<Received>
    requires IsEnvelope(xs, false)
  {
    var v := FromBe(xs[6].data);
    if v < 35 then None
    else
      Some(LegacyTx(ChainOf(v), FromBe(xs[0].data), FromBe(xs[1].data), FromBe(xs[2].data), xs[3].data,
                    FromBe(xs[4].data), xs[5].data, ParityOf(v), xs[7].data, xs[8].data))
  }

  function ReadDynamic(xs: seq<Item>): Received
    requires IsEnvelope(xs, true)
  {
    DynamicTx(FromBe(xs[0].data), FromBe(xs[1].data), FromBe(xs[2].data), FromBe(xs[3].data), FromBe(xs[4].data),
              xs[5].data, FromBe(xs[6].data), xs[7].data, FromBe(xs[9].data), xs[10].data, xs[11].data)
  }

  function Receive(b: Bytes): Option<Received>
  {
    match Members(Payload(b))
    case None => None
    case Some(xs) =>
      if !IsEnvelope(xs, IsDynamic(b)) then None
      else if IsDynamic(b) then Some(ReadDynamic(xs))
      else ReadLegacy(xs)
  }

  /** The bytes whose hash the signature is checked against. */
  function SignedPayload(b: Bytes): Option<Bytes>
  {
    var tx := Receive(b);
    if tx.None? then None
    else
      var xs := Members(Payload(b)).value;
      if IsDynamic(b) then Some([2] + Encode(List(Of(xs[..9]))))
      else Some(Encode(List(Of(xs[..6] + [Scalar(tx.value.chainId), Str([]), Str([])]))))
  }

  // ---------------------------------------------------------------------------
  // The receiver reads what was signed
  // ---------------------------------------------------------------------------

  function Sent(e: Envelope, sig: Signature): Received
    requires Valid(e) && IsSignature(sig)
  {
    var c := e.common;
    var to := if c.to.Some? then c.to.value else [];
    match e
    case Legacy(_, gasPrice) =>
      LegacyTx(c.chainId, c.nonce, gasPrice, c.gasLimit, to, FromBe(c.value), c.data, sig.y, sig.r, sig.s)
    case Eip1559(_, maxPriority, maxFee) =>
      DynamicTx(c.chainId, c.nonce, maxPriority, maxFee, c.gasLimit, to, FromBe(c.value), c.data, sig.y, sig.r, sig.s)
  }

  lemma {:induction false} ToSeqOf(xs: seq<Item>)
    ensures ToSeq(Of(xs)) == xs
  {
    if |xs| > 0 {
      ToSeqOf(xs[1..]);
    }
  }

  lemma ListFirst(items: Items)
    requires Encodable(List(items))
    ensures !IsDynamic(Encode(List(items)))
  {
    hide Encode, Encodable;
    ListHead(items);
  }

  lemma SignedMembers(e: Envelope, sig: Signature)
    requires Valid(e) && IsSignature(sig) && Encodable(List(Of(SignedItems(e, sig))))
    ensures IsDynamic(Signed(e, sig)) == e.Eip1559? && Members(Payload(Signed(e, sig))) == Some(SignedItems(e, sig))
  {
    hide Encode, Decode, Encodable, Of, SignedItems;
    var xs := SignedItems(e, sig);
    var b := Encode(List(Of(xs)));
    ListFirst(Of(xs));
    RoundTrip(List(Of(xs)), []);
    ToSeqOf(xs);
    assert Payload(Signed(e, sig)) == b && b + [] == b;
  }

  lemma Shapes(e: Envelope, sig: Signature)
    requires Valid(e) && IsSignature(sig)
    ensures IsEnvelope(SignedItems(e, sig), e.Eip1559?)
  {
    hide Be, FromBe;
  }

  lemma ScalarRead(n: nat)
    ensures Scalar(n).Str? && FromBe(Scalar(n).data) == n
  {
    BeRoundTrip(n);
  }

  lemma RecoveryRead(e: Envelope, y: int)
    requires e.Legacy? && e.common.chainId >= 0 && 0 <= y <= 1
    ensures V(e, y) >= 35 && ChainOf(V(e, y)) == e.common.chainId && ParityOf(V(e, y)) == y
  {
  }

  lemma LegacyItems(e: Envelope, sig: Signature)
    requires Valid(e) && IsSignature(sig) && e.Legacy?
    ensures var c, xs := e.common, SignedItems(e, sig);
            && |xs| == 9 && xs[0] == Scalar(c.nonce) && xs[1] == Scalar(e.gasPrice) && xs[2] == Scalar(c.gasLimit)
            && xs[3] == RawEvm.Address(c.to) && xs[4] == Scalar(FromBe(c.value)) && xs[5] == Str(c.data)
            && xs[6] == Scalar(V(e, sig.y)) && xs[7] == Str(sig.r) && xs[8] == Str(sig.s)
  {
    hide Scalar, FromBe, V;
  }

  lemma ReadsLegacy(e: Envelope, sig: Signature)
    requires Valid(e) && IsSignature(sig) && e.Legacy? && IsEnvelope(SignedItems(e, sig), false)
    ensures ReadLegacy(SignedItems(e, sig)) == Some(Sent(e, sig))
  {
    RecoveryRead(e, sig.y);
    hide Scalar, FromBe, V, IsEnvelope, ChainOf, ParityOf, SignedItems;
    var c := e.common;
    ScalarRead(V(e, sig.y));
    ScalarRead(c.nonce);
    ScalarRead(e.gasPrice);
    ScalarRead(c.gasLimit);
    ScalarRead(FromBe(c.value));
    LegacyItems(e, sig);
  }

  lemma ReadsDynamic(e: Envelope, sig: Signature)
    requires Valid(e) && IsSignature(sig) && e.Eip1559? && IsEnvelope(SignedItems(e, sig), true)
    ensures ReadDynamic(SignedItems(e, sig)) == Sent(e, sig)
  {
    hide Scalar, FromBe, IsEnvelope;
    var c := e.common;
    ScalarRead(sig.y);
    ScalarRead(c.chainId);
    ScalarRead(c.nonce);
    ScalarRead(e.maxPriority);
    ScalarRead(e.maxFee);
    ScalarRead(c.gasLimit);
    ScalarRead(FromBe(c.value));
    assert SignedItems(e, sig) == [Scalar(c.chainId), Scalar(c.nonce), Scalar(e.maxPriority), Scalar(e.maxFee),
                                   Scalar(c.gasLimit), RawEvm.Address(c.to), Scalar(FromBe(c.value)), Str(c.data),
                                   List(End), Scalar(sig.y), Str(sig.r), Str(sig.s)];
  }

  /** Type, chain id, every field, parity and signature come out as they went in. */
  lemma ReceiverReads(e: Envelope, sig: Signature)
    requires Valid(e) && IsSignature(sig) && Encodable(List(Of(SignedItems(e, sig))))
    ensures Receive(Signed(e, sig)) == Some(Sent(e, sig))
  {
    hide Encode, Encodable, Decode, Of, SignedItems, Signed, Members, IsEnvelope, ReadLegacy, ReadDynamic, Sent;
    SignedMembers(e, sig);
    Shapes(e, sig);
    if e.Legacy? {
      ReadsLegacy(e, sig);
    } else {
      ReadsDynamic(e, sig);
    }
  }

  /** And the signature is checked against the preimage that was signed. */
  lemma ReceiverHashesPreimage(e: Envelope, sig: Signature)
    requires Valid(e) && IsSignature(sig) && Encodable(List(Of(SignedItems(e, sig))))
    ensures SignedPayload(Signed(e, sig)) == Some(Preimage(e))
  {
    hide Encode, Encodable, Decode, Of, Signed, Members, IsEnvelope, Receive, Fields;
    SignedMembers(e, sig);
    ReceiverReads(e, sig);
    FieldCount(e);
    var xs := SignedItems(e, sig);
    assert xs[..|Fields(e)|] == Fields(e);
    if e.Legacy? {
      assert Scalar(0) == Str([]);
      assert xs[..6] + [Scalar(e.common.chainId), Str([]), Str([])] == UnsignedItems(e);
      assert Preimage(e) == Encode(List(Of(UnsignedItems(e))));
    } else {
      assert xs[..9] == UnsignedItems(e);
    }
  }
}
