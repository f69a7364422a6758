/** Signing preimages determine the lane, the network and every field; no two lanes share one. */
module LanesTheorems {
  import opened Bytes
  import opened Borsh
  import opened Lanes

  // ---------------------------------------------------------------------------
  // Splitting the envelope
  // ---------------------------------------------------------------------------

  lemma VecSplits(a: Bytes, r: Bytes, b: Bytes, s: Bytes)
    requires |a| < TWO32 && |b| < TWO32 && EncodeVec(a) + r == EncodeVec(b) + s
    ensures a == b && r == s
  {
    hide EncodeVec, ReadVec;
    ReadVecEncoded(a, r);
    ReadVecEncoded(b, s);
  }

  lemma FixedSplits(a: Bytes, r: Bytes, b: Bytes, s: Bytes)
    requires |a| == |b| && a + r == b + s
    ensures a == b && r == s
  {
    assert a == (a + r)[..|a|] && b == (b + s)[..|b|] && r == (a + r)[|a|..] && s == (b + s)[|b|..];
  }

  /** Chain id, genesis and what follows, for bodies of any form. */
  lemma NetworkSplits(c: Bytes, g: Bytes, r: Bytes, c': Bytes, g': Bytes, r': Bytes)
    requires |c| < TWO32 && |c'| < TWO32 && |g| == |g'| == 32
    requires EncodeVec(c) + g + r == EncodeVec(c') + g' + r'
    ensures c == c' && g == g' && r == r'
  {
    hide EncodeVec;
    Assoc(EncodeVec(c), g, r);
    Assoc(EncodeVec(c'), g', r');
    VecSplits(c, g + r, c', g' + r');
    FixedSplits(g, r, g', r');
  }

  lemma BodySplits(d: Domain, a: Bytes, b: Bytes)
    requires Opening(d) + a + Ending(d) == Opening(d) + b + Ending(d)
    ensures a == b
  {
    hide Opening, Ending;
    var s := Opening(d) + a + Ending(d);
    assert a == s[|Opening(d)|..|s| - |Ending(d)|] && b == s[|Opening(d)|..|s| - |Ending(d)|];
  }

  // ---------------------------------------------------------------------------
  // Messages
  // ---------------------------------------------------------------------------

  /** Lengths and counts fit their 32-bit prefix and no length check throws. */
  predicate Ok(m: Message)
  {
    && WellTyped(m) && Preimage(m).Some?
    && match m
       case Bound(d, chainId, _, vs) => |chainId| < TWO32 && AllFit(Schema(d), vs)
       case Registry(_, chainId, _, _) => |chainId| < TWO32
       case Attestation(vs) => AllFit(Schema(Checkpoint), vs)
       case Covenant(chainId, _, vs) =>
         |chainId| < TWO32 && AllFit(CovenantSchema(), vs) && |CovenantSighash(vs).value| < TWO32
  }

  /** The message with every integer reduced modulo its width. */
  function Meaning(m: Message): Message
    requires WellTyped(m)
  {
    match m
    case Bound(d, chainId, genesis, vs) => Bound(d, chainId, genesis, WrapAll(Schema(d), vs))
    case Registry(_, _, _, _) => m
    case Attestation(vs) => Attestation(WrapAll(Schema(Checkpoint), vs))
    case Covenant(chainId, genesis, vs) => Covenant(chainId, genesis, WrapAll(CovenantSchema(), vs))
  }

  predicate FieldsInRange(m: Message)
    requires WellTyped(m)
  {
    match m
    case Bound(d, _, _, vs) => AllInRange(Schema(d), vs)
    case Registry(_, _, _, _) => true
    case Attestation(vs) => AllInRange(Schema(Checkpoint), vs)
    case Covenant(_, _, vs) => AllInRange(CovenantSchema(), vs)
  }

  function DomainOf(m: Message): Domain
    requires !m.Covenant?
  {
    if m.Attestation? then Checkpoint else m.domain
  }

  /** What follows the length-prefixed domain. */
  function Tail(m: Message): Bytes
    requires Ok(m) && !m.Covenant?
  {
    match m
    case Bound(d, chainId, genesis, vs) => EncodeVec(chainId) + genesis + Body(d, vs).value
    case Registry(_, chainId, genesis, body) => EncodeVec(chainId) + genesis + body
    case Attestation(vs) => EncodeAll(Schema(Checkpoint), vs).value
  }

  lemma StartsWithDomain(m: Message)
    requires Ok(m) && !m.Covenant?
    ensures Preimage(m).value == EncodeVec(Ascii(DomainName(DomainOf(m)))) + Tail(m)
  {
    hide EncodeVec, Body, Schema, DomainName, EncodeAll, AllFit, HasFields;
    match m
    case Bound(d, chainId, genesis, vs) =>
      Assoc(EncodeVec(Ascii(DomainName(d))), EncodeVec(chainId) + genesis, Body(d, vs).value);
      Assoc(EncodeVec(Ascii(DomainName(d))), EncodeVec(chainId), genesis);
    case Registry(d, chainId, genesis, body) =>
      Assoc(EncodeVec(Ascii(DomainName(d))), EncodeVec(chainId) + genesis, body);
      Assoc(EncodeVec(Ascii(DomainName(d))), EncodeVec(chainId), genesis);
    case Attestation(vs) =>
  }

  /** A length prefix below 256 has a zero second byte; the unprefixed covenant domain has a letter there. */
  lemma SecondByte(m: Message)
    requires Ok(m)
    ensures |Preimage(m).value| > 32
    ensures Preimage(m).value[1] == if m.Covenant? then 'g' as int else 0
  {
    hide Body, Schema, DomainName, EncodeAll, AllFit, HasFields, Tail, Ok;
    if m.Covenant? {
      CovenantSecondByte(m);
    } else {
      var name := Ascii(DomainName(DomainOf(m)));
      StartsWithDomain(m);
      DomainNamed(DomainOf(m));
      TailLong(m);
      assert Le(4, |name|) == [|name| % 256] + Le(3, |name| / 256);
      assert Le(3, |name| / 256)[0] == 0;
      LeRead(4, |name|);
    }
  }

  lemma CovenantSecondByte(m: Message)
    requires Ok(m) && m.Covenant?
    ensures |Preimage(m).value| > 32 && Preimage(m).value[1] == 'g' as int
  {
    hide Schema, DomainName, EncodeAll, AllFit, HasFields, EncodeVec, CovenantSighash;
    assert Ascii(COVENANT_BOUND_DOMAIN)[1] == 'g' as int;
  }

  lemma TailLong(m: Message)
    requires Ok(m) && !m.Covenant?
    ensures |Tail(m)| >= 32
  {
    hide Body, DomainName, AllFit, HasFields, EncodeVec;
    if m.Attestation? {
      hide Schema;
      AttestationLong(m.vs);
    }
  }

  lemma AttestationLong(vs: seq<Value>)
    requires HasFields(Schema(Checkpoint), vs) && EncodeAll(Schema(Checkpoint), vs).Some?
    ensures |EncodeAll(Schema(Checkpoint), vs).value| >= 32
  {
    hide EncodeAll;
    SecondFixedLong(Schema(Checkpoint), vs);
  }

  lemma SecondFixedLong(fs: seq<Field>, vs: seq<Value>)
    requires HasFields(fs, vs) && |fs| > 1 && fs[1].kind == HASH && EncodeAll(fs, vs).Some?
    ensures |EncodeAll(fs, vs).value| >= 32
  {
  }

  /** Equal preimages come from the same lane. */
  lemma SameLane(m: Message, m': Message)
    requires Ok(m) && Ok(m') && Preimage(m) == Preimage(m')
    ensures m.Covenant? == m'.Covenant?
    ensures !m.Covenant? ==> DomainOf(m) == DomainOf(m') && Tail(m) == Tail(m')
  {
    hide Preimage, DomainName, Tail, Ok, Ascii;
    SecondByte(m);
    SecondByte(m');
    if !m.Covenant? {
      var d, d' := DomainOf(m), DomainOf(m');
      StartsWithDomain(m);
      StartsWithDomain(m');
      DomainNamed(d);
      DomainNamed(d');
      AsciiLength(DomainName(d));
      AsciiLength(DomainName(d'));
      VecSplits(Ascii(DomainName(d)), Tail(m), Ascii(DomainName(d')), Tail(m'));
      DomainsDistinct(d, d');
    }
  }

  lemma AsciiLength(s: string)
    ensures |Ascii(s)| == |s|
  {
  }

  lemma SameBody(d: Domain, vs: seq<Value>, ws: seq<Value>)
    requires !IsRegistry(d) && HasFields(Schema(d), vs) && HasFields(Schema(d), ws)
    requires AllFit(Schema(d), vs) && AllFit(Schema(d), ws) && Body(d, vs).Some? && Body(d, vs) == Body(d, ws)
    ensures WrapAll(Schema(d), vs) == WrapAll(Schema(d), ws)
  {
    hide Schema, HasFields, AllFit, EncodeAll, Opening, Ending, WrapAll;
    BodySplits(d, EncodeAll(Schema(d), vs).value, EncodeAll(Schema(d), ws).value);
    EncodesAlikeIff(Schema(d), vs, ws);
  }

  lemma SameBound(m: Message, m': Message)
    requires Ok(m) && Ok(m') && m.Bound? && m'.Bound? && m.domain == m'.domain && Tail(m) == Tail(m')
    ensures Meaning(m) == Meaning(m')
  {
    hide Schema, HasFields, AllFit, Body, WrapAll, EncodeVec, DomainName;
    NetworkSplits(m.chainId, m.genesis, Body(m.domain, m.vs).value,
                  m'.chainId, m'.genesis, Body(m'.domain, m'.vs).value);
    SameBody(m.domain, m.vs, m'.vs);
  }

  lemma SameRegistry(m: Message, m': Message)
    requires Ok(m) && Ok(m') && m.Registry? && m'.Registry? && m.domain == m'.domain && Tail(m) == Tail(m')
    ensures m == m'
  {
    hide EncodeVec, DomainName;
    NetworkSplits(m.chainId, m.genesis, m.body, m'.chainId, m'.genesis, m'.body);
  }

  lemma SameAttestation(m: Message, m': Message)
    requires Ok(m) && Ok(m') && m.Attestation? && m'.Attestation? && Tail(m) == Tail(m')
    ensures Meaning(m) == Meaning(m')
  {
    hide Schema, HasFields, AllFit, EncodeAll, WrapAll, EncodeVec, DomainName;
    EncodesAlikeIff(Schema(Checkpoint), m.vs, m'.vs);
  }

  lemma SameCovenant(m: Message, m': Message)
    requires Ok(m) && Ok(m') && m.Covenant? && m'.Covenant? && Preimage(m) == Preimage(m')
    ensures Meaning(m) == Meaning(m')
  {
    hide CovenantSchema, HasFields, AllFit, EncodeAll, WrapAll, EncodeVec, Ascii;
    var s, s' := CovenantSighash(m.vs).value, CovenantSighash(m'.vs).value;
    var outer, inner := Ascii(COVENANT_BOUND_DOMAIN), Ascii(COVENANT_SIGHASH_DOMAIN);
    PrefixFirst(outer, EncodeVec(m.chainId), m.genesis, EncodeVec(s));
    PrefixFirst(outer, EncodeVec(m'.chainId), m'.genesis, EncodeVec(s'));
    FixedSplits(outer, EncodeVec(m.chainId) + m.genesis + EncodeVec(s),
                outer, EncodeVec(m'.chainId) + m'.genesis + EncodeVec(s'));
    NetworkSplits(m.chainId, m.genesis, EncodeVec(s), m'.chainId, m'.genesis, EncodeVec(s'));
    EmptyTail(EncodeVec(s));
    EmptyTail(EncodeVec(s'));
    VecSplits(s, [], s', []);
    FixedSplits(EncodeVec(inner), EncodeAll(CovenantSchema(), m.vs).value,
                EncodeVec(inner), EncodeAll(CovenantSchema(), m'.vs).value);
    EncodesAlikeIff(CovenantSchema(), m.vs, m'.vs);
  }

  lemma EmptyTail(a: Bytes)
    ensures a + [] == a
  {
  }

  lemma PrefixFirst(a: Bytes, b: Bytes, c: Bytes, d: Bytes)
    ensures a + b + c + d == a + (b + c + d)
  {
  }

  lemma MeaningEncodes(m: Message)
    requires WellTyped(m)
    ensures WellTyped(Meaning(m)) && Preimage(Meaning(m)) == Preimage(m)
  {
    hide Schema, CovenantSchema, HasFields, EncodeAll, WrapAll, EncodeVec, DomainName;
    match m
    case Bound(d, _, _, vs) => AllWrapped(Schema(d), vs);
    case Registry(_, _, _, _) =>
    case Attestation(vs) => AllWrapped(Schema(Checkpoint), vs);
    case Covenant(_, _, vs) => AllWrapped(CovenantSchema(), vs);
  }

  /**
   Two messages have the same signing preimage exactly when they are of the same lane, chain id and
   genesis and agree in every field modulo its width.
   */
  lemma PreimagesAgreeIff(m: Message, m': Message)
    requires Ok(m) && Ok(m')
    ensures Preimage(m) == Preimage(m') <==> Meaning(m) == Meaning(m')
  {
    hide Preimage, Meaning, Tail;
    if Preimage(m) == Preimage(m') {
      SameLane(m, m');
      match m
      case Bound(_, _, _, _) => SameBound(m, m');
      case Registry(_, _, _, _) => SameRegistry(m, m');
      case Attestation(_) => SameAttestation(m, m');
      case Covenant(_, _, _) => SameCovenant(m, m');
    }
    MeaningEncodes(m);
    MeaningEncodes(m');
  }

  lemma InRangeMeaning(m: Message)
    requires WellTyped(m) && FieldsInRange(m)
    ensures Meaning(m) == m
  {
    hide Schema, CovenantSchema, HasFields, AllInRange, WrapAll;
    match m
    case Bound(d, _, _, vs) => AllUnchanged(Schema(d), vs);
    case Registry(_, _, _, _) =>
    case Attestation(vs) => AllUnchanged(Schema(Checkpoint), vs);
    case Covenant(_, _, vs) => AllUnchanged(CovenantSchema(), vs);
  }

  /** With in-range fields the preimage determines the whole message. */
  lemma PreimageInjective(m: Message, m': Message)
    requires Ok(m) && Ok(m') && FieldsInRange(m) && FieldsInRange(m') && Preimage(m) == Preimage(m')
    ensures m == m'
  {
    hide Preimage, Meaning, WellTyped, FieldsInRange;
    PreimagesAgreeIff(m, m');
    InRangeMeaning(m);
    InRangeMeaning(m');
  }

  // ---------------------------------------------------------------------------
  // What is handed to the signer
  // ---------------------------------------------------------------------------

  /** These lanes sign the hash of their envelope. */
  predicate IsHashed(m: Message)
  {
    m.Bound? && (m.domain.IssuedPolicy? || m.domain.IssuerControl? || m.domain.Clawback?)
  }

  function SigningBytes(h: Digest, m: Message): Bytes
    requires Ok(m)
  {
    if IsHashed(m) then h(Preimage(m).value) else Preimage(m).value
  }

  /** Equal signing bytes mean the same message, or two different envelopes with the same hash. */
  lemma SigningBytesSeparate(h: Digest, m: Message, m': Message)
    requires Yields32(h) && Ok(m) && Ok(m') && SigningBytes(h, m) == SigningBytes(h, m')
    ensures Meaning(m) == Meaning(m') ||
            (IsHashed(m) && IsHashed(m') && Preimage(m) != Preimage(m') &&
             h(Preimage(m).value) == h(Preimage(m').value))
  {
    hide Preimage, Meaning, WellTyped, AllFit;
    SecondByte(m);
    SecondByte(m');
    assert |h(Preimage(m).value)| == 32 && |h(Preimage(m').value)| == 32;
    PreimagesAgreeIff(m, m');
  }
}
