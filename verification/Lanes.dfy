/** The signing lanes: their domains, their bodies field by field, and the preimages that are signed. */
module Lanes {
  import opened Borsh
  import opened Bytes
  import opened Common

  // ---------------------------------------------------------------------------
  // Domains
  // ---------------------------------------------------------------------------

  datatype Domain =
    AccountTransfer | OvlExecution | DrcPayment | OfferCreate | OfferCancel | EscrowCreate | EscrowFinish
    | EscrowCancel | CheckCreate | CheckCash | CheckCancel | ChannelCreate | ChannelFund | ChannelClaim |
    ChannelClose | TrustLineSet | IssuedTransfer | IssuedPolicy | IssuerControl | Clawback | TicketCreate
    | RegularKey | SignerList | DepositPreauth | PolicyV1 | PolicyV2 | PolicyV3 | Transfer | Checkpoint |
    Hub | Grant | Mission | Passport | Treasury | Vesting

  predicate IsBase(d: Domain) { d.AccountTransfer? || d.OvlExecution? || d.DrcPayment? || d.Transfer? || d.Checkpoint? }

  predicate IsOffer(d: Domain) { d.OfferCreate? || d.OfferCancel? }

  predicate IsEscrow(d: Domain) { d.EscrowCreate? || d.EscrowFinish? || d.EscrowCancel? }

  predicate IsCheck(d: Domain) { d.CheckCreate? || d.CheckCash? || d.CheckCancel? }

  predicate IsChannelFunding(d: Domain) { d.ChannelCreate? || d.ChannelFund? }

  predicate IsChannelSettling(d: Domain) { d.ChannelClaim? || d.ChannelClose? }

  predicate IsTrustLine(d: Domain) { d.TrustLineSet? || d.IssuedTransfer? }

  predicate IsControl(d: Domain) { d.IssuedPolicy? || d.IssuerControl? || d.Clawback? }

  predicate IsKey(d: Domain) { d.TicketCreate? || d.RegularKey? }

  predicate IsSigner(d: Domain) { d.SignerList? || d.DepositPreauth? }

  predicate IsPolicy(d: Domain) { d.PolicyV1? || d.PolicyV2? || d.PolicyV3? }

  /** Lanes of the registries share the envelope; their bodies are arbitrary bytes here. */
  predicate IsRegistry(d: Domain)
  {
    d.Hub? || d.Grant? || d.Mission? || d.Passport? || d.Treasury? || d.Vesting?
  }

  function BaseName(d: Domain): string
    requires IsBase(d)
  {
    match d
    case AccountTransfer => "agora-trident-account-tx-v2"
    case OvlExecution => "agora-trident-ovl-execution-v1"
    case DrcPayment => "agora-trident-drc-payment-v4"
    case Transfer => "agora-tx-v1"
    case Checkpoint => "agora-trident-checkpoint-v1"
  }

  function OfferStem(d: Domain): string
    requires IsOffer(d)
  {
    match d
    case OfferCreate => "offer-create-v1"
    case OfferCancel => "offer-cancel-v1"
  }

  function EscrowStem(d: Domain): string
    requires IsEscrow(d)
  {
    match d
    case EscrowCreate => "escrow-create-v1"
    case EscrowFinish => "escrow-finish-v1"
    case EscrowCancel => "escrow-cancel-v1"
  }

  function CheckStem(d: Domain): string
    requires IsCheck(d)
  {
    match d
    case CheckCreate => "check-create-v1"
    case CheckCash => "check-cash-v1"
    case CheckCancel => "check-cancel-v1"
  }

  function ChannelFundingStem(d: Domain): string
    requires IsChannelFunding(d)
  {
    match d
    case ChannelCreate => "payment-channel-create-v1"
    case ChannelFund => "payment-channel-fund-v1"
  }

  function ChannelSettlingStem(d: Domain): string
    requires IsChannelSettling(d)
  {
    match d
    case ChannelClaim => "payment-channel-claim-v1"
    case ChannelClose => "payment-channel-close-v1"
  }

  function TrustLineStem(d: Domain): string
    requires IsTrustLine(d)
  {
    match d
    case TrustLineSet => "trust-line-set-v1"
    case IssuedTransfer => "issued-transfer-v1"
  }

  function ControlStem(d: Domain): string
    requires IsControl(d)
  {
    match d
    case IssuedPolicy => "issued-asset-policy-set-v1"
    case IssuerControl => "trust-line-issuer-control-v1"
    case Clawback => "issued-clawback-v1"
  }

  function KeyStem(d: Domain): string
    requires IsKey(d)
  {
    match d
    case TicketCreate => "ticket-create-v1"
    case RegularKey => "regular-key-v1"
  }

  function SignerStem(d: Domain): string
    requires IsSigner(d)
  {
    match d
    case SignerList => "signer-list-v1"
    case DepositPreauth => "deposit-preauth-v1"
  }

  function PolicyStem(d: Domain): string
    requires IsPolicy(d)
  {
    match d
    case PolicyV1 => "account-policy-v1"
    case PolicyV2 => "account-policy-v2"
    case PolicyV3 => "account-policy-v3"
  }

  function RegistryName(d: Domain): string
    requires IsRegistry(d)
  {
    match d
    case Hub => "agora-hub-registration-v1"
    case Grant => "agora-grant-registration-v1"
    case Mission => "agora-mission-registration-v1"
    case Passport => "agora-passport-attestation-v1"
    case Treasury => "agora-treasury-disbursement-v1"
    case Vesting => "agora-vesting-unlock-v1"
  }

  const DRC_PREFIX := "agora-trident-drc-"

  function DrcStem(d: Domain): string
    requires !IsBase(d) && !IsRegistry(d)
  {
    if IsOffer(d) then OfferStem(d)
    else if IsEscrow(d) then EscrowStem(d)
    else if IsCheck(d) then CheckStem(d)
    else if IsChannelFunding(d) then ChannelFundingStem(d)
    else if IsChannelSettling(d) then ChannelSettlingStem(d)
    else if IsTrustLine(d) then TrustLineStem(d)
    else if IsControl(d) then ControlStem(d)
    else if IsKey(d) then KeyStem(d)
    else if IsSigner(d) then SignerStem(d)
    else PolicyStem(d)
  }

  function DomainName(d: Domain): string
  {
    if IsBase(d) then BaseName(d) else if IsRegistry(d) then RegistryName(d) else DRC_PREFIX + DrcStem(d)
  }

  const COVENANT_BOUND_DOMAIN := "agora-tlt-covenant-sighash-bound-v1"
  const COVENANT_SIGHASH_DOMAIN := "agora-tlt-covenant-sighash-v1"

  function Ascii(s: string): Bytes { seq(|s|, i requires 0 <= i < |s| => s[i] as int % 256) }

  // ---------------------------------------------------------------------------
  // Bodies
  // ---------------------------------------------------------------------------

  const U8 := One(UInt(1))
  const U32 := One(UInt(4))
  const U64 := One(UInt(8))
  const ADDRESS := One(Fixed(20))
  const HASH := One(Fixed(32))
  const BYTES := One(Vec)
  const OPT32 := Maybe(4)
  const OPT64 := Maybe(8)

  /** The name that some DRC bodies start with. */
  function TypeTag(d: Domain): Option<string>
  {
    match d
    case OfferCreate => Some("drc_offer_create")
    case OfferCancel => Some("drc_offer_cancel")
    case EscrowCreate => Some("drc_escrow_create")
    case EscrowFinish => Some("drc_escrow_finish")
    case EscrowCancel => Some("drc_escrow_cancel")
    case CheckCreate => Some("drc_check_create")
    case CheckCash => Some("drc_check_cash")
    case CheckCancel => Some("drc_check_cancel")
    case ChannelCreate => Some("drc_payment_channel_create")
    case ChannelFund => Some("drc_payment_channel_fund")
    case ChannelClaim => Some("drc_payment_channel_claim")
    case ChannelClose => Some("drc_payment_channel_close")
    case TicketCreate => Some("drc_ticket_create")
    case RegularKey => Some("drc_regular_key")
    case SignerList => Some("drc_signer_list")
    case DepositPreauth => Some("drc_deposit_preauth")
    case PolicyV2 => Some("drc_account_policy")
    case PolicyV3 => Some("drc_account_policy")
    case _ => None
  }

  /** Issued-asset bodies end with an empty option. */
  predicate EndsWithNone(d: Domain)
  {
    d.TrustLineSet? || d.IssuedTransfer? || d.IssuedPolicy? || d.IssuerControl? || d.Clawback?
  }

  /** Finish, cancel and cash operations name one ledger object. */
  function ObjectSchema(id: string): seq<Field>
  {
    [Field("version", U32), Field("submitter", ADDRESS), Field(id, HASH), Field("fee", U64), Field("nonce", U64)]
  }

  function PolicySchema(): seq<Field>
  {
    [Field("version", U32), Field("account", ADDRESS), Field("action", U8), Field("fee", U64), Field("nonce", U64)]
  }

  function Schema(d: Domain): seq<Field>
    requires !IsRegistry(d)
  {
    match d
    case AccountTransfer =>
      [Field("version", U32), Field("asset", U8), Field("from", ADDRESS), Field("to", ADDRESS), Field("amount", U64),
       Field("fee", U64), Field("nonce", U64)]
    case OvlExecution =>
      [Field("version", U32), Field("from", ADDRESS), Field("to", ADDRESS), Field("value", U64), Field("gasLimit", U64),
       Field("maxFeePerGas", U64), Field("nonce", U64), Field("data", BYTES)]
    case DrcPayment =>
      [Field("version", U32), Field("from", ADDRESS), Field("to", ADDRESS), Field("amount", U64), Field("fee", U64),
       Field("destinationTag", OPT32), Field("sourceTag", OPT32), Field("invoiceId", HASH), Field("nonce", U64),
       Field("lastValidBlueScore", OPT64)]
    case OfferCreate =>
      [Field("version", U32), Field("owner", ADDRESS), Field("takerPays", BookAsset), Field("takerPaysAmount", U64),
       Field("takerGets", BookAsset), Field("takerGetsAmount", U64), Field("fillMode", U8), Field("timeInForce", U8),
       Field("fee", U64), Field("expiresAfterBlueScore", OPT64), Field("nonce", U64)]
    case OfferCancel => ObjectSchema("offerId")
    case EscrowCreate =>
      [Field("version", U32), Field("owner", ADDRESS), Field("recipient", ADDRESS),
       Field("amount", U64), Field("fee", U64),
       Field("destinationTag", OPT32), Field("sourceTag", OPT32), Field("invoiceId", HASH), Field("finishAfter", OPT64),
       Field("cancelAfter", OPT64), Field("nonce", U64)]
    case EscrowFinish => ObjectSchema("escrowId")
    case EscrowCancel => ObjectSchema("escrowId")
    case CheckCreate =>
      [Field("version", U32), Field("owner", ADDRESS), Field("destination", ADDRESS), Field("amount", U64),
       Field("fee", U64), Field("destinationTag", OPT32), Field("sourceTag", OPT32), Field("invoiceId", HASH),
       Field("expiresAfter", OPT64), Field("nonce", U64)]
    case CheckCash => ObjectSchema("checkId")
    case CheckCancel => ObjectSchema("checkId")
    case ChannelCreate =>
      [Field("version", U32), Field("owner", ADDRESS), Field("destination", ADDRESS), Field("amount", U64),
       Field("fee", U64), Field("claimPublicKey", BYTES), Field("settleDelay", U64), Field("destinationTag", OPT32),
       Field("sourceTag", OPT32), Field("invoiceId", HASH), Field("cancelAfter", OPT64), Field("nonce", U64)]
    case ChannelFund =>
      [Field("version", U32), Field("submitter", ADDRESS), Field("channelId", HASH), Field("amount", U64),
       Field("fee", U64), Field("nonce", U64)]
    case ChannelClaim =>
      [Field("version", U32), Field("submitter", ADDRESS), Field("channelId", HASH), Field("cumulativeAuthorized", U64),
       Field("claimSignature", BYTES), Field("fee", U64), Field("nonce", U64)]
    case ChannelClose =>
      [Field("version", U32), Field("submitter", ADDRESS), Field("channelId", HASH), Field("closeKind", U8),
       Field("fee", U64), Field("nonce", U64)]
    case TrustLineSet =>
      [Field("version", U32), Field("holder", ADDRESS), Field("issuer", ADDRESS), Field("currency", ADDRESS),
       Field("limit", U64), Field("fee", U64), Field("nonce", U64)]
    case IssuedTransfer =>
      [Field("version", U32), Field("sender", ADDRESS), Field("recipient", ADDRESS), Field("issuer", ADDRESS),
       Field("currency", ADDRESS), Field("amount", U64), Field("fee", U64), Field("destinationTag", OPT32),
       Field("sourceTag", OPT32), Field("invoiceId", HASH), Field("nonce", U64)]
    case IssuedPolicy =>
      [Field("version", U32), Field("issuer", ADDRESS), Field("currency", ADDRESS), Field("action", U8),
       Field("fee", U64), Field("nonce", U64)]
    case IssuerControl =>
      [Field("version", U32), Field("issuer", ADDRESS), Field("holder", ADDRESS), Field("currency", ADDRESS),
       Field("action", U8), Field("fee", U64), Field("nonce", U64)]
    case Clawback =>
      [Field("version", U32), Field("issuer", ADDRESS), Field("holder", ADDRESS), Field("currency", ADDRESS),
       Field("amount", U64), Field("fee", U64), Field("nonce", U64)]
    case TicketCreate => [Field("version", U32), Field("owner", ADDRESS), Field("nonce", U64), Field("fee", U64)]
    case RegularKey =>
      [Field("version", U32), Field("owner", ADDRESS), Field("action", U8), Field("regularKey", ADDRESS),
       Field("regularKeyPublicKey", BYTES), Field("nonce", U64), Field("fee", U64)]
    case SignerList =>
      [Field("version", U32), Field("owner", ADDRESS), Field("action", U8), Field("quorum", U32),
       Field("entries", Table([Fixed(20), UInt(2)])), Field("nonce", U64), Field("fee", U64)]
    case DepositPreauth =>
      [Field("version", U32), Field("owner", ADDRESS), Field("action", U8), Field("authorizedSource", ADDRESS),
       Field("nonce", U64), Field("fee", U64)]
    case PolicyV1 => PolicySchema()
    case PolicyV2 => PolicySchema()
    case PolicyV3 => PolicySchema()
    case Transfer =>
      [Field("version", U32), Field("inputs", Table([Fixed(32), UInt(4)])),
       Field("outputs", Table([UInt(8), Fixed(20)])),
       Field("nonce", U64)]
    case Checkpoint =>
      [Field("chainId", BYTES), Field("genesis", HASH), Field("consensusPolicyHash", HASH),
       Field("stateTransitionVersion", BYTES), Field("blueScore", U64), Field("blockHash", HASH),
       Field("stateRoot", HASH), Field("validatorEpoch", U64)]
  }

  function CovenantSchema(): seq<Field>
  {
    [Field("version", U32), Field("inputs", Table([Fixed(32), UInt(4), UInt(4)])),
     Field("outputs", Table([UInt(8), Vec])),
     Field("lockTime", U64), Field("nonce", U64)]
  }

  // ---------------------------------------------------------------------------
  // Preimages
  // ---------------------------------------------------------------------------

  datatype Message =
    | Bound(domain: Domain, chainId: Bytes, genesis: Bytes, vs: seq<Value>)
    | Registry(domain: Domain, chainId: Bytes, genesis: Bytes, body: Bytes)
    | Attestation(vs: seq<Value>)
    | Covenant(chainId: Bytes, genesis: Bytes, vs: seq<Value>)

  function Opening(d: Domain): Bytes
  {
    var tag := TypeTag(d);
    if tag.Some? then EncodeVec(Ascii(tag.value)) else []
  }

  function Ending(d: Domain): Bytes { if EndsWithNone(d) then [0] else [] }

  function Body(d: Domain, vs: seq<Value>): Option<Bytes>
    requires !IsRegistry(d) && HasFields(Schema(d), vs)
  {
    var fields := EncodeAll(Schema(d), vs);
    if fields.Some? then Some(Opening(d) + fields.value + Ending(d)) else None
  }

  /** `encodeBoundEnvelope`. */
  function BoundEnvelope(domain: Bytes, chainId: Bytes, genesis: Bytes, body: Option<Bytes>): Option<Bytes>
  {
    if |genesis| == 32 && body.Some? then Some(EncodeVec(domain) + EncodeVec(chainId) + genesis + body.value) else None
  }

  function CovenantSighash(vs: seq<Value>): Option<Bytes>
    requires HasFields(CovenantSchema(), vs)
  {
    Join(Some(EncodeVec(Ascii(COVENANT_SIGHASH_DOMAIN))), EncodeAll(CovenantSchema(), vs))
  }

  /** The outer covenant domain is written without a length. */
  function CovenantBound(chainId: Bytes, genesis: Bytes, sighash: Option<Bytes>): Option<Bytes>
  {
    if |genesis| == 32 && sighash.Some?
    then Some(Ascii(COVENANT_BOUND_DOMAIN) + EncodeVec(chainId) + genesis + EncodeVec(sighash.value))
    else None
  }

  predicate WellTyped(m: Message)
  {
    match m
    case Bound(d, _, _, vs) => !IsRegistry(d) && !d.Checkpoint? && HasFields(Schema(d), vs)
    case Registry(d, _, _, _) => IsRegistry(d)
    case Attestation(vs) => HasFields(Schema(Checkpoint), vs)
    case Covenant(_, _, vs) => HasFields(CovenantSchema(), vs)
  }

  function Preimage(m: Message): Option<Bytes>
    requires WellTyped(m)
  {
    match m
    case Bound(d, chainId, genesis, vs) => BoundEnvelope(Ascii(DomainName(d)), chainId, genesis, Body(d, vs))
    case Registry(d, chainId, genesis, body) => BoundEnvelope(Ascii(DomainName(d)), chainId, genesis, Some(body))
    case Attestation(vs) => Join(Some(EncodeVec(Ascii(DomainName(Checkpoint)))), EncodeAll(Schema(Checkpoint), vs))
    case Covenant(chainId, genesis, vs) => CovenantBound(chainId, genesis, CovenantSighash(vs))
  }

  // ---------------------------------------------------------------------------
  // Domains are told apart by their length and three letters
  // ---------------------------------------------------------------------------

  datatype Key = Key(length: int, last: int, fourth: int, eleventh: int)

  function KeyOf(s: string): Key
  {
    var n := |s|;
    if n < 11 then Key(n, 0, 0, 0) else Key(n, s[n - 1] as int % 256, s[n - 4] as int % 256, s[n - 11] as int % 256)
  }

  function Named(k: Key): Domain
  {
    if k.length == 11 then Transfer
    else if k.length == 23 then Vesting
    else if k.length == 25 then Hub
    else if k.length == 27 then
      (if k.last == '1' as int then (if k.fourth == 'n' as int then Grant else Checkpoint) else AccountTransfer)
    else if k.length == 28 then DrcPayment
    else if k.length == 29 then
      (if k.eleventh == 'e' as int then Passport else Mission)
    else if k.length == 30 then
      (if k.fourth == 'n' as int then OvlExecution else Treasury)
    else if k.length == 31 then CheckCash
    else if k.length == 32 then
      (if k.fourth == 't' as int then SignerList else RegularKey)
    else if k.length == 33 then
      (if k.fourth == 'e' as int then (if k.eleventh == 'k' as int then CheckCreate else OfferCreate)
       else if k.eleventh == 'k' as int then CheckCancel else OfferCancel)
    else if k.length == 34 then
      (if k.fourth == 'e' as int then (if k.eleventh == 't' as int then TicketCreate else EscrowCreate)
       else if k.fourth == 'h' as int then EscrowFinish else EscrowCancel)
    else if k.length == 35 then
      (if k.last == '1' as int then (if k.fourth == 't' as int then TrustLineSet else PolicyV1)
       else if k.last == '2' as int then PolicyV2 else PolicyV3)
    else if k.length == 36 then
      (if k.fourth == 'h' as int then DepositPreauth else if k.fourth == 'k' as int then Clawback else IssuedTransfer)
    else if k.length == 41 then ChannelFund
    else if k.length == 42 then
      (if k.fourth == 'e' as int then ChannelClose else ChannelClaim)
    else if k.length == 43 then ChannelCreate
    else if k.length == 44 then IssuedPolicy
    else IssuerControl
  }

  predicate IsNamed(d: Domain, s: string) { Named(KeyOf(s)) == d && 11 <= |s| < 256 }

  lemma SameKey(s: string, t: string)
    requires Ascii(s) == Ascii(t)
    ensures KeyOf(s) == KeyOf(t)
  {
    var n := |Ascii(s)|;
    if n >= 11 {
      assert Ascii(s)[n - 1] == Ascii(t)[n - 1] && Ascii(s)[n - 4] == Ascii(t)[n - 4];
      assert Ascii(s)[n - 11] == Ascii(t)[n - 11];
    }
  }

  /** The key of a DRC domain, read off its stem. */
  predicate IsStem(d: Domain, stem: string)
  {
    11 <= |stem| < 200 && Named(KeyOf(stem).(length := 18 + |stem|)) == d
  }

  lemma StemNamed(d: Domain, stem: string)
    requires IsStem(d, stem)
    ensures IsNamed(d, DRC_PREFIX + stem)
  {
  }

  lemma BaseNamed(d: Domain)
    requires IsBase(d)
    ensures IsNamed(d, BaseName(d))
  {
  }

  lemma RegistryNamed(d: Domain)
    requires IsRegistry(d)
    ensures IsNamed(d, RegistryName(d))
  {
  }

  lemma OfferNamed(d: Domain)
    requires IsOffer(d)
    ensures IsStem(d, OfferStem(d))
  {
  }

  lemma EscrowNamed(d: Domain)
    requires IsEscrow(d)
    ensures IsStem(d, EscrowStem(d))
  {
  }

  lemma CheckNamed(d: Domain)
    requires IsCheck(d)
    ensures IsStem(d, CheckStem(d))
  {
  }

  lemma ChannelFundingNamed(d: Domain)
    requires IsChannelFunding(d)
    ensures IsStem(d, ChannelFundingStem(d))
  {
  }

  lemma ChannelSettlingNamed(d: Domain)
    requires IsChannelSettling(d)
    ensures IsStem(d, ChannelSettlingStem(d))
  {
  }

  lemma TrustLineNamed(d: Domain)
    requires IsTrustLine(d)
    ensures IsStem(d, TrustLineStem(d))
  {
  }

  lemma ControlNamed(d: Domain)
    requires IsControl(d)
    ensures IsStem(d, ControlStem(d))
  {
  }

  lemma KeyNamed(d: Domain)
    requires IsKey(d)
    ensures IsStem(d, KeyStem(d))
  {
  }

  lemma SignerNamed(d: Domain)
    requires IsSigner(d)
    ensures IsStem(d, SignerStem(d))
  {
  }

  lemma PolicyNamed(d: Domain)
    requires IsPolicy(d)
    ensures IsStem(d, PolicyStem(d))
  {
  }

  lemma DrcNamed(d: Domain)
    requires !IsBase(d) && !IsRegistry(d)
    ensures IsStem(d, DrcStem(d))
  {
    hide IsStem, OfferStem, EscrowStem, CheckStem, ChannelFundingStem, ChannelSettlingStem;
    hide TrustLineStem, ControlStem, KeyStem, SignerStem, PolicyStem;
    if IsOffer(d) {
      OfferNamed(d);
    } else if IsEscrow(d) {
      EscrowNamed(d);
    } else if IsCheck(d) {
      CheckNamed(d);
    } else if IsChannelFunding(d) {
      ChannelFundingNamed(d);
    } else if IsChannelSettling(d) {
      ChannelSettlingNamed(d);
    } else if IsTrustLine(d) {
      TrustLineNamed(d);
    } else if IsControl(d) {
      ControlNamed(d);
    } else if IsKey(d) {
      KeyNamed(d);
    } else if IsSigner(d) {
      SignerNamed(d);
    } else {
      PolicyNamed(d);
    }
  }

  lemma DomainNamed(d: Domain)
    ensures IsNamed(d, DomainName(d))
  {
    hide IsNamed, IsStem, BaseName, RegistryName, DrcStem;
    if IsBase(d) {
      BaseNamed(d);
    } else if IsRegistry(d) {
      RegistryNamed(d);
    } else {
      DrcNamed(d);
      StemNamed(d, DrcStem(d));
    }
  }

  /** No two lanes share a domain. */
  lemma DomainsDistinct(d: Domain, d': Domain)
    requires Ascii(DomainName(d)) == Ascii(DomainName(d'))
    ensures d == d'
  {
    hide DomainName, Named, KeyOf, Ascii;
    SameKey(DomainName(d), DomainName(d'));
    DomainNamed(d);
    DomainNamed(d');
  }
}
