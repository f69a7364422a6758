/**
 The records that are signed, each written out byte by byte: the domain, the network, the type tag, every
 field in order with its width, and the empty option at the end of the issued-asset records. The lanes'
 encoders produce exactly these bytes.
 */
module Layouts {
  import opened Borsh
  import opened Bytes
  import opened Common
  import opened Lanes
  import opened LanesTheorems

  datatype Book = Native | Token(issuer: Bytes, currency: Bytes)

  datatype Signer = Signer(address: Bytes, weight: int)

  datatype Spend = Spend(txId: Bytes, index: int, sequence: int)

  datatype Pay = Pay(value: int, script: Bytes)

  datatype Record =
    | AccountTransferTx(version: int, asset: int, from: Bytes, to: Bytes, amount: int, fee: int, nonce: int)
    | OvlExecutionTx(version: int, from: Bytes, to: Bytes, value: int, gasLimit: int, maxFeePerGas: int, nonce: int,
                     data: Bytes)
    | DrcPaymentTx(version: int, from: Bytes, to: Bytes, amount: int, fee: int, destinationTag: Option<int>,
                   sourceTag: Option<int>, invoiceId: Bytes, nonce: int, lastValidBlueScore: Option<int>)
    | OfferCreateTx(version: int, owner: Bytes, takerPays: Book, takerPaysAmount: int, takerGets: Book,
                    takerGetsAmount: int, fillMode: int, timeInForce: int, fee: int,
                    expiresAfterBlueScore: Option<int>, nonce: int)
    | OfferCancelTx(version: int, submitter: Bytes, offerId: Bytes, fee: int, nonce: int)
    | EscrowCreateTx(version: int, owner: Bytes, recipient: Bytes, amount: int, fee: int, destinationTag: Option<int>,
                     sourceTag: Option<int>, invoiceId: Bytes, finishAfter: Option<int>, cancelAfter: Option<int>,
                     nonce: int)
    | EscrowFinishTx(version: int, submitter: Bytes, escrowId: Bytes, fee: int, nonce: int)
    | EscrowCancelTx(version: int, submitter: Bytes, escrowId: Bytes, fee: int, nonce: int)
    | CheckCreateTx(version: int, owner: Bytes, destination: Bytes, amount: int, fee: int,
                    destinationTag: Option<int>, sourceTag: Option<int>, invoiceId: Bytes, expiresAfter: Option<int>,
                    nonce: int)
    | CheckCashTx(version: int, submitter: Bytes, checkId: Bytes, fee: int, nonce: int)
    | CheckCancelTx(version: int, submitter: Bytes, checkId: Bytes, fee: int, nonce: int)
    | ChannelCreateTx(version: int, owner: Bytes, destination: Bytes, amount: int, fee: int, claimPublicKey: Bytes,
                      settleDelay: int, destinationTag: Option<int>, sourceTag: Option<int>, invoiceId: Bytes,
                      cancelAfter: Option<int>, nonce: int)
    | ChannelFundTx(version: int, submitter: Bytes, channelId: Bytes, amount: int, fee: int, nonce: int)
    | ChannelClaimTx(version: int, submitter: Bytes, channelId: Bytes, cumulativeAuthorized: int,
                     claimSignature: Bytes, fee: int, nonce: int)
    | ChannelCloseTx(version: int, submitter: Bytes, channelId: Bytes, closeKind: int, fee: int, nonce: int)
    | TrustLineSetTx(version: int, holder: Bytes, issuer: Bytes, currency: Bytes, limit: int, fee: int, nonce: int)
    | IssuedTransferTx(version: int, sender: Bytes, recipient: Bytes, issuer: Bytes, currency: Bytes, amount: int,
                       fee: int, destinationTag: Option<int>, sourceTag: Option<int>, invoiceId: Bytes, nonce: int)
    | IssuedPolicyTx(version: int, issuer: Bytes, currency: Bytes, action: int, fee: int, nonce: int)
    | IssuerControlTx(version: int, issuer: Bytes, holder: Bytes, currency: Bytes, action: int, fee: int, nonce: int)
    | ClawbackTx(version: int, issuer: Bytes, holder: Bytes, currency: Bytes, amount: int, fee: int, nonce: int)
    | TicketCreateTx(version: int, owner: Bytes, nonce: int, fee: int)
    | RegularKeyTx(version: int, owner: Bytes, action: int, regularKey: Bytes, regularKeyPublicKey: Bytes, nonce: int,
                   fee: int)
    | SignerListTx(version: int, owner: Bytes, action: int, quorum: int, entries: seq<Signer>, nonce: int, fee: int)
    | DepositPreauthTx(version: int, owner: Bytes, action: int, authorizedSource: Bytes, nonce: int, fee: int)
    | PolicyV1Tx(version: int, account: Bytes, action: int, fee: int, nonce: int)
    | PolicyV2Tx(version: int, account: Bytes, action: int, fee: int, nonce: int)
    | PolicyV3Tx(version: int, account: Bytes, action: int, fee: int, nonce: int)

  datatype Input = Input(txId: Bytes, index: int)

  datatype Output = Output(value: int, address: Bytes)

  datatype TransferRecord = TransferRecord(version: int, inputs: seq<Input>, outputs: seq<Output>, nonce: int)

  datatype CheckpointRecord =
    CheckpointRecord(chainId: Bytes, genesis: Bytes, consensusPolicyHash: Bytes, stateTransitionVersion: Bytes,
                     blueScore: int, blockHash: Bytes, stateRoot: Bytes, validatorEpoch: int)

  datatype CovenantRecord =
    CovenantRecord(version: int, inputs: seq<Spend>, outputs: seq<Pay>, lockTime: int, nonce: int)

  // ---------------------------------------------------------------------------
  // Pieces: a field's value, and its bytes unless its length is refused
  // ---------------------------------------------------------------------------

  datatype Piece = Piece(value: Value, bytes: Option<Bytes>)

  function OfSize(size: nat, b: Bytes): Option<Bytes> { if |b| == size then Some(b) else None }

  /** Little-endian in `width` bytes. */
  function Int(width: nat, n: int): Piece { Piece(Plain(Num(n)), Some(Le(width, n))) }

  function Exact(size: nat, b: Bytes): Piece { Piece(Plain(Raw(b)), OfSize(size, b)) }

  /** Behind its length in four bytes. */
  function Counted(b: Bytes): Piece { Piece(Plain(Raw(b)), Some(Le(4, |b|) + b)) }

  /** A zero byte, or a one and the number. */
  function Optional(width: nat, n: Option<int>): Piece
  {
    if n.None? then Piece(Absent, Some([0])) else Piece(Present(n.value), Some([1] + Le(width, n.value)))
  }

  function Side(b: Book): Piece
  {
    match b
    case Native => Piece(NativeDrc, Some([1]))
    case Token(issuer, currency) =>
      Piece(Issued(issuer, currency), Flat([Some([2]), OfSize(20, issuer), OfSize(20, currency)]))
  }

  /** The parts one after another, or nothing if one was refused. */
  function Flat(parts: seq<Option<Bytes>>): Option<Bytes>
  {
    if |parts| == 0 then Some([])
    else if parts[0].None? || Flat(parts[1..]).None? then None
    else Some(parts[0].value + Flat(parts[1..]).value)
  }

  // Counted tables

  function SignerRows(xs: seq<Signer>): seq<seq<Cell>>
  {
    if |xs| == 0 then [] else [[Raw(xs[0].address), Num(xs[0].weight)]] + SignerRows(xs[1..])
  }

  function SignerParts(xs: seq<Signer>): seq<Option<Bytes>>
  {
    if |xs| == 0 then [] else [OfSize(20, xs[0].address), Some(Le(2, xs[0].weight))] + SignerParts(xs[1..])
  }

  function Signers(xs: seq<Signer>): Piece
  {
    Piece(Rows(SignerRows(xs)), Flat([Some(Le(4, |xs|))] + SignerParts(xs)))
  }

  function SpendRows(xs: seq<Spend>): seq<seq<Cell>>
  {
    if |xs| == 0 then [] else [[Raw(xs[0].txId), Num(xs[0].index), Num(xs[0].sequence)]] + SpendRows(xs[1..])
  }

  function SpendParts(xs: seq<Spend>): seq<Option<Bytes>>
  {
    if |xs| == 0 then []
    else [OfSize(32, xs[0].txId), Some(Le(4, xs[0].index)), Some(Le(4, xs[0].sequence))] + SpendParts(xs[1..])
  }

  function Spends(xs: seq<Spend>): Piece
  {
    Piece(Rows(SpendRows(xs)), Flat([Some(Le(4, |xs|))] + SpendParts(xs)))
  }

  function PayRows(xs: seq<Pay>): seq<seq<Cell>>
  {
    if |xs| == 0 then [] else [[Num(xs[0].value), Raw(xs[0].script)]] + PayRows(xs[1..])
  }

  function PayParts(xs: seq<Pay>): seq<Option<Bytes>>
  {
    if |xs| == 0 then []
    else [Some(Le(8, xs[0].value)), Some(Le(4, |xs[0].script|) + xs[0].script)] + PayParts(xs[1..])
  }

  function Pays(xs: seq<Pay>): Piece { Piece(Rows(PayRows(xs)), Flat([Some(Le(4, |xs|))] + PayParts(xs))) }

  function InputRows(xs: seq<Input>): seq<seq<Cell>>
  {
    if |xs| == 0 then [] else [[Raw(xs[0].txId), Num(xs[0].index)]] + InputRows(xs[1..])
  }

  function InputParts(xs: seq<Input>): seq<Option<Bytes>>
  {
    if |xs| == 0 then [] else [OfSize(32, xs[0].txId), Some(Le(4, xs[0].index))] + InputParts(xs[1..])
  }

  function Inputs(xs: seq<Input>): Piece { Piece(Rows(InputRows(xs)), Flat([Some(Le(4, |xs|))] + InputParts(xs))) }

  function OutputRows(xs: seq<Output>): seq<seq<Cell>>
  {
    if |xs| == 0 then [] else [[Num(xs[0].value), Raw(xs[0].address)]] + OutputRows(xs[1..])
  }

  function OutputParts(xs: seq<Output>): seq<Option<Bytes>>
  {
    if |xs| == 0 then [] else [Some(Le(8, xs[0].value)), OfSize(20, xs[0].address)] + OutputParts(xs[1..])
  }

  function Outputs(xs: seq<Output>): Piece
  {
    Piece(Rows(OutputRows(xs)), Flat([Some(Le(4, |xs|))] + OutputParts(xs)))
  }

  // ---------------------------------------------------------------------------
  // Records
  // ---------------------------------------------------------------------------

  /** `hashed` records are signed by the hash of their bytes; `open` ones end with an empty option. */
  datatype Wire =
    Wire(lane: Domain, domain: string, hashed: bool, tag: Option<string>, pieces: seq<Piece>, open: bool)

  function Plainly(lane: Domain, domain: string, pieces: seq<Piece>): Wire
  {
    Wire(lane, domain, false, None, pieces, false)
  }

  function Drc(stem: string): string { "agora-trident-drc-" + stem }

  function Tagged(lane: Domain, stem: string, tag: string, pieces: seq<Piece>): Wire
  {
    Wire(lane, Drc(stem), false, Some(tag), pieces, false)
  }

  function IssuedAsset(lane: Domain, stem: string, hashed: bool, pieces: seq<Piece>): Wire
  {
    Wire(lane, Drc(stem), hashed, None, pieces, true)
  }

  /** Finish, cancel and cash records name a ledger object. */
  function OnObject(version: int, submitter: Bytes, id: Bytes, fee: int, nonce: int): seq<Piece>
  {
    [Int(4, version), Exact(20, submitter), Exact(32, id), Int(8, fee), Int(8, nonce)]
  }

  function Policy(version: int, account: Bytes, action: int, fee: int, nonce: int): seq<Piece>
  {
    [Int(4, version), Exact(20, account), Int(1, action), Int(8, fee), Int(8, nonce)]
  }

  function BasicWire(r: Record): Wire
    requires r.AccountTransferTx? || r.OvlExecutionTx? || r.DrcPaymentTx?
  {
    match r
    case AccountTransferTx(version, asset, from, to, amount, fee, nonce) =>
      Plainly(AccountTransfer, "agora-trident-account-tx-v2",
              [Int(4, version), Int(1, asset), Exact(20, from), Exact(20, to), Int(8, amount), Int(8, fee),
               Int(8, nonce)])
    case OvlExecutionTx(version, from, to, value, gasLimit, maxFeePerGas, nonce, data) =>
      Plainly(OvlExecution, "agora-trident-ovl-execution-v1",
              [Int(4, version), Exact(20, from), Exact(20, to), Int(8, value), Int(8, gasLimit), Int(8, maxFeePerGas),
               Int(8, nonce), Counted(data)])
    case DrcPaymentTx(version, from, to, amount, fee, destinationTag, sourceTag, invoiceId, nonce, lastValid) =>
      Plainly(DrcPayment, "agora-trident-drc-payment-v4",
              [Int(4, version), Exact(20, from), Exact(20, to), Int(8, amount), Int(8, fee),
               Optional(4, destinationTag), Optional(4, sourceTag), Exact(32, invoiceId), Int(8, nonce),
               Optional(8, lastValid)])
  }

  function OfferWire(r: Record): Wire
    requires r.OfferCreateTx? || r.OfferCancelTx?
  {
    match r
    case OfferCreateTx(version, owner, pays, paysAmount, gets, getsAmount, fillMode, timeInForce, fee, expires,
                       nonce) =>
      Tagged(OfferCreate, "offer-create-v1", "drc_offer_create",
             [Int(4, version), Exact(20, owner), Side(pays), Int(8, paysAmount), Side(gets), Int(8, getsAmount),
              Int(1, fillMode), Int(1, timeInForce), Int(8, fee), Optional(8, expires), Int(8, nonce)])
    case OfferCancelTx(version, submitter, id, fee, nonce) =>
      Tagged(OfferCancel, "offer-cancel-v1", "drc_offer_cancel", OnObject(version, submitter, id, fee, nonce))
  }

  function EscrowWire(r: Record): Wire
    requires r.EscrowCreateTx? || r.EscrowFinishTx? || r.EscrowCancelTx?
  {
    match r
    case EscrowCreateTx(version, owner, recipient, amount, fee, destinationTag, sourceTag, invoiceId, finish, cancel,
                        nonce) =>
      Tagged(EscrowCreate, "escrow-create-v1", "drc_escrow_create",
             [Int(4, version), Exact(20, owner), Exact(20, recipient), Int(8, amount), Int(8, fee),
              Optional(4, destinationTag), Optional(4, sourceTag), Exact(32, invoiceId), Optional(8, finish),
              Optional(8, cancel), Int(8, nonce)])
    case EscrowFinishTx(version, submitter, id, fee, nonce) =>
      Tagged(EscrowFinish, "escrow-finish-v1", "drc_escrow_finish", OnObject(version, submitter, id, fee, nonce))
    case EscrowCancelTx(version, submitter, id, fee, nonce) =>
      Tagged(EscrowCancel, "escrow-cancel-v1", "drc_escrow_cancel", OnObject(version, submitter, id, fee, nonce))
  }

  function CheckWire(r: Record): Wire
    requires r.CheckCreateTx? || r.CheckCashTx? || r.CheckCancelTx?
  {
    match r
    case CheckCreateTx(version, owner, destination, amount, fee, destinationTag, sourceTag, invoiceId, expires,
                       nonce) =>
      Tagged(CheckCreate, "check-create-v1", "drc_check_create",
             [Int(4, version), Exact(20, owner), Exact(20, destination), Int(8, amount), Int(8, fee),
              Optional(4, destinationTag), Optional(4, sourceTag), Exact(32, invoiceId), Optional(8, expires),
              Int(8, nonce)])
    case CheckCashTx(version, submitter, id, fee, nonce) =>
      Tagged(CheckCash, "check-cash-v1", "drc_check_cash", OnObject(version, submitter, id, fee, nonce))
    case CheckCancelTx(version, submitter, id, fee, nonce) =>
      Tagged(CheckCancel, "check-cancel-v1", "drc_check_cancel", OnObject(version, submitter, id, fee, nonce))
  }

  function ChannelFundingWire(r: Record): Wire
    requires r.ChannelCreateTx? || r.ChannelFundTx?
  {
    match r
    case ChannelCreateTx(version, owner, destination, amount, fee, key, settleDelay, destinationTag, sourceTag,
                         invoiceId, cancel, nonce) =>
      Tagged(ChannelCreate, "payment-channel-create-v1", "drc_payment_channel_create",
             [Int(4, version), Exact(20, owner), Exact(20, destination), Int(8, amount), Int(8, fee), Counted(key),
              Int(8, settleDelay), Optional(4, destinationTag), Optional(4, sourceTag), Exact(32, invoiceId),
              Optional(8, cancel), Int(8, nonce)])
    case ChannelFundTx(version, submitter, id, amount, fee, nonce) =>
      Tagged(ChannelFund, "payment-channel-fund-v1", "drc_payment_channel_fund",
             [Int(4, version), Exact(20, submitter), Exact(32, id), Int(8, amount), Int(8, fee), Int(8, nonce)])
  }

  function ChannelSettlingWire(r: Record): Wire
    requires r.ChannelClaimTx? || r.ChannelCloseTx?
  {
    match r
    case ChannelClaimTx(version, submitter, id, authorized, signature, fee, nonce) =>
      Tagged(ChannelClaim, "payment-channel-claim-v1", "drc_payment_channel_claim",
             [Int(4, version), Exact(20, submitter), Exact(32, id), Int(8, authorized), Counted(signature), Int(8, fee),
              Int(8, nonce)])
    case ChannelCloseTx(version, submitter, id, closeKind, fee, nonce) =>
      Tagged(ChannelClose, "payment-channel-close-v1", "drc_payment_channel_close",
             [Int(4, version), Exact(20, submitter), Exact(32, id), Int(1, closeKind), Int(8, fee), Int(8, nonce)])
  }

  function TrustLineWire(r: Record): Wire
    requires r.TrustLineSetTx? || r.IssuedTransferTx?
  {
    match r
    case TrustLineSetTx(version, holder, issuer, currency, limit, fee, nonce) =>
      IssuedAsset(TrustLineSet, "trust-line-set-v1", false,
                  [Int(4, version), Exact(20, holder), Exact(20, issuer), Exact(20, currency), Int(8, limit),
                   Int(8, fee), Int(8, nonce)])
    case IssuedTransferTx(version, sender, recipient, issuer, currency, amount, fee, destinationTag, sourceTag,
                          invoiceId, nonce) =>
      IssuedAsset(IssuedTransfer, "issued-transfer-v1", false,
                  [Int(4, version), Exact(20, sender), Exact(20, recipient), Exact(20, issuer), Exact(20, currency),
                   Int(8, amount), Int(8, fee), Optional(4, destinationTag), Optional(4, sourceTag),
                   Exact(32, invoiceId), Int(8, nonce)])
  }

  function ControlWire(r: Record): Wire
    requires r.IssuedPolicyTx? || r.IssuerControlTx? || r.ClawbackTx?
  {
    match r
    case IssuedPolicyTx(version, issuer, currency, action, fee, nonce) =>
      IssuedAsset(IssuedPolicy, "issued-asset-policy-set-v1", true,
                  [Int(4, version), Exact(20, issuer), Exact(20, currency), Int(1, action), Int(8, fee),
                   Int(8, nonce)])
    case IssuerControlTx(version, issuer, holder, currency, action, fee, nonce) =>
      IssuedAsset(IssuerControl, "trust-line-issuer-control-v1", true,
                  [Int(4, version), Exact(20, issuer), Exact(20, holder), Exact(20, currency), Int(1, action),
                   Int(8, fee), Int(8, nonce)])
    case ClawbackTx(version, issuer, holder, currency, amount, fee, nonce) =>
      IssuedAsset(Clawback, "issued-clawback-v1", true,
                  [Int(4, version), Exact(20, issuer), Exact(20, holder), Exact(20, currency), Int(8, amount),
                   Int(8, fee), Int(8, nonce)])
  }

  function KeyWire(r: Record): Wire
    requires r.TicketCreateTx? || r.RegularKeyTx?
  {
    match r
    case TicketCreateTx(version, owner, nonce, fee) =>
      Tagged(TicketCreate, "ticket-create-v1", "drc_ticket_create",
             [Int(4, version), Exact(20, owner), Int(8, nonce), Int(8, fee)])
    case RegularKeyTx(version, owner, action, key, publicKey, nonce, fee) =>
      Tagged(RegularKey, "regular-key-v1", "drc_regular_key",
             [Int(4, version), Exact(20, owner), Int(1, action), Exact(20, key), Counted(publicKey), Int(8, nonce),
              Int(8, fee)])
  }

  function SignerWire(r: Record): Wire
    requires r.SignerListTx? || r.DepositPreauthTx?
  {
    match r
    case SignerListTx(version, owner, action, quorum, entries, nonce, fee) =>
      Tagged(SignerList, "signer-list-v1", "drc_signer_list",
             [Int(4, version), Exact(20, owner), Int(1, action), Int(4, quorum), Signers(entries), Int(8, nonce),
              Int(8, fee)])
    case DepositPreauthTx(version, owner, action, source, nonce, fee) =>
      Tagged(DepositPreauth, "deposit-preauth-v1", "drc_deposit_preauth",
             [Int(4, version), Exact(20, owner), Int(1, action), Exact(20, source), Int(8, nonce), Int(8, fee)])
  }

  function PolicyWire(r: Record): Wire
    requires r.PolicyV1Tx? || r.PolicyV2Tx? || r.PolicyV3Tx?
  {
    match r
    case PolicyV1Tx(version, account, action, fee, nonce) =>
      Plainly(PolicyV1, Drc("account-policy-v1"), Policy(version, account, action, fee, nonce))
    case PolicyV2Tx(version, account, action, fee, nonce) =>
      Tagged(PolicyV2, "account-policy-v2", "drc_account_policy", Policy(version, account, action, fee, nonce))
    case PolicyV3Tx(version, account, action, fee, nonce) =>
      Tagged(PolicyV3, "account-policy-v3", "drc_account_policy", Policy(version, account, action, fee, nonce))
  }

  function WireOf(r: Record): Wire
  {
    if r.AccountTransferTx? || r.OvlExecutionTx? || r.DrcPaymentTx? then BasicWire(r)
    else if r.OfferCreateTx? || r.OfferCancelTx? then OfferWire(r)
    else if r.EscrowCreateTx? || r.EscrowFinishTx? || r.EscrowCancelTx? then EscrowWire(r)
    else if r.CheckCreateTx? || r.CheckCashTx? || r.CheckCancelTx? then CheckWire(r)
    else if r.ChannelCreateTx? || r.ChannelFundTx? then ChannelFundingWire(r)
    else if r.ChannelClaimTx? || r.ChannelCloseTx? then ChannelSettlingWire(r)
    else if r.TrustLineSetTx? || r.IssuedTransferTx? then TrustLineWire(r)
    else if r.IssuedPolicyTx? || r.IssuerControlTx? || r.ClawbackTx? then ControlWire(r)
    else if r.TicketCreateTx? || r.RegularKeyTx? then KeyWire(r)
    else if r.SignerListTx? || r.DepositPreauthTx? then SignerWire(r)
    else PolicyWire(r)
  }

  function TransferWire(t: TransferRecord): Wire
  {
    Plainly(Transfer, "agora-tx-v1", [Int(4, t.version), Inputs(t.inputs), Outputs(t.outputs), Int(8, t.nonce)])
  }

  function CheckpointPieces(c: CheckpointRecord): seq<Piece>
  {
    [Counted(c.chainId), Exact(32, c.genesis), Exact(32, c.consensusPolicyHash), Counted(c.stateTransitionVersion),
     Int(8, c.blueScore), Exact(32, c.blockHash), Exact(32, c.stateRoot), Int(8, c.validatorEpoch)]
  }

  function CovenantPieces(c: CovenantRecord): seq<Piece>
  {
    [Int(4, c.version), Spends(c.inputs), Pays(c.outputs), Int(8, c.lockTime), Int(8, c.nonce)]
  }

  function ValuesOf(ps: seq<Piece>): seq<Value> { if |ps| == 0 then [] else [ps[0].value] + ValuesOf(ps[1..]) }

  function BytesOf(ps: seq<Piece>): seq<Option<Bytes>>
  {
    if |ps| == 0 then [] else [ps[0].bytes] + BytesOf(ps[1..])
  }

  function Text(s: string): Option<Bytes> { Some(Le(4, |s|) + Ascii(s)) }

  /** The tag if there is one, the fields, and the empty option if there is one. */
  function BodyParts(w: Wire): seq<Option<Bytes>>
  {
    (if w.tag.Some? then [Text(w.tag.value)] else []) + BytesOf(w.pieces) + if w.open then [Some([0])] else []
  }

  function Written(w: Wire, chainId: Bytes, genesis: Bytes): Option<Bytes>
  {
    Flat([Text(w.domain), Some(Le(4, |chainId|) + chainId), OfSize(32, genesis)] + BodyParts(w))
  }

  function MessageOf(w: Wire, chainId: Bytes, genesis: Bytes): Message
  {
    Bound(w.lane, chainId, genesis, ValuesOf(w.pieces))
  }

  // ---------------------------------------------------------------------------
  // Piece by piece
  // ---------------------------------------------------------------------------

  predicate IsPiece(k: Kind, p: Piece) { HasKind(k, p.value) && EncodeValue(k, p.value) == p.bytes }

  ghost predicate Matches(fs: seq<Field>, ps: seq<Piece>)
  {
    |fs| == |ps| && forall i :: 0 <= i < |fs| ==> IsPiece(fs[i].kind, ps[i])
  }

  lemma FlatThree(a: Option<Bytes>, b: Option<Bytes>, c: Option<Bytes>)
    ensures Flat([a, b, c]) == Join(Join(a, b), c)
  {
    assert [a, b, c][1..] == [b, c] && [b, c][1..] == [c] && [c][1..] == [];
    assert Flat([c]) == if c.Some? then Some(c.value + []) else None;
    assert c.Some? ==> c.value + [] == c.value;
    if a.Some? && b.Some? && c.Some? {
      assert a.value + b.value + c.value == a.value + (b.value + c.value);
    }
  }

  lemma SidePiece(b: Book)
    ensures IsPiece(BookAsset, Side(b))
  {
    if b.Token? {
      FlatThree(Some([2]), OfSize(20, b.issuer), OfSize(20, b.currency));
    }
  }

  lemma {:induction false} FlatAppend(a: seq<Option<Bytes>>, b: seq<Option<Bytes>>)
    ensures Flat(a + b) == Join(Flat(a), Flat(b))
  {
    if |a| == 0 {
      assert a + b == b;
      assert Flat(b).Some? ==> [] + Flat(b).value == Flat(b).value;
    } else {
      FlatAppend(a[1..], b);
      assert (a + b)[0] == a[0] && (a + b)[1..] == a[1..] + b;
      if a[0].Some? && Flat(a[1..]).Some? && Flat(b).Some? {
        Assoc(a[0].value, Flat(a[1..]).value, Flat(b).value);
      }
    }
  }

  lemma FlatOne(a: Option<Bytes>)
    ensures Flat([a]) == a
  {
    assert [a][1..] == [];
    assert a.Some? ==> a.value + [] == a.value;
  }

  lemma CountFirst(n: nat, rest: seq<Option<Bytes>>)
    ensures Flat([Some(Le(4, n))] + rest) == Join(Some(Le(4, n)), Flat(rest))
  {
    FlatAppend([Some(Le(4, n))], rest);
    FlatOne(Some(Le(4, n)));
  }

  lemma {:induction false} SignerTable(xs: seq<Signer>)
    ensures HasRows([Fixed(20), UInt(2)], SignerRows(xs)) && |SignerRows(xs)| == |xs|
    ensures EncodeRows([Fixed(20), UInt(2)], SignerRows(xs)) == Flat(SignerParts(xs))
  {
    if |xs| > 0 {
      hide Le;
      SignerTable(xs[1..]);
      var x, ts := xs[0], [Fixed(20), UInt(2)];
      TwoColumns(Fixed(20), UInt(2), Raw(x.address), Num(x.weight));
      FlatAppend([OfSize(20, x.address), Some(Le(2, x.weight))], SignerParts(xs[1..]));
      FlatTwo(OfSize(20, x.address), Some(Le(2, x.weight)));
      assert SignerRows(xs)[1..] == SignerRows(xs[1..]);
    }
  }

  lemma FlatTwo(a: Option<Bytes>, b: Option<Bytes>)
    ensures Flat([a, b]) == Join(a, b)
  {
    assert [a] + [b] == [a, b];
    FlatAppend([a], [b]);
    FlatOne(a);
    FlatOne(b);
  }

  lemma TwoColumns(s: Column, t: Column, x: Cell, y: Cell)
    requires HasColumn(s, x) && HasColumn(t, y)
    ensures HasColumns([s, t], [x, y]) && EncodeRow([s, t], [x, y]) == Join(EncodeCell(s, x), EncodeCell(t, y))
  {
    hide EncodeCell;
    assert [s, t][1..] == [t] && [x, y][1..] == [y] && [t][1..] == [] && [y][1..] == [];
    assert EncodeRow([t], [y]) == Join(EncodeCell(t, y), Some([]));
    assert EncodeCell(t, y).Some? ==> EncodeCell(t, y).value + [] == EncodeCell(t, y).value;
  }

  lemma ThreeColumns(s: Column, t: Column, u: Column, x: Cell, y: Cell, z: Cell)
    requires HasColumn(s, x) && HasColumn(t, y) && HasColumn(u, z)
    ensures HasColumns([s, t, u], [x, y, z])
    ensures EncodeRow([s, t, u], [x, y, z]) == Join(EncodeCell(s, x), Join(EncodeCell(t, y), EncodeCell(u, z)))
  {
    hide EncodeCell;
    TwoColumns(t, u, y, z);
    assert [s, t, u][1..] == [t, u] && [x, y, z][1..] == [y, z];
  }

  lemma {:induction false} PayTable(xs: seq<Pay>)
    ensures HasRows([UInt(8), Vec], PayRows(xs)) && |PayRows(xs)| == |xs|
    ensures EncodeRows([UInt(8), Vec], PayRows(xs)) == Flat(PayParts(xs))
  {
    if |xs| > 0 {
      hide Le;
      PayTable(xs[1..]);
      var x := xs[0];
      var script := Some(Le(4, |x.script|) + x.script);
      TwoColumns(UInt(8), Vec, Num(x.value), Raw(x.script));
      FlatAppend([Some(Le(8, x.value)), script], PayParts(xs[1..]));
      FlatTwo(Some(Le(8, x.value)), script);
      assert PayRows(xs)[1..] == PayRows(xs[1..]);
    }
  }

  lemma {:induction false} SpendTable(xs: seq<Spend>)
    ensures HasRows([Fixed(32), UInt(4), UInt(4)], SpendRows(xs)) && |SpendRows(xs)| == |xs|
    ensures EncodeRows([Fixed(32), UInt(4), UInt(4)], SpendRows(xs)) == Flat(SpendParts(xs))
  {
    if |xs| > 0 {
      hide Le;
      SpendTable(xs[1..]);
      var x := xs[0];
      var id, index, sequence := OfSize(32, x.txId), Some(Le(4, x.index)), Some(Le(4, x.sequence));
      ThreeColumns(Fixed(32), UInt(4), UInt(4), Raw(x.txId), Num(x.index), Num(x.sequence));
      assert [id] + [index, sequence] == [id, index, sequence];
      FlatAppend([id, index, sequence], SpendParts(xs[1..]));
      FlatAppend([id], [index, sequence]);
      FlatOne(id);
      FlatTwo(index, sequence);
      assert SpendRows(xs)[1..] == SpendRows(xs[1..]);
    }
  }

  lemma {:induction false} InputTable(xs: seq<Input>)
    ensures HasRows([Fixed(32), UInt(4)], InputRows(xs)) && |InputRows(xs)| == |xs|
    ensures EncodeRows([Fixed(32), UInt(4)], InputRows(xs)) == Flat(InputParts(xs))
  {
    if |xs| > 0 {
      hide Le;
      InputTable(xs[1..]);
      var x := xs[0];
      TwoColumns(Fixed(32), UInt(4), Raw(x.txId), Num(x.index));
      FlatAppend([OfSize(32, x.txId), Some(Le(4, x.index))], InputParts(xs[1..]));
      FlatTwo(OfSize(32, x.txId), Some(Le(4, x.index)));
      assert InputRows(xs)[1..] == InputRows(xs[1..]);
    }
  }

  lemma {:induction false} OutputTable(xs: seq<Output>)
    ensures HasRows([UInt(8), Fixed(20)], OutputRows(xs)) && |OutputRows(xs)| == |xs|
    ensures EncodeRows([UInt(8), Fixed(20)], OutputRows(xs)) == Flat(OutputParts(xs))
  {
    if |xs| > 0 {
      hide Le;
      OutputTable(xs[1..]);
      var x := xs[0];
      TwoColumns(UInt(8), Fixed(20), Num(x.value), Raw(x.address));
      FlatAppend([Some(Le(8, x.value)), OfSize(20, x.address)], OutputParts(xs[1..]));
      FlatTwo(Some(Le(8, x.value)), OfSize(20, x.address));
      assert OutputRows(xs)[1..] == OutputRows(xs[1..]);
    }
  }

  lemma InputsPiece(xs: seq<Input>)
    ensures IsPiece(Table([Fixed(32), UInt(4)]), Inputs(xs))
  {
    InputTable(xs);
    CountFirst(|xs|, InputParts(xs));
  }

  lemma OutputsPiece(xs: seq<Output>)
    ensures IsPiece(Table([UInt(8), Fixed(20)]), Outputs(xs))
  {
    OutputTable(xs);
    CountFirst(|xs|, OutputParts(xs));
  }

  lemma SignersPiece(xs: seq<Signer>)
    ensures IsPiece(Table([Fixed(20), UInt(2)]), Signers(xs))
  {
    SignerTable(xs);
    CountFirst(|xs|, SignerParts(xs));
  }

  lemma SpendsPiece(xs: seq<Spend>)
    ensures IsPiece(Table([Fixed(32), UInt(4), UInt(4)]), Spends(xs))
  {
    SpendTable(xs);
    CountFirst(|xs|, SpendParts(xs));
  }

  lemma PaysPiece(xs: seq<Pay>)
    ensures IsPiece(Table([UInt(8), Vec]), Pays(xs))
  {
    PayTable(xs);
    CountFirst(|xs|, PayParts(xs));
  }

  lemma EveryPiece()
    ensures forall width, n :: IsPiece(One(UInt(width)), Int(width, n))
    ensures forall size, b :: IsPiece(One(Fixed(size)), Exact(size, b))
    ensures forall b :: IsPiece(One(Vec), Counted(b))
    ensures forall width, n :: IsPiece(Maybe(width), Optional(width, n))
    ensures forall b :: IsPiece(BookAsset, Side(b))
    ensures forall xs :: IsPiece(Table([Fixed(20), UInt(2)]), Signers(xs))
  {
    forall b
      ensures IsPiece(BookAsset, Side(b))
    {
      SidePiece(b);
    }
    forall xs
      ensures IsPiece(Table([Fixed(20), UInt(2)]), Signers(xs))
    {
      SignersPiece(xs);
    }
  }

  // ---------------------------------------------------------------------------
  // Record by record
  // ---------------------------------------------------------------------------

  ghost predicate FieldsAgree(w: Wire) { !IsRegistry(w.lane) && Matches(Schema(w.lane), w.pieces) }

  predicate NamesAgree(w: Wire)
  {
    && DomainName(w.lane) == w.domain && TypeTag(w.lane) == w.tag && EndsWithNone(w.lane) == w.open
    && w.hashed == (w.lane.IssuedPolicy? || w.lane.IssuerControl? || w.lane.Clawback?) && !w.lane.Checkpoint?
  }

  lemma BasicAgree(r: Record)
    requires r.AccountTransferTx? || r.OvlExecutionTx? || r.DrcPaymentTx?
    ensures FieldsAgree(BasicWire(r)) && NamesAgree(BasicWire(r))
  {
    EveryPiece();
    hide IsPiece, Int, Exact, Counted, Optional, Side, Signers;
  }

  lemma OfferAgree(r: Record)
    requires r.OfferCreateTx? || r.OfferCancelTx?
    ensures FieldsAgree(OfferWire(r)) && NamesAgree(OfferWire(r))
  {
    EveryPiece();
    hide IsPiece, Int, Exact, Counted, Optional, Side, Signers;
  }

  lemma EscrowAgree(r: Record)
    requires r.EscrowCreateTx? || r.EscrowFinishTx? || r.EscrowCancelTx?
    ensures FieldsAgree(EscrowWire(r)) && NamesAgree(EscrowWire(r))
  {
    EveryPiece();
    hide IsPiece, Int, Exact, Counted, Optional, Side, Signers;
  }

  lemma CheckFields(r: Record)
    requires r.CheckCreateTx? || r.CheckCashTx? || r.CheckCancelTx?
    ensures FieldsAgree(CheckWire(r))
  {
    EveryPiece();
    hide IsPiece, Int, Exact, Counted, Optional, Side, Signers;
  }

  lemma CheckAgree(r: Record)
    requires r.CheckCreateTx? || r.CheckCashTx? || r.CheckCancelTx?
    ensures FieldsAgree(CheckWire(r)) && NamesAgree(CheckWire(r))
  {
    CheckFields(r);
    hide FieldsAgree, Int, Exact, Optional;
  }

  lemma ChannelFundingFields(r: Record)
    requires r.ChannelCreateTx? || r.ChannelFundTx?
    ensures FieldsAgree(ChannelFundingWire(r))
  {
    EveryPiece();
    hide IsPiece, Int, Exact, Counted, Optional, Side, Signers;
  }

  lemma ChannelFundingAgree(r: Record)
    requires r.ChannelCreateTx? || r.ChannelFundTx?
    ensures FieldsAgree(ChannelFundingWire(r)) && NamesAgree(ChannelFundingWire(r))
  {
    ChannelFundingFields(r);
    hide FieldsAgree, Int, Exact, Counted, Optional;
  }

  lemma ChannelSettlingAgree(r: Record)
    requires r.ChannelClaimTx? || r.ChannelCloseTx?
    ensures FieldsAgree(ChannelSettlingWire(r)) && NamesAgree(ChannelSettlingWire(r))
  {
    EveryPiece();
    hide IsPiece, Int, Exact, Counted, Optional, Side, Signers;
  }

  lemma TrustLineAgree(r: Record)
    requires r.TrustLineSetTx? || r.IssuedTransferTx?
    ensures FieldsAgree(TrustLineWire(r)) && NamesAgree(TrustLineWire(r))
  {
    EveryPiece();
    hide IsPiece, Int, Exact, Counted, Optional, Side, Signers;
  }

  lemma ControlAgree(r: Record)
    requires r.IssuedPolicyTx? || r.IssuerControlTx? || r.ClawbackTx?
    ensures FieldsAgree(ControlWire(r)) && NamesAgree(ControlWire(r))
  {
    EveryPiece();
    hide IsPiece, Int, Exact, Counted, Optional, Side, Signers;
  }

  lemma KeyAgree(r: Record)
    requires r.TicketCreateTx? || r.RegularKeyTx?
    ensures FieldsAgree(KeyWire(r)) && NamesAgree(KeyWire(r))
  {
    EveryPiece();
    hide IsPiece, Int, Exact, Counted, Optional, Side, Signers;
  }

  lemma SignerAgree(r: Record)
    requires r.SignerListTx? || r.DepositPreauthTx?
    ensures FieldsAgree(SignerWire(r)) && NamesAgree(SignerWire(r))
  {
    EveryPiece();
    hide IsPiece, Int, Exact, Counted, Optional, Side, Signers;
  }

  lemma PolicyAgree(r: Record)
    requires r.PolicyV1Tx? || r.PolicyV2Tx? || r.PolicyV3Tx?
    ensures FieldsAgree(PolicyWire(r)) && NamesAgree(PolicyWire(r))
  {
    EveryPiece();
    hide IsPiece, Int, Exact, Counted, Optional, Side, Signers;
  }

  lemma RecordsAgree(r: Record)
    ensures FieldsAgree(WireOf(r)) && NamesAgree(WireOf(r))
  {
    hide FieldsAgree, NamesAgree;
    hide BasicWire, OfferWire, EscrowWire, CheckWire, ChannelFundingWire, ChannelSettlingWire;
    hide TrustLineWire, ControlWire, KeyWire, SignerWire, PolicyWire;
    if r.AccountTransferTx? || r.OvlExecutionTx? || r.DrcPaymentTx? {
      BasicAgree(r);
    } else if r.OfferCreateTx? || r.OfferCancelTx? {
      OfferAgree(r);
    } else if r.EscrowCreateTx? || r.EscrowFinishTx? || r.EscrowCancelTx? {
      EscrowAgree(r);
    } else if r.CheckCreateTx? || r.CheckCashTx? || r.CheckCancelTx? {
      CheckAgree(r);
    } else if r.ChannelCreateTx? || r.ChannelFundTx? {
      ChannelFundingAgree(r);
    } else if r.ChannelClaimTx? || r.ChannelCloseTx? {
      ChannelSettlingAgree(r);
    } else if r.TrustLineSetTx? || r.IssuedTransferTx? {
      TrustLineAgree(r);
    } else if r.IssuedPolicyTx? || r.IssuerControlTx? || r.ClawbackTx? {
      ControlAgree(r);
    } else if r.TicketCreateTx? || r.RegularKeyTx? {
      KeyAgree(r);
    } else if r.SignerListTx? || r.DepositPreauthTx? {
      SignerAgree(r);
    } else {
      PolicyAgree(r);
    }
  }

  lemma {:induction false} MatchesEncode(fs: seq<Field>, ps: seq<Piece>)
    requires Matches(fs, ps)
    ensures HasFields(fs, ValuesOf(ps)) && EncodeAll(fs, ValuesOf(ps)) == Flat(BytesOf(ps))
  {
    hide EncodeValue, HasKind;
    if |fs| > 0 {
      MatchesEncode(fs[1..], ps[1..]);
      assert IsPiece(fs[0].kind, ps[0]);
      assert ValuesOf(ps)[1..] == ValuesOf(ps[1..]) && BytesOf(ps)[1..] == BytesOf(ps[1..]);
    }
  }

  lemma BodyWritten(w: Wire)
    requires FieldsAgree(w) && NamesAgree(w)
    ensures HasFields(Schema(w.lane), ValuesOf(w.pieces)) && Body(w.lane, ValuesOf(w.pieces)) == Flat(BodyParts(w))
  {
    hide Schema, TypeTag, Matches, HasFields, DomainName;
    MatchesEncode(Schema(w.lane), w.pieces);
    var tag := if w.tag.Some? then [Text(w.tag.value)] else [];
    var end := if w.open then [Some([0])] else [];
    FlatAppend(tag + BytesOf(w.pieces), end);
    FlatAppend(tag, BytesOf(w.pieces));
    TagFlat(w.tag);
    FlatOne(Some([0]));
  }

  lemma TagFlat(tag: Option<string>)
    ensures Flat(if tag.Some? then [Text(tag.value)] else []) ==
            Some(if tag.Some? then EncodeVec(Ascii(tag.value)) else [])
  {
    hide Le, Ascii;
    if tag.Some? {
      FlatOne(Text(tag.value));
      AsciiLength(tag.value);
    }
  }

  lemma WireWritten(w: Wire, chainId: Bytes, genesis: Bytes)
    requires FieldsAgree(w) && NamesAgree(w)
    ensures WellTyped(MessageOf(w, chainId, genesis))
    ensures Preimage(MessageOf(w, chainId, genesis)) == Written(w, chainId, genesis)
    ensures IsHashed(MessageOf(w, chainId, genesis)) == w.hashed
  {
    BodyWritten(w);
    hide Schema, TypeTag, Matches, HasFields, Body, BodyParts, DomainName, Le, Ascii;
    EnvelopeWritten(w.domain, chainId, genesis, BodyParts(w));
  }

  lemma EnvelopeWritten(domain: string, chainId: Bytes, genesis: Bytes, parts: seq<Option<Bytes>>)
    ensures BoundEnvelope(Ascii(domain), chainId, genesis, Flat(parts)) ==
            Flat([Text(domain), Some(Le(4, |chainId|) + chainId), OfSize(32, genesis)] + parts)
  {
    hide Le, Ascii;
    var name, chain := Text(domain), Some(Le(4, |chainId|) + chainId);
    FlatAppend([name, chain, OfSize(32, genesis)], parts);
    FlatThree(name, chain, OfSize(32, genesis));
    AsciiLength(domain);
  }

  /** The bytes to sign are the record written out, for every record and network. */
  lemma PreimageWritten(r: Record, chainId: Bytes, genesis: Bytes)
    ensures var w := WireOf(r);
            && WellTyped(MessageOf(w, chainId, genesis))
            && Preimage(MessageOf(w, chainId, genesis)) == Written(w, chainId, genesis)
            && IsHashed(MessageOf(w, chainId, genesis)) == w.hashed
  {
    hide WireOf, FieldsAgree, NamesAgree, Written, Preimage, WellTyped, MessageOf;
    RecordsAgree(r);
    WireWritten(WireOf(r), chainId, genesis);
  }

  /** A TLT transfer likewise. */
  lemma TransferWritten(t: TransferRecord, chainId: Bytes, genesis: Bytes)
    ensures WellTyped(MessageOf(TransferWire(t), chainId, genesis))
    ensures Preimage(MessageOf(TransferWire(t), chainId, genesis)) == Written(TransferWire(t), chainId, genesis)
  {
    EveryPiece();
    InputsPiece(t.inputs);
    OutputsPiece(t.outputs);
    hide IsPiece, Int, Inputs, Outputs;
    assert FieldsAgree(TransferWire(t)) && NamesAgree(TransferWire(t));
    hide TransferWire, FieldsAgree, NamesAgree, Written, Preimage, WellTyped, MessageOf;
    WireWritten(TransferWire(t), chainId, genesis);
  }

  // The registry lanes share the envelope; their bodies are arbitrary here

  lemma CommunityNames()
    ensures DomainName(Hub) == "agora-hub-registration-v1"
    ensures DomainName(Grant) == "agora-grant-registration-v1"
    ensures DomainName(Mission) == "agora-mission-registration-v1"
  {
  }

  lemma CouncilNames()
    ensures DomainName(Passport) == "agora-passport-attestation-v1"
    ensures DomainName(Treasury) == "agora-treasury-disbursement-v1"
    ensures DomainName(Vesting) == "agora-vesting-unlock-v1"
  {
  }

  lemma RegistryWritten(d: Domain, chainId: Bytes, genesis: Bytes, body: Bytes)
    requires IsRegistry(d)
    ensures Preimage(Registry(d, chainId, genesis, body)) ==
            Flat([Text(DomainName(d)), Some(Le(4, |chainId|) + chainId), OfSize(32, genesis)] + [Some(body)])
  {
    hide DomainName, Le, Ascii, Flat, Text, OfSize, BoundEnvelope;
    FlatOne(Some(body));
    EnvelopeWritten(DomainName(d), chainId, genesis, [Some(body)]);
  }

  /** The checkpoint record, behind its domain alone. */
  lemma CheckpointWritten(c: CheckpointRecord)
    ensures HasFields(Schema(Checkpoint), ValuesOf(CheckpointPieces(c)))
    ensures Preimage(Attestation(ValuesOf(CheckpointPieces(c)))) ==
            Flat([Text("agora-trident-checkpoint-v1")] + BytesOf(CheckpointPieces(c)))
  {
    EveryPiece();
    hide IsPiece, Int, Exact, Counted, Le, Ascii;
    var ps, name := CheckpointPieces(c), "agora-trident-checkpoint-v1";
    assert Matches(Schema(Checkpoint), ps);
    hide Schema, CheckpointPieces;
    MatchesEncode(Schema(Checkpoint), ps);
    FlatAppend([Text(name)], BytesOf(ps));
    FlatOne(Text(name));
    AsciiLength(name);
  }

  function CovenantSighashWritten(c: CovenantRecord): Option<Bytes>
  {
    Flat([Text("agora-tlt-covenant-sighash-v1")] + BytesOf(CovenantPieces(c)))
  }

  function CovenantParts(c: CovenantRecord, chainId: Bytes, genesis: Bytes): seq<Option<Bytes>>
  {
    var inner := CovenantSighashWritten(c);
    [Some(Ascii("agora-tlt-covenant-sighash-bound-v1")), Some(Le(4, |chainId|) + chainId), OfSize(32, genesis),
     if inner.Some? then Some(Le(4, |inner.value|) + inner.value) else None]
  }

  lemma SighashWritten(c: CovenantRecord)
    ensures HasFields(CovenantSchema(), ValuesOf(CovenantPieces(c)))
    ensures CovenantSighash(ValuesOf(CovenantPieces(c))) == CovenantSighashWritten(c)
  {
    EveryPiece();
    SpendsPiece(c.inputs);
    PaysPiece(c.outputs);
    hide IsPiece, Int, Spends, Pays, Le, Ascii;
    var ps, name := CovenantPieces(c), "agora-tlt-covenant-sighash-v1";
    assert Matches(CovenantSchema(), ps);
    hide CovenantSchema, CovenantPieces;
    MatchesEncode(CovenantSchema(), ps);
    FlatAppend([Text(name)], BytesOf(ps));
    FlatOne(Text(name));
    AsciiLength(name);
  }

  /** The covenant record: its sighash, behind an outer domain without a length. */
  lemma CovenantWritten(c: CovenantRecord, chainId: Bytes, genesis: Bytes)
    ensures HasFields(CovenantSchema(), ValuesOf(CovenantPieces(c)))
    ensures Preimage(Covenant(chainId, genesis, ValuesOf(CovenantPieces(c)))) ==
            Flat(CovenantParts(c, chainId, genesis))
  {
    SighashWritten(c);
    hide CovenantPieces, CovenantSighash, CovenantSighashWritten, Le, Ascii, HasFields;
    var ps := CovenantParts(c, chainId, genesis);
    assert ps == [ps[0], ps[1], ps[2]] + [ps[3]];
    FlatAppend([ps[0], ps[1], ps[2]], [ps[3]]);
    FlatThree(ps[0], ps[1], ps[2]);
    FlatOne(ps[3]);
  }
}
