/**
 Nonce and ticket slots of the pending pool. An operation's id is a hash of its contents; here an
 operation stands for its own id.
 */
module Slots {
  import opened Common

  datatype Asset = OVL | DRC

  datatype Lane =
    | AccountTransfer | Stake | OvlExecution | Payment | Policy | Preauth | RegularKey | SignerList | TicketCreate
    | EscrowCreate | EscrowFinish | EscrowCancel | CheckCreate | CheckCash | CheckCancel
    | ChannelCreate | ChannelFund | ChannelClaim | ChannelClose
    | TrustLineSet | IssuedTransfer | IssuedPolicy | IssuerControl | Clawback | OfferCreate | OfferCancel

  datatype Selector = ByNonce(value: nat) | ByTicket(sequence: nat)

  /** `body` stands for the fields that no slot depends on. */
  datatype Op =
    Op(lane: Lane, asset: Asset, sender: Address, version: nat, nonce: nat, selector: Option<Selector>, body: nat)

  datatype Reservation = AccountNonce | Ticket(sequence: nat) | NonceAndTicket(sequence: nat)

  /** What a pending operation keeps others from using. */
  datatype Key = NonceOf(asset: Asset, owner: Address) | TicketOf(owner: Address, sequence: nat)

  // ---------------------------------------------------------------------------
  // Planning
  // ---------------------------------------------------------------------------

  /** The first version of a lane's envelope that carries a sequence selector. */
  function TicketVersion(lane: Lane): nat
  {
    match lane
    case AccountTransfer => 3
    case Payment => 5
    case Policy => 4
    case _ => 2
  }

  /** Transfers and stakes may move OVL; executions always spend the OVL nonce; the rest is DRC. */
  function AssetOf(op: Op): Asset
  {
    match op.lane
    case AccountTransfer => op.asset
    case Stake => op.asset
    case OvlExecution => OVL
    case _ => DRC
  }

  /** Older transfers and stakes and all executions reserve the account without an entry of their own. */
  predicate UsesSlot(op: Op)
  {
    match op.lane
    case AccountTransfer => op.asset.DRC? && op.version >= TicketVersion(op.lane)
    case Stake => op.asset.DRC? && op.version >= TicketVersion(op.lane)
    case OvlExecution => false
    case _ => true
  }

  /** `resolve_drc_account_sequence`. */
  function Resolve(op: Op): Option<Reservation>
  {
    if op.version >= TicketVersion(op.lane) then
      match op.selector
      case None => None
      case Some(ByNonce(_)) => Some(AccountNonce)
      case Some(ByTicket(sequence)) => Some(Ticket(sequence))
    else if op.selector.Some? && op.selector.value.ByTicket? then None
    else Some(AccountNonce)
  }

  function Plan(op: Op): Option<Reservation>
  {
    if !op.lane.TicketCreate? then Resolve(op)
    else if op.nonce + 1 > MAX64 then None
    else Some(NonceAndTicket(op.nonce + 1))
  }

  function Keys(owner: Address, r: Reservation): set<Key>
  {
    match r
    case AccountNonce => {NonceOf(DRC, owner)}
    case Ticket(sequence) => {TicketOf(owner, sequence)}
    case NonceAndTicket(sequence) => {NonceOf(DRC, owner), TicketOf(owner, sequence)}
  }

  /** The keys an operation holds while it is pending. */
  function Held(op: Op): set<Key>
  {
    if !UsesSlot(op) then {NonceOf(AssetOf(op), op.sender)}
    else if Plan(op).Some? then Keys(op.sender, Plan(op).value)
    else {}
  }

  // ---------------------------------------------------------------------------
  // The node's check before it applies an operation
  // ---------------------------------------------------------------------------

  /** The planned slot; the account nonce whatever the operation spends; or that for old versions only. */
  datatype SlotTest = PlannedSlot | NonceAlways | NonceIfOld

  function TestOf(lane: Lane): SlotTest
  {
    match lane
    case AccountTransfer => PlannedSlot
    case Stake => PlannedSlot
    case Payment => PlannedSlot
    case Policy => PlannedSlot
    case Preauth => PlannedSlot
    case RegularKey => PlannedSlot
    case SignerList => PlannedSlot
    case TicketCreate => PlannedSlot
    case OfferCreate => NonceIfOld
    case OfferCancel => NonceIfOld
    case _ => NonceAlways
  }

  /** `live` are the tickets the sender has in the node's state. */
  predicate PassesSlotTest(reserved: set<Key>, live: set<nat>, op: Op)
  {
    match if AssetOf(op).OVL? then NonceAlways else TestOf(op.lane)
    case NonceAlways => SpentNonce(op) !in reserved
    case NonceIfOld => op.version >= TicketVersion(op.lane) || SpentNonce(op) !in reserved
    case PlannedSlot =>
      && Plan(op).Some? && (Plan(op).value.Ticket? ==> Plan(op).value.sequence in live)
      && Keys(op.sender, Plan(op).value) !! reserved
  }

  // ---------------------------------------------------------------------------
  // The pool and its transitions
  // ---------------------------------------------------------------------------

  datatype Pool = Pool(residents: set<Op>, reserved: set<Key>, slots: map<Op, Reservation>)

  const EMPTY := Pool({}, {}, map[])

  /** Raw Ethereum envelopes travel as executions of version 2; never pending here, they spend no account nonce. */
  predicate IsRaw(op: Op) { op.lane.OvlExecution? && op.version == 2 }

  predicate Recordable(op: Op) { (UsesSlot(op) ==> Plan(op).Some?) && (op.lane.OvlExecution? ==> op.version == 1) }

  predicate Admissible(p: Pool, op: Op) { Recordable(op) && Held(op) !! p.reserved }

  function AdmitPool(p: Pool, op: Op, full: bool): Pool
  {
    if op in p.residents || full || !Admissible(p, op) then p
    else
      var slots := if UsesSlot(op) then p.slots[op := Plan(op).value] else p.slots;
      Pool(p.residents + {op}, p.reserved + Held(op), slots)
  }

  function HeldBy(ops: set<Op>): set<Key> { set op, k | op in ops && k in Held(op) :: k }

  function RemovePool(p: Pool, ops: set<Op>): Pool
  {
    var gone := ops * p.residents;
    Pool(p.residents - gone, p.reserved - HeldBy(gone), p.slots - gone)
  }

  /** The lanes whose residents are dropped when their sender's nonce was used by a block. */
  predicate Swept(lane: Lane)
  {
    match lane
    case AccountTransfer => true
    case Stake => true
    case OvlExecution => true
    case Payment => true
    case Policy => true
    case Preauth => true
    case RegularKey => true
    case SignerList => true
    case TicketCreate => true
    case _ => false
  }

  function SpentNonce(op: Op): Key { NonceOf(AssetOf(op), op.sender) }

  function SpentNonces(block: set<Op>): set<Key> { set op | op in block && !IsRaw(op) :: SpentNonce(op) }

  function Stale(p: Pool, spent: set<Key>): set<Op>
  {
    set op | op in p.residents && Swept(op.lane) && SpentNonce(op) in spent
  }

  /** Everything eviction takes out: payments that the block's policies forbid, included operations, stale ones. */
  function Evicted(p: Pool, block: set<Op>, forbidden: set<Op>): set<Op>
  {
    (forbidden + block) * p.residents + Stale(p, SpentNonces(block))
  }

  /** `evict_for_block`; at the end every account nonce the block used is freed. */
  function EvictPool(p: Pool, block: set<Op>, forbidden: set<Op>): Pool
  {
    var q := RemovePool(p, Evicted(p, block, forbidden));
    q.(reserved := q.reserved - SpentNonces(block))
  }

  // ---------------------------------------------------------------------------
  // Invariants
  // ---------------------------------------------------------------------------

  /** Each slot-using resident, and nothing else, has its planned reservation on file. */
  ghost predicate SlotsExact(p: Pool)
  {
    && (forall op :: op in p.slots <==> op in p.residents && UsesSlot(op))
    && (forall op :: op in p.slots ==> Plan(op) == Some(p.slots[op]))
    && (forall op :: op in p.residents ==> Recordable(op))
  }

  ghost predicate Exclusive(p: Pool)
  {
    forall a, b :: a in p.residents && b in p.residents && a != b ==> Held(a) !! Held(b)
  }

  ghost predicate ReservedExact(p: Pool) { p.reserved == HeldBy(p.residents) }

  ghost predicate Sound(p: Pool) { SlotsExact(p) && Exclusive(p) && ReservedExact(p) }
}
