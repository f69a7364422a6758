/** Slot exclusivity over every run of admissions, removals and blocks. */
module SlotsTheorems {
  import opened Common
  import opened Slots

  /** The version of its lane's envelope from which an operation names the sequence it spends. */
  predicate NamesSequence(op: Op)
  {
    match op.lane
    case AccountTransfer => op.asset.DRC? && op.version >= 3
    case Stake => op.asset.DRC? && op.version >= 2
    case OvlExecution => false
    case Payment => op.version >= 5
    case Policy => op.version >= 4
    case _ => op.version >= 2
  }

  predicate NamesTicket(op: Op) { op.selector.Some? && op.selector.value.ByTicket? }

  predicate SpendsTicket(op: Op) { NamesSequence(op) && NamesTicket(op) && !op.lane.TicketCreate? }

  /** Executions spend OVL, transfers and stakes what they move, everything else DRC. */
  function SpentAsset(op: Op): Asset
  {
    if op.lane.OvlExecution? then OVL else if op.lane.AccountTransfer? || op.lane.Stake? then op.asset else DRC
  }

  /** Escrows, checks, channels, trust lines, issued assets and offers. */
  predicate Settles(lane: Lane)
  {
    lane !in {AccountTransfer, Stake, OvlExecution, Payment, Policy, Preauth, RegularKey, SignerList, TicketCreate}
  }

  /** A transfer or stake that names no sequence. */
  predicate IsPlain(op: Op) { (op.lane.AccountTransfer? || op.lane.Stake?) && !NamesSequence(op) }

  /**
   What can be pending: executions of the first version; plain transfers and stakes; ticket creations
   below the last nonce; and otherwise what names a sequence exactly from the version on that has one,
   where an earlier one may repeat its nonce but not name a ticket.
   */
  lemma RecordableIff(op: Op)
    ensures Recordable(op) <==>
            if op.lane.OvlExecution? then op.version == 1
            else if op.lane.TicketCreate? then op.nonce < 0xFFFF_FFFF_FFFF_FFFF
            else IsPlain(op) || (if NamesSequence(op) then op.selector.Some? else !NamesTicket(op))
  {
  }

  /**
   Spending a ticket holds that ticket alone; a ticket creation holds the nonce and the first ticket;
   everything else holds its account's nonce alone.
   */
  lemma HeldMeans(op: Op)
    requires Recordable(op)
    ensures Held(op) ==
            if SpendsTicket(op) then {TicketOf(op.sender, op.selector.value.sequence)}
            else if op.lane.TicketCreate? then {NonceOf(DRC, op.sender), TicketOf(op.sender, op.nonce + 1)}
            else {NonceOf(SpentAsset(op), op.sender)}
    ensures SpentNonce(op) == NonceOf(SpentAsset(op), op.sender)
  {
  }

  /**
   What a free slot does not decide. An operation that spends a ticket is refused for a ticket that is
   not live, but in the offer lanes never and in the other settlement lanes for the account nonce instead.
   */
  predicate RefusedThoughFree(reserved: set<Key>, live: set<nat>, op: Op)
  {
    if SpendsTicket(op) then
      match op.lane
      case AccountTransfer => op.selector.value.sequence !in live
      case Stake => op.selector.value.sequence !in live
      case Payment => op.selector.value.sequence !in live
      case Policy => op.selector.value.sequence !in live
      case Preauth => op.selector.value.sequence !in live
      case RegularKey => op.selector.value.sequence !in live
      case SignerList => op.selector.value.sequence !in live
      case OfferCreate => false
      case OfferCancel => false
      case _ => NonceOf(DRC, op.sender) in reserved
    else SpentAsset(op).DRC? && IsPlain(op) && NamesTicket(op)
  }

  /**
   The node's test against the pool's: outside the settlement lanes what passes is free in the pool; and
   what is free in the pool is refused by the test exactly as stated above.
   */
  lemma SlotTestAgainstPool(p: Pool, live: set<nat>, op: Op)
    ensures !Settles(op.lane) ==>
              (Recordable(op) && PassesSlotTest(p.reserved, live, op) ==> Admissible(p, op))
    ensures Admissible(p, op) ==> (!PassesSlotTest(p.reserved, live, op) <==> RefusedThoughFree(p.reserved, live, op))
  {
  }

  /** With a payment pending, an escrow finished on a live ticket is refused although its slot is free. */
  lemma LiveTicketRefused(owner: Address)
    ensures var pool := After(EMPTY, [Admit(Op(Payment, DRC, owner, 4, 5, None, 0), false)]);
            var finish := Op(EscrowFinish, DRC, owner, 2, 0, Some(ByTicket(3)), 0);
            Admissible(pool, finish) && !PassesSlotTest(pool.reserved, {3}, finish)
  {
    var events := [Admit(Op(Payment, DRC, owner, 4, 5, None, 0), false)];
    assert events[1..] == [];
    var pool := Apply(EMPTY, events[0]);
    assert After(EMPTY, events) == After(pool, []);
    assert pool.reserved == {NonceOf(DRC, owner)};
  }

  lemma AdmitSound(p: Pool, op: Op, full: bool)
    requires Sound(p)
    ensures Sound(AdmitPool(p, op, full))
    ensures op in AdmitPool(p, op, full).residents <==>
            op in p.residents || (!full && Recordable(op) && forall r :: r in p.residents ==> Held(r) !! Held(op))
  {
  }

  /** Removing any operations frees exactly the keys they held. */
  lemma RemoveSound(p: Pool, ops: set<Op>)
    requires Sound(p)
    ensures Sound(RemovePool(p, ops))
    ensures RemovePool(p, ops).residents == p.residents - ops
    ensures forall k :: k in RemovePool(p, ops).reserved <==> k in p.reserved && k !in HeldBy(ops * p.residents)
  {
  }

  // ---------------------------------------------------------------------------
  // Eviction
  // ---------------------------------------------------------------------------

  /** A resident that eviction leaves in place while freeing its nonce. */
  ghost predicate Stranded(p: Pool, block: set<Op>, forbidden: set<Op>, op: Op)
  {
    && op in p.residents && op !in block && op !in forbidden && Settles(op.lane)
    && SpentNonce(op) in SpentNonces(block) && SpentNonce(op) in Held(op)
  }

  ghost predicate NoneStranded(p: Pool, block: set<Op>, forbidden: set<Op>)
  {
    forall op :: op in p.residents ==> !Stranded(p, block, forbidden, op)
  }

  /** Raw envelopes, which are executions of the second version, spend no account nonce. */
  predicate SpendsNonceOf(b: Op, op: Op)
  {
    !(b.lane.OvlExecution? && b.version == 2) && b.sender == op.sender && SpentAsset(b) == SpentAsset(op)
  }

  /**
   After eviction no transfer, stake, execution, payment, policy, preauthorisation, key, signer list or
   ticket creation is left whose account nonce the block used; of the other lanes only what the block
   includes is taken out, and in any lane nothing but that, forbidden payments and such stale operations.
   */
  lemma EvictionLeaves(p: Pool, block: set<Op>, forbidden: set<Op>, op: Op)
    requires op in p.residents
    ensures op in block || op in forbidden ==> op !in EvictPool(p, block, forbidden).residents
    ensures op !in block && op !in forbidden ==>
              (op !in EvictPool(p, block, forbidden).residents <==>
               !Settles(op.lane) && exists b :: b in block && SpendsNonceOf(b, op))
  {
  }

  lemma EvictFrees(p: Pool, block: set<Op>, forbidden: set<Op>, k: Key)
    requires Sound(p)
    ensures var q := EvictPool(p, block, forbidden);
            k in q.reserved <==> k in HeldBy(q.residents) && k !in SpentNonces(block)
  {
  }

  /** Eviction keeps the pool sound exactly when it strands no resident. */
  lemma EvictSoundIff(p: Pool, block: set<Op>, forbidden: set<Op>)
    requires Sound(p)
    ensures Sound(EvictPool(p, block, forbidden)) <==> NoneStranded(p, block, forbidden)
  {
  }

  lemma StrandedRemains(p: Pool, block: set<Op>, forbidden: set<Op>, op: Op)
    requires Stranded(p, block, forbidden, op)
    ensures op in EvictPool(p, block, forbidden).residents
  {
  }

  /** When it strands none, eviction frees exactly the keys of what it removed. */
  lemma EvictFreesExactly(p: Pool, block: set<Op>, forbidden: set<Op>)
    requires Sound(p) && NoneStranded(p, block, forbidden)
    ensures EvictPool(p, block, forbidden).reserved == p.reserved - HeldBy(Evicted(p, block, forbidden))
  {
  }

  // ---------------------------------------------------------------------------
  // A block: eviction, then expiry and revalidation of what is left
  // ---------------------------------------------------------------------------

  function BlockPool(p: Pool, block: set<Op>, forbidden: set<Op>, dropped: set<Op>): Pool
  {
    RemovePool(EvictPool(p, block, forbidden), dropped)
  }

  /** What eviction guarantees in any case: no key stays reserved without a holder. */
  ghost predicate Loose(p: Pool) { SlotsExact(p) && Exclusive(p) && p.reserved <= HeldBy(p.residents) }

  lemma EvictLoose(p: Pool, block: set<Op>, forbidden: set<Op>)
    requires Sound(p)
    ensures Loose(EvictPool(p, block, forbidden))
  {
  }

  lemma RemoveLoose(p: Pool, ops: set<Op>, k: Key)
    requires Loose(p)
    ensures var q := RemovePool(p, ops);
            && Loose(q) && q.residents == p.residents - ops
            && (k in q.reserved <==> k in p.reserved && k in HeldBy(q.residents))
  {
  }

  ghost predicate BlockClean(p: Pool, block: set<Op>, forbidden: set<Op>, dropped: set<Op>)
  {
    forall op :: op in p.residents && op !in dropped ==> !Stranded(p, block, forbidden, op)
  }

  /** A block keeps the pool sound exactly when expiry and revalidation drop whatever eviction strands. */
  lemma BlockSoundIff(p: Pool, block: set<Op>, forbidden: set<Op>, dropped: set<Op>)
    requires Sound(p)
    ensures Sound(BlockPool(p, block, forbidden, dropped)) <==> BlockClean(p, block, forbidden, dropped)
  {
    hide Held, Plan, UsesSlot, Swept, AssetOf, Evicted, EvictPool, RemovePool;
    var e := EvictPool(p, block, forbidden);
    var q := RemovePool(e, dropped);
    EvictLoose(p, block, forbidden);
    forall k
      ensures Loose(q) && q.residents == e.residents - dropped
      ensures k in q.reserved <==> k in e.reserved && k in HeldBy(q.residents)
      ensures k in e.reserved <==> k in HeldBy(e.residents) && k !in SpentNonces(block)
    {
      RemoveLoose(e, dropped, k);
      EvictFrees(p, block, forbidden, k);
    }
    RemoveLoose(e, dropped, NonceOf(DRC, 0));
    if BlockClean(p, block, forbidden, dropped) {
      CleanKeepsKeys(p, block, forbidden, dropped, q);
      assert q.reserved == HeldBy(q.residents);
    } else {
      var op :| op in p.residents && op !in dropped && Stranded(p, block, forbidden, op);
      StrandedRemains(p, block, forbidden, op);
      assert SpentNonce(op) in HeldBy(q.residents);
    }
  }

  lemma CleanKeepsKeys(p: Pool, block: set<Op>, forbidden: set<Op>, dropped: set<Op>, q: Pool)
    requires Sound(p) && BlockClean(p, block, forbidden, dropped)
    requires q.residents == EvictPool(p, block, forbidden).residents - dropped
    ensures forall k :: k in HeldBy(q.residents) ==> k !in SpentNonces(block)
    ensures HeldBy(q.residents) <= HeldBy(EvictPool(p, block, forbidden).residents)
  {
  }

  // ---------------------------------------------------------------------------
  // Runs
  // ---------------------------------------------------------------------------

  datatype Event =
    Admit(op: Op, full: bool) | Remove(ops: set<Op>) | Block(block: set<Op>, forbidden: set<Op>, dropped: set<Op>)

  function Apply(p: Pool, e: Event): Pool
  {
    match e
    case Admit(op, full) => AdmitPool(p, op, full)
    case Remove(ops) => RemovePool(p, ops)
    case Block(block, forbidden, dropped) => BlockPool(p, block, forbidden, dropped)
  }

  function After(p: Pool, events: seq<Event>): Pool
    decreases |events|
  {
    if |events| == 0 then p else After(Apply(p, events[0]), events[1..])
  }

  /** Sound now and after every event. */
  ghost predicate AlwaysSound(p: Pool, events: seq<Event>)
    decreases |events|
  {
    Sound(p) && (|events| > 0 ==> AlwaysSound(Apply(p, events[0]), events[1..]))
  }

  /** Every block of the run drops what it strands. */
  ghost predicate CleanRun(p: Pool, events: seq<Event>)
    decreases |events|
  {
    |events| > 0 ==>
      && (events[0].Block? ==> BlockClean(p, events[0].block, events[0].forbidden, events[0].dropped))
      && CleanRun(Apply(p, events[0]), events[1..])
  }

  lemma ApplySoundIff(p: Pool, e: Event)
    requires Sound(p)
    ensures Sound(Apply(p, e)) <==> (e.Block? ==> BlockClean(p, e.block, e.forbidden, e.dropped))
  {
    hide Sound, AdmitPool, RemovePool, BlockPool, BlockClean;
    match e
    case Admit(op, full) => AdmitSound(p, op, full);
    case Remove(ops) => RemoveSound(p, ops);
    case Block(block, forbidden, dropped) => BlockSoundIff(p, block, forbidden, dropped);
  }

  /** A run keeps every slot exclusive and exactly recorded if and only if all its blocks are clean. */
  lemma {:induction false} RunSoundIff(p: Pool, events: seq<Event>)
    requires Sound(p)
    ensures AlwaysSound(p, events) <==> CleanRun(p, events)
    decreases |events|
  {
    hide Sound, Apply, BlockClean;
    if |events| > 0 {
      ApplySoundIff(p, events[0]);
      if Sound(Apply(p, events[0])) {
        RunSoundIff(Apply(p, events[0]), events[1..]);
      }
    }
  }

  lemma EmptySound()
    ensures Sound(EMPTY)
  {
  }

  lemma ReachableSoundIff(events: seq<Event>)
    ensures AlwaysSound(EMPTY, events) <==> CleanRun(EMPTY, events)
  {
    EmptySound();
    RunSoundIff(EMPTY, events);
  }

  /** Two pending operations on one account nonce, after a block that used it for a third. */
  lemma EscrowResidentLosesItsNonce(owner: Address)
    ensures var finish := Op(EscrowFinish, DRC, owner, 1, 5, None, 0);
            var payment := Op(Payment, DRC, owner, 4, 5, None, 0);
            var cash := Op(CheckCash, DRC, owner, 1, 6, None, 0);
            var p := After(EMPTY, [Admit(finish, false), Block({payment}, {}, {}), Admit(cash, false)]);
            finish in p.residents && cash in p.residents && Held(finish) == Held(cash) == {NonceOf(DRC, owner)}
  {
    var finish := Op(EscrowFinish, DRC, owner, 1, 5, None, 0);
    var payment := Op(Payment, DRC, owner, 4, 5, None, 0);
    var cash := Op(CheckCash, DRC, owner, 1, 6, None, 0);
    var events := [Admit(finish, false), Block({payment}, {}, {}), Admit(cash, false)];
    var k := NonceOf(DRC, owner);
    assert Held(finish) == {k} && Held(cash) == {k};
    var p1 := Apply(EMPTY, events[0]);
    assert p1.residents == {finish} && p1.reserved == {k};
    assert SpentNonce(payment) == k && k in SpentNonces({payment});
    var p2 := Apply(p1, events[1]);
    assert finish in p2.residents && k !in p2.reserved;
    var p3 := Apply(p2, events[2]);
    assert cash in p3.residents && finish in p3.residents;
    assert events[1..][1..] == events[2..] && events[1..][1..][1..] == [];
    assert After(EMPTY, events) == After(p1, events[1..]) == After(p2, events[2..]);
    assert After(p2, events[2..]) == After(p3, events[2..][1..]) == p3;
  }
}
