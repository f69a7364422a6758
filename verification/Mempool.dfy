/** The pending pool as an object updated in place; each method is proved against its transition. */
module Mempool {
  import opened Common
  import opened Slots

  lemma RemoveTwice(p: Pool, a: set<Op>, b: set<Op>)
    ensures RemovePool(RemovePool(p, a), b) == RemovePool(p, a + b)
  {
  }

  lemma RemoveSame(p: Pool, a: set<Op>, b: set<Op>)
    requires a * p.residents == b * p.residents
    ensures RemovePool(p, a) == RemovePool(p, b)
  {
  }

  lemma RemoveNothing(p: Pool)
    ensures RemovePool(p, {}) == p
  {
  }

  lemma RemoveKeepsSlots(p: Pool, ops: set<Op>)
    requires SlotsExact(p)
    ensures SlotsExact(RemovePool(p, ops))
  {
  }

  lemma HeldByOne(op: Op)
    ensures HeldBy({op}) == Held(op)
  {
  }

  /** Dropping the included, then the stale, is dropping everything eviction drops. */
  lemma EvictInSteps(p: Pool, block: set<Op>, forbidden: set<Op>)
    ensures var q := RemovePool(p, forbidden + block);
            RemovePool(q, Stale(q, SpentNonces(block))) == RemovePool(p, Evicted(p, block, forbidden))
  {
  }

  function Ops(block: seq<Op>): set<Op> { set op | op in block }

  lemma OpsSnoc(block: seq<Op>, i: nat)
    requires i < |block|
    ensures Ops(block[..i + 1]) == Ops(block[..i]) + {block[i]}
    ensures SpentNonces(Ops(block[..i + 1])) ==
            SpentNonces(Ops(block[..i])) + if IsRaw(block[i]) then {} else {SpentNonce(block[i])}
  {
  }

  class Mempool {
    var residents: set<Op>
    /** Both reservation sets of the source: account nonces and tickets. */
    var reserved: set<Key>
    var slots: map<Op, Reservation>

    ghost function State(): Pool
      reads this
    {
      Pool(residents, reserved, slots)
    }

    ghost predicate Valid()
      reads this
    {
      SlotsExact(State())
    }

    constructor ()
      ensures Valid() && State() == EMPTY
    {
      residents, reserved, slots := {}, {}, map[];
    }

    method ReserveDrcSlot(op: Op, r: Reservation) returns (ok: bool)
      modifies this`reserved, this`slots
      ensures ok <==> Keys(op.sender, r) !! old(reserved)
      ensures ok ==> reserved == old(reserved) + Keys(op.sender, r) && slots == old(slots)[op := r]
      ensures !ok ==> reserved == old(reserved) && slots == old(slots)
    {
      var nonce := NonceOf(DRC, op.sender);
      match r {
        case AccountNonce =>
          if nonce in reserved { return false; }
          reserved := reserved + {nonce};
        case Ticket(sequence) =>
          var ticket := TicketOf(op.sender, sequence);
          if ticket in reserved { return false; }
          reserved := reserved + {ticket};
        case NonceAndTicket(sequence) =>
          var ticket := TicketOf(op.sender, sequence);
          if nonce in reserved { return false; }
          reserved := reserved + {nonce};
          if ticket in reserved {
            reserved := reserved - {nonce};
            return false;
          }
          reserved := reserved + {ticket};
      }
      slots := slots[op := r];
      return true;
    }

    method ReleaseDrcSlot(op: Op)
      modifies this`reserved, this`slots
      ensures op in old(slots) ==>
                reserved == old(reserved) - Keys(op.sender, old(slots)[op]) && slots == old(slots) - {op}
      ensures op !in old(slots) ==> reserved == old(reserved) && slots == old(slots)
    {
      if op !in slots { return; }
      var r := slots[op];
      slots := slots - {op};
      match r {
        case AccountNonce => reserved := reserved - {NonceOf(DRC, op.sender)};
        case Ticket(sequence) => reserved := reserved - {TicketOf(op.sender, sequence)};
        case NonceAndTicket(sequence) =>
          reserved := reserved - {NonceOf(DRC, op.sender)};
          reserved := reserved - {TicketOf(op.sender, sequence)};
      }
    }

    /** `full` counts every lane of the pool, also those without slots. */
    method Admit(op: Op, full: bool) returns (ok: bool)
      requires Valid()
      modifies this
      ensures Valid() && State() == AdmitPool(old(State()), op, full)
      ensures ok <==> op in residents
    {
      if op.lane.OvlExecution? && op.version != 1 { return false; }
      if op in residents { return true; }
      if full { return false; }
      if UsesSlot(op) {
        var plan := Plan(op);
        if plan.None? { return false; }
        ok := ReserveDrcSlot(op, plan.value);
        if !ok { return false; }
      } else {
        var key := NonceOf(AssetOf(op), op.sender);
        if key in reserved { return false; }
        reserved := reserved + {key};
      }
      residents := residents + {op};
      return true;
    }

    /** The check that the node makes before it applies an operation to its state. */
    method AssertDrcMempoolSlot(owner: Address, r: Reservation) returns (ok: bool)
      ensures ok <==> Keys(owner, r) !! reserved
    {
      match r
      case AccountNonce => return NonceOf(DRC, owner) !in reserved;
      case Ticket(sequence) => return TicketOf(owner, sequence) !in reserved;
      case NonceAndTicket(sequence) =>
        return NonceOf(DRC, owner) !in reserved && TicketOf(owner, sequence) !in reserved;
    }

    /**
     The node's admission under the pool's lock: the lane's slot test, the minimum fee where the lane
     has one, an operation that applies to the current state, then the pool. `live`, `feeOk` and
     `applies` are read from the store.
     */
    method AdmitChecked(op: Op, live: set<nat>, feeOk: bool, applies: bool, full: bool) returns (ok: bool)
      requires Valid()
      modifies this
      ensures Valid() && State() == if ok then AdmitPool(old(State()), op, full) else old(State())
      ensures ok <==> PassesSlotTest(old(reserved), live, op) && feeOk && applies &&
                      (op in old(residents) || (!full && Admissible(old(State()), op)))
    {
      var test := if AssetOf(op).OVL? then NonceAlways else TestOf(op.lane);
      match test {
        case NonceAlways =>
          if SpentNonce(op) in reserved { return false; }
        case NonceIfOld =>
          if SpentNonce(op) in reserved && op.version < TicketVersion(op.lane) { return false; }
        case PlannedSlot =>
          var plan := Plan(op);
          if plan.None? { return false; }
          if plan.value.Ticket? && plan.value.sequence !in live { return false; }
          ok := AssertDrcMempoolSlot(op.sender, plan.value);
          if !ok { return false; }
      }
      if !feeOk { return false; }
      if !applies { return false; }
      ok := Admit(op, full);
    }

    method Remove(op: Op)
      requires Valid()
      modifies this
      ensures Valid() && State() == RemovePool(old(State()), {op})
    {
      RemoveKeepsSlots(State(), {op});
      if op !in residents {
        RemoveSame(State(), {op}, {});
        RemoveNothing(State());
        return;
      }
      HeldByOne(op);
      assert {op} * residents == {op};
      residents := residents - {op};
      if op in slots {
        ReleaseDrcSlot(op);
      } else {
        assert old(slots) - {op} == slots;
        reserved := reserved - {NonceOf(AssetOf(op), op.sender)};
      }
    }

    /** Removes each of a set of operations, in any order. */
    method RemoveAll(ops: set<Op>)
      requires Valid()
      modifies this
      ensures Valid() && State() == RemovePool(old(State()), ops)
    {
      hide SlotsExact, RemovePool;
      var todo := ops;
      RemoveNothing(State());
      assert ops - todo == {};
      while todo != {}
        invariant todo <= ops && Valid() && State() == RemovePool(old(State()), ops - todo)
        decreases todo
      {
        var op :| op in todo;
        RemoveTwice(old(State()), ops - todo, {op});
        assert ops - todo + {op} == ops - (todo - {op});
        Remove(op);
        todo := todo - {op};
      }
      assert ops - todo == ops;
    }

    /**
     Drops the payments that the block's policies forbid, the included operations, and the stale ones
     of the swept lanes; then frees every account nonce the block used.
     */
    method EvictForBlock(block: seq<Op>, forbidden: set<Op>)
      requires Valid()
      modifies this
      ensures Valid() && State() == EvictPool(old(State()), Ops(block), forbidden)
    {
      hide SlotsExact, RemovePool, Held, Swept, AssetOf, Evicted;
      ghost var start, included := State(), Ops(block);
      RemoveAll(forbidden);
      var spent: set<Key> := {};
      assert forbidden + Ops(block[..0]) == forbidden && SpentNonces(Ops(block[..0])) == {};
      for i := 0 to |block|
        invariant Valid() && State() == RemovePool(start, forbidden + Ops(block[..i]))
        invariant spent == SpentNonces(Ops(block[..i]))
      {
        OpsSnoc(block, i);
        RemoveTwice(start, forbidden + Ops(block[..i]), {block[i]});
        assert forbidden + Ops(block[..i]) + {block[i]} == forbidden + Ops(block[..i + 1]);
        if !IsRaw(block[i]) {
          spent := spent + {SpentNonce(block[i])};
        }
        Remove(block[i]);
      }
      assert block[..|block|] == block;
      EvictInSteps(start, included, forbidden);
      var stale := set op | op in residents && Swept(op.lane) && SpentNonce(op) in spent;
      assert stale == Stale(State(), spent);
      RemoveAll(stale);
      reserved := reserved - spent;
      SlotsIgnoreReserved(RemovePool(start, Evicted(start, included, forbidden)), reserved);
    }
  }

  lemma SlotsIgnoreReserved(p: Pool, reserved: set<Key>)
    requires SlotsExact(p)
    ensures SlotsExact(p.(reserved := reserved))
  {
  }
}
