/** Funding of pending book offers: what admission checks, records and releases. */
module Offers {
  import opened Common

  type U64 = x: int | 0 <= x <= MAX64

  datatype Issue = Issue(issuer: Address, currency: nat)

  datatype Gets = Native | Issued(issue: Issue)

  /** An operation stands for its own id; `body` is what funding does not depend on. */
  datatype Offer =
    | Create(owner: Address, fee: U64, gets: Gets, amount: U64, body: nat)
    | Cancel(owner: Address, fee: U64, target: Offer, body: nat)

  function SatAdd(a: U64, b: U64): U64 { if a + b <= MAX64 then a + b else MAX64 }

  /** The native units an operation may spend, as recorded. */
  function NativeCharge(op: Offer): U64
  {
    if op.Create? && op.gets.Native? then SatAdd(op.fee, op.amount) else op.fee
  }

  /** Issued units are reserved unless the owner issues them. */
  predicate Reserves(op: Offer) { op.Create? && op.gets.Issued? && op.gets.issue.issuer != op.owner }

  datatype Holding = Holding(holder: Address, issue: Issue)

  function HoldingOf(op: Offer): Holding
    requires Reserves(op)
  {
    Holding(op.owner, op.gets.issue)
  }

  function NativeOf(op: Offer, owner: Address): nat { if op.owner == owner then NativeCharge(op) else 0 }

  function NativeSum(ops: seq<Offer>, owner: Address): nat
  {
    if |ops| == 0 then 0 else NativeSum(ops[..|ops| - 1], owner) + NativeOf(ops[|ops| - 1], owner)
  }

  function IssuedOf(op: Offer, h: Holding): nat { if Reserves(op) && HoldingOf(op) == h then op.amount else 0 }

  function IssuedSum(ops: seq<Offer>, h: Holding): nat
  {
    if |ops| == 0 then 0 else IssuedSum(ops[..|ops| - 1], h) + IssuedOf(ops[|ops| - 1], h)
  }

  function Without(ops: seq<Offer>, i: nat): seq<Offer>
    requires i < |ops|
  {
    ops[..i] + ops[i + 1..]
  }

  lemma {:induction false} NativeWithout(ops: seq<Offer>, i: nat, owner: Address)
    requires i < |ops|
    ensures NativeSum(Without(ops, i), owner) == NativeSum(ops, owner) - NativeOf(ops[i], owner)
  {
    var last, rest := |ops| - 1, Without(ops, i);
    if i == last {
      assert rest == ops[..last];
    } else {
      NativeWithout(ops[..last], i, owner);
      assert rest[..|rest| - 1] == Without(ops[..last], i) && rest[|rest| - 1] == ops[last];
    }
  }

  lemma {:induction false} IssuedWithout(ops: seq<Offer>, i: nat, h: Holding)
    requires i < |ops|
    ensures IssuedSum(Without(ops, i), h) == IssuedSum(ops, h) - IssuedOf(ops[i], h)
  {
    var last, rest := |ops| - 1, Without(ops, i);
    if i == last {
      assert rest == ops[..last];
    } else {
      IssuedWithout(ops[..last], i, h);
      assert rest[..|rest| - 1] == Without(ops[..last], i) && rest[|rest| - 1] == ops[last];
    }
  }

  lemma SumsSnoc(ops: seq<Offer>, op: Offer)
    ensures forall owner :: NativeSum(ops + [op], owner) == NativeSum(ops, owner) + NativeOf(op, owner)
    ensures forall h :: IssuedSum(ops + [op], h) == IssuedSum(ops, h) + IssuedOf(op, h)
  {
  }

  function Lookup<K>(m: map<K, U64>, k: K): U64 { if k in m then m[k] else 0 }

  /** `add_native_lock` and `add_issued_reserve`: nothing when the sum does not fit. */
  function Add<K>(m: map<K, U64>, k: K, amount: U64): Option<map<K, U64>>
  {
    if amount == 0 then Some(m)
    else if Lookup(m, k) + amount > MAX64 then None
    else Some(m[k := Lookup(m, k) + amount])
  }

  /** `sub_native_lock` and `sub_issued_reserve`. */
  function Sub<K>(m: map<K, U64>, k: K, amount: U64): map<K, U64>
  {
    if amount == 0 || k !in m then m
    else if m[k] <= amount then m - {k}
    else m[k := m[k] - amount]
  }

  /**
   The node's state: DRC balances, trust line balances, and units already reserved by offers on the
   book; with the node's minimum relay fee.
   */
  datatype Store = Store(balance: map<Address, U64>, line: map<Holding, U64>, stored: map<Holding, U64>, minFee: U64)

  /** Units on offer, the fee and every funding check pass, and the recorded sums do not overflow. */
  predicate Accepts(store: Store, ops: seq<Offer>, op: Offer)
  {
    var sum := NativeSum(ops, op.owner);
    && (op.Create? ==> op.amount > 0) && op.fee >= store.minFee
    && sum <= MAX64 && sum + NativeCharge(op) <= MAX64
    && SatAdd(sum, NativeCharge(op)) <= Lookup(store.balance, op.owner)
    && (Reserves(op) ==>
          var h := HoldingOf(op);
          && IssuedSum(ops, h) <= MAX64 && h in store.line
          && SatAdd(SatAdd(Lookup(store.stored, h), IssuedSum(ops, h)), op.amount) <= store.line[h]
          && IssuedSum(ops, h) + op.amount <= MAX64)
  }

  lemma SubLookup<K>(m: map<K, U64>, k: K, amount: U64, j: K)
    requires amount <= Lookup(m, k)
    ensures Lookup(Sub(m, k, amount), j) == Lookup(m, j) - if j == k then amount else 0
  {
  }

  class OfferLanes {
    var pending: seq<Offer>
    var native: map<Address, U64>
    var issued: map<Holding, U64>

    /** The recorded sums are the sums over the pending operations. */
    ghost predicate Valid()
      reads this
    {
      && (forall owner :: Lookup(native, owner) == NativeSum(pending, owner))
      && (forall h :: Lookup(issued, h) == IssuedSum(pending, h))
    }

    constructor ()
      ensures Valid() && pending == []
    {
      pending, native, issued := [], map[], map[];
    }

    method RequireNativeRoom(balance: U64, owner: Address, additional: U64) returns (ok: bool)
      requires Valid()
      ensures NativeSum(pending, owner) <= MAX64
      ensures ok <==> balance >= SatAdd(NativeSum(pending, owner), additional)
    {
      var already: U64 := Lookup(native, owner);
      var needed := SatAdd(already, additional);
      return balance >= needed;
    }

    /** `line` is the holder's trust line balance, `stored` what offers on the book already reserve. */
    method RequireIssuedRoom(op: Offer, line: Option<U64>, stored: U64) returns (ok: bool)
      requires Valid() && op.Create?
      ensures Reserves(op) ==> IssuedSum(pending, HoldingOf(op)) <= MAX64
      ensures ok <==> (Reserves(op) ==>
                        && line.Some?
                        && line.value >= SatAdd(SatAdd(stored, IssuedSum(pending, HoldingOf(op))), op.amount))
    {
      if !op.gets.Issued? { return true; }
      if op.gets.issue.issuer == op.owner { return true; }
      if line.None? { return false; }
      var already: U64 := Lookup(issued, HoldingOf(op));
      return line.value >= SatAdd(SatAdd(stored, already), op.amount);
    }

    /** Records an operation with its charges, or nothing at all. `slotFree` is the outcome of reserving its slot. */
    method Admit(op: Offer, full: bool, slotFree: bool) returns (ok: bool)
      requires Valid()
      modifies this
      ensures Valid()
      ensures ok ==> pending == if op in old(pending) then old(pending) else old(pending) + [op]
      ensures !ok ==> pending == old(pending) && native == old(native) && issued == old(issued)
      ensures ok <==>
              op in old(pending) ||
              (!full && slotFree && TargetFree(old(pending), op) &&
               NativeSum(old(pending), op.owner) + NativeCharge(op) <= MAX64 &&
               (Reserves(op) ==> IssuedSum(old(pending), HoldingOf(op)) + op.amount <= MAX64))
    {
      if op in pending { return true; }
      if op.Cancel? && op.target in pending { return false; }
      if full { return false; }
      if op.Cancel? && CancelPending(pending, op.target) { return false; }
      if !slotFree { return false; }
      var locked := Add(native, op.owner, NativeCharge(op));
      if locked.None? { return false; }
      var held := if Reserves(op) then Add(issued, HoldingOf(op), op.amount) else Some(issued);
      if held.None? { return false; }
      SumsSnoc(pending, op);
      native, issued, pending := locked.value, held.value, pending + [op];
      return true;
    }

    /**
     The node's admission: units on offer, the fee, room for the charges in the store, an operation
     that applies, then the pool.
     */
    method AdmitFunded(store: Store, op: Offer, applies: bool, full: bool, slotFree: bool) returns (ok: bool)
      requires Valid()
      modifies this
      ensures Valid()
      ensures pending == if ok && op !in old(pending) then old(pending) + [op] else old(pending)
      ensures op !in old(pending) ==>
                (ok <==>
                 Accepts(store, old(pending), op) && applies && !full && slotFree && TargetFree(old(pending), op))
    {
      if op.Create? && op.amount == 0 { return false; }
      if op.fee < store.minFee { return false; }
      if op.Cancel? && CancelPending(pending, op.target) { return false; }
      var room := RequireNativeRoom(Lookup(store.balance, op.owner), op.owner, NativeCharge(op));
      if !room { return false; }
      if op.Create? {
        var line := if Reserves(op) && HoldingOf(op) in store.line then Some(store.line[HoldingOf(op)]) else None;
        room := RequireIssuedRoom(op, line, if Reserves(op) then Lookup(store.stored, HoldingOf(op)) else 0);
        if !room { return false; }
      }
      if !applies { return false; }
      ok := Admit(op, full, slotFree);
    }

    method Remove(i: nat)
      requires Valid() && i < |pending|
      modifies this
      ensures Valid() && pending == Without(old(pending), i)
    {
      var op := pending[i];
      var rest := Without(pending, i);
      NativeWithout(pending, i, op.owner);
      forall owner
        ensures Lookup(Sub(native, op.owner, NativeCharge(op)), owner) == NativeSum(rest, owner)
      {
        NativeWithout(pending, i, owner);
        SubLookup(native, op.owner, NativeCharge(op), owner);
      }
      native := Sub(native, op.owner, NativeCharge(op));
      if Reserves(op) {
        IssuedWithout(pending, i, HoldingOf(op));
        forall h
          ensures Lookup(Sub(issued, HoldingOf(op), op.amount), h) == IssuedSum(rest, h)
        {
          IssuedWithout(pending, i, h);
          SubLookup(issued, HoldingOf(op), op.amount, h);
        }
        issued := Sub(issued, HoldingOf(op), op.amount);
      } else {
        forall h
          ensures IssuedSum(rest, h) == IssuedSum(pending, h)
        {
          IssuedWithout(pending, i, h);
        }
      }
      pending := rest;
    }

    /** After a block every pending operation is applied alone; those that fail are removed. */
    method Revalidate(applies: Offer -> bool)
      requires Valid()
      modifies this
      ensures Valid() && pending == Applying(old(pending), applies)
    {
      var i := 0;
      ghost var start := pending;
      ghost var seen := 0;
      while i < |pending|
        invariant Valid() && i <= |pending| && seen <= |start| && pending[i..] == start[seen..]
        invariant pending[..i] == Applying(start[..seen], applies)
        decreases |pending| - i
      {
        assert pending[i] == start[seen] && start[..seen + 1][..seen] == start[..seen];
        if applies(pending[i]) {
          i := i + 1;
        } else {
          Remove(i);
        }
        seen := seen + 1;
      }
      assert start[..seen] == start && pending[..i] == pending;
    }
  }

  predicate CancelPending(ops: seq<Offer>, target: Offer)
  {
    exists i :: 0 <= i < |ops| && ops[i].Cancel? && ops[i].target == target
  }

  /** A cancel waits for its pending create, and for another cancel of the same offer. */
  predicate TargetFree(ops: seq<Offer>, op: Offer)
  {
    op.Cancel? ==> op.target !in ops && !CancelPending(ops, op.target)
  }

  function Applying(ops: seq<Offer>, applies: Offer -> bool): seq<Offer>
  {
    if |ops| == 0 then []
    else
      var front, last := Applying(ops[..|ops| - 1], applies), ops[|ops| - 1];
      if applies(last) then front + [last] else front
  }
}
