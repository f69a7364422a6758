/** Funding over every run of offer admissions, removals and blocks. */
module OffersTheorems {
  import opened Common
  import opened Offers

  // ---------------------------------------------------------------------------
  // What is accepted
  // ---------------------------------------------------------------------------

  /** The fee and the native units on offer, but no more than 2^64 - 1. */
  function CappedCost(op: Offer): nat
  {
    var cost := op.fee + if op.Create? && op.gets.Native? then op.amount else 0;
    if cost > 0xFFFF_FFFF_FFFF_FFFF then 0xFFFF_FFFF_FFFF_FFFF else cost
  }

  /**
   When an operation is accepted, in plain numbers: units on offer, the fee, its cost with what is
   pending within the balance, and issued units with what is pending and reserved within the line, or
   on a line of 2^64 - 1 with what is pending alone.
   */
  lemma AcceptsIff(store: Store, ops: seq<Offer>, op: Offer)
    ensures Accepts(store, ops, op) <==>
            && (op.Create? ==> op.amount >= 1) && op.fee >= store.minFee
            && NativeSum(ops, op.owner) + CappedCost(op) <= Lookup(store.balance, op.owner)
            && (op.Create? && op.gets.Issued? && op.gets.issue.issuer != op.owner ==>
                  var h := Holding(op.owner, op.gets.issue);
                  && h in store.line
                  && (Lookup(store.stored, h) + IssuedSum(ops, h) + op.amount <= store.line[h] ||
                      (store.line[h] == 0xFFFF_FFFF_FFFF_FFFF && IssuedSum(ops, h) + op.amount <= store.line[h])))
  {
  }

  // ---------------------------------------------------------------------------
  // Runs on a fixed store
  // ---------------------------------------------------------------------------

  /** An attempt to admit an operation, which other checks may refuse, or a removal. */
  datatype Event = Try(op: Offer, otherChecks: bool) | Drop(i: nat)

  function Step(store: Store, ops: seq<Offer>, e: Event): seq<Offer>
  {
    match e
    case Try(op, otherChecks) =>
      if otherChecks && op !in ops && TargetFree(ops, op) && Accepts(store, ops, op) then ops + [op] else ops
    case Drop(i) => if i < |ops| then Without(ops, i) else ops
  }

  function After(store: Store, ops: seq<Offer>, events: seq<Event>): seq<Offer>
    decreases |events|
  {
    if |events| == 0 then ops else After(store, Step(store, ops, events[0]), events[1..])
  }

  /** Recorded native charges stay within the balance. */
  ghost predicate NativeFunded(store: Store, ops: seq<Offer>)
  {
    forall owner :: NativeSum(ops, owner) <= Lookup(store.balance, owner)
  }

  ghost predicate HoldingFunded(store: Store, ops: seq<Offer>, h: Holding)
  {
    IssuedSum(ops, h) > 0 ==>
      && h in store.line
      && (Lookup(store.stored, h) + IssuedSum(ops, h) <= store.line[h] ||
          (store.line[h] == MAX64 && Lookup(store.stored, h) + IssuedSum(ops, h) > MAX64))
  }

  /** Reserved units stay within the line, unless the line is the largest amount and their sum is above it. */
  ghost predicate IssuedFunded(store: Store, ops: seq<Offer>) { forall h :: HoldingFunded(store, ops, h) }

  lemma StepNative(store: Store, ops: seq<Offer>, e: Event)
    requires NativeFunded(store, ops)
    ensures NativeFunded(store, Step(store, ops, e))
  {
    hide NativeCharge, IssuedSum;
    match e
    case Try(op, _) => SumsSnoc(ops, op);
    case Drop(i) =>
      if i < |ops| {
        forall owner
          ensures NativeSum(Without(ops, i), owner) <= Lookup(store.balance, owner)
        {
          NativeWithout(ops, i, owner);
        }
      }
  }

  lemma StepHolding(store: Store, ops: seq<Offer>, e: Event, h: Holding)
    requires HoldingFunded(store, ops, h)
    ensures HoldingFunded(store, Step(store, ops, e), h)
  {
    hide NativeCharge, NativeSum, IssuedSum;
    match e
    case Try(op, _) => SumsSnoc(ops, op);
    case Drop(i) => if i < |ops| { IssuedWithout(ops, i, h); }
  }

  lemma {:induction false} RunFunded(store: Store, ops: seq<Offer>, events: seq<Event>)
    requires NativeFunded(store, ops) && IssuedFunded(store, ops)
    ensures NativeFunded(store, After(store, ops, events)) && IssuedFunded(store, After(store, ops, events))
    decreases |events|
  {
    hide NativeFunded, HoldingFunded, Step;
    if |events| > 0 {
      StepNative(store, ops, events[0]);
      forall h
        ensures HoldingFunded(store, Step(store, ops, events[0]), h)
      {
        StepHolding(store, ops, events[0], h);
      }
      RunFunded(store, Step(store, ops, events[0]), events[1..]);
    }
  }

  /** From an empty pool, for every run, owner and holding. */
  lemma EveryRunFunded(store: Store, events: seq<Event>, owner: Address, h: Holding)
    ensures NativeSum(After(store, [], events), owner) <= Lookup(store.balance, owner)
    ensures HoldingFunded(store, After(store, [], events), h)
  {
    hide After;
    RunFunded(store, [], events);
    var ops := After(store, [], events);
    assert NativeFunded(store, ops) && HoldingFunded(store, ops, h);
  }

  // Issued units

  /** Pending issued units, with those already reserved on the book, are within the holder's line. */
  predicate LineFunded(store: Store, ops: seq<Offer>, h: Holding)
  {
    IssuedSum(ops, h) > 0 ==> h in store.line && Lookup(store.stored, h) + IssuedSum(ops, h) <= store.line[h]
  }

  lemma StepIssuedFits(store: Store, ops: seq<Offer>, e: Event, h: Holding)
    requires IssuedSum(ops, h) <= MAX64 && (h.holder == h.issue.issuer ==> IssuedSum(ops, h) == 0)
    ensures IssuedSum(Step(store, ops, e), h) <= MAX64
    ensures h.holder == h.issue.issuer ==> IssuedSum(Step(store, ops, e), h) == 0
  {
    hide NativeCharge, NativeSum, IssuedSum;
    match e
    case Try(op, _) => SumsSnoc(ops, op);
    case Drop(i) => if i < |ops| { IssuedWithout(ops, i, h); }
  }

  lemma {:induction false} RunIssuedFits(store: Store, ops: seq<Offer>, events: seq<Event>, h: Holding)
    requires IssuedSum(ops, h) <= MAX64 && (h.holder == h.issue.issuer ==> IssuedSum(ops, h) == 0)
    ensures IssuedSum(After(store, ops, events), h) <= MAX64
    ensures h.holder == h.issue.issuer ==> IssuedSum(After(store, ops, events), h) == 0
    decreases |events|
  {
    if |events| > 0 {
      StepIssuedFits(store, ops, events[0], h);
      RunIssuedFits(store, Step(store, ops, events[0]), events[1..], h);
    }
  }

  // Whoever cannot pay the fee has nothing pending

  ghost predicate AllPay(minFee: U64, ops: seq<Offer>) { forall i :: 0 <= i < |ops| ==> ops[i].fee >= minFee }

  lemma {:induction false} RunAllPay(store: Store, ops: seq<Offer>, events: seq<Event>)
    requires AllPay(store.minFee, ops)
    ensures AllPay(store.minFee, After(store, ops, events))
    decreases |events|
  {
    if |events| > 0 {
      RunAllPay(store, Step(store, ops, events[0]), events[1..]);
    }
  }

  lemma {:induction false} NothingPending(minFee: U64, ops: seq<Offer>, h: Holding)
    requires AllPay(minFee, ops) && NativeSum(ops, h.holder) < minFee
    ensures NativeSum(ops, h.holder) == 0 && IssuedSum(ops, h) == 0
  {
    if |ops| > 0 {
      NothingPending(minFee, ops[..|ops| - 1], h);
    }
  }

  /** One offer of the largest amount against the largest line on which something is reserved already. */
  lemma OverfullIssuedOfferAdmitted(store: Store, h: Holding)
    requires h in store.line && h.holder != h.issue.issuer && store.line[h] == MAX64 && Lookup(store.stored, h) > 0
    requires Lookup(store.balance, h.holder) >= store.minFee
    ensures var offer := Create(h.holder, store.minFee, Issued(h.issue), MAX64, 0);
            After(store, [], [Try(offer, true)]) == [offer] && !LineFunded(store, [offer], h)
  {
    var offer := Create(h.holder, store.minFee, Issued(h.issue), MAX64, 0);
    assert Reserves(offer) && HoldingOf(offer) == h;
    SumsSnoc([], offer);
    assert [] + [offer] == [offer];
    OneTry(store, offer);
  }

  lemma OneTry(store: Store, op: Offer)
    requires Accepts(store, [], op)
    ensures After(store, [], [Try(op, true)]) == [op]
  {
    var events := [Try(op, true)];
    assert events[1..] == [] && [] + [op] == [op];
    assert After(store, [], events) == After(store, [op], []);
  }

  /** When the store alone guarantees it. */
  predicate LineSafe(store: Store, h: Holding)
  {
    || h !in store.line || h.holder == h.issue.issuer
    || store.line[h] < MAX64 || Lookup(store.stored, h) == 0 || Lookup(store.balance, h.holder) < store.minFee
  }

  /**
   Every run keeps the issued units within the line if and only if the line is below the largest
   amount, nothing is reserved on the book, or the holder cannot pay the fee (or there is nothing to
   reserve at all).
   */
  lemma LineFundedIff(store: Store, h: Holding)
    ensures (forall events :: LineFunded(store, After(store, [], events), h)) <==> LineSafe(store, h)
  {
    hide After, IssuedSum, NativeSum;
    if LineSafe(store, h) {
      forall events
        ensures LineFunded(store, After(store, [], events), h)
      {
        var ops := After(store, [], events);
        EveryRunFunded(store, events, h.holder, h);
        EmptySums(h);
        RunIssuedFits(store, [], events, h);
        RunAllPay(store, [], events);
        if NativeSum(ops, h.holder) < store.minFee {
          NothingPending(store.minFee, ops, h);
        }
      }
    } else {
      OverfullIssuedOfferAdmitted(store, h);
      var events := [Try(Create(h.holder, store.minFee, Issued(h.issue), MAX64, 0), true)];
      assert !LineFunded(store, After(store, [], events), h);
    }
  }

  lemma EmptySums(h: Holding)
    ensures IssuedSum([], h) == 0
  {
  }

  // ---------------------------------------------------------------------------
  // Exact sums
  // ---------------------------------------------------------------------------

  /** Fee plus native units, without saturation. */
  function Spends(op: Offer): nat { op.fee + if op.Create? && op.gets.Native? then op.amount else 0 }

  function SpendsSum(ops: seq<Offer>, owner: Address): nat
  {
    if |ops| == 0 then 0
    else SpendsSum(ops[..|ops| - 1], owner) + if ops[|ops| - 1].owner == owner then Spends(ops[|ops| - 1]) else 0
  }

  ghost predicate NoneSaturates(ops: seq<Offer>, owner: Address)
  {
    forall i :: 0 <= i < |ops| && ops[i].owner == owner ==> Spends(ops[i]) <= MAX64
  }

  lemma {:induction false} SumsAgree(ops: seq<Offer>, owner: Address)
    ensures NoneSaturates(ops, owner) ==> SpendsSum(ops, owner) == NativeSum(ops, owner)
    ensures !NoneSaturates(ops, owner) ==> SpendsSum(ops, owner) > MAX64
  {
    if |ops| > 0 {
      var front, last := ops[..|ops| - 1], ops[|ops| - 1];
      SumsAgree(front, owner);
      assert NoneSaturates(ops, owner) <==>
             NoneSaturates(front, owner) && (last.owner == owner ==> Spends(last) <= MAX64) by {
        assert forall i :: 0 <= i < |front| ==> ops[i] == front[i];
      }
    }
  }

  /**
   On every run an owner's pending fees and native units are within the balance exactly when no
   pending operation alone needs more than 64 bits.
   */
  lemma ExactlyFundedIff(store: Store, events: seq<Event>, owner: Address)
    ensures var ops := After(store, [], events);
            SpendsSum(ops, owner) <= Lookup(store.balance, owner) <==> NoneSaturates(ops, owner)
  {
    hide After, NoneSaturates, SpendsSum, NativeSum;
    var ops := After(store, [], events);
    EveryRunFunded(store, events, owner, Holding(0, Issue(0, 0)));
    SumsAgree(ops, owner);
  }

  lemma {:induction false} ChargeWithinSum(ops: seq<Offer>, i: nat)
    requires i < |ops|
    ensures NativeCharge(ops[i]) <= NativeSum(ops, ops[i].owner)
  {
    if i < |ops| - 1 {
      ChargeWithinSum(ops[..|ops| - 1], i);
    }
  }

  /** With a balance below the largest amount no such operation is ever pending. */
  lemma FundedBelowMaximum(store: Store, events: seq<Event>, owner: Address)
    requires Lookup(store.balance, owner) < MAX64
    ensures SpendsSum(After(store, [], events), owner) <= Lookup(store.balance, owner)
  {
    hide After, SpendsSum, NativeSum;
    var ops := After(store, [], events);
    EveryRunFunded(store, events, owner, Holding(0, Issue(0, 0)));
    forall i | 0 <= i < |ops| && ops[i].owner == owner
      ensures Spends(ops[i]) <= MAX64
    {
      ChargeWithinSum(ops, i);
    }
    ExactlyFundedIff(store, events, owner);
  }

  function OverfullOffer(store: Store, owner: Address): Offer
  {
    Create(owner, if store.minFee == 0 then 1 else store.minFee, Native, MAX64, 0)
  }

  /** At the largest balance one offer that needs more than 64 bits is admitted. */
  lemma OverfullOfferAdmitted(store: Store, owner: Address)
    requires Lookup(store.balance, owner) == MAX64
    ensures var offer := OverfullOffer(store, owner);
            After(store, [], [Try(offer, true)]) == [offer] && SpendsSum([offer], owner) > MAX64
  {
    var offer := OverfullOffer(store, owner);
    assert NativeSum([], owner) == 0;
    OneTry(store, offer);
    assert [offer][..0] == [];
    assert SpendsSum([offer], owner) == SpendsSum([], owner) + Spends(offer);
  }

  /**
   Every run keeps an owner's fees and native units within the balance if and only if that is below
   the largest amount.
   */
  lemma NativeFundedIff(store: Store, owner: Address)
    ensures (forall events :: SpendsSum(After(store, [], events), owner) <= Lookup(store.balance, owner)) <==>
            Lookup(store.balance, owner) < MAX64
  {
    hide After, SpendsSum;
    if Lookup(store.balance, owner) < MAX64 {
      forall events
        ensures SpendsSum(After(store, [], events), owner) <= Lookup(store.balance, owner)
      {
        FundedBelowMaximum(store, events, owner);
      }
    } else {
      OverfullOfferAdmitted(store, owner);
      var events := [Try(OverfullOffer(store, owner), true)];
      assert SpendsSum(After(store, [], events), owner) > Lookup(store.balance, owner);
    }
  }

  // ---------------------------------------------------------------------------
  // Runs over blocks
  // ---------------------------------------------------------------------------

  datatype Node = Node(store: Store, ops: seq<Offer>)

  /**
   A pool event, or a block: a new store, and which pending operations stay. A block that arrives by
   gossip takes out those it includes; one that is submitted also those that no longer apply.
   */
  datatype NodeEvent = InPool(event: Event) | Block(store: Store, stays: Offer -> bool)

  function NodeStep(n: Node, e: NodeEvent): Node
  {
    match e
    case InPool(event) => Node(n.store, Step(n.store, n.ops, event))
    case Block(store, stays) => Node(store, Applying(n.ops, stays))
  }

  /** Every owner and every holder can pay for all pending operations together. */
  ghost predicate Funded(n: Node)
  {
    NativeFunded(n.store, n.ops) && forall h :: LineFunded(n.store, n.ops, h)
  }

  // Cancels

  /** Nothing is pending twice, and no two pending cancels are of one offer. */
  ghost predicate OneCancel(ops: seq<Offer>)
  {
    forall i, j :: 0 <= i < j < |ops| ==>
      ops[i] != ops[j] && (ops[i].Cancel? && ops[j].Cancel? ==> ops[i].target != ops[j].target)
  }

  lemma {:induction false} ApplyingFrom(ops: seq<Offer>, stays: Offer -> bool)
    ensures forall op :: op in Applying(ops, stays) ==> op in ops && stays(op)
  {
    if |ops| > 0 {
      ApplyingFrom(ops[..|ops| - 1], stays);
    }
  }

  lemma {:induction false} ApplyingOneCancel(ops: seq<Offer>, stays: Offer -> bool)
    requires OneCancel(ops)
    ensures OneCancel(Applying(ops, stays))
  {
    if |ops| > 0 {
      var front, last := ops[..|ops| - 1], ops[|ops| - 1];
      ApplyingOneCancel(front, stays);
      ApplyingFrom(front, stays);
      assert forall op :: op in front ==> exists i :: 0 <= i < |ops| - 1 && ops[i] == op;
      assert forall i :: 0 <= i < |Applying(front, stays)| ==> Applying(front, stays)[i] in front;
    }
  }

  lemma StepOneCancel(n: Node, e: NodeEvent)
    requires OneCancel(n.ops)
    ensures OneCancel(NodeStep(n, e).ops)
  {
    hide Accepts, Applying;
    match e
    case InPool(event) =>
    case Block(_, stays) => ApplyingOneCancel(n.ops, stays);
  }

  function NodeAfter(n: Node, events: seq<NodeEvent>): Node
    decreases |events|
  {
    if |events| == 0 then n else NodeAfter(NodeStep(n, events[0]), events[1..])
  }

  /** On every run of admissions, removals and blocks. */
  lemma {:induction false} RunOneCancel(n: Node, events: seq<NodeEvent>)
    requires OneCancel(n.ops)
    ensures OneCancel(NodeAfter(n, events).ops)
    decreases |events|
  {
    hide OneCancel, NodeStep;
    if |events| > 0 {
      StepOneCancel(n, events[0]);
      RunOneCancel(NodeStep(n, events[0]), events[1..]);
    }
  }

  /** A cancel does not get in while the offer it cancels, or another cancel of it, is pending. */
  lemma CancelWaits(n: Node, cancel: Offer, otherChecks: bool)
    requires cancel.Cancel? && cancel !in n.ops
    requires cancel.target in n.ops ||
             exists i :: 0 <= i < |n.ops| && n.ops[i].Cancel? && n.ops[i].target == cancel.target
    ensures NodeStep(n, InPool(Try(cancel, otherChecks))) == n
  {
  }

  /** Funded now and after every event. */
  ghost predicate AlwaysFunded(n: Node, events: seq<NodeEvent>)
    decreases |events|
  {
    Funded(n) && (|events| > 0 ==> AlwaysFunded(NodeStep(n, events[0]), events[1..]))
  }

  /** The stores that the blocks of a run lead to. */
  function BlockStores(events: seq<NodeEvent>): seq<Store>
  {
    if |events| == 0 then []
    else (if events[0].Block? then [events[0].store] else []) + BlockStores(events[1..])
  }

  // The condition, on the stores alone

  /** The balance does not fall, unless it never paid for an operation. */
  predicate BalanceHolds(before: Store, after: Store, owner: Address)
  {
    || Lookup(after.balance, owner) >= Lookup(before.balance, owner)
    || Lookup(before.balance, owner) < before.minFee
  }

  /** The units of a line that offers may still take. */
  function Headroom(store: Store, h: Holding): int
  {
    if h in store.line then store.line[h] - Lookup(store.stored, h) else 0
  }

  /** The headroom does not fall, unless there was none or the holder could not offer it. */
  predicate HeadroomHolds(before: Store, after: Store, h: Holding)
  {
    || Headroom(after, h) >= Headroom(before, h)
    || Headroom(before, h) <= 0 || h.holder == h.issue.issuer || Lookup(before.balance, h.holder) < before.minFee
  }

  ghost predicate NothingLowered(before: Store, after: Store)
  {
    (forall owner :: BalanceHolds(before, after, owner)) && (forall h :: HeadroomHolds(before, after, h))
  }

  ghost predicate StoreSafe(store: Store) { forall h :: LineSafe(store, h) }

  /** The minimum fee is a setting of the node, which no block changes. */
  ghost predicate OneFee(chain: seq<Store>)
  {
    forall i :: 0 <= i < |chain| ==> chain[i].minFee == chain[0].minFee
  }

  ghost predicate ChainSafe(chain: seq<Store>)
    requires |chain| > 0
  {
    StoreSafe(chain[0]) && (|chain| > 1 ==> NothingLowered(chain[0], chain[1]) && ChainSafe(chain[1..]))
  }

  // It suffices

  lemma {:induction false} StayingSums(ops: seq<Offer>, stays: Offer -> bool, owner: Address, h: Holding)
    ensures NativeSum(Applying(ops, stays), owner) <= NativeSum(ops, owner)
    ensures IssuedSum(Applying(ops, stays), h) <= IssuedSum(ops, h)
  {
    if |ops| > 0 {
      var front := Applying(ops[..|ops| - 1], stays);
      StayingSums(ops[..|ops| - 1], stays, owner, h);
      SumsSnoc(front, ops[|ops| - 1]);
    }
  }

  lemma {:induction false} StayingPay(minFee: U64, ops: seq<Offer>, stays: Offer -> bool)
    requires AllPay(minFee, ops)
    ensures AllPay(minFee, Applying(ops, stays))
  {
    if |ops| > 0 {
      StayingPay(minFee, ops[..|ops| - 1], stays);
    }
  }

  lemma BlockKeepsOwner(n: Node, after: Store, stays: Offer -> bool, owner: Address)
    requires Funded(n) && AllPay(n.store.minFee, n.ops) && BalanceHolds(n.store, after, owner)
    ensures NativeSum(Applying(n.ops, stays), owner) <= Lookup(after.balance, owner)
  {
    hide NativeSum, IssuedSum, Applying, LineFunded;
    var h := Holding(owner, Issue(owner, 0));
    StayingSums(n.ops, stays, owner, h);
    if NativeSum(n.ops, owner) < n.store.minFee {
      NothingPending(n.store.minFee, n.ops, h);
    }
  }

  lemma {:induction false} IssuerReservesNothing(ops: seq<Offer>, h: Holding)
    requires h.holder == h.issue.issuer
    ensures IssuedSum(ops, h) == 0
  {
    if |ops| > 0 {
      IssuerReservesNothing(ops[..|ops| - 1], h);
    }
  }

  lemma BlockKeepsHolding(n: Node, after: Store, stays: Offer -> bool, h: Holding)
    requires Funded(n) && AllPay(n.store.minFee, n.ops) && HeadroomHolds(n.store, after, h)
    ensures LineFunded(after, Applying(n.ops, stays), h)
  {
    hide NativeSum, IssuedSum, Applying;
    StayingSums(n.ops, stays, h.holder, h);
    assert LineFunded(n.store, n.ops, h);
    if h.holder == h.issue.issuer {
      IssuerReservesNothing(n.ops, h);
    } else if NativeSum(n.ops, h.holder) < n.store.minFee {
      NothingPending(n.store.minFee, n.ops, h);
    }
  }

  lemma BlockKeepsFunded(n: Node, after: Store, stays: Offer -> bool)
    requires Funded(n) && AllPay(n.store.minFee, n.ops) && NothingLowered(n.store, after)
    ensures Funded(Node(after, Applying(n.ops, stays)))
  {
    hide NativeSum, IssuedSum, Applying, LineFunded, BalanceHolds, HeadroomHolds;
    forall owner
      ensures NativeSum(Applying(n.ops, stays), owner) <= Lookup(after.balance, owner)
    {
      BlockKeepsOwner(n, after, stays, owner);
    }
    forall h
      ensures LineFunded(after, Applying(n.ops, stays), h)
    {
      BlockKeepsHolding(n, after, stays, h);
    }
  }

  lemma PoolKeepsHolding(n: Node, e: Event, h: Holding)
    requires Funded(n) && LineSafe(n.store, h)
    ensures LineFunded(n.store, Step(n.store, n.ops, e), h)
  {
    hide NativeSum, IssuedSum;
    assert LineFunded(n.store, n.ops, h);
    match e
    case Try(op, _) => SumsSnoc(n.ops, op);
    case Drop(i) => if i < |n.ops| { IssuedWithout(n.ops, i, h); }
  }

  lemma PoolKeepsFunded(n: Node, e: Event)
    requires Funded(n) && StoreSafe(n.store)
    ensures Funded(NodeStep(n, InPool(e)))
  {
    StepNative(n.store, n.ops, e);
    hide NativeFunded, LineFunded, LineSafe, Step;
    forall h
      ensures LineFunded(n.store, Step(n.store, n.ops, e), h)
    {
      PoolKeepsHolding(n, e, h);
    }
  }

  lemma {:induction false} SafeChainFunded(n: Node, events: seq<NodeEvent>)
    requires Funded(n) && AllPay(n.store.minFee, n.ops)
    requires var chain := [n.store] + BlockStores(events); OneFee(chain) && ChainSafe(chain)
    ensures AlwaysFunded(n, events)
    decreases |events|
  {
    if |events| > 0 {
      var chain, next := [n.store] + BlockStores(events), NodeStep(n, events[0]);
      match events[0] {
        case InPool(e) =>
          PoolKeepsFunded(n, e);
          assert next.store == n.store && AllPay(n.store.minFee, next.ops);
          assert [next.store] + BlockStores(events[1..]) == chain;
        case Block(store, stays) =>
          hide Funded, StoreSafe, NothingLowered, AllPay, Applying;
          assert BlockStores(events)[0] == store && chain[1] == store;
          assert [next.store] + BlockStores(events[1..]) == chain[1..];
          assert chain[1].minFee == chain[0].minFee;
          BlockKeepsFunded(n, store, stays);
          StayingPay(n.store.minFee, n.ops, stays);
      }
      SafeChainFunded(next, events[1..]);
    }
  }

  // It is needed

  function KeepAll(): Offer -> bool { op => true }

  function Blocks(chain: seq<Store>): seq<NodeEvent>
  {
    if |chain| == 0 then [] else [Block(chain[0], KeepAll())] + Blocks(chain[1..])
  }

  lemma {:induction false} BlocksLead(chain: seq<Store>)
    ensures BlockStores(Blocks(chain)) == chain
  {
    if |chain| > 0 {
      BlocksLead(chain[1..]);
      assert Blocks(chain)[1..] == Blocks(chain[1..]);
      assert chain == [chain[0]] + chain[1..];
    }
  }

  /** An offer of the owner's own issue, which costs the fee alone. */
  function FeeOnly(owner: Address, fee: U64, body: nat): Offer { Create(owner, fee, Issued(Issue(owner, 0)), 1, body) }

  lemma SingleSums(op: Offer, h: Holding)
    ensures NativeSum([op], op.owner) == NativeCharge(op) && IssuedSum([op], h) == IssuedOf(op, h)
    ensures NativeSum([], op.owner) == 0 && IssuedSum([], h) == 0
  {
    assert [op][..0] == [];
  }

  /** A single offer that a lowered balance no longer pays for. */
  lemma LoweredBalanceWitness(before: Store, after: Store, owner: Address)
    requires !BalanceHolds(before, after, owner)
    ensures var op := FeeOnly(owner, Lookup(before.balance, owner), 0);
            Accepts(before, [], op) && !Funded(Node(after, [op]))
  {
    var op := FeeOnly(owner, Lookup(before.balance, owner), 0);
    SingleSums(op, Holding(owner, Issue(owner, 0)));
    assert NativeSum([op], owner) > Lookup(after.balance, owner);
  }

  /** A single offer that a lowered headroom no longer covers. */
  lemma LoweredHeadroomWitness(before: Store, after: Store, h: Holding)
    requires !HeadroomHolds(before, after, h)
    ensures var op := Create(h.holder, before.minFee, Issued(h.issue), Headroom(before, h), 0);
            Accepts(before, [], op) && !Funded(Node(after, [op]))
  {
    var op := Create(h.holder, before.minFee, Issued(h.issue), Headroom(before, h), 0);
    SingleSums(op, h);
    assert Reserves(op) && HoldingOf(op) == h;
    assert !LineFunded(after, [op], h);
  }

  lemma UnsafeStoreWitness(store: Store, h: Holding)
    requires !LineSafe(store, h)
    ensures var op := Create(h.holder, store.minFee, Issued(h.issue), MAX64, 0);
            Accepts(store, [], op) && !Funded(Node(store, [op]))
  {
    var op := Create(h.holder, store.minFee, Issued(h.issue), MAX64, 0);
    SingleSums(op, h);
    assert Reserves(op) && HoldingOf(op) == h;
    assert !LineFunded(store, [op], h);
  }

  /** An offer admitted to the empty pool, and all blocks of the chain. */
  function AdmitThenBlocks(chain: seq<Store>, op: Offer): seq<NodeEvent>
    requires |chain| > 0
  {
    [InPool(Try(op, true))] + Blocks(chain[1..])
  }

  lemma NextBlockFails(chain: seq<Store>, op: Offer)
    requires |chain| > 1 && !Funded(Node(chain[1], [op]))
    ensures !AlwaysFunded(Node(chain[0], [op]), Blocks(chain[1..]))
  {
    hide Funded;
    var n, next, events := Node(chain[0], [op]), Node(chain[1], [op]), Blocks(chain[1..]);
    assert [op][..0] == [] && Applying([op], KeepAll()) == [op];
    assert events[0] == Block(chain[1], KeepAll());
    assert NodeStep(n, events[0]) == next;
    assert !AlwaysFunded(next, events[1..]);
  }

  lemma AdmitThenBlocksFails(chain: seq<Store>, op: Offer)
    requires |chain| > 0 && Accepts(chain[0], [], op)
    requires !Funded(Node(chain[0], [op])) || (|chain| > 1 && !Funded(Node(chain[1], [op])))
    ensures BlockStores(AdmitThenBlocks(chain, op)) == chain[1..]
    ensures !AlwaysFunded(Node(chain[0], []), AdmitThenBlocks(chain, op))
  {
    hide Funded, Accepts, Blocks;
    var n, events, rest := Node(chain[0], [op]), AdmitThenBlocks(chain, op), Blocks(chain[1..]);
    BlocksLead(chain[1..]);
    assert events[1..] == rest && [] + [op] == [op];
    assert NodeStep(Node(chain[0], []), events[0]) == n;
    if Funded(n) {
      NextBlockFails(chain, op);
    }
    assert !AlwaysFunded(n, rest);
  }

  lemma {:induction false} UnsafeChainFails(chain: seq<Store>) returns (events: seq<NodeEvent>)
    requires |chain| > 0 && !ChainSafe(chain)
    ensures BlockStores(events) == chain[1..] && !AlwaysFunded(Node(chain[0], []), events)
  {
    hide Funded, Accepts, LineSafe, BalanceHolds, HeadroomHolds;
    if !StoreSafe(chain[0]) {
      var h :| !LineSafe(chain[0], h);
      UnsafeStoreWitness(chain[0], h);
      var op := Create(h.holder, chain[0].minFee, Issued(h.issue), MAX64, 0);
      AdmitThenBlocksFails(chain, op);
      events := AdmitThenBlocks(chain, op);
    } else if !NothingLowered(chain[0], chain[1]) {
      var op := LoweredWitness(chain[0], chain[1]);
      AdmitThenBlocksFails(chain, op);
      events := AdmitThenBlocks(chain, op);
    } else {
      var later := UnsafeChainFails(chain[1..]);
      events := [Block(chain[1], KeepAll())] + later;
      assert events[1..] == later;
      assert NodeStep(Node(chain[0], []), events[0]) == Node(chain[1], []);
      assert chain[1..] == [chain[1]] + chain[1..][1..];
    }
  }

  lemma LoweredWitness(before: Store, after: Store) returns (op: Offer)
    requires !NothingLowered(before, after)
    ensures Accepts(before, [], op) && !Funded(Node(after, [op]))
  {
    hide Funded, Accepts;
    if owner :| !BalanceHolds(before, after, owner) {
      LoweredBalanceWitness(before, after, owner);
      op := FeeOnly(owner, Lookup(before.balance, owner), 0);
    } else {
      var h :| !HeadroomHolds(before, after, h);
      LoweredHeadroomWitness(before, after, h);
      op := Create(h.holder, before.minFee, Issued(h.issue), Headroom(before, h), 0);
    }
  }

  /** Every run through the chain of stores, with any admissions, removals and evictions, stays funded. */
  ghost predicate ChainFunded(chain: seq<Store>)
    requires |chain| > 0
  {
    forall events :: BlockStores(events) == chain[1..] ==> AlwaysFunded(Node(chain[0], []), events)
  }

  /**
   Pending operations stay jointly funded on every run through a chain of stores if and only if no
   block lowers a balance or a headroom that pending operations could have used, and no store lets an
   issued sum exceed 64 bits.
   */
  lemma ChainFundedIff(chain: seq<Store>)
    requires |chain| > 0 && OneFee(chain)
    ensures ChainFunded(chain) <==> ChainSafe(chain)
  {
    hide Funded, StoreSafe, NothingLowered;
    if ChainSafe(chain) {
      forall events | BlockStores(events) == chain[1..]
        ensures AlwaysFunded(Node(chain[0], []), events)
      {
        assert [chain[0]] + BlockStores(events) == chain;
        EmptyFunded(chain[0]);
        SafeChainFunded(Node(chain[0], []), events);
      }
    } else {
      var events := UnsafeChainFails(chain);
    }
  }

  lemma EmptyFunded(store: Store)
    ensures Funded(Node(store, [])) && AllPay(store.minFee, [])
  {
  }

  // ---------------------------------------------------------------------------
  // Revalidation, one operation at a time
  // ---------------------------------------------------------------------------

  /** The store alone covers the fee and all units on offer, so that an offer nothing crosses is placed. */
  predicate CanPay(store: Store, op: Offer)
  {
    && Spends(op) <= Lookup(store.balance, op.owner)
    && (Reserves(op) ==> op.amount <= Headroom(store, HoldingOf(op)))
  }

  function PaidAlone(store: Store): Offer -> bool { op => CanPay(store, op) }

  /** The pool after a run, and after a block to which every operation was applied alone. */
  function Revalidated(before: Store, after: Store, events: seq<Event>): seq<Offer>
  {
    Applying(After(before, [], events), PaidAlone(after))
  }

  // The condition, on the stores alone

  /** The balance does not fall, pays for no operation, or paid for one at most. */
  predicate OwnerSurvives(before: Store, after: Store, owner: Address)
  {
    var was, now := Lookup(before.balance, owner), Lookup(after.balance, owner);
    now >= was || now == 0 || now < before.minFee || was < 2 * before.minFee
  }

  /** The units that pending offers may take together. */
  function Capacity(store: Store, h: Holding): nat
  {
    if h in store.line && store.line[h] == MAX64 then MAX64
    else if Headroom(store, h) > 0 then Headroom(store, h)
    else 0
  }

  /** The headroom still covers all that could be pending or covers no offer, or there is one offer at most. */
  predicate HoldingSurvives(before: Store, after: Store, h: Holding)
  {
    || Headroom(after, h) >= Capacity(before, h) || Headroom(after, h) <= 0 || h.holder == h.issue.issuer
    || Lookup(after.balance, h.holder) < before.minFee || Lookup(before.balance, h.holder) < 2 * before.minFee
  }

  // It suffices

  lemma {:induction false} NoneStays(minFee: U64, ops: seq<Offer>, after: Store, owner: Address)
    requires AllPay(minFee, ops)
    requires Lookup(after.balance, owner) == 0 || Lookup(after.balance, owner) < minFee
    ensures NativeSum(Applying(ops, PaidAlone(after)), owner) == 0
  {
    if |ops| > 0 {
      NoneStays(minFee, ops[..|ops| - 1], after, owner);
      SumsSnoc(Applying(ops[..|ops| - 1], PaidAlone(after)), ops[|ops| - 1]);
    }
  }

  lemma {:induction false} NoUnitStays(minFee: U64, ops: seq<Offer>, after: Store, h: Holding)
    requires AllPay(minFee, ops)
    requires Headroom(after, h) <= 0 || Lookup(after.balance, h.holder) < minFee
    ensures IssuedSum(Applying(ops, PaidAlone(after)), h) == 0
  {
    if |ops| > 0 {
      NoUnitStays(minFee, ops[..|ops| - 1], after, h);
      SumsSnoc(Applying(ops[..|ops| - 1], PaidAlone(after)), ops[|ops| - 1]);
    }
  }

  lemma {:induction false} OneStays(minFee: U64, ops: seq<Offer>, after: Store, h: Holding)
    requires AllPay(minFee, ops) && NativeSum(ops, h.holder) < 2 * minFee
    ensures NativeSum(Applying(ops, PaidAlone(after)), h.holder) <= Lookup(after.balance, h.holder)
    ensures IssuedSum(Applying(ops, PaidAlone(after)), h) == 0 ||
            IssuedSum(Applying(ops, PaidAlone(after)), h) <= Headroom(after, h)
  {
    if |ops| > 0 {
      var front, last := ops[..|ops| - 1], ops[|ops| - 1];
      SumsSnoc(Applying(front, PaidAlone(after)), last);
      OneStays(minFee, front, after, h);
      if last.owner == h.holder {
        NothingPending(minFee, front, h);
        StayingSums(front, PaidAlone(after), h.holder, h);
      }
    }
  }

  lemma OwnerStaysFunded(before: Store, after: Store, events: seq<Event>, owner: Address)
    requires OwnerSurvives(before, after, owner)
    ensures NativeSum(Revalidated(before, after, events), owner) <= Lookup(after.balance, owner)
  {
    hide After, NativeSum, IssuedSum, Applying, PaidAlone, HoldingFunded;
    var ops, h := After(before, [], events), Holding(owner, Issue(owner, 0));
    RunAllPay(before, [], events);
    EveryRunFunded(before, events, owner, h);
    StayingSums(ops, PaidAlone(after), owner, h);
    if Lookup(before.balance, owner) < 2 * before.minFee {
      OneStays(before.minFee, ops, after, h);
    } else if Lookup(after.balance, owner) < Lookup(before.balance, owner) {
      NoneStays(before.minFee, ops, after, owner);
    }
  }

  lemma HoldingStaysFunded(before: Store, after: Store, events: seq<Event>, h: Holding)
    requires HoldingSurvives(before, after, h)
    ensures LineFunded(after, Revalidated(before, after, events), h)
  {
    hide After, NativeSum, IssuedSum, Applying, PaidAlone;
    var ops := After(before, [], events);
    RunAllPay(before, [], events);
    EveryRunFunded(before, events, h.holder, h);
    EmptySums(h);
    RunIssuedFits(before, [], events, h);
    StayingSums(ops, PaidAlone(after), h.holder, h);
    if Lookup(before.balance, h.holder) < 2 * before.minFee {
      OneStays(before.minFee, ops, after, h);
    } else if Headroom(after, h) <= 0 || Lookup(after.balance, h.holder) < before.minFee {
      NoUnitStays(before.minFee, ops, after, h);
    }
  }

  // It is needed

  /** Two offers that the old store accepts together, and the new one only each alone. */
  ghost predicate PairBreaks(before: Store, after: Store, first: Offer, second: Offer)
  {
    && first.Create? && second.Create? && first != second
    && Accepts(before, [], first) && Accepts(before, [first], second)
    && CanPay(after, first) && CanPay(after, second) && !Funded(Node(after, [first, second]))
  }

  lemma PairStays(before: Store, after: Store, first: Offer, second: Offer)
    requires PairBreaks(before, after, first, second)
    ensures Revalidated(before, after, [Try(first, true), Try(second, true)]) == [first, second]
  {
    hide Accepts, CanPay, Funded;
    var events := [Try(first, true), Try(second, true)];
    assert [] + [first] == [first] && [first] + [second] == [first, second];
    assert events[1..] == [Try(second, true)] && events[1..][1..] == [];
    assert Step(before, [], events[0]) == [first];
    assert After(before, [first], events[1..]) == After(before, [first, second], []);
    assert After(before, [], events) == [first, second];
    var stays := PaidAlone(after);
    assert [first, second][..1] == [first] && [first][..0] == [];
    assert Applying([first], stays) == [first];
    assert Applying([first, second], stays) == [first, second];
  }

  lemma PairSums(first: Offer, second: Offer, h: Holding)
    requires first.owner == second.owner == h.holder
    ensures NativeSum([first], h.holder) == NativeCharge(first) && IssuedSum([first], h) == IssuedOf(first, h)
    ensures NativeSum([first, second], h.holder) == NativeCharge(first) + NativeCharge(second)
    ensures IssuedSum([first, second], h) == IssuedOf(first, h) + IssuedOf(second, h)
  {
    SingleSums(first, h);
    assert [first] + [second] == [first, second];
    SumsSnoc([first], second);
  }

  /** Two fees, each within the new balance and together above it. */
  lemma OwnerPair(before: Store, after: Store, owner: Address) returns (first: Offer, second: Offer)
    requires !OwnerSurvives(before, after, owner)
    ensures PairBreaks(before, after, first, second)
  {
    var now, least := Lookup(after.balance, owner), if before.minFee == 0 then 1 else before.minFee;
    var total := if now < 2 * before.minFee then 2 * before.minFee else now + 1;
    first, second := FeeOnly(owner, total - least, 0), FeeOnly(owner, least, 1);
    var h := Holding(owner, Issue(owner, 0));
    SingleSums(first, h);
    PairSums(first, second, h);
    assert NativeSum([first, second], owner) > now;
  }

  /** Two offers at the least fee, each within the new headroom and together above it. */
  lemma HoldingPair(before: Store, after: Store, h: Holding) returns (first: Offer, second: Offer)
    requires !HoldingSurvives(before, after, h)
    ensures PairBreaks(before, after, first, second)
  {
    first := Create(h.holder, before.minFee, Issued(h.issue), Headroom(after, h), 0);
    second := Create(h.holder, before.minFee, Issued(h.issue), 1, 1);
    SingleSums(first, h);
    PairSums(first, second, h);
    assert HoldingOf(first) == h && HoldingOf(second) == h;
    assert !LineFunded(after, [first, second], h);
  }

  ghost predicate Survives(before: Store, after: Store)
  {
    (forall owner :: OwnerSurvives(before, after, owner)) && (forall h :: HoldingSurvives(before, after, h))
  }

  lemma BreakingPair(before: Store, after: Store) returns (first: Offer, second: Offer)
    requires !Survives(before, after)
    ensures PairBreaks(before, after, first, second)
  {
    hide PairBreaks;
    if owner :| !OwnerSurvives(before, after, owner) {
      first, second := OwnerPair(before, after, owner);
    } else {
      var h :| !HoldingSurvives(before, after, h);
      first, second := HoldingPair(before, after, h);
    }
  }

  lemma SurvivorsFunded(before: Store, after: Store, events: seq<Event>)
    requires Survives(before, after)
    ensures Funded(Node(after, Revalidated(before, after, events)))
  {
    hide NativeSum, LineFunded, Revalidated, OwnerSurvives, HoldingSurvives;
    var ops := Revalidated(before, after, events);
    forall owner
      ensures NativeSum(ops, owner) <= Lookup(after.balance, owner)
    {
      OwnerStaysFunded(before, after, events, owner);
    }
    forall h
      ensures LineFunded(after, ops, h)
    {
      HoldingStaysFunded(before, after, events, h);
    }
  }

  /**
   A block that keeps the operations the new store pays for one by one leaves them jointly funded, after
   every run, if and only if each owner's balance and each holder's headroom survives the block.
   */
  lemma RevalidationFundedIff(before: Store, after: Store)
    ensures (forall events :: Funded(Node(after, Revalidated(before, after, events)))) <==> Survives(before, after)
  {
    hide Funded, Revalidated;
    if Survives(before, after) {
      forall events
        ensures Funded(Node(after, Revalidated(before, after, events)))
      {
        SurvivorsFunded(before, after, events);
      }
    } else {
      var first, second := BreakingPair(before, after);
      PairStays(before, after, first, second);
      assert !Funded(Node(after, Revalidated(before, after, [Try(first, true), Try(second, true)])));
    }
  }
}
