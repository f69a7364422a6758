/** No re-entry, mutual exclusion, no deadlock and termination, for every interleaving. */
module LocksTheorems {
  import opened Locks

  // ---------------------------------------------------------------------------
  // The discipline of one program
  // ---------------------------------------------------------------------------

  predicate Above(m: Mutex, g: Guards) { g.Nothing? || Level(g.m) < Level(m) }

  /** Takes mutexes upwards only, touches only what it holds, and ends holding nothing. */
  predicate Disciplined(p: Prog, g: Guards)
  {
    match p
    case Done => g.Nothing?
    case Lock(m, next) => Above(m, g) && Disciplined(next, Holding(m, g))
    case Unlock(m, next) => g.Holding? && g.m == m && Disciplined(next, g.below)
    case Use(m, next) => Holds(g, m) && Disciplined(next, g)
    case Branch(left, right) => Disciplined(left, g) && Disciplined(right, g)
  }

  lemma OneGuard(m: Mutex, failed: Prog, next: Prog, g: Guards)
    requires Above(m, g)
    ensures Disciplined(With(m, next), g) <==> Disciplined(next, g)
    ensures Disciplined(Try(m, failed, next), g) <==> Disciplined(failed, g) && Disciplined(next, g)
  {
    var held := Holding(m, g);
    assert Holds(held, m);
    assert Disciplined(Unlock(m, next), held) == Disciplined(next, g);
    assert Disciplined(Use(m, Unlock(m, next)), held) == Disciplined(next, g);
    assert Disciplined(Unlock(m, failed), held) == Disciplined(failed, g);
    assert Disciplined(Branch(Unlock(m, failed), Unlock(m, next)), held) ==
           (Disciplined(failed, g) && Disciplined(next, g));
  }

  lemma GuardedDisciplined(g: Guards)
    ensures forall m, next :: Above(m, g) ==> (Disciplined(With(m, next), g) <==> Disciplined(next, g))
    ensures forall m, failed, next :: Above(m, g) ==>
              (Disciplined(Try(m, failed, next), g) <==> Disciplined(failed, g) && Disciplined(next, g))
  {
    forall m, next | Above(m, g)
      ensures Disciplined(With(m, next), g) <==> Disciplined(next, g)
    {
      OneGuard(m, Done, next, g);
    }
    forall m, failed, next | Above(m, g)
      ensures Disciplined(Try(m, failed, next), g) <==> Disciplined(failed, g) && Disciplined(next, g)
    {
      OneGuard(m, failed, next, g);
    }
  }

  lemma {:induction false} DrainDisciplined(orphans: nat, ret: Prog, g: Guards)
    requires Disciplined(ret, g) && Above(Chain, g)
    ensures Disciplined(DrainOrphans(orphans, ret), g)
  {
    if orphans > 0 {
      DrainDisciplined(orphans - 1, ret, g);
      hide With, Try;
      GuardedDisciplined(g);
    }
  }

  lemma {:induction false} LookupsDisciplined(count: nat, next: Prog, g: Guards)
    requires Disciplined(next, g) && Above(Mempool, g)
    ensures Disciplined(Lookups(count, next), g)
  {
    if count > 0 {
      LookupsDisciplined(count - 1, next, g);
      hide With, Try;
      GuardedDisciplined(g);
    }
  }

  lemma {:induction false} HeadersDisciplined(count: nat, next: Prog, g: Guards)
    requires Disciplined(next, g) && Above(Chain, g)
    ensures Disciplined(HeaderBatch(count, next), g)
  {
    if count > 0 {
      HeadersDisciplined(count - 1, next, g);
      hide With, Try;
      GuardedDisciplined(g);
    }
  }

  /** The two methods that hold the chain while they take the pool. */
  lemma NestedDisciplined(ret: Prog, g: Guards)
    requires Disciplined(ret, g) && Above(Chain, g)
    ensures Disciplined(Code(GetNodeInfo, ret), g) && Disciplined(Code(GetBlockTemplate, ret), g)
  {
    hide With, Try;
    var held := Holding(Chain, g);
    GuardedDisciplined(held);
    assert Holds(held, Chain);
    var back := Use(Chain, Unlock(Chain, ret));
    assert Disciplined(Unlock(Chain, ret), held);
    assert Disciplined(back, held);
    assert Disciplined(AppendLocalEvm(back), held);
    assert Disciplined(Branch(Unlock(Chain, ret), With(Mempool, AppendLocalEvm(back))), held);
  }

  /** Every method keeps the order chain before mempool or inbox, whatever its caller holds below. */
  lemma CallDisciplined(c: Call, ret: Prog, g: Guards)
    requires Disciplined(ret, g) && Above(Chain, g)
    ensures Disciplined(Code(c, ret), g)
  {
    hide With, Try;
    GuardedDisciplined(g);
    match c
    case GetNodeInfo => NestedDisciplined(ret, g);
    case GetBlockTemplate => NestedDisciplined(ret, g);
    case GossipBlock(orphans, parents) => IncomingDisciplined(orphans, parents, ret, g);
    case CompactBlock(lookups, orphans, parents) =>
      IncomingDisciplined(orphans, parents, ret, g);
      var accepted := With(Chain, Branch(ret, IncomingBlock(orphans, parents, ret)));
      LookupsDisciplined(lookups, Branch(accepted, With(Chain, ret)), g);
    case Headers(count) => HeadersDisciplined(count, Branch(ret, With(Chain, ret)), g);
    case _ =>
  }

  lemma {:induction false} ParentsDisciplined(parents: nat, ret: Prog, g: Guards)
    requires Disciplined(ret, g) && Above(Chain, g)
    ensures Disciplined(RequestParents(parents, ret), g)
  {
    if parents > 0 {
      ParentsDisciplined(parents - 1, ret, g);
      hide With, Try;
      GuardedDisciplined(g);
    }
  }

  lemma IncomingDisciplined(orphans: nat, parents: nat, ret: Prog, g: Guards)
    requires Disciplined(ret, g) && Above(Chain, g)
    ensures Disciplined(IncomingBlock(orphans, parents, ret), g)
  {
    hide With, Try;
    GuardedDisciplined(g);
    DrainDisciplined(orphans, ret, g);
    ParentsDisciplined(parents, ret, g);
  }

  lemma TaskDisciplined(t: Task)
    ensures Disciplined(TaskCode(t), Nothing)
  {
    hide With, Try, Code;
    GuardedDisciplined(Nothing);
    match t
    case Rpc(_, call) =>
      var held, code := Holding(Dispatcher, Nothing), Code(call, Unlock(Dispatcher, Done));
      assert Holds(held, Dispatcher) && Disciplined(Unlock(Dispatcher, Done), held);
      CallDisciplined(call, Unlock(Dispatcher, Done), held);
      assert Disciplined(Lock(Dispatcher, Use(Dispatcher, code)), Nothing);
      assert Disciplined(Branch(Done, Lock(Dispatcher, Use(Dispatcher, code))), Nothing);
    case Gossip(call) => CallDisciplined(call, Done, Nothing);
  }

  // ---------------------------------------------------------------------------
  // The invariant of every interleaving
  // ---------------------------------------------------------------------------

  predicate Ordered(g: Guards) { g.Holding? ==> Above(g.m, g.below) && Ordered(g.below) }

  predicate Proper(t: Thread) { Ordered(t.guards) && Disciplined(t.code, t.guards) }

  ghost predicate Exclusive(n: Node)
  {
    forall i, j, m :: 0 <= i < |n| && 0 <= j < |n| && Holds(n[i].guards, m) && Holds(n[j].guards, m) ==> i == j
  }

  ghost predicate Safe(n: Node) { (forall i :: 0 <= i < |n| ==> Proper(n[i])) && Exclusive(n) }

  lemma StepKeepsExclusive(n: Node, i: nat, takeLeft: bool)
    requires Exclusive(n) && CanStep(n, i)
    ensures Exclusive(Next(n, Step(i, takeLeft)))
  {
    var t := StepThread(n[i], takeLeft);
    assert forall m :: Holds(t.guards, m) ==> Holds(n[i].guards, m) || (n[i].code == Lock(m, t.code) && Free(n, m));
  }

  lemma StepSafe(n: Node, e: Event)
    requires Safe(n) && Enabled(n, e)
    ensures Safe(Next(n, e))
  {
    match e
    case Spawn(task) => TaskDisciplined(task);
    case Step(i, takeLeft) => StepKeepsExclusive(n, i, takeLeft);
  }

  /** Every reachable state is safe. */
  lemma {:induction false} RunSafe(n: Node, events: seq<Event>)
    requires Safe(n) && IsRun(n, events)
    ensures Safe(After(n, events))
    decreases |events|
  {
    if |events| > 0 {
      StepSafe(n, events[0]);
      RunSafe(Next(n, events[0]), events[1..]);
    }
  }

  lemma {:induction false} HeldIsBelow(g: Guards, m: Mutex, h: Mutex)
    requires Ordered(g) && Above(m, g) && Holds(g, h)
    ensures Level(h) < Level(m)
  {
  }

  ghost predicate HoldsAlone(n: Node, i: nat, m: Mutex)
  {
    forall j :: 0 <= j < |n| ==> (Holds(n[j].guards, m) <==> j == i)
  }

  /** In every reachable state no thread asks for a mutex it holds, and whoever touches data holds its mutex alone. */
  lemma NoReentryNoRace(events: seq<Event>, i: nat)
    requires IsRun([], events) && i < |After([], events)|
    ensures var t := After([], events)[i];
            && (t.code.Lock? ==> !Holds(t.guards, t.code.m))
            && (t.code.Use? ==> HoldsAlone(After([], events), i, t.code.m))
  {
    RunSafe([], events);
    var t := After([], events)[i];
    if t.code.Lock? && Holds(t.guards, t.code.m) {
      HeldIsBelow(t.guards, t.code.m, t.code.m);
    }
  }

  // ---------------------------------------------------------------------------
  // No deadlock
  // ---------------------------------------------------------------------------

  /**
   From any unfinished thread, following "waits for the holder of" climbs the levels and so ends at a
   thread that can step.
   */
  lemma {:induction false} SomeoneRuns(n: Node, i: nat) returns (runner: nat)
    requires Safe(n) && i < |n| && !n[i].code.Done?
    ensures CanStep(n, runner)
    decreases if n[i].code.Lock? then 3 - Level(n[i].code.m) else 4
  {
    runner := i;
    if n[i].code.Lock? && !Free(n, n[i].code.m) {
      var m := n[i].code.m;
      var j: nat :| j < |n| && Holds(n[j].guards, m);
      if n[j].code.Lock? {
        HeldIsBelow(n[j].guards, n[j].code.m, m);
        runner := SomeoneRuns(n, j);
      } else {
        runner := j;
      }
    }
  }

  lemma NoDeadlock(events: seq<Event>, i: nat) returns (runner: nat)
    requires IsRun([], events) && i < |After([], events)| && !After([], events)[i].code.Done?
    ensures CanStep(After([], events), runner)
  {
    RunSafe([], events);
    runner := SomeoneRuns(After([], events), i);
  }

  // ---------------------------------------------------------------------------
  // Every maximal run finishes
  // ---------------------------------------------------------------------------

  /** The longest path through a program. */
  function Size(p: Prog): nat
  {
    match p
    case Done => 0
    case Lock(_, next) => 1 + Size(next)
    case Unlock(_, next) => 1 + Size(next)
    case Use(_, next) => 1 + Size(next)
    case Branch(left, right) => 1 + if Size(left) >= Size(right) then Size(left) else Size(right)
  }

  function Remaining(n: Node): nat
  {
    if |n| == 0 then 0 else Remaining(n[..|n| - 1]) + Size(n[|n| - 1].code)
  }

  function Steps(events: seq<Event>): nat
  {
    if |events| == 0 then 0 else (if events[0].Step? then 1 else 0) + Steps(events[1..])
  }

  function Work(events: seq<Event>): nat
  {
    if |events| == 0 then 0
    else (if events[0].Spawn? then Size(TaskCode(events[0].task)) else 0) + Work(events[1..])
  }

  lemma {:induction false} RemainingUpdate(n: Node, i: nat, t: Thread)
    requires i < |n|
    ensures Remaining(n[i := t]) == Remaining(n) - Size(n[i].code) + Size(t.code)
  {
    var last := |n| - 1;
    if i == last {
      assert n[i := t][..last] == n[..last];
    } else {
      RemainingUpdate(n[..last], i, t);
      assert n[i := t][..last] == n[..last][i := t];
    }
  }

  lemma StepShrinks(n: Node, e: Event)
    requires Enabled(n, e)
    ensures e.Step? ==> Remaining(Next(n, e)) < Remaining(n)
    ensures e.Spawn? ==> Remaining(Next(n, e)) == Remaining(n) + Size(TaskCode(e.task))
  {
    match e
    case Spawn(task) => assert (n + [Thread(TaskCode(task), Nothing)])[..|n|] == n;
    case Step(i, takeLeft) => RemainingUpdate(n, i, StepThread(n[i], takeLeft));
  }

  /** Steps taken and steps left never exceed the work spawned: no run goes on without new tasks. */
  lemma {:induction false} StepsBounded(n: Node, events: seq<Event>)
    requires IsRun(n, events)
    ensures Steps(events) + Remaining(After(n, events)) <= Remaining(n) + Work(events)
    decreases |events|
  {
    if |events| > 0 {
      StepShrinks(n, events[0]);
      StepsBounded(Next(n, events[0]), events[1..]);
    }
  }

  /** A run that cannot step any more has finished every task and freed every mutex. */
  lemma MaximalRunFinishes(events: seq<Event>)
    requires IsRun([], events) && forall i: nat :: !CanStep(After([], events), i)
    ensures forall i :: 0 <= i < |After([], events)| ==> After([], events)[i] == Thread(Done, Nothing)
    ensures forall m :: Free(After([], events), m)
    ensures Steps(events) <= Work(events)
  {
    var n := After([], events);
    RunSafe([], events);
    StepsBounded([], events);
    forall i | 0 <= i < |n|
      ensures n[i] == Thread(Done, Nothing)
    {
      if !n[i].code.Done? {
        var runner := SomeoneRuns(n, i);
      }
      assert Proper(n[i]);
    }
  }

  // ---------------------------------------------------------------------------
  // What the calls use
  // ---------------------------------------------------------------------------

  /** Some path uses what `m` guards. */
  predicate Touches(p: Prog, m: Mutex)
  {
    match p
    case Done => false
    case Lock(_, next) => Touches(next, m)
    case Unlock(_, next) => Touches(next, m)
    case Use(k, next) => k == m || Touches(next, m)
    case Branch(left, right) => Touches(left, m) || Touches(right, m)
  }

  /** Some path uses what `inner` guards while `outer` is held; `held` says whether it is at the start. */
  predicate Nests(p: Prog, outer: Mutex, inner: Mutex, held: bool)
  {
    match p
    case Done => false
    case Lock(m, next) => Nests(next, outer, inner, held || m == outer)
    case Unlock(m, next) => Nests(next, outer, inner, held && m != outer)
    case Use(m, next) => (held && m == inner) || Nests(next, outer, inner, held)
    case Branch(left, right) => Nests(left, outer, inner, held) || Nests(right, outer, inner, held)
  }

  // Which mutexes

  lemma OneGuardTouches(m: Mutex, failed: Prog, next: Prog, k: Mutex)
    ensures Touches(With(m, next), k) <==> m == k || Touches(next, k)
    ensures Touches(Try(m, failed, next), k) <==> m == k || Touches(failed, k) || Touches(next, k)
  {
    assert Touches(Use(m, Unlock(m, next)), k) == (m == k || Touches(next, k));
    assert Touches(Unlock(m, failed), k) == Touches(failed, k) && Touches(Unlock(m, next), k) == Touches(next, k);
    var either := Branch(Unlock(m, failed), Unlock(m, next));
    assert Touches(either, k) == (Touches(failed, k) || Touches(next, k));
  }

  lemma GuardedTouches(k: Mutex)
    ensures forall m, next :: Touches(With(m, next), k) <==> m == k || Touches(next, k)
    ensures forall m, failed, next ::
              Touches(Try(m, failed, next), k) <==> m == k || Touches(failed, k) || Touches(next, k)
  {
    hide With, Try, Touches;
    forall m, next
      ensures Touches(With(m, next), k) <==> m == k || Touches(next, k)
    {
      OneGuardTouches(m, next, next, k);
    }
    forall m, failed, next
      ensures Touches(Try(m, failed, next), k) <==> m == k || Touches(failed, k) || Touches(next, k)
    {
      OneGuardTouches(m, failed, next, k);
    }
  }

  lemma {:induction false} DrainTouches(orphans: nat, k: Mutex)
    ensures Touches(DrainOrphans(orphans, Done), k) <==> orphans > 0 && (k == Chain || k == Mempool)
  {
    if orphans > 0 {
      hide With, Try;
      DrainTouches(orphans - 1, k);
      GuardedTouches(k);
    }
  }

  lemma {:induction false} ParentsTouch(parents: nat, k: Mutex)
    ensures Touches(RequestParents(parents, Done), k) <==> parents > 0 && k == Chain
  {
    if parents > 0 {
      hide With, Try;
      ParentsTouch(parents - 1, k);
      GuardedTouches(k);
    }
  }

  lemma {:induction false} LookupsTouch(count: nat, next: Prog, k: Mutex)
    ensures Touches(Lookups(count, next), k) <==> (count > 0 && k == Mempool) || Touches(next, k)
  {
    if count > 0 {
      hide With, Try;
      LookupsTouch(count - 1, next, k);
      GuardedTouches(k);
    }
  }

  lemma {:induction false} HeadersTouch(count: nat, next: Prog, k: Mutex)
    ensures Touches(HeaderBatch(count, next), k) <==> (count > 0 && k == Chain) || Touches(next, k)
  {
    if count > 0 {
      hide With, Try;
      HeadersTouch(count - 1, next, k);
      GuardedTouches(k);
    }
  }

  lemma IncomingTouches(orphans: nat, parents: nat, k: Mutex)
    ensures Touches(IncomingBlock(orphans, parents, Done), k) <==> k == Chain || k == Mempool
  {
    hide With, Try, DrainOrphans, RequestParents;
    DrainTouches(orphans, k);
    ParentsTouch(parents, k);
    GuardedTouches(k);
    var missing := Branch(Done, With(Chain, RequestParents(parents, Done)));
    assert Touches(missing, k) <==> k == Chain;
    assert Touches(With(Mempool, DrainOrphans(orphans, Done)), k) <==> k == Mempool || (orphans > 0 && k == Chain);
  }

  /** The calls with a loop: they use the chain, and all but the header batch the pool. */
  lemma LoopTouches(c: Call, k: Mutex)
    requires c.GossipBlock? || c.CompactBlock? || c.Headers?
    ensures Touches(Code(c, Done), k) <==> k == Chain || (k == Mempool && !c.Headers?)
  {
    hide With, Try, IncomingBlock, Lookups, HeaderBatch;
    GuardedTouches(k);
    match c
    case GossipBlock(orphans, parents) => IncomingTouches(orphans, parents, k);
    case CompactBlock(lookups, orphans, parents) =>
      IncomingTouches(orphans, parents, k);
      var accepted := With(Chain, Branch(Done, IncomingBlock(orphans, parents, Done)));
      LookupsTouch(lookups, Branch(accepted, With(Chain, Done)), k);
    case Headers(count) => HeadersTouch(count, Branch(Done, With(Chain, Done)), k);
  }

  // Which under which

  lemma HeldNests(m: Mutex, next: Prog, outer: Mutex, inner: Mutex, held: bool)
    requires outer != inner && (m == outer ==> !held)
    ensures Nests(Unlock(m, next), outer, inner, held || m == outer) == Nests(next, outer, inner, held)
    ensures Nests(Lock(m, Use(m, next)), outer, inner, held) ==
            ((held && m == inner) || Nests(next, outer, inner, held || m == outer))
  {
    assert Nests(Lock(m, Use(m, next)), outer, inner, held) ==
           Nests(Use(m, next), outer, inner, held || m == outer);
  }

  lemma OneGuardNests(m: Mutex, failed: Prog, next: Prog, outer: Mutex, inner: Mutex, held: bool)
    requires outer != inner && (m == outer ==> !held)
    ensures Nests(With(m, next), outer, inner, held) <==> (held && m == inner) || Nests(next, outer, inner, held)
    ensures Nests(Try(m, failed, next), outer, inner, held) <==>
            (held && m == inner) || Nests(failed, outer, inner, held) || Nests(next, outer, inner, held)
  {
    var either, within := Branch(Unlock(m, failed), Unlock(m, next)), held || m == outer;
    assert Nests(either, outer, inner, within) ==
           (Nests(Unlock(m, failed), outer, inner, within) || Nests(Unlock(m, next), outer, inner, within));
    hide Nests;
    HeldNests(m, next, outer, inner, held);
    HeldNests(m, failed, outer, inner, held);
    HeldNests(m, Unlock(m, next), outer, inner, held);
    HeldNests(m, either, outer, inner, held);
  }

  lemma GuardedNests(outer: Mutex, inner: Mutex, held: bool)
    requires outer != inner
    ensures forall m, next :: (m == outer ==> !held) ==>
              (Nests(With(m, next), outer, inner, held) <==> (held && m == inner) || Nests(next, outer, inner, held))
    ensures forall m, failed, next :: (m == outer ==> !held) ==>
              (Nests(Try(m, failed, next), outer, inner, held) <==>
               (held && m == inner) || Nests(failed, outer, inner, held) || Nests(next, outer, inner, held))
  {
    hide With, Try, Nests;
    forall m, next | m == outer ==> !held
      ensures Nests(With(m, next), outer, inner, held) <==> (held && m == inner) || Nests(next, outer, inner, held)
    {
      OneGuardNests(m, next, next, outer, inner, held);
    }
    forall m, failed, next | m == outer ==> !held
      ensures Nests(Try(m, failed, next), outer, inner, held) <==>
              (held && m == inner) || Nests(failed, outer, inner, held) || Nests(next, outer, inner, held)
    {
      OneGuardNests(m, failed, next, outer, inner, held);
    }
  }

  lemma {:induction false} DrainFlat(orphans: nat, outer: Mutex, inner: Mutex)
    requires outer != inner
    ensures !Nests(DrainOrphans(orphans, Done), outer, inner, false)
  {
    if orphans > 0 {
      hide With, Try;
      DrainFlat(orphans - 1, outer, inner);
      GuardedNests(outer, inner, false);
    }
  }

  lemma {:induction false} ParentsFlat(parents: nat, outer: Mutex, inner: Mutex)
    requires outer != inner
    ensures !Nests(RequestParents(parents, Done), outer, inner, false)
  {
    if parents > 0 {
      hide With, Try;
      ParentsFlat(parents - 1, outer, inner);
      GuardedNests(outer, inner, false);
    }
  }

  lemma {:induction false} LookupsFlat(count: nat, next: Prog, outer: Mutex, inner: Mutex)
    requires outer != inner && !Nests(next, outer, inner, false)
    ensures !Nests(Lookups(count, next), outer, inner, false)
  {
    if count > 0 {
      hide With, Try;
      LookupsFlat(count - 1, next, outer, inner);
      GuardedNests(outer, inner, false);
    }
  }

  lemma {:induction false} HeadersFlat(count: nat, next: Prog, outer: Mutex, inner: Mutex)
    requires outer != inner && !Nests(next, outer, inner, false)
    ensures !Nests(HeaderBatch(count, next), outer, inner, false)
  {
    if count > 0 {
      hide With, Try;
      HeadersFlat(count - 1, next, outer, inner);
      GuardedNests(outer, inner, false);
    }
  }

  lemma IncomingFlat(orphans: nat, parents: nat, outer: Mutex, inner: Mutex)
    requires outer != inner
    ensures !Nests(IncomingBlock(orphans, parents, Done), outer, inner, false)
  {
    hide With, Try, DrainOrphans, RequestParents;
    DrainFlat(orphans, outer, inner);
    ParentsFlat(parents, outer, inner);
    GuardedNests(outer, inner, false);
    var missing := Branch(Done, With(Chain, RequestParents(parents, Done)));
    assert !Nests(missing, outer, inner, false);
    assert !Nests(With(Mempool, DrainOrphans(orphans, Done)), outer, inner, false);
  }

  lemma AppendNests(back: Prog, outer: Mutex, inner: Mutex, held: bool)
    requires outer != inner && !Nests(back, outer, inner, held) && (held <==> outer == Chain)
    ensures Nests(With(Mempool, back), outer, inner, held) <==> held && inner == Mempool
    ensures Nests(With(Mempool, AppendLocalEvm(back)), outer, inner, held) <==>
            held && (inner == Mempool || inner == Pending)
  {
    hide With, Try;
    GuardedNests(outer, inner, held);
    assert Nests(AppendLocalEvm(back), outer, inner, held) <==> held && (inner == Mempool || inner == Pending);
  }

  lemma UnderTheChain(outer: Mutex, inner: Mutex)
    requires outer != inner
    ensures Nests(Code(GetNodeInfo, Done), outer, inner, false) <==> outer == Chain && inner == Mempool
    ensures Nests(Code(GetBlockTemplate, Done), outer, inner, false) <==>
            outer == Chain && (inner == Mempool || inner == Pending)
  {
    hide With, Try, AppendLocalEvm;
    var held, back := outer == Chain, Use(Chain, Unlock(Chain, Done));
    assert !Nests(Unlock(Chain, Done), outer, inner, held);
    assert !Nests(back, outer, inner, held);
    AppendNests(back, outer, inner, held);
    var all := Branch(Unlock(Chain, Done), With(Mempool, AppendLocalEvm(back)));
    assert Nests(all, outer, inner, held) <==> held && (inner == Mempool || inner == Pending);
    HeldNests(Chain, With(Mempool, back), outer, inner, false);
    HeldNests(Chain, all, outer, inner, false);
  }

  /** Only the node info and the template use one thing while holding another: pool and inbox under the chain. */
  lemma CallNests(c: Call, outer: Mutex, inner: Mutex)
    requires outer != inner
    ensures Nests(Code(c, Done), outer, inner, false) <==>
            match c
            case GetNodeInfo => outer == Chain && inner == Mempool
            case GetBlockTemplate => outer == Chain && (inner == Mempool || inner == Pending)
            case _ => false
  {
    hide With, Try, IncomingBlock, Lookups, HeaderBatch;
    GuardedNests(outer, inner, false);
    match c
    case GetNodeInfo => UnderTheChain(outer, inner);
    case GetBlockTemplate => UnderTheChain(outer, inner);
    case GossipBlock(orphans, parents) => IncomingFlat(orphans, parents, outer, inner);
    case CompactBlock(lookups, orphans, parents) =>
      IncomingFlat(orphans, parents, outer, inner);
      var accepted := With(Chain, Branch(Done, IncomingBlock(orphans, parents, Done)));
      LookupsFlat(lookups, Branch(accepted, With(Chain, Done)), outer, inner);
    case Headers(count) => HeadersFlat(count, Branch(Done, With(Chain, Done)), outer, inner);
    case _ =>
  }

  // In which order

  datatype Order = Nil | Then(m: Mutex, rest: Order)

  /** Some path takes exactly these mutexes, one after another. */
  predicate Takes(p: Prog, o: Order)
  {
    match p
    case Done => o == Nil
    case Lock(m, next) => o.Then? && o.m == m && Takes(next, o.rest)
    case Unlock(_, next) => Takes(next, o)
    case Use(_, next) => Takes(next, o)
    case Branch(left, right) => Takes(left, o) || Takes(right, o)
  }

  lemma OneGuardTakes(m: Mutex, failed: Prog, next: Prog, o: Order)
    ensures Takes(With(m, next), o) <==> o.Then? && o.m == m && Takes(next, o.rest)
    ensures Takes(Try(m, failed, next), o) <==> o.Then? && o.m == m && (Takes(failed, o.rest) || Takes(next, o.rest))
  {
    if o.Then? {
      assert Takes(Use(m, Unlock(m, next)), o.rest) == Takes(next, o.rest);
      var either := Branch(Unlock(m, failed), Unlock(m, next));
      assert Takes(either, o.rest) == (Takes(failed, o.rest) || Takes(next, o.rest));
    }
  }

  ghost predicate Quiet(p: Prog) { forall o :: Takes(p, o) <==> o == Nil }

  /** The calls without a loop. */
  predicate IsStraight(c: Call) { !c.GossipBlock? && !c.CompactBlock? && !c.Headers? }

  predicate Takes0(o: Order) { o == Nil }

  predicate Takes1(o: Order, a: Mutex) { o == Then(a, Nil) }

  predicate Takes2(o: Order, a: Mutex, b: Mutex) { o == Then(a, Then(b, Nil)) }

  predicate Takes3(o: Order, a: Mutex, b: Mutex, c: Mutex) { o == Then(a, Then(b, Then(c, Nil))) }

  predicate Takes4(o: Order, a: Mutex, b: Mutex, c: Mutex, d: Mutex) { o == Then(a, Then(b, Then(c, Then(d, Nil)))) }

  /** The mutexes such a call takes, in order: one list for each way through it. */
  predicate InOrder(c: Call, o: Order)
    requires IsStraight(c)
  {
    match c
    case StoreOnly => Takes0(o)
    case PoolOnly => Takes0(o) || Takes1(o, Mempool)
    case ChainOnly => Takes0(o) || Takes1(o, Chain)
    case ScoredAdmit => Takes1(o, Chain) || Takes2(o, Chain, Mempool)
    case DefaultScoredAdmit => Takes2(o, Chain, Mempool)
    case GetTransaction => Takes1(o, Mempool) || Takes2(o, Mempool, Chain) || Takes3(o, Mempool, Chain, Chain)
    case GetDataCommitment =>
      Takes0(o) || Takes1(o, Mempool) || Takes2(o, Mempool, Chain) || Takes4(o, Mempool, Chain, Chain, Chain)
    case GetNodeInfo => Takes2(o, Chain, Mempool)
    case GetBlockTemplate =>
      || Takes1(o, Chain) || Takes2(o, Chain, Mempool)
      || Takes3(o, Chain, Mempool, Pending) || Takes4(o, Chain, Mempool, Pending, Mempool)
    case SubmitBlock => Takes1(o, Chain) || Takes3(o, Chain, Mempool, Pending)
    case EthereumRpc => Takes0(o) || Takes1(o, Pending) || Takes2(o, Pending, Mempool)
    case RawExecution => Takes0(o) || Takes2(o, Pending, Mempool)
  }

  lemma QuietReturn(ret: Prog, m: Mutex)
    requires Quiet(ret)
    ensures Quiet(Unlock(m, ret)) && Quiet(Use(m, Unlock(m, ret)))
  {
    forall o
      ensures Takes(Unlock(m, ret), o) <==> o == Nil
      ensures Takes(Use(m, Unlock(m, ret)), o) <==> o == Nil
    {
      assert Takes(Use(m, Unlock(m, ret)), o) == Takes(Unlock(m, ret), o) == Takes(ret, o);
    }
  }

  lemma NodeInfoTakes(ret: Prog, o: Order)
    requires Quiet(ret)
    ensures Takes(Code(GetNodeInfo, ret), o) <==> InOrder(GetNodeInfo, o)
  {
    hide With;
    var back := Use(Chain, Unlock(Chain, ret));
    QuietReturn(ret, Chain);
    if o.Then? {
      assert Takes(Use(Chain, With(Mempool, back)), o.rest) == Takes(With(Mempool, back), o.rest);
      OneGuardTakes(Mempool, back, back, o.rest);
    }
  }

  /** Nothing, the inbox alone, or the inbox and then the pool. */
  lemma AppendTakes(back: Prog, o: Order)
    requires Quiet(back)
    ensures Takes(AppendLocalEvm(back), o) <==> Takes0(o) || Takes1(o, Pending) || Takes2(o, Pending, Mempool)
  {
    hide With, Try;
    OneGuardTakes(Pending, back, With(Mempool, back), o);
    if o.Then? {
      OneGuardTakes(Mempool, back, back, o.rest);
    }
  }

  lemma TemplateTakes(ret: Prog, o: Order)
    requires Quiet(ret)
    ensures Takes(Code(GetBlockTemplate, ret), o) <==> InOrder(GetBlockTemplate, o)
  {
    hide With, Try, AppendLocalEvm;
    var back := Use(Chain, Unlock(Chain, ret));
    QuietReturn(ret, Chain);
    var append := AppendLocalEvm(back);
    var all := Branch(Unlock(Chain, ret), With(Mempool, append));
    if o.Then? {
      assert Takes(Use(Chain, all), o.rest) == Takes(all, o.rest);
      assert Takes(all, o.rest) == (Takes(Unlock(Chain, ret), o.rest) || Takes(With(Mempool, append), o.rest));
      OneGuardTakes(Mempool, append, append, o.rest);
      if o.rest.Then? {
        AppendTakes(back, o.rest.rest);
      }
    }
  }

  lemma StoredTakes(ret: Prog, o: Order)
    requires Quiet(ret)
    ensures Takes(BlockFromStore(ret), o) <==> Takes1(o, Chain) || Takes3(o, Chain, Chain, Chain)
  {
    hide With;
    OneGuardTakes(Chain, ret, Branch(ret, With(Chain, With(Chain, ret))), o);
    if o.Then? {
      OneGuardTakes(Chain, ret, With(Chain, ret), o.rest);
      if o.rest.Then? {
        OneGuardTakes(Chain, ret, ret, o.rest.rest);
      }
    }
  }

  lemma CommitmentTakes(ret: Prog, o: Order)
    requires Quiet(ret)
    ensures Takes(Code(GetDataCommitment, ret), o) <==> InOrder(GetDataCommitment, o)
  {
    hide Try, BlockFromStore;
    OneGuardTakes(Mempool, ret, Branch(ret, BlockFromStore(ret)), o);
    if o.Then? {
      StoredTakes(ret, o.rest);
    }
  }

  lemma LookupTakes(ret: Prog, o: Order)
    requires Quiet(ret)
    ensures Takes(Code(GetTransaction, ret), o) <==> InOrder(GetTransaction, o)
  {
    hide With, Try;
    var again := Branch(ret, With(Chain, ret));
    var found := Branch(ret, With(Chain, again));
    OneGuardTakes(Mempool, ret, found, o);
    if o.Then? {
      OneGuardTakes(Chain, again, again, o.rest);
      if o.rest.Then? {
        OneGuardTakes(Chain, ret, ret, o.rest.rest);
      }
    }
  }

  lemma SubmitTakes(ret: Prog, o: Order)
    requires Quiet(ret)
    ensures Takes(Code(SubmitBlock, ret), o) <==> InOrder(SubmitBlock, o)
  {
    hide With, Try;
    var evict := With(Mempool, With(Pending, ret));
    OneGuardTakes(Chain, ret, evict, o);
    if o.Then? {
      OneGuardTakes(Mempool, ret, With(Pending, ret), o.rest);
      if o.rest.Then? {
        OneGuardTakes(Pending, ret, ret, o.rest.rest);
      }
    }
  }

  lemma AdmitTakes(c: Call, ret: Prog, o: Order)
    requires Quiet(ret) && (c.ScoredAdmit? || c.DefaultScoredAdmit?)
    ensures Takes(Code(c, ret), o) <==> InOrder(c, o)
  {
    hide With, Try;
    OneGuardTakes(Chain, ret, With(Mempool, ret), o);
    if o.Then? {
      OneGuardTakes(Mempool, ret, ret, o.rest);
    }
  }

  lemma ShortTakes(c: Call, ret: Prog, o: Order)
    requires Quiet(ret) && (c.StoreOnly? || c.PoolOnly? || c.ChainOnly?)
    ensures Takes(Code(c, ret), o) <==> InOrder(c, o)
  {
    hide With, Try;
    OneGuardTakes(Mempool, ret, ret, o);
    OneGuardTakes(Chain, ret, ret, o);
  }

  lemma InboxTakes(c: Call, ret: Prog, o: Order)
    requires Quiet(ret) && (c.EthereumRpc? || c.RawExecution?)
    ensures Takes(Code(c, ret), o) <==> InOrder(c, o)
  {
    hide With, Try;
    OneGuardTakes(Pending, ret, With(Mempool, ret), o);
    if o.Then? {
      OneGuardTakes(Mempool, ret, ret, o.rest);
    }
  }

  /** Every call without a loop takes the mutexes in one of its orders, and can take them in each. */
  lemma CallTakes(c: Call, ret: Prog, o: Order)
    requires IsStraight(c) && Quiet(ret)
    ensures Takes(Code(c, ret), o) <==> InOrder(c, o)
  {
    hide Code, InOrder, Quiet, Takes;
    match c
    case GetNodeInfo => NodeInfoTakes(ret, o);
    case GetBlockTemplate => TemplateTakes(ret, o);
    case GetDataCommitment => CommitmentTakes(ret, o);
    case GetTransaction => LookupTakes(ret, o);
    case SubmitBlock => SubmitTakes(ret, o);
    case ScoredAdmit => AdmitTakes(c, ret, o);
    case DefaultScoredAdmit => AdmitTakes(c, ret, o);
    case EthereumRpc => InboxTakes(c, ret, o);
    case RawExecution => InboxTakes(c, ret, o);
    case _ => ShortTakes(c, ret, o);
  }

  /** A POST takes the limiter first and stops there when it is refused; the call runs under the dispatcher. */
  lemma TaskTakes(post: bool, c: Call, o: Order)
    requires IsStraight(c)
    ensures var rest := if post && o.Then? then o.rest else o;
            Takes(TaskCode(Rpc(post, c)), o) <==>
            && (post ==> o.Then? && o.m == Limiter)
            && (rest == Nil || (rest.m == Dispatcher && InOrder(c, rest.rest)))
  {
    hide Try, Code;
    var ret := Unlock(Dispatcher, Done);
    assert Quiet(Done);
    QuietReturn(Done, Dispatcher);
    var inside := Use(Dispatcher, Code(c, ret));
    var body := Branch(Done, Lock(Dispatcher, inside));
    var rest := if post && o.Then? then o.rest else o;
    OneGuardTakes(Limiter, Done, body, o);
    if rest.Then? {
      assert Takes(inside, rest.rest) == Takes(Code(c, ret), rest.rest);
      CallTakes(c, ret, rest.rest);
    }
    assert Takes(body, rest) <==> rest == Nil || (rest.m == Dispatcher && InOrder(c, rest.rest));
  }

  // ---------------------------------------------------------------------------
  // The discipline is what prevents deadlock
  // ---------------------------------------------------------------------------

  function Opposite(a: Prog, b: Prog): seq<Thread>
  {
    [Thread(Lock(Pending, a), Holding(Mempool, Nothing)), Thread(Lock(Mempool, b), Holding(Pending, Nothing))]
  }

  /** Nesting mempool and inbox in opposite orders can hang two threads. */
  lemma OppositeNestingHangs(a: Prog, b: Prog)
    ensures var n := Opposite(a, b);
            Exclusive(n) && !Disciplined(n[0].code, n[0].guards) && forall i: nat :: !CanStep(n, i)
  {
    assert Holds(Holding(Mempool, Nothing), Mempool) && Holds(Holding(Pending, Nothing), Pending);
    var n := Opposite(a, b);
    assert Holds(n[0].guards, Mempool) && Holds(n[1].guards, Pending);
  }
}
