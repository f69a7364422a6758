/**
 The node's request and gossip paths as programs over non-reentrant mutexes. A guard is a Rust scope
 guard: guards are dropped in the reverse of the order in which they were taken.
 */
module Locks {

  datatype Mutex = Limiter | Dispatcher | Chain | Mempool | Pending

  /** The acquisition order. Mempool and the pending inbox share a level, so neither nests in the other. */
  function Level(m: Mutex): nat
  {
    match m
    case Limiter => 0
    case Dispatcher => 0
    case Chain => 1
    case Mempool => 2
    case Pending => 2
  }

  /** Straight-line code with branches; `Use` is an access to the data a mutex guards. */
  datatype Prog =
    | Done
    | Lock(m: Mutex, next: Prog)
    | Unlock(m: Mutex, next: Prog)
    | Use(m: Mutex, next: Prog)
    | Branch(left: Prog, right: Prog)

  // ---------------------------------------------------------------------------
  // The methods, each followed by what the caller does next
  // ---------------------------------------------------------------------------

  /** A guard held for one access. */
  function With(m: Mutex, next: Prog): Prog { Lock(m, Use(m, Unlock(m, next))) }

  /** A guard under which the call may fail and return early. */
  function Try(m: Mutex, failed: Prog, next: Prog): Prog
  {
    Lock(m, Use(m, Branch(Unlock(m, failed), Unlock(m, next))))
  }

  datatype Call =
    | StoreOnly
    | PoolOnly
    | ChainOnly
    | ScoredAdmit
    | DefaultScoredAdmit
    | GetTransaction
    | GetDataCommitment
    | GetNodeInfo
    | GetBlockTemplate
    | SubmitBlock
    | EthereumRpc
    | RawExecution
    | GossipBlock(orphans: nat, parents: nat)
    | CompactBlock(lookups: nat, orphans: nat, parents: nat)
    | Headers(count: nat)

  /** Raw envelopes appended to a template; the limit may be hit while the inbox is held. */
  function AppendLocalEvm(next: Prog): Prog
  {
    Branch(next, Try(Pending, next, With(Mempool, next)))
  }

  function BlockFromStore(ret: Prog): Prog
  {
    With(Chain, Branch(ret, With(Chain, With(Chain, ret))))
  }

  /** `admit_gossip_block`. */
  function AdmitBlock(rejected: Prog, admitted: Prog): Prog { Try(Chain, rejected, With(Mempool, admitted)) }

  /** Parked children are admitted one after another; a missing parent is looked up in the chain. */
  function DrainOrphans(orphans: nat, ret: Prog): Prog
  {
    if orphans == 0 then ret
    else
      var rest := DrainOrphans(orphans - 1, ret);
      AdmitBlock(Branch(rest, With(Chain, rest)), rest)
  }

  /** Each missing parent is looked up again before it is requested. */
  function RequestParents(parents: nat, ret: Prog): Prog
  {
    if parents == 0 then ret else With(Chain, RequestParents(parents - 1, ret))
  }

  /** A block without its parents is parked and they are requested; an admitted one frees its orphans. */
  function IncomingBlock(orphans: nat, parents: nat, ret: Prog): Prog
  {
    AdmitBlock(Branch(ret, With(Chain, RequestParents(parents, ret))), DrainOrphans(orphans, ret))
  }

  /** One mempool lookup per short id, each under its own guard. */
  function Lookups(count: nat, next: Prog): Prog
  {
    if count == 0 then next else With(Mempool, Lookups(count - 1, next))
  }

  function HeaderBatch(count: nat, next: Prog): Prog
  {
    if count == 0 then next
    else
      var rest := HeaderBatch(count - 1, next);
      With(Chain, Branch(rest, With(Chain, rest)))
  }

  function Code(c: Call, ret: Prog): Prog
  {
    match c
    case StoreOnly => ret
    case PoolOnly => Branch(ret, With(Mempool, ret))
    case ChainOnly => Branch(ret, With(Chain, ret))
    case ScoredAdmit => Try(Chain, ret, With(Mempool, ret))
    case DefaultScoredAdmit => With(Chain, With(Mempool, ret))
    case GetTransaction => Try(Mempool, ret, Branch(ret, With(Chain, Branch(ret, With(Chain, ret)))))
    case GetDataCommitment => Branch(ret, Try(Mempool, ret, Branch(ret, BlockFromStore(ret))))
    case GetNodeInfo => Lock(Chain, Use(Chain, With(Mempool, Use(Chain, Unlock(Chain, ret)))))
    case GetBlockTemplate =>
      Lock(Chain, Use(Chain, Branch(Unlock(Chain, ret), With(Mempool, AppendLocalEvm(Use(Chain, Unlock(Chain, ret)))))))
    case SubmitBlock => Try(Chain, ret, With(Mempool, With(Pending, ret)))
    case EthereumRpc => Branch(ret, Try(Pending, ret, With(Mempool, ret)))
    case RawExecution => Branch(ret, With(Pending, With(Mempool, ret)))
    case GossipBlock(orphans, parents) =>
      var incoming := IncomingBlock(orphans, parents, ret);
      Branch(incoming, With(Chain, Branch(ret, incoming)))
    case CompactBlock(lookups, orphans, parents) =>
      With(Chain, Branch(ret, Lookups(lookups,
        Branch(With(Chain, Branch(ret, IncomingBlock(orphans, parents, ret))), With(Chain, ret)))))
    case Headers(count) => HeaderBatch(count, Branch(ret, With(Chain, ret)))
  }

  /** A POST passes the rate limiter first; every RPC then runs under the dispatcher guard. */
  datatype Task = Rpc(post: bool, call: Call) | Gossip(call: Call)

  function TaskCode(t: Task): Prog
  {
    match t
    case Rpc(post, call) =>
      var body := Branch(Done, Lock(Dispatcher, Use(Dispatcher, Code(call, Unlock(Dispatcher, Done)))));
      if post then Try(Limiter, Done, body) else body
    case Gossip(call) => Code(call, Done)
  }

  // ---------------------------------------------------------------------------
  // Threads and interleavings
  // ---------------------------------------------------------------------------

  datatype Guards = Nothing | Holding(m: Mutex, below: Guards)

  predicate Holds(g: Guards, m: Mutex) { g.Holding? && (g.m == m || Holds(g.below, m)) }

  datatype Thread = Thread(code: Prog, guards: Guards)

  type Node = seq<Thread>

  datatype Event = Spawn(task: Task) | Step(thread: nat, takeLeft: bool)

  /** A mutex is free when no thread, the asking one included, holds it. */
  ghost predicate Free(n: Node, m: Mutex) { forall j :: 0 <= j < |n| ==> !Holds(n[j].guards, m) }

  ghost predicate CanStep(n: Node, i: nat)
  {
    i < |n| &&
    match n[i].code
    case Done => false
    case Lock(m, _) => Free(n, m)
    case Unlock(m, _) => n[i].guards.Holding? && n[i].guards.m == m
    case Use(_, _) => true
    case Branch(_, _) => true
  }

  ghost predicate Enabled(n: Node, e: Event) { e.Spawn? || CanStep(n, e.thread) }

  function StepThread(t: Thread, takeLeft: bool): Thread
    requires t.code.Unlock? ==> t.guards.Holding?
  {
    match t.code
    case Done => t
    case Lock(m, next) => Thread(next, Holding(m, t.guards))
    case Unlock(_, next) => Thread(next, t.guards.below)
    case Use(_, next) => Thread(next, t.guards)
    case Branch(left, right) => Thread(if takeLeft then left else right, t.guards)
  }

  ghost function Next(n: Node, e: Event): Node
    requires Enabled(n, e)
  {
    match e
    case Spawn(task) => n + [Thread(TaskCode(task), Nothing)]
    case Step(i, takeLeft) => n[i := StepThread(n[i], takeLeft)]
  }

  /** Any interleaving of any number of tasks, started at any time. */
  ghost predicate IsRun(n: Node, events: seq<Event>)
    decreases |events|
  {
    |events| == 0 || (Enabled(n, events[0]) && IsRun(Next(n, events[0]), events[1..]))
  }

  ghost function After(n: Node, events: seq<Event>): Node
    requires IsRun(n, events)
    decreases |events|
  {
    if |events| == 0 then n else After(Next(n, events[0]), events[1..])
  }
}
