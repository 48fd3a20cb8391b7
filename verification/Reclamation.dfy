/**
 Epoch-based reclamation of allocator-backed memory (internal/wasm/execution.go), as a
 transition system with one program counter per thread. Every atomic operation of
 BeginExecution, EndExecution, collectRetiredMemory and retireMemory is a step of its own,
 so that threads interleave between any two of them. Closing a module
 (internal/wasm/module_instance.go) and linking a new one (internal/wasm/store.go) run in
 the same system, because the order "Closed, then retire" and "retain, then use" is what
 makes reclamation safe.
 */
module Reclamation {
  import opened ImportGraph

  type Tid(==, !new)

  type EpochId = int

  datatype Option<T> = None | Some(value: T)

  /** The low bits of Closed: whether the closer also closes the resources, or leaves that
      to the next FailIfClosed. */
  datatype ExitFlag = ResourceClosed | ResourceNotClosed

  /** What a thread does when EndExecution returns: BeginExecution's loop goes round again,
      or the call is over. */
  datatype After = Retry(m: Id) | Done

  datatype Pc =
    | Idle
    // BeginExecution
    | LoadCurrent(m: Id)
    | InstallFirst(m: Id)
    | Pin(m: Id, e: EpochId)
    | Confirm(m: Id, e: EpochId)
    | CheckClosed(m: Id, e: EpochId)
    | Guest(m: Id, e: EpochId)
    // EndExecution
    | Unpin(e: EpochId, after: After)
    | CompareCurrent(e: EpochId, after: After)
    | LockToCollect(after: After)
    // collectRetiredMemory, under the lock, then Free outside it
    | Collect(acc: seq<Id>, after: After)
    | Unlock(acc: seq<Id>, after: After)
    | Free(acc: seq<Id>, after: After)
    // CloseWithExitCode, closeWithExitCodeWithoutClosingResource, FailIfClosed
    | SetExitCode(m: Id, flag: ExitFlag)
    | LoadClosed(m: Id)
    // retireMemory, under the lock from Retire on
    | LockToRetire(m: Id)
    | Retire(m: Id)
    | Swap(retired: seq<Id>)
    | Enqueue(e: EpochId, retired: seq<Id>)
    // resolveImports of a module nobody else can see yet
    | Link(m: Id)

  /** Where a retired allocation is on its way to Free (history variable). */
  datatype Place = Pending | Batch(e: EpochId) | Held(t: Tid) | Freed

  /** guestExecutions without its mutex. `queue` is the list from head to tail, and ids grow
      with creation: the garbage collector never reuses an epoch somebody still points to. */
  datatype Epochs = Epochs(
    current: Option<EpochId>,
    next: EpochId,
    active: map<EpochId, int>,
    queue: seq<EpochId>)

  /** Module instances. `exit` is Closed, `owns` the modules created with an allocator-backed
      memory of their own and `expBuffer` those of them whose expBuffer is still set. */
  datatype Modules = Modules(
    exit: map<Id, ExitFlag>,
    graph: Graph,
    created: set<Id>,
    usable: set<Id>,
    owns: set<Id>,
    expBuffer: set<Id>)

  /** Retired allocations, named by their owner: the batch of each queued epoch and the
      calls of Free so far, in order. */
  datatype Memory = Memory(
    batch: map<EpochId, seq<Id>>,
    freed: seq<Id>,
    place: map<Id, Place>)

  datatype State = State(
    threads: map<Tid, Pc>,
    lock: Option<Tid>,
    epochs: Epochs,
    mods: Modules,
    mem: Memory)

  const Initial := State(
    map[], None, Epochs(None, 0, map[], []),
    Modules(map[], EmptyGraph, {}, {}, {}, {}), Memory(map[], [], map[]))

  function At(s: State, t: Tid): Pc {
    if t in s.threads then s.threads[t] else Idle
  }

  function Goto(s: State, t: Tid, pc: Pc): State {
    s.(threads := s.threads[t := pc])
  }

  function Resume(after: After): Pc {
    match after
    case Retry(m) => LoadCurrent(m)
    case Done => Idle
  }

  function Mark(place: map<Id, Place>, ns: seq<Id>, p: Place): map<Id, Place> {
    place + map n | n in ns :: p
  }

  /** What a step leaves open: what an idle thread does next, in which order the worklist
      collects allocations, and what a module being linked imports. */
  datatype Action =
    | Go
    | Call(m: Id)
    | Close(m: Id, flag: ExitFlag)
    | FailIfClosed(m: Id)
    | Instantiate(m: Id)
    | Release(g: Graph, retired: seq<Id>)
    | Import(n: Id)
    | ImportTable(n: Id)
    | Publish(owns: bool)

  // Epoch operations

  function Active(x: Epochs, e: EpochId): int {
    if e in x.active then x.active[e] else 0
  }

  function AddActive(x: Epochs, e: EpochId, d: int): Epochs {
    x.(active := x.active[e := Active(x, e) + d])
  }

  /** current.CompareAndSwap(nil, &executionEpoch{}) */
  function Install(x: Epochs): Epochs {
    if x.current.None? then Epochs(Some(x.next), x.next + 1, x.active[x.next := 0], x.queue) else x
  }

  /** The epoch that a retirement seals: the current one, or a new one if there is none. */
  function Sealed(x: Epochs): EpochId {
    if x.current.Some? then x.current.value else x.next
  }

  /** current.Swap(&executionEpoch{}) */
  function Renew(x: Epochs): Epochs {
    if x.current.Some? then
      Epochs(Some(x.next), x.next + 1, x.active[x.next := 0], x.queue)
    else
      Epochs(Some(x.next + 1), x.next + 2, x.active[x.next := 0][x.next + 1 := 0], x.queue)
  }

  // Steps

  predicate Startable(x: Modules, a: Action) {
    match a
    case Call(m) => m in x.usable
    case Close(m, _) => m in x.usable
    case FailIfClosed(m) => m in x.usable
    case Instantiate(m) => m !in x.created
    case _ => false
  }

  predicate Linkable(s: State, m: Id, a: Action) {
    match a
    case Import(n) => s.lock == None && n in s.mods.usable
    case ImportTable(n) => s.lock == None && Edge(s.mods.graph.imports, m, n)
    case Publish(_) => true
    case _ => false
  }

  ghost predicate Enabled(s: State, t: Tid, a: Action) {
    match At(s, t)
    case Idle => Startable(s.mods, a)
    case LockToCollect(_) => s.lock == None
    case LockToRetire(_) => s.lock == None
    case Retire(m) =>
      m !in s.mods.graph.closed ==> a.Release? && Retires(s.mods.graph, m, s.mods.expBuffer, a.g, a.retired)
    case Link(m) => Linkable(s, m, a)
    case _ => true
  }

  function StepStart(s: State, t: Tid, a: Action): State {
    match a
    case Call(m) => Goto(s, t, LoadCurrent(m))
    case Close(m, flag) => Goto(s, t, SetExitCode(m, flag))
    case FailIfClosed(m) => Goto(s, t, LoadClosed(m))
    case Instantiate(m) => Goto(s.(mods := s.mods.(created := s.mods.created + {m})), t, Link(m))
    case _ => s
  }

  function StepLoadCurrent(s: State, t: Tid, m: Id): State {
    Goto(s, t, if s.epochs.current.None? then InstallFirst(m) else Pin(m, s.epochs.current.value))
  }

  function StepConfirm(s: State, t: Tid, m: Id, e: EpochId): State {
    Goto(s, t, if s.epochs.current != Some(e) then Unpin(e, Retry(m)) else CheckClosed(m, e))
  }

  function StepCheckClosed(s: State, t: Tid, m: Id, e: EpochId): State {
    Goto(s, t, if m in s.mods.exit then Unpin(e, Done) else Guest(m, e))
  }

  function StepUnpin(s: State, t: Tid, e: EpochId, after: After): State {
    var x := AddActive(s.epochs, e, -1);
    Goto(s.(epochs := x), t, if Active(x, e) != 0 then Resume(after) else CompareCurrent(e, after))
  }

  function StepCompareCurrent(s: State, t: Tid, e: EpochId, after: After): State {
    Goto(s, t, if s.epochs.current == Some(e) then Resume(after) else LockToCollect(after))
  }

  predicate HeadIsIdle(x: Epochs) {
    x.queue != [] && Active(x, x.queue[0]) == 0
  }

  function BatchOf(x: Memory, e: EpochId): seq<Id> {
    if e in x.batch then x.batch[e] else []
  }

  /** One iteration of the loop in collectRetiredMemory, or its exit. */
  function StepCollect(s: State, t: Tid, acc: seq<Id>, after: After): State {
    if HeadIsIdle(s.epochs) then
      var e := s.epochs.queue[0];
      var ns := BatchOf(s.mem, e);
      Goto(s.(epochs := s.epochs.(queue := s.epochs.queue[1..]),
              mem := Memory(s.mem.batch - {e}, s.mem.freed, Mark(s.mem.place, ns, Held(t)))),
           t, Collect(acc + ns, after))
    else
      Goto(s.(mods := s.mods.(expBuffer := s.mods.expBuffer - set n | n in acc)), t, Unlock(acc, after))
  }

  function StepFree(s: State, t: Tid, acc: seq<Id>, after: After): State {
    if acc == [] then Goto(s, t, Resume(after))
    else
      Goto(s.(mem := Memory(s.mem.batch, s.mem.freed + [acc[0]], s.mem.place[acc[0] := Freed])),
           t, Free(acc[1..], after))
  }

  /** Closed.CompareAndSwap(0, flag | exitCode << 32): only the winner goes on, and only
      CloseWithExitCode goes on to retire. */
  function StepSetExitCode(s: State, t: Tid, m: Id, flag: ExitFlag): State {
    if m in s.mods.exit then Goto(s, t, Idle)
    else
      Goto(s.(mods := s.mods.(exit := s.mods.exit[m := flag])), t,
           if flag == ResourceClosed then LockToRetire(m) else Idle)
  }

  function StepLoadClosed(s: State, t: Tid, m: Id): State {
    Goto(s, t, if m in s.mods.exit && s.mods.exit[m] == ResourceNotClosed then LockToRetire(m) else Idle)
  }

  /** The critical section of retireMemory up to the swap. */
  function StepRetire(s: State, t: Tid, m: Id, a: Action): State {
    if m in s.mods.graph.closed || !a.Release? then
      Goto(s.(lock := None), t, Idle)
    else
      var s1 := s.(mods := s.mods.(graph := a.g), mem := s.mem.(place := Mark(s.mem.place, a.retired, Pending)));
      if a.retired == [] then Goto(s1.(lock := None), t, Idle) else Goto(s1, t, Swap(a.retired))
  }

  function StepEnqueue(s: State, t: Tid, e: EpochId, retired: seq<Id>): State {
    Goto(s.(epochs := s.epochs.(queue := s.epochs.queue + [e]),
            mem := Memory(s.mem.batch[e := retired], s.mem.freed, Mark(s.mem.place, retired, Batch(e)))),
         t, Collect([], Done))
  }

  /** resolveImports: `m` retains a module it imports; the exporter of an imported table
      retains `m` back; and finally `m` becomes visible, with or without its own memory. */
  function StepLink(s: State, t: Tid, m: Id, a: Action): State {
    match a
    case Import(n) => s.(mods := RetainImport(s.mods, m, n))
    case ImportTable(n) => s.(mods := RetainImport(s.mods, n, m))
    case Publish(owns) =>
      var own := if owns then {m} else {};
      Goto(s.(mods := s.mods.(usable := s.mods.usable + {m}, owns := s.mods.owns + own,
                              expBuffer := s.mods.expBuffer + own)),
           t, Idle)
    case _ => s
  }

  function RetainImport(x: Modules, m: Id, imported: Id): Modules {
    if imported in x.exit || imported in x.graph.closed then x
    else x.(graph := WithImport(x.graph, m, imported))
  }

  function Step(s: State, t: Tid, a: Action): State {
    match At(s, t)
    case Idle => StepStart(s, t, a)
    case LoadCurrent(m) => StepLoadCurrent(s, t, m)
    case InstallFirst(m) => Goto(s.(epochs := Install(s.epochs)), t, LoadCurrent(m))
    case Pin(m, e) => Goto(s.(epochs := AddActive(s.epochs, e, 1)), t, Confirm(m, e))
    case Confirm(m, e) => StepConfirm(s, t, m, e)
    case CheckClosed(m, e) => StepCheckClosed(s, t, m, e)
    case Guest(m, e) => Goto(s, t, Unpin(e, Done))
    case Unpin(e, after) => StepUnpin(s, t, e, after)
    case CompareCurrent(e, after) => StepCompareCurrent(s, t, e, after)
    case LockToCollect(after) => Goto(s.(lock := Some(t)), t, Collect([], after))
    case Collect(acc, after) => StepCollect(s, t, acc, after)
    case Unlock(acc, after) => Goto(s.(lock := None), t, Free(acc, after))
    case Free(acc, after) => StepFree(s, t, acc, after)
    case SetExitCode(m, flag) => StepSetExitCode(s, t, m, flag)
    case LoadClosed(m) => StepLoadClosed(s, t, m)
    case LockToRetire(m) => Goto(s.(lock := Some(t)), t, Retire(m))
    case Retire(m) => StepRetire(s, t, m, a)
    case Swap(retired) => Goto(s.(epochs := Renew(s.epochs)), t, Enqueue(Sealed(s.epochs), retired))
    case Enqueue(e, retired) => StepEnqueue(s, t, e, retired)
    case Link(m) => StepLink(s, t, m, a)
  }

  ghost predicate Next(s: State, s': State) {
    exists t, a :: Enabled(s, t, a) && s' == Step(s, t, a)
  }

  ghost predicate StepsTo(r: seq<State>, i: nat)
    requires 0 < i < |r|
  {
    Next(r[i - 1], r[i])
  }

  /** A run: starts in the initial state and takes one step of one thread at a time. */
  ghost predicate Run(r: seq<State>) {
    && r != [] && r[0] == Initial
    && forall i :: 0 < i < |r| ==> StepsTo(r, i)
  }
}
