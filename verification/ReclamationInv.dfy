/**
 What every step of the reclamation protocol keeps, in every interleaving: the lock, the
 order of epochs, the pin counts, and where each retired allocation is.
 */
module ReclamationInv {
  import opened ImportGraph
  import RetireWorklist
  import opened Reclamation

  // The lock

  predicate Holds(pc: Pc) {
    pc.Collect? || pc.Unlock? || pc.Retire? || pc.Swap? || pc.Enqueue?
  }

  ghost predicate LockInv(s: State) {
    forall t :: Holds(At(s, t)) <==> s.lock == Some(t)
  }

  // Epochs

  /** The epoch a thread has loaded, pinned or not. */
  function EpochOf(pc: Pc): Option<EpochId> {
    match pc
    case Pin(_, e) => Some(e)
    case Confirm(_, e) => Some(e)
    case CheckClosed(_, e) => Some(e)
    case Guest(_, e) => Some(e)
    case Unpin(e, _) => Some(e)
    case CompareCurrent(e, _) => Some(e)
    case _ => None
  }

  ghost predicate EpochsInv(x: Epochs) {
    && (forall e :: e in x.active <==> 0 <= e < x.next)
    && (match x.current case None => x.next == 0 case Some(c) => 0 <= c == x.next - 1)
    && (forall i, j :: 0 <= i < j < |x.queue| ==> x.queue[i] < x.queue[j])
    && (forall e :: e in x.queue ==> 0 <= e && x.current.Some? && e < x.current.value)
  }

  ghost predicate LoadedInv(s: State) {
    && EpochsInv(s.epochs)
    && (forall t :: EpochOf(At(s, t)).Some? ==> AtMostCurrent(s.epochs, EpochOf(At(s, t)).value))
    && (forall t :: At(s, t).Enqueue? ==> Sealing(s.epochs, At(s, t).e))
  }

  ghost predicate AtMostCurrent(x: Epochs, e: EpochId) {
    x.current.Some? && 0 <= e <= x.current.value
  }

  /** `e` has been swapped out but is not queued yet. */
  ghost predicate Sealing(x: Epochs, e: EpochId) {
    && x.current.Some? && 0 <= e < x.current.value
    && forall q :: q in x.queue ==> q < e
  }

  // Pins: the counter of an epoch is the number of threads between their Add(1) and Add(-1).

  predicate Pins(pc: Pc, e: EpochId) {
    match pc
    case Confirm(_, f) => e == f
    case CheckClosed(_, f) => e == f
    case Guest(_, f) => e == f
    case Unpin(f, _) => e == f
    case _ => false
  }

  function Pinners(s: State, e: EpochId): set<Tid> {
    set t | t in s.threads && Pins(s.threads[t], e)
  }

  ghost predicate PinInv(s: State) {
    forall e :: 0 <= e < s.epochs.next ==> Active(s.epochs, e) == |Pinners(s, e)|
  }

  lemma OthersStay(s: State, t: Tid, a: Action)
    ensures forall u :: u != t ==> At(Step(s, t, a), u) == At(s, u)
  {
  }

  lemma LockKept(s: State, t: Tid, a: Action)
    requires LockInv(s) && Enabled(s, t, a)
    ensures LockInv(Step(s, t, a))
  {
    OthersStay(s, t, a);
  }

  // Epoch operations keep the order of epochs. Only these steps touch guestExecutions.

  predicate TouchesEpochs(pc: Pc) {
    pc.InstallFirst? || pc.Pin? || pc.Unpin? || pc.Collect? || pc.Swap? || pc.Enqueue?
  }

  lemma EpochsStay(s: State, t: Tid, a: Action)
    requires !TouchesEpochs(At(s, t))
    ensures Step(s, t, a).epochs == s.epochs
  {
  }

  /** Ids only grow, so whatever was at most current or being sealed stays so. */
  ghost predicate Later(x: Epochs, x': Epochs) {
    && EpochsInv(x')
    && (forall e :: AtMostCurrent(x, e) ==> AtMostCurrent(x', e))
  }

  lemma InstallLater(x: Epochs)
    requires EpochsInv(x)
    ensures Later(x, Install(x))
  {
  }

  lemma AddActiveLater(x: Epochs, e: EpochId, d: int)
    requires EpochsInv(x) && AtMostCurrent(x, e)
    ensures Later(x, AddActive(x, e, d))
  {
  }

  lemma RenewLater(x: Epochs)
    requires EpochsInv(x)
    ensures Later(x, Renew(x)) && Sealing(Renew(x), Sealed(x))
  {
  }

  lemma PopLater(x: Epochs)
    requires EpochsInv(x) && x.queue != []
    ensures Later(x, x.(queue := x.queue[1..]))
  {
    assert forall e :: e in x.queue[1..] ==> e in x.queue;
  }

  lemma EnqueueLater(x: Epochs, e: EpochId)
    requires EpochsInv(x) && Sealing(x, e)
    ensures Later(x, x.(queue := x.queue + [e]))
  {
    var q := x.queue + [e];
    forall i, j | 0 <= i < j < |q|
      ensures q[i] < q[j]
    {
      assert q[i] in x.queue;
    }
  }

  lemma StepsLater(s: State, t: Tid, a: Action)
    requires LoadedInv(s)
    ensures Later(s.epochs, Step(s, t, a).epochs)
  {
    var pc := At(s, t);
    if !TouchesEpochs(pc) {
      EpochsStay(s, t, a);
    } else {
      match pc
      case InstallFirst(_) => InstallLater(s.epochs);
      case Pin(_, e) => AddActiveLater(s.epochs, e, 1);
      case Unpin(e, _) => AddActiveLater(s.epochs, e, -1);
      case Collect(_, _) => if s.epochs.queue != [] { PopLater(s.epochs); }
      case Swap(_) => RenewLater(s.epochs);
      case Enqueue(e, _) => EnqueueLater(s.epochs, e);
    }
  }

  lemma LoadedKept(s: State, t: Tid, a: Action)
    requires LockInv(s) && LoadedInv(s) && Enabled(s, t, a)
    ensures LoadedInv(Step(s, t, a))
  {
    var s' := Step(s, t, a);
    OthersStay(s, t, a);
    StepsLater(s, t, a);
    forall u
      ensures EpochOf(At(s', u)).Some? ==> AtMostCurrent(s'.epochs, EpochOf(At(s', u)).value)
      ensures At(s', u).Enqueue? ==> Sealing(s'.epochs, At(s', u).e)
    {
      if u == t {
        MoverLoaded(s, t, a);
      } else if At(s, u).Enqueue? {
        assert !Holds(At(s, t));
        if !TouchesEpochs(At(s, t)) {
          EpochsStay(s, t, a);
        }
      }
    }
  }

  lemma MoverLoaded(s: State, t: Tid, a: Action)
    requires LockInv(s) && LoadedInv(s) && Enabled(s, t, a)
    ensures var s' := Step(s, t, a); EpochOf(At(s', t)).Some? ==> AtMostCurrent(s'.epochs, EpochOf(At(s', t)).value)
    ensures var s' := Step(s, t, a); At(s', t).Enqueue? ==> Sealing(s'.epochs, At(s', t).e)
  {
    if At(s, t).Swap? {
      RenewLater(s.epochs);
    } else {
      StepsLater(s, t, a);
      LoadsCurrent(s, t, a);
    }
  }

  /** A thread gets hold of an epoch only by loading the current one. */
  lemma LoadsCurrent(s: State, t: Tid, a: Action)
    requires !At(s, t).Swap?
    ensures var e := EpochOf(At(Step(s, t, a), t)); e.Some? ==> e == EpochOf(At(s, t)) || e == s.epochs.current
    ensures !At(Step(s, t, a), t).Enqueue?
  {
    if At(s, t).LoadCurrent? || At(s, t).InstallFirst? || At(s, t).Pin? || At(s, t).Confirm? || At(s, t).CheckClosed? {
      BeginLoadsCurrent(s, t, a);
    } else {
      OthersLoadNothing(s, t, a);
    }
  }

  lemma OthersLoadNothing(s: State, t: Tid, a: Action)
    requires !At(s, t).Swap? && !At(s, t).Pin? && !At(s, t).Confirm? && !At(s, t).CheckClosed? && !At(s, t).LoadCurrent?
    ensures var e := EpochOf(At(Step(s, t, a), t)); e.Some? ==> e == EpochOf(At(s, t))
    ensures !At(Step(s, t, a), t).Enqueue?
  {
    if TouchesModules(At(s, t)) {
      ModulesLoadNothing(s, t, a);
    }
  }

  lemma ModulesLoadNothing(s: State, t: Tid, a: Action)
    requires TouchesModules(At(s, t))
    ensures EpochOf(At(Step(s, t, a), t)).None? && !At(Step(s, t, a), t).Enqueue?
  {
  }

  lemma BeginLoadsCurrent(s: State, t: Tid, a: Action)
    requires var pc := At(s, t);
             pc.LoadCurrent? || pc.InstallFirst? || pc.Pin? || pc.Confirm? || pc.CheckClosed?
    ensures var e := EpochOf(At(Step(s, t, a), t)); e.Some? ==> e == EpochOf(At(s, t)) || e == s.epochs.current
    ensures !At(Step(s, t, a), t).Enqueue?
  {
  }

  // Pin counts

  function Bit(b: bool): int {
    if b then 1 else 0
  }

  lemma PinnersMove(s: State, t: Tid, s': State, e: EpochId)
    requires forall u :: u != t ==> At(s', u) == At(s, u)
    ensures |Pinners(s', e)| == |Pinners(s, e)| + Bit(Pins(At(s', t), e)) - Bit(Pins(At(s, t), e))
  {
    forall u
      ensures u in Pinners(s, e) <==> Pins(At(s, u), e)
      ensures u in Pinners(s', e) <==> Pins(At(s', u), e)
    {
    }
    assert Pinners(s, e) - {t} == Pinners(s', e) - {t};
    CountMoves(Pinners(s, e), Pinners(s', e), t);
  }

  lemma CountMoves<T>(p: set<T>, p': set<T>, t: T)
    requires p - {t} == p' - {t}
    ensures |p'| == |p| + Bit(t in p') - Bit(t in p)
  {
    assert p == if t in p then (p - {t}) + {t} else p - {t};
    assert p' == if t in p' then (p' - {t}) + {t} else p' - {t};
  }

  lemma PinStays(s: State, t: Tid, a: Action, e: EpochId)
    requires !At(s, t).Pin? && !At(s, t).Unpin?
    ensures Pins(At(Step(s, t, a), t), e) <==> Pins(At(s, t), e)
  {
    if TouchesModules(At(s, t)) {
      ModulesLoadNothing(s, t, a);
    }
  }

  lemma ActiveMoves(s: State, t: Tid, a: Action, e: EpochId)
    requires LoadedInv(s) && 0 <= e < s.epochs.next
    ensures var s' := Step(s, t, a);
            Active(s'.epochs, e) == Active(s.epochs, e) + Bit(Pins(At(s', t), e)) - Bit(Pins(At(s, t), e))
  {
    if !At(s, t).Pin? && !At(s, t).Unpin? {
      PinStays(s, t, a, e);
      if !TouchesEpochs(At(s, t)) {
        EpochsStay(s, t, a);
      }
    }
  }

  lemma NewEpochsUnpinned(s: State, e: EpochId)
    requires LoadedInv(s) && e >= s.epochs.next
    ensures Pinners(s, e) == {}
  {
    forall t | t in s.threads
      ensures !Pins(s.threads[t], e)
    {
      assert At(s, t) == s.threads[t];
    }
  }

  lemma NewEpochsIdle(s: State, t: Tid, a: Action, e: EpochId)
    requires LoadedInv(s) && s.epochs.next <= e < Step(s, t, a).epochs.next
    ensures Active(Step(s, t, a).epochs, e) == 0
  {
    if !TouchesEpochs(At(s, t)) {
      EpochsStay(s, t, a);
    }
  }

  lemma PinsKept(s: State, t: Tid, a: Action)
    requires LockInv(s) && LoadedInv(s) && PinInv(s) && Enabled(s, t, a)
    ensures PinInv(Step(s, t, a))
  {
    var s' := Step(s, t, a);
    OthersStay(s, t, a);
    forall e | 0 <= e < s'.epochs.next
      ensures Active(s'.epochs, e) == |Pinners(s', e)|
    {
      if e < s.epochs.next {
        PinnersMove(s, t, s', e);
        ActiveMoves(s, t, a, e);
      } else {
        NewEpochsUnpinned(s, e);
        PinnersMove(s, t, s', e);
        NewEpochsIdle(s, t, a, e);
        if !At(s, t).Pin? && !At(s, t).Unpin? {
          PinStays(s, t, a, e);
        }
      }
    }
  }

  // Confirmed pins: an epoch that a call has confirmed leaves neither the current pointer nor
  // the queue while the call lasts.

  predicate Confirmed(pc: Pc) {
    pc.CheckClosed? || pc.Guest?
  }

  /** `e` is current, sealed and waiting in the queue, or about to be queued by the lock holder. */
  predicate Unreclaimed(s: State, e: EpochId) {
    || s.epochs.current == Some(e)
    || e in s.epochs.queue
    || (s.lock.Some? && At(s, s.lock.value).Enqueue? && At(s, s.lock.value).e == e)
  }

  ghost predicate ConfirmInv(s: State) {
    forall t :: Confirmed(At(s, t)) ==> Unreclaimed(s, At(s, t).e)
  }

  /** Only an epoch that nobody pins is ever dropped. */
  lemma PinnedStaysUnreclaimed(s: State, t: Tid, a: Action, u: Tid)
    requires LockInv(s) && LoadedInv(s) && PinInv(s) && Enabled(s, t, a)
    requires Confirmed(At(s, u)) && Unreclaimed(s, At(s, u).e)
    ensures Unreclaimed(Step(s, t, a), At(s, u).e)
  {
    OthersStay(s, t, a);
    LockKept(s, t, a);
    PinnedIsActive(s, u, At(s, u).e);
    if !TouchesEpochs(At(s, t)) {
      EpochsStay(s, t, a);
    }
  }

  lemma PinnedIsActive(s: State, u: Tid, e: EpochId)
    requires LoadedInv(s) && PinInv(s) && Pins(At(s, u), e)
    ensures Active(s.epochs, e) != 0
  {
    assert u in Pinners(s, e);
  }

  lemma ConfirmKept(s: State, t: Tid, a: Action)
    requires LockInv(s) && LoadedInv(s) && PinInv(s) && ConfirmInv(s) && Enabled(s, t, a)
    ensures ConfirmInv(Step(s, t, a))
  {
    var s' := Step(s, t, a);
    OthersStay(s, t, a);
    forall u | Confirmed(At(s', u))
      ensures Unreclaimed(s', At(s', u).e)
    {
      if u != t || At(s, t).CheckClosed? {
        PinnedStaysUnreclaimed(s, t, a, u);
      }
    }
  }

  // Modules

  predicate NamesKnown(x: Modules, pc: Pc) {
    match pc
    case SetExitCode(m, _) => m in x.usable
    case LoadClosed(m) => m in x.usable
    case LockToRetire(m) => m in x.exit
    case Retire(m) => m in x.exit
    case Link(m) => m in x.created && m !in x.usable
    case _ => true
  }

  /** Closed is set before memoryClosed, and only of modules that are visible; a module being
      linked is not visible and has one linker. */
  ghost predicate ModuleInv(s: State) {
    && s.mods.graph.closed <= s.mods.exit.Keys <= s.mods.usable <= s.mods.created
    && (forall t :: NamesKnown(s.mods, At(s, t)))
    && (forall t, u :: At(s, t).Link? && At(s, u) == At(s, t) ==> t == u)
  }

  predicate TouchesModules(pc: Pc) {
    pc.Idle? || pc.Collect? || pc.SetExitCode? || pc.Retire? || pc.Link?
  }

  lemma ModulesStay(s: State, t: Tid, a: Action)
    requires !TouchesModules(At(s, t)) && NamesKnown(s.mods, At(s, t))
    ensures Step(s, t, a).mods == s.mods
    ensures NamesKnown(s.mods, At(Step(s, t, a), t)) && !At(Step(s, t, a), t).Link?
  {
  }

  lemma ModuleKept(s: State, t: Tid, a: Action)
    requires ModuleInv(s) && Enabled(s, t, a)
    ensures ModuleInv(Step(s, t, a))
  {
    OthersStay(s, t, a);
    assert NamesKnown(s.mods, At(s, t));
    if TouchesModules(At(s, t)) {
      ModulesGrow(s, t, a);
    } else {
      ModulesStay(s, t, a);
    }
  }

  lemma ModulesGrow(s: State, t: Tid, a: Action)
    requires ModuleInv(s) && Enabled(s, t, a) && TouchesModules(At(s, t))
    ensures ModuleInv(Step(s, t, a))
  {
    if At(s, t).Idle? || At(s, t).Link? {
      ModulesLinked(s, t, a);
    } else {
      ModulesClosed(s, t, a);
    }
  }

  lemma ModulesLinked(s: State, t: Tid, a: Action)
    requires ModuleInv(s) && Enabled(s, t, a) && (At(s, t).Idle? || At(s, t).Link?)
    ensures ModuleInv(Step(s, t, a))
  {
    OthersStay(s, t, a);
  }

  lemma ModulesClosed(s: State, t: Tid, a: Action)
    requires ModuleInv(s) && Enabled(s, t, a) && (At(s, t).Collect? || At(s, t).SetExitCode? || At(s, t).Retire?)
    ensures ModuleInv(Step(s, t, a))
  {
    OthersStay(s, t, a);
  }

  ghost predicate GraphInv(s: State) {
    ImportGraph.Inv(s.mods.graph)
  }

  lemma GraphStays(s: State, t: Tid, a: Action)
    requires !At(s, t).Retire? && !At(s, t).Link?
    ensures Step(s, t, a).mods.graph == s.mods.graph
  {
  }

  /** A module that is not closed has not released its memory, and neither has any of its imports. */
  lemma LiveImportsUnreleased(g: Graph, m: Id, n: Id)
    requires ImportGraph.Inv(g) && m !in g.closed && Reaches(g.imports, m, n)
    ensures n !in g.released
  {
  }

  lemma GraphKept(s: State, t: Tid, a: Action)
    requires ModuleInv(s) && GraphInv(s) && Enabled(s, t, a)
    ensures GraphInv(Step(s, t, a))
  {
    var g := s.mods.graph;
    match At(s, t)
    case Retire(m) =>
      if m !in g.closed {
        RetireWorklist.RetiresKeepsInv(g, m, s.mods.expBuffer, a.g, a.retired);
      }
    case Link(m) =>
      assert NamesKnown(s.mods, At(s, t));
      if a.Import? && a.n !in g.closed {
        RetireWorklist.WithImportKeepsInv(g, m, a.n);
      } else if a.ImportTable? {
        ReachesEdge(g.imports, m, a.n);
        LiveImportsUnreleased(g, m, a.n);
        RetireWorklist.WithImportKeepsInv(g, a.n, m);
      }
    case _ =>
      GraphStays(s, t, a);
  }
}
