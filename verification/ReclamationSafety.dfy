/**
 The guarantees of the reclamation protocol over whole runs: no allocation that a guest call
 can still reach is freed, every retired allocation is freed exactly once, and later calls
 never delay a retirement.
 */
module ReclamationSafety {
  import opened ImportGraph
  import RetireWorklist
  import opened Reclamation
  import opened ReclamationInv
  import opened ReclamationMemory

  /** The allocation of `n` cannot be collected before the pins of epoch `e` are gone: it is not
      retired, or waits in the batch of `e` or of a later epoch, or is about to. */
  predicate Shielded(s: State, n: Id, e: EpochId) {
    n in s.mem.place ==>
      match s.mem.place[n]
      case Pending => s.lock.Some? && At(s, s.lock.value).Enqueue? ==> e <= At(s, s.lock.value).e
      case Batch(f) => e <= f
      case _ => false
  }

  /** Guest code of `m` can touch the memory of everything `m` transitively imports. */
  ghost predicate GuestInv(s: State) {
    forall t, n :: At(s, t).Guest? && Reaches(s.mods.graph.imports, At(s, t).m, n) ==> Shielded(s, n, At(s, t).e)
  }

  /** The invariants of the protocol itself. */
  ghost predicate Base(s: State) {
    && LockInv(s) && LoadedInv(s) && PinInv(s) && ConfirmInv(s)
    && ModuleInv(s) && GraphInv(s) && PlaceInv(s) && OwnerInv(s)
  }

  lemma BaseKept(s: State, t: Tid, a: Action)
    requires Base(s) && Enabled(s, t, a)
    ensures Base(Step(s, t, a))
  {
    LockKept(s, t, a);
    LoadedKept(s, t, a);
    PinsKept(s, t, a);
    ConfirmKept(s, t, a);
    ModuleKept(s, t, a);
    GraphKept(s, t, a);
    PlacesKept(s, t, a);
    OwnersKept(s, t, a);
  }

  lemma BaseInitially()
    ensures Base(Initial)
  {
    forall n
      ensures !(n in EmptyGraph.closed)
    {
    }
  }

  /** The heart of epoch order: while a confirmed call pins `e`, no batch of `e` or of a later
      epoch is collected, even if the later epoch itself has no calls left. */
  lemma PinnedBatchStays(s: State, t: Tid, u: Tid, f: EpochId)
    requires Base(s) && Confirmed(At(s, u)) && At(s, u).e <= f
    requires At(s, t).Collect? && HeadIsIdle(s.epochs)
    ensures s.epochs.queue[0] != f
  {
    var e := At(s, u).e;
    assert u in Pinners(s, e) && Active(s.epochs, e) != 0;
    assert Unreclaimed(s, e) && s.lock == Some(t);
    assert s.epochs.queue[0] in s.epochs.queue;
    if e in s.epochs.queue {
      var i :| 0 <= i < |s.epochs.queue| && s.epochs.queue[i] == e;
      assert s.epochs.queue[0] <= e;
    }
  }

  lemma ShieldStays(s: State, t: Tid, a: Action, u: Tid, n: Id)
    requires Base(s) && Enabled(s, t, a) && Confirmed(At(s, u)) && Shielded(s, n, At(s, u).e)
    requires !Relocates(s, At(s, t))
    ensures Shielded(Step(s, t, a), n, At(s, u).e)
  {
    OthersStay(s, t, a);
    LockKept(s, t, a);
    MemoryStays(s, t, a);
    if IsAt(s.mem.place, n, Pending) {
      assert n in ListAt(s, Pending);
    }
  }

  lemma ShieldCollect(s: State, t: Tid, a: Action, u: Tid, n: Id)
    requires Base(s) && Confirmed(At(s, u)) && Shielded(s, n, At(s, u).e)
    requires At(s, t).Collect? && HeadIsIdle(s.epochs)
    ensures Shielded(Step(s, t, a), n, At(s, u).e)
  {
    var f := s.epochs.queue[0];
    assert s.lock == Some(t);
    assert n in ListAt(s, Batch(f)) <==> IsAt(s.mem.place, n, Batch(f));
    if n in BatchOf(s.mem, f) {
      PinnedBatchStays(s, t, u, f);
    }
  }

  lemma ShieldRetire(s: State, t: Tid, a: Action, u: Tid, n: Id)
    requires Base(s) && Enabled(s, t, a) && Confirmed(At(s, u)) && Shielded(s, n, At(s, u).e)
    requires (At(s, t).Retire? || At(s, t).Enqueue?)
    ensures Shielded(Step(s, t, a), n, At(s, u).e)
  {
    assert s.lock == Some(t);
    assert At(s, t).Enqueue? ==> ListAt(s, Pending) == At(s, t).retired;
    OthersStay(s, t, a);
  }

  lemma ShieldFree(s: State, t: Tid, a: Action, u: Tid, n: Id)
    requires Base(s) && Confirmed(At(s, u)) && Shielded(s, n, At(s, u).e)
    requires At(s, t).Free? && At(s, t).acc != []
    ensures Shielded(Step(s, t, a), n, At(s, u).e)
  {
    var n' := At(s, t).acc[0];
    assert n' in ListAt(s, Held(t)) && IsAt(s.mem.place, n', Held(t));
    assert s.lock != Some(t);
  }

  lemma ShieldKept(s: State, t: Tid, a: Action, u: Tid, n: Id)
    requires Base(s) && Enabled(s, t, a) && Confirmed(At(s, u)) && Shielded(s, n, At(s, u).e)
    ensures Shielded(Step(s, t, a), n, At(s, u).e)
  {
    if !Relocates(s, At(s, t)) {
      ShieldStays(s, t, a, u, n);
    } else if At(s, t).Collect? {
      ShieldCollect(s, t, a, u, n);
    } else if At(s, t).Free? {
      ShieldFree(s, t, a, u, n);
    } else {
      ShieldRetire(s, t, a, u, n);
    }
  }

  /** Nothing a live module depends on has been retired. */
  lemma LiveShielded(s: State, m: Id, n: Id, e: EpochId)
    requires Base(s) && m !in s.mods.graph.closed && Reaches(s.mods.graph.imports, m, n)
    ensures n !in s.mem.place && Shielded(s, n, e)
  {
    LiveImportsUnreleased(s.mods.graph, m, n);
  }

  /** A module that a guest call can reach after a step was reachable before, or has just been
      imported and so is live. */
  lemma GuestReach(s: State, t: Tid, a: Action, m: Id, n: Id, e: EpochId)
    requires Base(s) && Enabled(s, t, a) && Reaches(Step(s, t, a).mods.graph.imports, m, n)
    ensures Reaches(s.mods.graph.imports, m, n) || (n !in s.mem.place && Step(s, t, a).mem == s.mem)
  {
    var g, g' := s.mods.graph, Step(s, t, a).mods.graph;
    match At(s, t)
    case Retire(x) =>
      if x !in g.closed {
        ReachesFewer(g.imports, g'.imports, m, n);
      }
    case Link(x) =>
      assert NamesKnown(s.mods, At(s, t));
      if g' != g {
        var importer, imported := if a.Import? then x else a.n, if a.Import? then a.n else x;
        assert g' == WithImport(g, importer, imported);
        var p :| IsPath(g'.imports, p, m, n);
        RetireWorklist.ReachesAfterImport(g, importer, imported, p, m, n);
        if Reaches(g.imports, imported, n) {
          LiveShielded(s, imported, n, e);
        }
      }
    case _ =>
      GraphStays(s, t, a);
  }

  lemma GuestKept(s: State, t: Tid, a: Action)
    requires Base(s) && GuestInv(s) && Enabled(s, t, a)
    ensures GuestInv(Step(s, t, a))
  {
    var s' := Step(s, t, a);
    OthersStay(s, t, a);
    forall u, n | At(s', u).Guest? && Reaches(s'.mods.graph.imports, At(s', u).m, n)
      ensures Shielded(s', n, At(s', u).e)
    {
      var m, e := At(s', u).m, At(s', u).e;
      if u == t {
        Admitted(s, t, a);
        GraphStays(s, t, a);
        LiveShielded(s, m, n, e);
      } else {
        GuestReach(s, t, a, m, n, e);
        if Reaches(s.mods.graph.imports, m, n) {
          ShieldKept(s, t, a, u, n);
        }
      }
    }
  }

  /** Guest code is entered from a successful check of Closed, and from nowhere else. */
  lemma Admitted(s: State, t: Tid, a: Action)
    requires At(Step(s, t, a), t).Guest?
    ensures At(s, t).CheckClosed? && At(s, t).m !in s.mods.exit
    ensures At(Step(s, t, a), t) == Guest(At(s, t).m, At(s, t).e) && Step(s, t, a).mem == s.mem
  {
  }

  // Nothing is left behind

  /** A thread that will still look at the head of the queue. */
  predicate Responsible(s: State, pc: Pc) {
    || pc.LockToCollect?
    || pc.Collect?
    || (pc.CompareCurrent? && s.epochs.current != Some(pc.e))
  }

  /** When the oldest sealed epoch has no pins left, somebody is on the way to collect it. */
  ghost predicate LeakInv(s: State) {
    HeadIsIdle(s.epochs) ==> exists t :: Responsible(s, At(s, t))
  }

  /** Whoever closed a module with its resources is retiring its memory, or has done so. */
  ghost predicate CloseInv(s: State) {
    forall m :: m in s.mods.exit && s.mods.exit[m] == ResourceClosed ==>
                  m in s.mods.graph.closed || exists t :: Retiring(At(s, t), m)
  }

  predicate Retiring(pc: Pc, m: Id) {
    (pc.LockToRetire? || pc.Retire?) && pc.m == m
  }

  /** Responsibility ends only with a look at the queue that finds nothing to collect. */
  lemma ResponsibleStays(s: State, t: Tid, a: Action)
    requires Base(s) && Enabled(s, t, a) && Responsible(s, At(s, t)) && HeadIsIdle(s.epochs)
    ensures Responsible(Step(s, t, a), At(Step(s, t, a), t))
  {
  }

  lemma OthersResponsible(s: State, t: Tid, a: Action, u: Tid)
    requires Base(s) && Enabled(s, t, a) && Responsible(s, At(s, u)) && u != t
    ensures Responsible(Step(s, t, a), At(Step(s, t, a), u))
  {
    OthersStay(s, t, a);
    if !TouchesEpochs(At(s, t)) {
      EpochsStay(s, t, a);
    }
  }

  /** The head becomes idle by a decrement to zero, by reaching the front, or by being queued:
      in each case the thread that did it goes on to collect. */
  lemma NewlyIdle(s: State, t: Tid, a: Action)
    requires Base(s) && Enabled(s, t, a)
    requires !HeadIsIdle(s.epochs) && HeadIsIdle(Step(s, t, a).epochs)
    ensures Responsible(Step(s, t, a), At(Step(s, t, a), t))
  {
    if !TouchesEpochs(At(s, t)) {
      EpochsStay(s, t, a);
    } else if At(s, t).Unpin? {
      assert s.epochs.queue[0] in s.epochs.queue;
    }
  }

  lemma LeakKept(s: State, t: Tid, a: Action)
    requires Base(s) && LeakInv(s) && Enabled(s, t, a)
    ensures LeakInv(Step(s, t, a))
  {
    if HeadIsIdle(Step(s, t, a).epochs) {
      if HeadIsIdle(s.epochs) {
        var u :| Responsible(s, At(s, u));
        if u == t {
          ResponsibleStays(s, t, a);
        } else {
          OthersResponsible(s, t, a, u);
        }
      } else {
        NewlyIdle(s, t, a);
      }
    }
  }

  lemma CloseKept(s: State, t: Tid, a: Action)
    requires Base(s) && CloseInv(s) && Enabled(s, t, a)
    ensures CloseInv(Step(s, t, a))
  {
    var s' := Step(s, t, a);
    forall m | m in s'.mods.exit && s'.mods.exit[m] == ResourceClosed && m !in s'.mods.graph.closed
      ensures exists u :: Retiring(At(s', u), m)
    {
      if m in s.mods.exit {
        ClosedGrows(s, t, a, m);
        var u :| Retiring(At(s, u), m);
        RetiringStays(s, t, a, m, u);
      } else {
        CloserRetires(s, t, a, m);
      }
    }
  }

  lemma RetiringStays(s: State, t: Tid, a: Action, m: Id, u: Tid)
    requires Base(s) && Enabled(s, t, a) && m in s.mods.exit && Retiring(At(s, u), m)
    ensures m in Step(s, t, a).mods.graph.closed || Retiring(At(Step(s, t, a), u), m)
  {
    OthersStay(s, t, a);
    ClosedGrows(s, t, a, m);
  }

  lemma CloserRetires(s: State, t: Tid, a: Action, m: Id)
    requires m !in s.mods.exit && m in Step(s, t, a).mods.exit && Step(s, t, a).mods.exit[m] == ResourceClosed
    ensures Retiring(At(Step(s, t, a), t), m)
  {
  }

  lemma ClosedGrows(s: State, t: Tid, a: Action, m: Id)
    requires Base(s) && Enabled(s, t, a) && m in s.mods.exit
    ensures m in Step(s, t, a).mods.exit && Step(s, t, a).mods.exit[m] == s.mods.exit[m]
    ensures m in s.mods.graph.closed ==> m in Step(s, t, a).mods.graph.closed
    ensures At(s, t) == Retire(m) ==> m in Step(s, t, a).mods.graph.closed
  {
  }

  // Epochs are reclaimed strictly in order

  /** Every epoch after one that is not reclaimed yet is not reclaimed either. */
  ghost predicate OrderInv(s: State) {
    forall e, f :: Unreclaimed(s, e) && s.epochs.current.Some? && e <= f <= s.epochs.current.value ==> Unreclaimed(s, f)
  }

  lemma OrderKept(s: State, t: Tid, a: Action)
    requires Base(s) && OrderInv(s) && Enabled(s, t, a)
    ensures OrderInv(Step(s, t, a))
  {
    var s' := Step(s, t, a);
    OthersStay(s, t, a);
    LockKept(s, t, a);
    if !TouchesEpochs(At(s, t)) {
      EpochsStay(s, t, a);
      assert forall e :: Unreclaimed(s', e) <==> Unreclaimed(s, e);
    } else {
      OrderTouched(s, t, a);
    }
  }

  lemma OrderTouched(s: State, t: Tid, a: Action)
    requires Base(s) && OrderInv(s) && Enabled(s, t, a) && TouchesEpochs(At(s, t))
    ensures OrderInv(Step(s, t, a))
  {
    var s' := Step(s, t, a);
    OthersStay(s, t, a);
    LockKept(s, t, a);
    if At(s, t).Collect? && HeadIsIdle(s.epochs) {
      OrderPopped(s, t, a);
    } else if At(s, t).Swap? {
      OrderSwapped(s, t, a);
    } else {
      assert forall e :: Unreclaimed(s', e) <==> Unreclaimed(s, e) || s'.epochs.current == Some(e);
    }
  }

  lemma OrderSwapped(s: State, t: Tid, a: Action)
    requires Base(s) && OrderInv(s) && At(s, t).Swap?
    ensures OrderInv(Step(s, t, a))
  {
    var s' := Step(s, t, a);
    assert s.lock == Some(t);
    assert s.epochs.current == None ==> s.epochs.queue == [] by {
      if s.epochs.queue != [] {
        assert s.epochs.queue[0] in s.epochs.queue;
      }
    }
    forall e
      ensures Unreclaimed(s', e) <==> Unreclaimed(s, e) || e == Sealed(s.epochs) || s'.epochs.current == Some(e)
    {
    }
  }

  lemma OrderPopped(s: State, t: Tid, a: Action)
    requires Base(s) && OrderInv(s) && At(s, t).Collect? && HeadIsIdle(s.epochs)
    ensures OrderInv(Step(s, t, a))
  {
    var s' := Step(s, t, a);
    var head := s.epochs.queue[0];
    assert s.lock == Some(t) && head in s.epochs.queue;
    forall e
      ensures Unreclaimed(s', e) <==> Unreclaimed(s, e) && e > head
    {
      if e in s.epochs.queue && e != head {
        var i :| 0 <= i < |s.epochs.queue| && s.epochs.queue[i] == e;
        assert s.epochs.queue[1..][i - 1] == e;
      }
    }
  }

  // Whole runs

  ghost predicate SystemInv(s: State) {
    Base(s) && GuestInv(s) && LeakInv(s) && CloseInv(s) && OrderInv(s)
  }

  lemma {:induction false} RunKeepsInv(r: seq<State>, i: nat)
    requires Run(r) && i < |r|
    ensures SystemInv(r[i])
  {
    if i == 0 {
      BaseInitially();
    } else {
      RunKeepsInv(r, i - 1);
      var s := r[i - 1];
      assert StepsTo(r, i);
      var t, a :| Enabled(s, t, a) && r[i] == Step(s, t, a);
      BaseKept(s, t, a);
      GuestKept(s, t, a);
      LeakKept(s, t, a);
      CloseKept(s, t, a);
      OrderKept(s, t, a);
    }
  }

  /** Memory safety. From admission to the end of a guest call of `m`, whatever the other
      threads do, no allocation of `m` or of a module that `m` transitively imports at any
      moment `i` of the call is freed, or even taken by a thread that is about to free it. */
  lemma {:induction false} GuestMemoryIsSafe(r: seq<State>, i: nat, j: nat, t: Tid, m: Id, e: EpochId, n: Id)
    requires Run(r) && i <= j < |r|
    requires forall k :: i <= k <= j ==> At(r[k], t) == Guest(m, e)
    requires Reaches(r[i].mods.graph.imports, m, n)
    ensures n !in r[j].mem.freed
    ensures forall u :: n !in AccOf(At(r[j], u))
  {
    ShieldedThroughout(r, i, j, t, m, e, n);
    RunKeepsInv(r, j);
    var s := r[j];
    assert n in ListAt(s, Freed) ==> IsAt(s.mem.place, n, Freed);
    forall u
      ensures n !in AccOf(At(s, u))
    {
      assert n in ListAt(s, Held(u)) ==> IsAt(s.mem.place, n, Held(u));
    }
  }

  lemma {:induction false} ShieldedThroughout(r: seq<State>, i: nat, j: nat, t: Tid, m: Id, e: EpochId, n: Id)
    requires Run(r) && i <= j < |r|
    requires forall k :: i <= k <= j ==> At(r[k], t) == Guest(m, e)
    requires Reaches(r[i].mods.graph.imports, m, n)
    ensures Shielded(r[j], n, e)
    decreases j
  {
    if i == j {
      RunKeepsInv(r, i);
      assert At(r[i], t) == Guest(m, e);
    } else {
      ShieldedThroughout(r, i, j - 1, t, m, e, n);
      assert At(r[j - 1], t) == Guest(m, e);
      ShieldedNext(r, j, t, m, e, n);
    }
  }

  lemma ShieldedNext(r: seq<State>, j: nat, t: Tid, m: Id, e: EpochId, n: Id)
    requires Run(r) && 0 < j < |r|
    requires At(r[j - 1], t) == Guest(m, e) && Shielded(r[j - 1], n, e)
    ensures Shielded(r[j], n, e)
  {
    var u, a := StepOf(r, j);
    ShieldKept(r[j - 1], u, a, t, n);
  }

  /** Epoch order. While a confirmed call pins epoch `e`, every epoch `f` from `e` on is still
      current, queued with its batch, or being queued, even when nobody pins `f`. */
  lemma EpochsReclaimedInOrder(r: seq<State>, i: nat, t: Tid, f: EpochId)
    requires Run(r) && i < |r| && Confirmed(At(r[i], t))
    requires r[i].epochs.current.Some? && At(r[i], t).e <= f < r[i].epochs.current.value
    ensures Unreclaimed(r[i], f)
    ensures f in r[i].epochs.queue || r[i].lock.Some?
    ensures f in r[i].epochs.queue ==> f in r[i].mem.batch
  {
    RunKeepsInv(r, i);
    assert Unreclaimed(r[i], At(r[i], t).e);
  }

  /** One step of a run, with the thread that takes it. */
  lemma StepOf(r: seq<State>, i: nat) returns (t: Tid, a: Action)
    requires Run(r) && 0 < i < |r|
    ensures Enabled(r[i - 1], t, a) && r[i] == Step(r[i - 1], t, a) && Base(r[i - 1])
  {
    RunKeepsInv(r, i - 1);
    assert StepsTo(r, i);
    t, a :| Enabled(r[i - 1], t, a) && r[i] == Step(r[i - 1], t, a);
  }

  predicate IsSealed(x: Epochs, e: EpochId) {
    0 <= e < x.next && x.current != Some(e)
  }

  lemma SealedStays(s: State, t: Tid, a: Action, e: EpochId)
    requires Base(s) && IsSealed(s.epochs, e)
    ensures IsSealed(Step(s, t, a).epochs, e)
  {
    if !TouchesEpochs(At(s, t)) {
      EpochsStay(s, t, a);
    }
  }

  /** A step puts no epoch but the current one into a thread's hands. */
  lemma LoadsOnlyCurrent(s: State, t: Tid, a: Action, u: Tid, e: EpochId)
    requires Base(s) && IsSealed(s.epochs, e) && EpochOf(At(Step(s, t, a), u)) == Some(e)
    ensures EpochOf(At(s, u)) == Some(e)
  {
    OthersStay(s, t, a);
  }

  /** Later calls never join a sealed epoch: a thread that has a sealed epoch in hand, pinned or
      only loaded, has had it in hand at every moment `k` since before the epoch was sealed. */
  lemma {:induction false} NoLateJoin(r: seq<State>, i: nat, k: nat, j: nat, t: Tid, e: EpochId)
    requires Run(r) && i <= k <= j < |r|
    requires IsSealed(r[i].epochs, e) && EpochOf(At(r[j], t)) == Some(e)
    ensures EpochOf(At(r[k], t)) == Some(e)
    decreases j
  {
    if k < j {
      SealedSince(r, i, j, e);
      LoadedBefore(r, j, t, e);
      NoLateJoin(r, i, k, j - 1, t, e);
    }
  }

  lemma LoadedBefore(r: seq<State>, j: nat, t: Tid, e: EpochId)
    requires Run(r) && 0 < j < |r| && IsSealed(r[j - 1].epochs, e) && EpochOf(At(r[j], t)) == Some(e)
    ensures EpochOf(At(r[j - 1], t)) == Some(e)
  {
    var u, a := StepOf(r, j);
    LoadsOnlyCurrent(r[j - 1], u, a, t, e);
  }

  lemma {:induction false} SealedSince(r: seq<State>, i: nat, j: nat, e: EpochId)
    requires Run(r) && i < j < |r| && IsSealed(r[i].epochs, e)
    ensures IsSealed(r[j - 1].epochs, e) && IsSealed(r[j].epochs, e)
    decreases j
  {
    if i < j - 1 {
      SealedSince(r, i, j - 1, e);
    }
    SealedNext(r, j, e);
  }

  lemma SealedNext(r: seq<State>, j: nat, e: EpochId)
    requires Run(r) && 0 < j < |r| && IsSealed(r[j - 1].epochs, e)
    ensures IsSealed(r[j].epochs, e)
  {
    var u, a := StepOf(r, j);
    SealedStays(r[j - 1], u, a, e);
  }

  /** No double free, and nothing freed early: in every reachable state Free has been called at
      most once per allocation, and only for modules that are retired and that no module which is
      not retired transitively imports. */
  lemma FreedOnceAndOnlyUnreferenced(r: seq<State>, i: nat, n: Id)
    requires Run(r) && i < |r|
    ensures multiset(r[i].mem.freed)[n] <= 1
    ensures n in r[i].mem.freed ==>
              && n in r[i].mods.owns && n in r[i].mods.graph.closed
              && !Retained(r[i].mods.graph.closed, r[i].mods.graph.imports, n)
  {
    RunKeepsInv(r, i);
    assert NoDuplicates(ListAt(r[i], Freed));
    CountsOnce(r[i].mem.freed, n);
    assert n in ListAt(r[i], Freed) ==> IsAt(r[i].mem.place, n, Freed);
  }

  lemma {:induction false} CountsOnce(s: seq<Id>, n: Id)
    requires NoDuplicates(s)
    ensures multiset(s)[n] == if n in s then 1 else 0
  {
    if s != [] {
      assert s == [s[0]] + s[1..];
      CountsOnce(s[1..], n);
    }
  }

  predicate Quiet(pc: Pc) {
    pc.Idle? || pc.Link?
  }

  /** No call and no retirement is in progress. */
  ghost predicate AllQuiet(s: State) {
    forall t :: Quiet(At(s, t))
  }

  lemma QuietHeadIsIdle(s: State)
    requires PinInv(s) && LoadedInv(s) && s.epochs.queue != [] && AllQuiet(s)
    ensures HeadIsIdle(s.epochs)
  {
    var e := s.epochs.queue[0];
    assert e in s.epochs.queue;
    assert forall t :: t in s.threads ==> Quiet(At(s, t)) && !Pins(s.threads[t], e);
    assert Pinners(s, e) == {};
  }

  /** No leak. When no call and no retirement is in progress the queue is empty, every module
      closed with its resources has been retired, and an allocation has been freed, exactly
      once, if and only if its module is retired and no module that is not retired transitively
      imports it. */
  lemma QuietMeansReclaimed(r: seq<State>, i: nat, n: Id)
    requires Run(r) && i < |r| && AllQuiet(r[i])
    ensures r[i].epochs.queue == []
    ensures n in r[i].mods.exit && r[i].mods.exit[n] == ResourceClosed ==> n in r[i].mods.graph.closed
    ensures var g := r[i].mods.graph;
            multiset(r[i].mem.freed)[n] ==
            if n in r[i].mods.owns && n in g.closed && !Retained(g.closed, g.imports, n) then 1 else 0
  {
    var s := r[i];
    RunKeepsInv(r, i);
    if s.epochs.queue != [] {
      QuietHeadIsIdle(s);
    }
    assert NoDuplicates(ListAt(s, Freed));
    CountsOnce(s.mem.freed, n);
    if n in s.mem.place {
      assert n in ListAt(s, s.mem.place[n]);
    }
    assert n in ListAt(s, Freed) <==> IsAt(s.mem.place, n, Freed);
  }
}
