/**
 Where each retired allocation is: in the list of the retirement that took it, in the batch
 of a queued epoch, in the hands of the thread that collected it, or freed. It is in exactly
 one of these places, once, and a module's allocation is retired exactly when the module has
 released its memory.
 */
module ReclamationMemory {
  import opened ImportGraph
  import opened Reclamation
  import opened ReclamationInv

  function PendingOf(pc: Pc): seq<Id> {
    if pc.Swap? || pc.Enqueue? then pc.retired else []
  }

  function AccOf(pc: Pc): seq<Id> {
    if pc.Collect? || pc.Unlock? || pc.Free? then pc.acc else []
  }

  /** The allocations that the state really holds at a place. */
  function ListAt(s: State, p: Place): seq<Id> {
    match p
    case Pending => if s.lock.Some? then PendingOf(At(s, s.lock.value)) else []
    case Batch(e) => BatchOf(s.mem, e)
    case Held(t) => AccOf(At(s, t))
    case Freed => s.mem.freed
  }

  predicate IsAt(place: map<Id, Place>, n: Id, p: Place) {
    n in place && place[n] == p
  }

  ghost predicate PlaceInv(s: State) {
    && (forall p :: NoDuplicates(ListAt(s, p)))
    && (forall n, p :: n in ListAt(s, p) <==> IsAt(s.mem.place, n, p))
    && (forall e :: e in s.mem.batch <==> e in s.epochs.queue)
  }

  ghost predicate OwnerInv(s: State) {
    && s.mods.expBuffer <= s.mods.owns <= s.mods.usable
    && (forall n :: n in s.mem.place <==> n in s.mods.graph.released && n in s.mods.owns)
    && (forall n :: n in s.mods.owns && n !in s.mods.expBuffer ==> n in s.mem.place)
  }

  predicate Relocates(s: State, pc: Pc) {
    pc.Retire? || pc.Enqueue? || (pc.Collect? && HeadIsIdle(s.epochs)) || (pc.Free? && pc.acc != [])
  }

  lemma ListsStay(s: State, t: Tid, a: Action, p: Place)
    requires LockInv(s) && Enabled(s, t, a) && !Relocates(s, At(s, t))
    ensures ListAt(Step(s, t, a), p) == ListAt(s, p)
  {
    OthersStay(s, t, a);
  }

  lemma MemoryStays(s: State, t: Tid, a: Action)
    requires !Relocates(s, At(s, t))
    ensures Step(s, t, a).mem == s.mem
  {
  }

  /** Moving `ns` between two places keeps every allocation in one place. */
  lemma Relocated(s: State, s': State, ns: seq<Id>, from: Option<Place>, to: Place)
    requires PlaceInv(s) && NoDuplicates(ns)
    requires s'.mem.place == Mark(s.mem.place, ns, to)
    requires ListAt(s', to) == ListAt(s, to) + ns
    requires from == None ==> forall n :: n in ns ==> n !in s.mem.place
    requires from.Some? ==> from.value != to && NoDuplicates(ListAt(s', from.value))
    requires from.Some? ==> forall n :: n in ListAt(s', from.value) <==> n in ListAt(s, from.value) && n !in ns
    requires from.Some? ==> forall n :: n in ns ==> n in ListAt(s, from.value)
    requires forall p :: p != to && Some(p) != from ==> ListAt(s', p) == ListAt(s, p)
    ensures forall p :: NoDuplicates(ListAt(s', p))
    ensures forall n, p :: n in ListAt(s', p) <==> IsAt(s'.mem.place, n, p)
  {
    assert forall n :: n in ns ==> n !in ListAt(s, to);
    forall p
      ensures NoDuplicates(ListAt(s', p))
    {
      if p == to {
        Joined(ListAt(s, to), ns);
      } else if Some(p) != from {
        assert NoDuplicates(ListAt(s, p));
      }
    }
    forall n, p
      ensures n in ListAt(s', p) <==> IsAt(s'.mem.place, n, p)
    {
      assert n in ListAt(s, p) <==> IsAt(s.mem.place, n, p);
      assert from.Some? ==> (n in ListAt(s, from.value) <==> IsAt(s.mem.place, n, from.value));
    }
  }

  lemma Joined(a: seq<Id>, b: seq<Id>)
    requires NoDuplicates(a) && NoDuplicates(b) && forall n :: n in b ==> n !in a
    ensures NoDuplicates(a + b)
  {
    forall i, j | 0 <= i < j < |a + b|
      ensures (a + b)[i] != (a + b)[j]
    {
      assert i < |a| <= j ==> a[i] in a && b[j - |a|] in b;
    }
  }

  lemma RetirePlaces(s: State, t: Tid, a: Action)
    requires LockInv(s) && PlaceInv(s) && OwnerInv(s) && Enabled(s, t, a) && At(s, t).Retire?
    ensures PlaceInv(Step(s, t, a))
  {
    var s' := Step(s, t, a);
    forall p
      ensures p != Pending ==> ListAt(s', p) == ListAt(s, p)
    {
      RetireLeaves(s, t, a, p);
    }
    RetirePends(s, t, a);
    RetiresNew(s, t, a);
    Relocated(s, s', NewlyRetired(s, t, a), None, Pending);
  }

  /** The allocations that the retirement takes, none if the module has been retired before. */
  function NewlyRetired(s: State, t: Tid, a: Action): seq<Id> {
    if At(s, t).Retire? && At(s, t).m !in s.mods.graph.closed && a.Release? then a.retired else []
  }

  lemma RetireLeaves(s: State, t: Tid, a: Action, p: Place)
    requires At(s, t).Retire?
    ensures p != Pending ==> ListAt(Step(s, t, a), p) == ListAt(s, p)
  {
    OthersStay(s, t, a);
  }

  lemma RetirePends(s: State, t: Tid, a: Action)
    requires LockInv(s) && At(s, t).Retire?
    ensures ListAt(s, Pending) == [] && ListAt(Step(s, t, a), Pending) == NewlyRetired(s, t, a)
  {
    assert s.lock == Some(t);
  }

  lemma RetiresNew(s: State, t: Tid, a: Action)
    requires OwnerInv(s) && Enabled(s, t, a) && At(s, t).Retire?
    ensures var s', ns := Step(s, t, a), NewlyRetired(s, t, a);
            && NoDuplicates(ns) && (forall n :: n in ns ==> n !in s.mem.place)
            && s'.mem.place == Mark(s.mem.place, ns, Pending)
            && s'.mem.batch == s.mem.batch && s'.epochs.queue == s.epochs.queue
  {
  }

  lemma EnqueuePlaces(s: State, t: Tid, a: Action)
    requires LockInv(s) && LoadedInv(s) && PlaceInv(s) && Enabled(s, t, a) && At(s, t).Enqueue?
    ensures PlaceInv(Step(s, t, a))
  {
    var s' := Step(s, t, a);
    var e, ns := At(s, t).e, At(s, t).retired;
    OthersStay(s, t, a);
    assert s.lock == Some(t) && ListAt(s, Pending) == ns && ListAt(s', Pending) == [];
    assert e !in s.epochs.queue && ListAt(s, Batch(e)) == [];
    assert NoDuplicates(ListAt(s, Pending));
    Relocated(s, s', ns, Some(Pending), Batch(e));
  }

  lemma CollectPlaces(s: State, t: Tid, a: Action)
    requires LockInv(s) && LoadedInv(s) && PlaceInv(s) && Enabled(s, t, a)
    requires At(s, t).Collect? && HeadIsIdle(s.epochs)
    ensures PlaceInv(Step(s, t, a))
  {
    var s' := Step(s, t, a);
    var e := s.epochs.queue[0];
    var ns := BatchOf(s.mem, e);
    OthersStay(s, t, a);
    assert s.lock == Some(t) == s'.lock;
    assert ListAt(s, Batch(e)) == ns && ListAt(s', Batch(e)) == [];
    assert NoDuplicates(ListAt(s, Batch(e)));
    assert ListAt(s', Held(t)) == ListAt(s, Held(t)) + ns;
    Relocated(s, s', ns, Some(Batch(e)), Held(t));
  }

  lemma FreePlaces(s: State, t: Tid, a: Action)
    requires LockInv(s) && PlaceInv(s) && Enabled(s, t, a)
    requires At(s, t).Free? && At(s, t).acc != []
    ensures PlaceInv(Step(s, t, a))
  {
    var s' := Step(s, t, a);
    var acc := At(s, t).acc;
    var ns := [acc[0]];
    OthersStay(s, t, a);
    assert ListAt(s, Held(t)) == acc == ns + acc[1..] && ListAt(s', Held(t)) == acc[1..];
    assert NoDuplicates(ListAt(s, Held(t)));
    assert s'.mem.place == Mark(s.mem.place, ns, Freed);
    Relocated(s, s', ns, Some(Held(t)), Freed);
  }

  lemma PlacesKept(s: State, t: Tid, a: Action)
    requires LockInv(s) && LoadedInv(s) && PlaceInv(s) && OwnerInv(s) && Enabled(s, t, a)
    ensures PlaceInv(Step(s, t, a))
  {
    var s' := Step(s, t, a);
    if !Relocates(s, At(s, t)) {
      MemoryStays(s, t, a);
      QueueStays(s, t, a);
      forall p
        ensures ListAt(s', p) == ListAt(s, p)
      {
        ListsStay(s, t, a, p);
      }
    } else if At(s, t).Retire? {
      RetirePlaces(s, t, a);
    } else if At(s, t).Enqueue? {
      EnqueuePlaces(s, t, a);
    } else if At(s, t).Collect? {
      CollectPlaces(s, t, a);
    } else {
      FreePlaces(s, t, a);
    }
  }

  lemma QueueStays(s: State, t: Tid, a: Action)
    requires !Relocates(s, At(s, t))
    ensures Step(s, t, a).epochs.queue == s.epochs.queue
  {
    if !TouchesEpochs(At(s, t)) {
      EpochsStay(s, t, a);
    }
  }

  /** Moving an allocation does not retire another one. */
  lemma MovesOnly(s: State, t: Tid, a: Action)
    requires LockInv(s) && PlaceInv(s) && Enabled(s, t, a) && !At(s, t).Retire?
    ensures Step(s, t, a).mem.place.Keys == s.mem.place.Keys
  {
    match At(s, t)
    case Enqueue(e, retired) =>
      assert s.lock == Some(t) && ListAt(s, Pending) == retired;
    case Collect(acc, after) =>
      if HeadIsIdle(s.epochs) {
        assert ListAt(s, Batch(s.epochs.queue[0])) == BatchOf(s.mem, s.epochs.queue[0]);
      }
    case Free(acc, after) =>
      assert acc != [] ==> acc[0] in ListAt(s, Held(t));
    case _ =>
      MemoryStays(s, t, a);
  }

  /** The fields of modules that only linking, collecting and retiring change. */
  lemma OwnersStay(s: State, t: Tid, a: Action)
    requires !At(s, t).Retire? && !At(s, t).Link? && !At(s, t).Collect?
    ensures var x, x' := s.mods, Step(s, t, a).mods;
            x'.expBuffer == x.expBuffer && x'.owns == x.owns && x'.usable == x.usable && x'.graph == x.graph
  {
  }

  lemma OwnersKept(s: State, t: Tid, a: Action)
    requires LockInv(s) && ModuleInv(s) && GraphInv(s) && PlaceInv(s) && OwnerInv(s) && Enabled(s, t, a)
    ensures OwnerInv(Step(s, t, a))
  {
    if !At(s, t).Retire? {
      MovesOnly(s, t, a);
    }
    match At(s, t)
    case Retire(m) =>
    case Link(m) =>
      assert NamesKnown(s.mods, At(s, t));
    case Collect(acc, after) =>
      assert ListAt(s, Held(t)) == acc;
    case _ =>
      OwnersStay(s, t, a);
  }
}
