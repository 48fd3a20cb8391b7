/**
 Wait and Notify on one address of a linear memory (internal/wasm/memory.go), as a transition
 system with one program counter per thread. The waiters of an address are a list under a mutex;
 stores to the address do not take the mutex.
 */
module WaitNotify {

  type Tid(==, !new)

  datatype Option<T> = None | Some(value: T)

  const MAX_WAITERS: nat := 0x1_0000_0000

  datatype Pc =
    | Idle
    // Wait32 and Wait64: `exp` is the expected value, `timed` whether there is a timeout
    | WaitLock(exp: int, timed: bool)
    | WaitRead(exp: int, timed: bool)
    | WaitMismatch
    | WaitPush(exp: int, timed: bool)
    | WaitUnlock(exp: int, timed: bool)
    | Waiting(exp: int, timed: bool)
    | TimeoutLock(exp: int)
    | TimeoutRemove(exp: int)
    | TimeoutUnlock
    // Notify
    | NotifyLoad(count: nat)
    | NotifyLock(count: nat)
    | NotifyLoop(count: nat, res: nat)
    // the result of a call, or the panic for too many waiters
    | Returned(code: nat)
    | TooManyWaiters

  /** `registered`: the address has an entry in the map of waiters. `queue` is the list, `ready` the
      threads whose channel is closed. `closedTwice` would be a panic of close. */
  datatype State = State(
    value: int,
    registered: bool,
    lock: Option<Tid>,
    queue: seq<Tid>,
    ready: set<Tid>,
    closedTwice: bool,
    threads: map<Tid, Pc>)

  function Initial(value: int): State {
    State(value, false, None, [], {}, false, map[])
  }

  function At(s: State, t: Tid): Pc {
    if t in s.threads then s.threads[t] else Idle
  }

  function Goto(s: State, t: Tid, pc: Pc): State {
    s.(threads := s.threads[t := pc])
  }

  /** What a step leaves open. */
  datatype Action = Go | StartWait(exp: int, timed: bool) | StartNotify(count: nat) | Store(value: int) | Timeout

  function Without(q: seq<Tid>, t: Tid): seq<Tid> {
    if q == [] then [] else if q[0] == t then q[1..] else [q[0]] + Without(q[1..], t)
  }

  predicate NeedsLock(pc: Pc) {
    pc.WaitLock? || pc.TimeoutLock? || pc.NotifyLock?
  }

  predicate Enabled(s: State, t: Tid, a: Action) {
    match At(s, t)
    case Idle => a.StartWait? || a.StartNotify? || a.Store?
    case Waiting(_, timed) => (a == Go && t in s.ready) || (a == Timeout && timed)
    case TooManyWaiters => false
    case pc => a == Go && (NeedsLock(pc) ==> s.lock == None)
  }

  /** Another round of Notify's loop: the first waiter is taken off and its channel closed. */
  function Wake(s: State, t: Tid, count: nat, res: nat): State {
    if s.queue != [] && res < count then
      Goto(s.(queue := s.queue[1..], ready := s.ready + {s.queue[0]},
              closedTwice := s.closedTwice || s.queue[0] in s.ready), t, NotifyLoop(count, res + 1))
    else Goto(s.(lock := None), t, Returned(res))
  }

  function Step(s: State, t: Tid, a: Action): State {
    match At(s, t)
    case Idle =>
      (match a
       case StartWait(exp, timed) => Goto(s.(registered := true), t, WaitLock(exp, timed))
       case StartNotify(count) => Goto(s, t, NotifyLoad(count))
       case Store(v) => s.(value := v)
       case _ => s)
    case WaitLock(exp, timed) => Goto(s.(lock := Some(t)), t, WaitRead(exp, timed))
    case WaitRead(exp, timed) => Goto(s, t, if s.value != exp then WaitMismatch else WaitPush(exp, timed))
    case WaitMismatch => Goto(s.(lock := None), t, Returned(1))
    case WaitPush(exp, timed) =>
      if |s.queue| + 1 == MAX_WAITERS then Goto(s.(lock := None), t, TooManyWaiters)
      else Goto(s.(queue := s.queue + [t]), t, WaitUnlock(exp, timed))
    case WaitUnlock(exp, timed) => Goto(s.(lock := None), t, Waiting(exp, timed))
    case Waiting(exp, _) =>
      if a == Timeout then Goto(s, t, TimeoutLock(exp))
      else Goto(s.(ready := s.ready - {t}), t, Returned(0))
    case TimeoutLock(exp) => Goto(s.(lock := Some(t)), t, TimeoutRemove(exp))
    case TimeoutRemove(exp) => Goto(s.(queue := Without(s.queue, t)), t, TimeoutUnlock)
    case TimeoutUnlock => Goto(s.(lock := None, ready := s.ready - {t}), t, Returned(2))
    case NotifyLoad(count) => Goto(s, t, if s.registered then NotifyLock(count) else Returned(0))
    case NotifyLock(count) => Goto(s.(lock := Some(t)), t, NotifyLoop(count, 0))
    case NotifyLoop(count, res) => Wake(s, t, count, res)
    case Returned(_) => Goto(s, t, Idle)
    case TooManyWaiters => s
  }

  ghost predicate Next(s: State, s': State) {
    exists t, a :: Enabled(s, t, a) && s' == Step(s, t, a)
  }

  ghost predicate StepsTo(r: seq<State>, i: nat)
    requires 0 < i < |r|
  {
    Next(r[i - 1], r[i])
  }

  ghost predicate Run(r: seq<State>) {
    && r != [] && r[0] == Initial(r[0].value)
    && forall i :: 0 < i < |r| ==> StepsTo(r, i)
  }

  // The invariant

  predicate Holds(pc: Pc) {
    || pc.WaitRead? || pc.WaitMismatch? || pc.WaitPush? || pc.WaitUnlock?
    || pc.TimeoutRemove? || pc.TimeoutUnlock? || pc.NotifyLoop?
  }

  /** A thread in the list, or one that has been taken off it and told. */
  predicate InList(pc: Pc) {
    pc.WaitUnlock? || pc.Waiting? || pc.TimeoutLock? || pc.TimeoutRemove?
  }

  predicate Distinct(q: seq<Tid>) {
    forall i, j :: 0 <= i < j < |q| ==> q[i] != q[j]
  }

  ghost predicate LockInv(s: State) {
    forall t :: Holds(At(s, t)) <==> s.lock == Some(t)
  }

  /** A waiter is in the list or ready, never both; nobody else is in the list, and nobody else is
      ready but a waiter that has timed out. */
  ghost predicate WaiterInv(s: State) {
    && (forall t :: t in s.queue ==> InList(At(s, t)) && t !in s.ready)
    && (forall t :: InList(At(s, t)) ==> t in s.queue || t in s.ready)
    && (forall t :: t in s.ready ==> InList(At(s, t)) || At(s, t).TimeoutUnlock?)
    && (forall t :: At(s, t).WaitUnlock? ==> t in s.queue)
  }

  ghost predicate ListInv(s: State) {
    Distinct(s.queue) && |s.queue| < MAX_WAITERS && !s.closedTwice
  }

  /** Whoever has gone past getWaiters has made the entry. */
  ghost predicate EntryInv(s: State) {
    forall t :: (Holds(At(s, t)) && !At(s, t).NotifyLoop?) || InList(At(s, t)) || At(s, t).WaitLock? ==> s.registered
  }

  ghost predicate Inv(s: State) {
    LockInv(s) && WaiterInv(s) && ListInv(s) && EntryInv(s)
  }

  lemma {:induction false} WithoutKeeps(q: seq<Tid>, t: Tid)
    requires Distinct(q)
    ensures Distinct(Without(q, t)) && |Without(q, t)| <= |q|
    ensures forall u :: u in Without(q, t) <==> u in q && u != t
  {
    if q != [] {
      assert forall u :: u in q <==> u == q[0] || u in q[1..];
      if q[0] == t {
        assert t !in q[1..];
      } else {
        WithoutKeeps(q[1..], t);
        var w := Without(q[1..], t);
        assert q[0] !in w;
        assert forall u :: u in [q[0]] + w <==> u == q[0] || u in w;
      }
    }
  }

  /** The rest of the list after its first waiter has been taken off. */
  lemma TailKeeps(q: seq<Tid>)
    requires Distinct(q) && q != []
    ensures Distinct(q[1..]) && forall u :: u in q[1..] <==> u in q && u != q[0]
  {
    assert forall u :: u in q <==> u == q[0] || u in q[1..];
  }

  lemma LockOfMover(s: State, t: Tid, a: Action)
    requires LockInv(s) && Enabled(s, t, a)
    ensures Holds(At(Step(s, t, a), t)) <==> Step(s, t, a).lock == Some(t)
  {
  }

  lemma LockOfOthers(s: State, t: Tid, a: Action, u: Tid)
    requires LockInv(s) && Enabled(s, t, a) && u != t
    ensures At(Step(s, t, a), u) == At(s, u)
    ensures Step(s, t, a).lock == Some(u) <==> s.lock == Some(u)
  {
  }

  lemma LockKept(s: State, t: Tid, a: Action)
    requires LockInv(s) && Enabled(s, t, a)
    ensures LockInv(Step(s, t, a))
  {
    LockOfMover(s, t, a);
    forall u | u != t ensures Holds(At(Step(s, t, a), u)) <==> Step(s, t, a).lock == Some(u) {
      LockOfOthers(s, t, a, u);
    }
  }

  lemma ListKept(s: State, t: Tid, a: Action)
    requires WaiterInv(s) && ListInv(s) && Enabled(s, t, a)
    ensures ListInv(Step(s, t, a))
  {
    var pc := At(s, t);
    if pc.WaitPush? {
      assert t !in s.queue;
    } else if pc.TimeoutRemove? {
      WithoutKeeps(s.queue, t);
    } else if pc.NotifyLoop? && s.queue != [] {
      TailKeeps(s.queue);
    }
  }

  /** Which threads a step puts into the list or takes off it. */
  lemma QueueAfter(s: State, t: Tid, a: Action, u: Tid)
    requires LockInv(s) && ListInv(s) && Enabled(s, t, a)
    ensures u != t ==> At(Step(s, t, a), u) == At(s, u)
    ensures u in Step(s, t, a).queue ==> u in s.queue || (u == t && At(s, t).WaitPush?)
    ensures u in s.queue && u !in Step(s, t, a).queue ==>
              u in Step(s, t, a).ready || (u == t && At(s, t).TimeoutRemove?)
    ensures u == t && At(s, t).TimeoutRemove? ==> u !in Step(s, t, a).queue
    ensures u == t && At(s, t).WaitPush? && At(Step(s, t, a), t).WaitUnlock? ==> u in Step(s, t, a).queue
  {
    if At(s, t).TimeoutRemove? {
      WithoutKeeps(s.queue, t);
    } else if At(s, t).NotifyLoop? && s.queue != [] {
      TailKeeps(s.queue);
    }
  }

  lemma ReadyAfter(s: State, t: Tid, a: Action, u: Tid)
    requires LockInv(s) && WaiterInv(s) && ListInv(s) && Enabled(s, t, a)
    ensures u in Step(s, t, a).ready ==> u in s.ready || (u in s.queue && At(s, t).NotifyLoop?)
    ensures u in s.ready && u !in Step(s, t, a).ready ==> u == t && At(Step(s, t, a), t).Returned?
    ensures u in Step(s, t, a).ready ==> u !in Step(s, t, a).queue
  {
    if At(s, t).TimeoutRemove? {
      WithoutKeeps(s.queue, t);
    } else if At(s, t).NotifyLoop? && s.queue != [] {
      TailKeeps(s.queue);
      assert s.queue[0] in s.queue;
    } else if At(s, t).WaitPush? {
      assert t !in s.ready;
    }
  }

  lemma WaitersKept(s: State, t: Tid, a: Action)
    requires LockInv(s) && WaiterInv(s) && ListInv(s) && Enabled(s, t, a)
    ensures WaiterInv(Step(s, t, a))
  {
    var s' := Step(s, t, a);
    forall u
      ensures u in s'.queue ==> InList(At(s', u)) && u !in s'.ready
      ensures InList(At(s', u)) ==> u in s'.queue || u in s'.ready
      ensures u in s'.ready ==> InList(At(s', u)) || At(s', u).TimeoutUnlock?
      ensures At(s', u).WaitUnlock? ==> u in s'.queue
    {
      QueueAfter(s, t, a, u);
      ReadyAfter(s, t, a, u);
    }
  }

  lemma EntryKept(s: State, t: Tid, a: Action)
    requires EntryInv(s) && Enabled(s, t, a)
    ensures EntryInv(Step(s, t, a))
  {
    var s' := Step(s, t, a);
    assert forall u :: u != t ==> At(s', u) == At(s, u);
  }

  lemma {:induction false} RunKeepsInv(r: seq<State>, i: nat)
    requires Run(r) && i < |r|
    ensures Inv(r[i])
  {
    if i > 0 {
      RunKeepsInv(r, i - 1);
      assert StepsTo(r, i);
      var t, a :| Enabled(r[i - 1], t, a) && r[i] == Step(r[i - 1], t, a);
      LockKept(r[i - 1], t, a);
      ListKept(r[i - 1], t, a);
      WaitersKept(r[i - 1], t, a);
      EntryKept(r[i - 1], t, a);
    }
  }

  // What a call of Notify does

  function Min(a: nat, b: nat): nat {
    if a < b then a else b
  }

  /** Thread `n` has the mutex from state `k` up to `l`, where its Notify returns. */
  ghost predicate Notifies(r: seq<State>, k: nat, l: nat, n: Tid, count: nat) {
    && k < l < |r| && At(r[k], n) == NotifyLoop(count, 0)
    && (forall m :: k <= m < l ==> At(r[m], n).NotifyLoop?)
    && !At(r[l], n).NotifyLoop?
  }

  lemma OthersLeaveQueue(s: State, t: Tid, a: Action, n: Tid)
    requires LockInv(s) && Enabled(s, t, a) && s.lock == Some(n) && t != n
    ensures Step(s, t, a).queue == s.queue && At(Step(s, t, a), n) == At(s, n)
  {
    assert !Holds(At(s, t));
  }

  lemma HolderLeaves(s: State, t: Tid, a: Action, n: Tid)
    requires LockInv(s) && Enabled(s, t, a) && At(s, n).NotifyLoop? && !At(Step(s, t, a), n).NotifyLoop?
    ensures t == n
  {
    if t != n {
      assert Holds(At(s, n));
      OthersLeaveQueue(s, t, a, n);
    }
  }

  /** Under way, Notify has taken the first waiters off the list, in order. */
  lemma {:induction false} NotifyUnderWay(r: seq<State>, k: nat, l: nat, n: Tid, count: nat, m: nat)
    requires Run(r) && Notifies(r, k, l, n, count) && k <= m < l
    ensures At(r[m], n) == NotifyLoop(count, At(r[m], n).res) && At(r[m], n).res <= Min(count, |r[k].queue|)
    ensures r[m].queue == r[k].queue[At(r[m], n).res..]
  {
    if m > k {
      NotifyUnderWay(r, k, l, n, count, m - 1);
      RunKeepsInv(r, m - 1);
      assert StepsTo(r, m);
      var t, a :| Enabled(r[m - 1], t, a) && r[m] == Step(r[m - 1], t, a);
      assert Holds(At(r[m - 1], n));
      if t != n {
        OthersLeaveQueue(r[m - 1], t, a, n);
      } else {
        assert At(r[m], n).NotifyLoop?;
      }
    }
  }

  /** It returns the number of waiters asked for, or all there are, and those are the first. */
  lemma NotifyExact(r: seq<State>, k: nat, l: nat, n: Tid, count: nat)
    requires Run(r) && Notifies(r, k, l, n, count)
    ensures var woken := Min(count, |r[k].queue|);
            At(r[l], n) == Returned(woken) && r[l].queue == r[k].queue[woken..]
    ensures forall t :: !At(r[l], t).WaitPush?
  {
    NotifyUnderWay(r, k, l, n, count, l - 1);
    RunKeepsInv(r, l - 1);
    assert StepsTo(r, l);
    var t, a :| Enabled(r[l - 1], t, a) && r[l] == Step(r[l - 1], t, a);
    assert Holds(At(r[l - 1], n));
    HolderLeaves(r[l - 1], t, a, n);
    forall u ensures !At(r[l], u).WaitPush? {
      assert u != n ==> At(r[l], u) == At(r[l - 1], u) && !Holds(At(r[l - 1], u));
    }
  }

  // No lost wakeup

  /** Nobody who has read `exp` is in the list or about to enter it. */
  ghost predicate Clear(s: State, exp: int) {
    && (forall t :: t in s.queue && InList(At(s, t)) ==> At(s, t).exp != exp)
    && (forall t :: At(s, t).WaitPush? ==> At(s, t).exp != exp)
  }

  lemma ClearStays(s: State, t: Tid, a: Action, exp: int)
    requires Inv(s) && Clear(s, exp) && s.value != exp && Enabled(s, t, a)
    ensures Clear(Step(s, t, a), exp)
  {
    var s' := Step(s, t, a);
    forall u
      ensures u in s'.queue && InList(At(s', u)) ==> At(s', u).exp != exp
      ensures At(s', u).WaitPush? ==> At(s', u).exp != exp
    {
      QueueAfter(s, t, a, u);
      MovesWithExp(s, t, a);
    }
  }

  /** A waiter on its way through the list keeps its expectation, and has read it to get there. */
  lemma MovesWithExp(s: State, t: Tid, a: Action)
    requires Enabled(s, t, a)
    ensures var pc, pc' := At(s, t), At(Step(s, t, a), t);
            && (InList(pc') ==> (InList(pc) || pc.WaitPush?) && pc'.exp == pc.exp)
            && (pc'.WaitPush? ==> pc.WaitRead? && pc'.exp == pc.exp == s.value)
  {
  }

  lemma {:induction false} ClearFrom(r: seq<State>, l: nat, m: nat, exp: int)
    requires Run(r) && l <= m < |r| && Clear(r[l], exp)
    requires forall x :: l <= x < m ==> r[x].value != exp
    ensures Clear(r[m], exp)
  {
    if l < m {
      ClearFrom(r, l, m - 1, exp);
      RunKeepsInv(r, m - 1);
      assert StepsTo(r, m);
      var t, a :| Enabled(r[m - 1], t, a) && r[m] == Step(r[m - 1], t, a);
      ClearStays(r[m - 1], t, a, exp);
    }
  }

  /** When a Notify for all waiters has returned, then for as long as the value is not `exp`, no
      waiter that has seen `exp` is in the list: every one that still waits has been told. */
  lemma NoLostWakeup(r: seq<State>, k: nat, l: nat, n: Tid, count: nat, m: nat, exp: int, t: Tid)
    requires Run(r) && Notifies(r, k, l, n, count) && count >= |r[k].queue|
    requires l <= m < |r| && forall x :: l <= x < m ==> r[x].value != exp
    ensures Clear(r[m], exp)
    ensures At(r[m], t).Waiting? && At(r[m], t).exp == exp ==> t in r[m].ready && Enabled(r[m], t, Go)
  {
    NotifyExact(r, k, l, n, count);
    ClearFrom(r, l, m, exp);
    RunKeepsInv(r, m);
  }

  /** Thread `n` finds in state `l - 1` that nobody has ever waited, and its Notify returns. */
  ghost predicate NotifiesNobody(r: seq<State>, l: nat, n: Tid) {
    0 < l < |r| && At(r[l - 1], n).NotifyLoad? && At(r[l], n).Returned?
  }

  lemma NobodyRegistered(r: seq<State>, l: nat, n: Tid)
    requires Run(r) && NotifiesNobody(r, l, n)
    ensures At(r[l], n) == Returned(0) && !r[l].registered
  {
    assert StepsTo(r, l);
    var t, a :| Enabled(r[l - 1], t, a) && r[l] == Step(r[l - 1], t, a);
    assert t == n;
  }

  /** The same for a Notify that returns at once because nobody has ever waited. */
  lemma NoLostWakeupUnregistered(r: seq<State>, l: nat, n: Tid, m: nat, exp: int, t: Tid)
    requires Run(r) && NotifiesNobody(r, l, n)
    requires l <= m < |r| && forall x :: l <= x < m ==> r[x].value != exp
    ensures At(r[l], n) == Returned(0) && Clear(r[m], exp)
    ensures At(r[m], t).Waiting? && At(r[m], t).exp == exp ==> t in r[m].ready && Enabled(r[m], t, Go)
  {
    NobodyRegistered(r, l, n);
    RunKeepsInv(r, l);
    ClearFrom(r, l, m, exp);
    RunKeepsInv(r, m);
  }

  // What a wait returns

  /** A wait returns 0 only to a thread that a Notify has counted, 1 only when it has read another
      value, and 2 only when it has a timeout. */
  lemma ReturnCodes(s: State, t: Tid, a: Action, code: nat)
    requires Inv(s) && Enabled(s, t, a) && Step(s, t, a).threads == s.threads[t := Returned(code)]
    requires InList(At(s, t)) || (Holds(At(s, t)) && !At(s, t).NotifyLoop?)
    ensures code == 0 ==> t in s.ready && At(s, t).Waiting?
    ensures code == 1 ==> At(s, t).WaitMismatch?
    ensures code == 2 ==> At(s, t).TimeoutUnlock?
    ensures code <= 2
  {
    assert s.threads[t := Returned(code)][t] == Returned(code);
    assert Step(s, t, a).threads[t] == Returned(code);
  }

  /** A waiter, with a timeout or without, that a Notify has counted. */
  ghost predicate Counted(s: State, t: Tid, timed: bool) {
    At(s, t).Waiting? && At(s, t).timed == timed && t in s.ready
  }

  lemma CountedWithoutTimeout(s: State, t: Tid, u: Tid, a: Action)
    requires Inv(s) && Counted(s, t, false) && Enabled(s, u, a)
    ensures if u == t then At(Step(s, u, a), t) == Returned(0) else Counted(Step(s, u, a), t, false)
  {
  }

  ghost predicate ReturnedZero(r: seq<State>, t: Tid, k: nat)
    requires k < |r|
  {
    At(r[k], t) == Returned(0)
  }

  /** In every run a counted waiter without a timeout stays counted until it returns 0. */
  lemma {:induction false} CountedReturnsZero(r: seq<State>, i: nat, j: nat, t: Tid)
    requires Run(r) && i <= j < |r| && Counted(r[i], t, false)
    ensures Counted(r[j], t, false) || exists k :: i < k <= j && ReturnedZero(r, t, k)
    decreases j
  {
    if i < j {
      CountedReturnsZero(r, i, j - 1, t);
      RunKeepsInv(r, j - 1);
      assert StepsTo(r, j);
      var u, a :| Enabled(r[j - 1], u, a) && r[j] == Step(r[j - 1], u, a);
      if Counted(r[j - 1], t, false) {
        CountedWithoutTimeout(r[j - 1], t, u, a);
        assert u == t ==> ReturnedZero(r, t, j);
      }
    }
  }

  /** One step of a run more. */
  lemma Extend(r: seq<State>, t: Tid, a: Action) returns (r': seq<State>)
    requires Run(r) && Enabled(r[|r| - 1], t, a)
    ensures r' == r + [Step(r[|r| - 1], t, a)] && Run(r')
  {
    r' := r + [Step(r[|r| - 1], t, a)];
    forall i | 0 < i < |r'| ensures StepsTo(r', i) {
      if i < |r| {
        assert StepsTo(r, i);
      }
    }
  }

  /** A state with a waiter `w` and a notifier `n`, as far as they can tell. */
  ghost predicate Looks(s: State, w: Tid, pcW: Pc, n: Tid, pcN: Pc, lock: Option<Tid>, queue: seq<Tid>,
                        ready: set<Tid>) {
    && s.value == 0 && s.registered && s.lock == lock && s.queue == queue && s.ready == ready
    && At(s, w) == pcW && At(s, n) == pcN
  }

  lemma WaiterEnters(w: Tid, n: Tid) returns (r: seq<State>)
    requires w != n
    ensures Run(r) && Looks(r[|r| - 1], w, Waiting(0, true), n, Idle, None, [w], {})
  {
    r := [Initial(0)];
    r := Extend(r, w, StartWait(0, true));
    assert Looks(r[|r| - 1], w, WaitLock(0, true), n, Idle, None, [], {});
    r := Extend(r, w, Go);
    assert Looks(r[|r| - 1], w, WaitRead(0, true), n, Idle, Some(w), [], {});
    r := Extend(r, w, Go);
    assert Looks(r[|r| - 1], w, WaitPush(0, true), n, Idle, Some(w), [], {});
    r := Extend(r, w, Go);
    assert Looks(r[|r| - 1], w, WaitUnlock(0, true), n, Idle, Some(w), [w], {});
    r := Extend(r, w, Go);
  }

  lemma NotifierEnters(r: seq<State>, w: Tid, n: Tid) returns (r': seq<State>)
    requires w != n && Run(r) && Looks(r[|r| - 1], w, Waiting(0, true), n, Idle, None, [w], {})
    ensures Run(r') && Looks(r'[|r'| - 1], w, Waiting(0, true), n, NotifyLoop(1, 0), Some(n), [w], {})
  {
    r' := Extend(r, n, StartNotify(1));
    assert Looks(r'[|r'| - 1], w, Waiting(0, true), n, NotifyLoad(1), None, [w], {});
    r' := Extend(r', n, Go);
    assert Looks(r'[|r'| - 1], w, Waiting(0, true), n, NotifyLock(1), None, [w], {});
    r' := Extend(r', n, Go);
  }

  lemma WaiterIsCounted(r: seq<State>, w: Tid, n: Tid) returns (r': seq<State>, k: nat, l: nat)
    requires w != n && Run(r) && Looks(r[|r| - 1], w, Waiting(0, true), n, NotifyLoop(1, 0), Some(n), [w], {})
    ensures Run(r') && Notifies(r', k, l, n, 1) && r'[k].queue == [w] && l == |r'| - 1
    ensures Looks(r'[l], w, Waiting(0, true), n, Returned(1), None, [], {w})
  {
    var a := Extend(r, n, Go);
    assert Looks(a[|a| - 1], w, Waiting(0, true), n, NotifyLoop(1, 1), Some(n), [], {w});
    r' := Extend(a, n, Go);
    k, l := |r| - 1, |r'| - 1;
  }

  /** With a timeout it may still return 2: the timeout goes before the notification. */
  lemma CountedMayTimeOut(w: Tid, n: Tid) returns (r: seq<State>, k: nat, l: nat)
    requires w != n
    ensures Run(r) && Notifies(r, k, l, n, 1) && r[k].queue == [w] && At(r[l], n) == Returned(1)
    ensures Counted(r[l], w, true) && l < |r| - 1 && At(r[|r| - 1], w) == Returned(2)
    ensures forall m :: l <= m < |r| - 1 ==> !At(r[m], w).Returned?
  {
    var a := WaiterEnters(w, n);
    a := NotifierEnters(a, w, n);
    var b;
    b, k, l := WaiterIsCounted(a, w, n);
    r := WaiterTimesOut(b, w, n);
    assert forall m :: 0 <= m < |b| ==> r[m] == b[m];
  }

  lemma WaiterTimesOut(b: seq<State>, w: Tid, n: Tid) returns (r: seq<State>)
    requires w != n && Run(b) && Looks(b[|b| - 1], w, Waiting(0, true), n, Returned(1), None, [], {w})
    ensures Run(r) && |r| == |b| + 4 && r[..|b|] == b
    ensures At(r[|b|], w) == TimeoutLock(0) && At(r[|b| + 1], w) == TimeoutRemove(0)
    ensures At(r[|b| + 2], w) == TimeoutUnlock && At(r[|b| + 3], w) == Returned(2)
  {
    var c := Extend(b, w, Timeout);
    assert Looks(c[|b|], w, TimeoutLock(0), n, Returned(1), None, [], {w});
    var d := Extend(c, w, Go);
    assert Looks(d[|b| + 1], w, TimeoutRemove(0), n, Returned(1), Some(w), [], {w});
    var e := Extend(d, w, Go);
    assert Looks(e[|b| + 2], w, TimeoutUnlock, n, Returned(1), Some(w), [], {w});
    r := Extend(e, w, Go);
  }

  /** A run in which a waiter that a Notify has counted returns with `code`. */
  ghost predicate CountedThenReturns(r: seq<State>, i: nat, j: nat, t: Tid, timed: bool, code: nat) {
    && Run(r) && i < j < |r| && Counted(r[i], t, timed)
    && (forall k :: i <= k < j ==> !At(r[k], t).Returned?) && At(r[j], t) == Returned(code)
  }

  /** There is a run in which a counted waiter times out if and only if it has a timeout. */
  lemma CountedTimesOutExactly(w: Tid, n: Tid, timed: bool)
    requires w != n
    ensures (exists r, i, j :: CountedThenReturns(r, i, j, w, timed, 2)) <==> timed
  {
    if timed {
      var r, k, l := CountedMayTimeOut(w, n);
      assert CountedThenReturns(r, l, |r| - 1, w, timed, 2);
    } else {
      forall r, i, j ensures !CountedThenReturns(r, i, j, w, false, 2) {
        if CountedThenReturns(r, i, j, w, false, 2) {
          CountedReturnsZero(r, i, j, w);
        }
      }
    }
  }
}
