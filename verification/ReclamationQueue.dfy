/**
 collectRetiredMemory in the transition system: whatever the other threads do meanwhile, its loop
 takes off the queue what the loop over the linked list of EpochQueue does.
 */
module ReclamationQueue {
  import opened ImportGraph
  import Q = EpochQueue
  import opened Reclamation
  import opened ReclamationInv
  import opened ReclamationSafety

  function Batches(s: State): (bs: seq<seq<Id>>)
    ensures |bs| == |s.epochs.queue|
  {
    seq(|s.epochs.queue|, i requires 0 <= i < |s.epochs.queue| => BatchOf(s.mem, s.epochs.queue[i]))
  }

  /** Thread `t` is in the loop, which it has entered at state `i`, throughout up to state `j`. */
  ghost predicate Collecting(r: seq<State>, i: nat, j: nat, t: Tid) {
    && i <= j < |r| && At(r[i], t).Collect? && At(r[i], t).acc == []
    && forall k :: i <= k <= j ==> At(r[k], t).Collect?
  }

  /** The first `k` epochs have been taken off the queue of `s`, which leaves `q`, and their batches
      are `acc`. */
  ghost predicate TakenOff(s: State, q: seq<EpochId>, acc: seq<Id>, k: nat) {
    k <= |s.epochs.queue| && q == s.epochs.queue[k..] && acc == Q.Concat(Batches(s)[..k])
  }

  lemma TakenNext(s: State, q: seq<EpochId>, acc: seq<Id>, k: nat)
    requires TakenOff(s, q, acc, k) && q != []
    ensures TakenOff(s, q[1..], acc + BatchOf(s.mem, q[0]), k + 1) && q[0] == s.epochs.queue[k]
  {
    Q.ConcatNext(Batches(s), k);
  }

  /** The epochs `q` have the same batches in `s` and `s'`. */
  ghost predicate SameBatches(s: State, s': State, q: seq<EpochId>) {
    forall e :: e in q ==> BatchOf(s'.mem, e) == BatchOf(s.mem, e)
  }

  /** Between states `i` and `j` epoch `e` has been the head of the queue and had no calls left. */
  ghost predicate SeenIdle(r: seq<State>, i: nat, j: nat, e: EpochId) {
    exists m :: i <= m < j <= |r| && IdleAt(r[m], e)
  }

  predicate IdleAt(s: State, e: EpochId) {
    HeadIsIdle(s.epochs) && s.epochs.queue[0] == e
  }

  ghost predicate AllSeenIdle(r: seq<State>, i: nat, j: nat, k: nat) {
    i < |r| && k <= |r[i].epochs.queue| && forall n :: 0 <= n < k ==> SeenIdle(r, i, j, r[i].epochs.queue[n])
  }

  lemma OthersLeaveQueue(s: State, u: Tid, a: Action, t: Tid)
    requires Base(s) && Enabled(s, u, a) && u != t && At(s, t).Collect?
    ensures Step(s, u, a).epochs.queue == s.epochs.queue && Step(s, u, a).mem.batch == s.mem.batch
    ensures At(Step(s, u, a), t) == At(s, t)
  {
    OthersStay(s, u, a);
    assert Holds(At(s, t));
    assert !Holds(At(s, u));
  }

  lemma TakesHead(s: State, t: Tid, a: Action)
    requires Base(s) && At(s, t).Collect? && At(Step(s, t, a), t).Collect?
    ensures HeadIsIdle(s.epochs) && Step(s, t, a).epochs.queue == s.epochs.queue[1..]
    ensures At(Step(s, t, a), t).acc == At(s, t).acc + BatchOf(s.mem, s.epochs.queue[0])
    ensures SameBatches(s, Step(s, t, a), s.epochs.queue[1..])
  {
    assert s.epochs.queue[0] !in s.epochs.queue[1..];
  }

  lemma CollectGoesOn(r: seq<State>, i: nat, j: nat, t: Tid, k: nat) returns (k': nat)
    requires Run(r) && i < j < |r| && At(r[j - 1], t).Collect? && At(r[j], t).Collect?
    requires TakenOff(r[i], r[j - 1].epochs.queue, At(r[j - 1], t).acc, k) && AllSeenIdle(r, i, j - 1, k)
    requires SameBatches(r[i], r[j - 1], r[j - 1].epochs.queue)
    ensures TakenOff(r[i], r[j].epochs.queue, At(r[j], t).acc, k') && AllSeenIdle(r, i, j, k')
    ensures SameBatches(r[i], r[j], r[j].epochs.queue)
  {
    var u, a := StepOf(r, j);
    k' := k;
    SeenLater(r, i, j, k);
    if u != t {
      OthersLeaveQueue(r[j - 1], u, a, t);
    } else {
      var q := r[j - 1].epochs.queue;
      TakesHead(r[j - 1], t, a);
      assert q[0] in q;
      TakenNext(r[i], q, At(r[j - 1], t).acc, k);
      assert IdleAt(r[j - 1], r[i].epochs.queue[k]);
      k' := k + 1;
    }
  }

  lemma SeenLater(r: seq<State>, i: nat, j: nat, k: nat)
    requires 0 < j <= |r| && AllSeenIdle(r, i, j - 1, k)
    ensures AllSeenIdle(r, i, j, k)
  {
    forall n | 0 <= n < k ensures SeenIdle(r, i, j, r[i].epochs.queue[n]) {
      assert SeenIdle(r, i, j - 1, r[i].epochs.queue[n]);
    }
  }

  lemma {:induction false} CollectUnderWay(r: seq<State>, i: nat, j: nat, t: Tid) returns (k: nat)
    requires Run(r) && Collecting(r, i, j, t)
    ensures TakenOff(r[i], r[j].epochs.queue, At(r[j], t).acc, k) && AllSeenIdle(r, i, j, k)
    ensures SameBatches(r[i], r[j], r[j].epochs.queue)
    decreases j
  {
    if i == j {
      k := 0;
    } else {
      k := CollectUnderWay(r, i, j - 1, t);
      k := CollectGoesOn(r, i, j, t, k);
    }
  }

  /** The loop collects, in order, the batches of a prefix of the queue that it found, each of whose
      epochs it has seen without calls at the head, and ends at a head that still has calls. */
  lemma CollectExact(r: seq<State>, i: nat, j: nat, t: Tid) returns (k: nat)
    requires Run(r) && i < j < |r| && Collecting(r, i, j - 1, t) && At(r[j], t).Unlock?
    ensures TakenOff(r[i], r[j].epochs.queue, At(r[j], t).acc, k) && AllSeenIdle(r, i, j, k)
    ensures !HeadIsIdle(r[j - 1].epochs) && r[j - 1].epochs == r[j].epochs
  {
    k := CollectUnderWay(r, i, j - 1, t);
    var u, a := StepOf(r, j);
    SeenLater(r, i, j, k);
    if u != t {
      OthersLeaveQueue(r[j - 1], u, a, t);
    }
  }
}
