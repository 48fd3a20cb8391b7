/**
 The queue of sealed epochs (guestExecutions in internal/wasm/execution.go) as the linked list that
 it is, under its mutex: it stands for the sequence that the transition system of Reclamation
 works on. The active counts of epochs are not under the mutex; what a Load of one returns is up to
 the other threads.
 */
module EpochQueue {
  import opened ImportGraph

  class Epoch {
    var next: Epoch?
    var retired: seq<Id>

    constructor ()
      ensures next == null && retired == []
    {
      next, retired := null, [];
    }
  }

  function Concat(batches: seq<seq<Id>>): seq<Id> {
    if batches == [] then [] else Concat(batches[..|batches| - 1]) + batches[|batches| - 1]
  }

  ghost predicate Distinct(q: seq<Epoch>) {
    forall i, j :: 0 <= i < j < |q| ==> q[i] != q[j]
  }

  function Nth(q: seq<Epoch>, i: int): Epoch? {
    if 0 <= i < |q| then q[i] else null
  }

  class Queue {
    var head: Epoch?
    var tail: Epoch?
    ghost var queue: seq<Epoch>
    ghost var batches: seq<seq<Id>>

    ghost predicate LinkedAt(i: nat)
      requires i < |queue| == |batches|
      reads this, queue[i]
    {
      queue[i].next == Nth(queue, i + 1) && queue[i].retired == batches[i]
    }

    /** The list holds the queue, and each epoch of it its batch. */
    ghost predicate Valid()
      reads this, queue
    {
      && Distinct(queue) && |queue| == |batches|
      && head == Nth(queue, 0) && tail == Nth(queue, |queue| - 1)
      && forall i :: 0 <= i < |queue| ==> LinkedAt(i)
    }

    constructor ()
      ensures Valid() && queue == []
    {
      head, tail, queue, batches := null, null, [], [];
    }

    /** The end of retireMemory's critical section: a sealed epoch gets its batch and goes last. */
    method Enqueue(epoch: Epoch, retired: seq<Id>)
      requires Valid() && epoch !in queue && epoch.next == null
      modifies this, epoch, tail
      ensures Valid() && queue == old(queue) + [epoch] && batches == old(batches) + [retired]
    {
      epoch.retired := retired;
      if tail == null {
        head := epoch;
      } else {
        tail.next := epoch;
      }
      tail := epoch;
      queue, batches := queue + [epoch], batches + [retired];
      forall i | 0 <= i < |queue| ensures LinkedAt(i) {
        assert i < |old(queue)| ==> old(LinkedAt(i));
      }
    }

    /** Takes the first epoch off. */
    method Dequeue() returns (retired: seq<Id>)
      requires Valid() && head != null
      modifies this, head
      ensures Valid() || (queue == [] && Emptied())
      ensures queue != [] ==> Valid()
      ensures queue == old(queue)[1..] && batches == old(batches)[1..] && retired == old(batches)[0]
      ensures old(head).next == null && old(head).retired == []
    {
      var epoch := head;
      assert LinkedAt(0);
      retired := epoch.retired;
      head := epoch.next;
      epoch.next, epoch.retired := null, [];
      queue, batches := queue[1..], batches[1..];
      forall i | 0 <= i < |queue| ensures LinkedAt(i) {
        assert old(LinkedAt(i + 1));
      }
    }

    /** Between the loop of collectRetiredMemory and its reset of the tail. */
    ghost predicate Emptied()
      reads this
    {
      queue == [] && batches == [] && head == null
    }

    /** The first `k` epochs of the queue `q`, with their batches `bs`, have been taken off. */
    ghost predicate TakenOff(q: seq<Epoch>, bs: seq<seq<Id>>, k: nat)
      reads this, q
    {
      && k <= |q| == |bs| && queue == q[k..] && batches == bs[k..]
      && forall i :: 0 <= i < k ==> q[i].next == null && q[i].retired == []
    }

    /** One more. */
    method TakeNext(ghost q: seq<Epoch>, ghost bs: seq<seq<Id>>, ghost k: nat) returns (batch: seq<Id>)
      requires Valid() && head != null && Distinct(q) && TakenOff(q, bs, k)
      modifies this, head
      ensures (queue != [] ==> Valid()) && (queue == [] ==> Valid() || Emptied())
      ensures TakenOff(q, bs, k + 1) && Concat(bs[..k + 1]) == Concat(bs[..k]) + batch
    {
      ConcatNext(bs, k);
      assert q[k] == head;
      batch := Dequeue();
    }

    /** collectRetiredMemory: the batches of the epochs up to the first that still has calls, in
        order. `loads` tells what each Load of an active count in its loop returns. */
    method Collect(loads: nat -> int) returns (retired: seq<Id>, ghost k: nat)
      requires Valid()
      modifies this, queue
      ensures Valid() && TakenOff(old(queue), old(batches), k)
      ensures retired == Concat(old(batches)[..k])
      ensures forall i :: 0 <= i < k ==> loads(i) == 0
      ensures queue == [] || loads(k) != 0
    {
      retired, k := [], 0;
      var i := 0;
      var epoch := head;
      while epoch != null && loads(i) == 0
        invariant i == k && TakenOff(old(queue), old(batches), k)
        invariant (queue != [] ==> Valid()) && (queue == [] ==> Valid() || Emptied())
        invariant epoch == head == Nth(queue, 0)
        invariant retired == Concat(old(batches)[..k])
        invariant forall n :: 0 <= n < k ==> loads(n) == 0
        decreases |queue|
      {
        var batch := TakeNext(old(queue), old(batches), k);
        retired := retired + batch;
        k, i := k + 1, i + 1;
        epoch := head;
      }
      if head == null {
        tail := null;
      }
    }
  }

  lemma ConcatNext(batches: seq<seq<Id>>, k: nat)
    requires k < |batches|
    ensures Concat(batches[..k + 1]) == Concat(batches[..k]) + batches[k]
  {
    assert batches[..k + 1][..k] == batches[..k];
  }
}
