/**
 The buffer of a linear memory that is neither shared nor from a custom allocator
 (internal/wasm/memory.go): a Go slice whose length is the memory's size and whose capacity may be
 larger, and Grow, which either uses the capacity or appends.
 */
module MemoryGrow {
  import opened Bytes

  /** MemoryPageSize */
  const PAGE: nat := 65536

  /** MemoryLimitPages */
  const LIMIT_PAGES: nat := 65536

  predicate AllZero(s: seq<byte>) {
    forall i :: 0 <= i < |s| ==> s[i] == 0
  }

  /** The test on the uint32 sum of pages, and on the sign of delta as an int32, refuses exactly the sums
      beyond the maximum. */
  lemma PageSum(current: nat, delta: nat, max: nat)
    requires current <= max <= LIMIT_PAGES && delta < TWO_TO_THE_32
    ensures (current + delta) % TWO_TO_THE_32 > max || delta >= TWO_TO_THE_32 / 2 <==> current + delta > max
    ensures current + delta <= max ==> (current + delta) % TWO_TO_THE_32 == current + delta
  {
    if current + delta < TWO_TO_THE_32 {
      ModSmall(current + delta, TWO_TO_THE_32);
    }
  }

  class Memory {
    /** The array behind the slice Buffer, and the slice's length. */
    var backing: array<byte>
    var length: nat
    var capPages: nat
    const max: nat

    /** Everything between the length and the recorded capacity is zero, and that capacity is real. */
    ghost predicate Valid()
      reads this, backing
    {
      && length % PAGE == 0 && length <= capPages * PAGE <= backing.Length
      && length <= max * PAGE && max <= LIMIT_PAGES
      && AllZero(backing[length..capPages * PAGE])
    }

    ghost function Contents(): seq<byte>
      reads this, backing
      requires length <= backing.Length
    {
      backing[..length]
    }

    /** Pages */
    function Pages(): nat
      reads this
    {
      length / PAGE
    }

    /** NewMemoryInstance without an allocator */
    constructor (minPages: nat, capPages: nat, max: nat)
      requires minPages <= capPages && minPages <= max <= LIMIT_PAGES
      ensures Valid() && fresh(backing) && this.max == max
      ensures Pages() == minPages && AllZero(Contents())
    {
      backing := new byte[capPages * PAGE](_ => 0);
      length := minPages * PAGE;
      this.capPages := capPages;
      this.max := max;
    }

    /** append of `n` zero bytes: in place if the array has room, or else in a new array that may
        have more capacity than needed, with anything in it. */
    method AppendZeros(n: nat)
      requires length <= backing.Length
      modifies `backing, `length, backing
      ensures length == old(length) + n <= backing.Length && (backing == old(backing) || fresh(backing))
      ensures backing[..length] == old(backing[..length]) + seq(n, _ => 0)
    {
      var need := length + n;
      if need <= backing.Length {
        forall i | length <= i < need {
          backing[i] := 0;
        }
      } else {
        var c: nat := *;
        var grown := new byte[if c < need then need else c];
        forall i | 0 <= i < length {
          grown[i] := backing[i];
        }
        forall i | length <= i < need {
          grown[i] := 0;
        }
        backing := grown;
      }
      length := need;
    }

    /** Buffer[:newPages pages] within the recorded capacity. */
    method Reslice(newPages: nat)
      requires Valid() && Pages() <= newPages <= capPages && newPages <= max
      modifies `length
      ensures Valid() && Pages() == newPages
      ensures Contents() == old(Contents()) + seq((newPages - old(Pages())) * PAGE, _ => 0)
    {
      ghost var zeros := backing[length..capPages * PAGE];
      ghost var more := (newPages - Pages()) * PAGE;
      assert zeros[..more] == seq(more, _ => 0);
      assert backing[..length + more] == backing[..length] + zeros[..more];
      assert backing[length + more..capPages * PAGE] == zeros[more..];
      length := newPages * PAGE;
    }

    /** append beyond the recorded capacity, which becomes the new size. */
    method AppendPages(delta: nat)
      requires Valid() && capPages < Pages() + delta <= max
      modifies this, backing
      ensures Valid() && (backing == old(backing) || fresh(backing)) && Pages() == old(Pages()) + delta
      ensures Contents() == old(Contents()) + seq(delta * PAGE, _ => 0)
    {
      var newPages := Pages() + delta;
      AppendZeros(delta * PAGE);
      capPages := newPages;
    }

    /** Grow: a failed call changes nothing, a successful one appends zero pages. The sum of pages is
        a uint32; the calls that succeed are those whose sum, without wrap-around, is within the maximum. */
    method Grow(delta: nat) returns (result: nat, ok: bool)
      requires Valid() && delta < TWO_TO_THE_32
      modifies this, backing
      ensures Valid() && (backing == old(backing) || fresh(backing))
      ensures ok <==> delta == 0 || old(Pages()) + delta <= max
      ensures result == if ok then old(Pages()) else 0
      ensures Contents() == if ok then old(Contents()) + seq(delta * PAGE, _ => 0) else old(Contents())
      ensures old(Pages()) <= Pages() <= max
    {
      var currentPages := Pages();
      if delta == 0 {
        return currentPages, true;
      }
      var newPages := (currentPages + delta) % TWO_TO_THE_32;
      PageSum(currentPages, delta, max);
      if newPages > max || delta >= TWO_TO_THE_32 / 2 {
        return 0, false;
      } else if newPages > capPages {
        AppendPages(delta);
      } else {
        Reslice(newPages);
      }
      return currentPages, true;
    }

    /** A write of bytes within the memory, as the writers do after hasSize. */
    method Write(offset: nat, bs: seq<byte>) returns (ok: bool)
      requires Valid()
      modifies backing
      ensures Valid() && ok == (offset + |bs| <= length)
      ensures Contents() == if ok then old(Contents())[..offset] + bs + old(Contents())[offset + |bs|..]
                            else old(Contents())
    {
      if offset + |bs| > length {
        return false;
      }
      forall i | 0 <= i < |bs| {
        backing[offset + i] := bs[i];
      }
      assert backing[length..capPages * PAGE] == old(backing[length..capPages * PAGE]);
      return true;
    }
  }
}
