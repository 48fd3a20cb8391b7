/**
 A guest's linear memory as host functions use it (internal/wasm/memory.go): the view that Read
 gives, and writes and what they leave where they are.
 */
module GuestMemory {
  import opened Bytes

  /** The slice of memory that Read returns, no slice, or the panic of slicing out of bounds. */
  datatype View = View(lo: nat, hi: nat) | OutOfRange | SlicePanic

  /** MemoryInstance.Read: hasSize adds in 64 bits, but the end of the slice is a uint32. */
  function Read(length: nat, offset: nat, byteCount: nat): View {
    if offset + byteCount > length then OutOfRange
    else
      var end := (offset + byteCount) % TWO_TO_THE_32;
      if offset <= end then View(offset, end) else SlicePanic
  }

  /** A memory of 65536 pages, and a region that ends with it. */
  predicate EndWraps(length: nat, offset: nat, byteCount: nat) {
    offset + byteCount == TWO_TO_THE_32 == length
  }

  /** Read gives the region that is asked for whenever it lies in memory, except when its end wraps
      around. */
  lemma ReadExact(length: nat, offset: nat, byteCount: nat)
    requires length <= TWO_TO_THE_32 && offset < TWO_TO_THE_32 && byteCount < TWO_TO_THE_32
    ensures Read(length, offset, byteCount) ==
            if offset + byteCount > length then OutOfRange
            else if EndWraps(length, offset, byteCount) then SlicePanic
            else View(offset, offset + byteCount)
  {
    if offset + byteCount < TWO_TO_THE_32 {
      ModSmall(offset + byteCount, TWO_TO_THE_32);
    }
  }

  /** The last byte of such a memory cannot be read. */
  lemma LastByteUnreadable()
    ensures Read(TWO_TO_THE_32, TWO_TO_THE_32 - 1, 1) == SlicePanic
  {
    ReadExact(TWO_TO_THE_32, TWO_TO_THE_32 - 1, 1);
  }

  /** The memory `s` after `bs` has been written at `off`. */
  function Overwritten(s: seq<byte>, off: nat, bs: seq<byte>): (r: seq<byte>)
    requires off + |bs| <= |s|
    ensures |r| == |s|
  {
    s[..off] + bs + s[off + |bs|..]
  }

  /** `m` is `s` but for `bs` at `off`. */
  ghost predicate Holds(m: seq<byte>, s: seq<byte>, off: nat, bs: seq<byte>) {
    off + |bs| <= |s| && m == Overwritten(s, off, bs)
  }

  lemma OverwrittenNothing(s: seq<byte>, off: nat)
    requires off <= |s|
    ensures Overwritten(s, off, []) == s
  {
  }

  lemma OverwrittenTwice(s: seq<byte>, off: nat, a: seq<byte>, b: seq<byte>)
    requires off + |a| + |b| <= |s|
    ensures Overwritten(Overwritten(s, off, a), off + |a|, b) == Overwritten(s, off, a + b)
  {
    var t := Overwritten(s, off, a);
    assert t[..off + |a|] == s[..off] + a;
    assert t[off + |a| + |b|..] == s[off + |a| + |b|..];
  }

  method WriteAt(mem: array<byte>, off: nat, bs: seq<byte>)
    requires off + |bs| <= mem.Length
    modifies mem
    ensures mem[..] == Overwritten(old(mem[..]), off, bs)
  {
    forall i | 0 <= i < |bs| {
      mem[off + i] := bs[i];
    }
  }

  lemma InsideWritten(s: seq<byte>, off: nat, bs: seq<byte>)
    requires off + |bs| <= |s|
    ensures Overwritten(s, off, bs)[off..off + |bs|] == bs
  {
    var t := s[..off] + bs;
    assert t[off..] == bs;
    assert (t + s[off + |bs|..])[off..off + |bs|] == t[off..];
  }

  lemma OutsideWritten(s: seq<byte>, off: nat, bs: seq<byte>, lo: nat, hi: nat)
    requires off + |bs| <= |s| && lo <= hi <= |s| && (hi <= off || off + |bs| <= lo)
    ensures Overwritten(s, off, bs)[lo..hi] == s[lo..hi]
  {
    var m := Overwritten(s, off, bs);
    forall i | lo <= i < hi ensures m[i] == s[i] {
      if off + |bs| <= i {
        assert m[i] == s[off + |bs|..][i - (off + |bs|)];
      }
    }
  }
}
