/**
 How args and environ are laid out in guest memory: the size that is computed when the values are
 configured (internal/sys/sys.go) and the writer that relies on it
 (imports/wasi_snapshot_preview1/wasi.go).
 */
module ArgsLayout {
  import opened Bytes
  import opened GuestMemory

  /** How the writer ends. */
  datatype Outcome = Ok | EFAULT | Panicked

  datatype SizeResult = Size(size: nat) | TooMany | HasNul | TooLarge

  predicate NoNul(v: seq<byte>) {
    forall i :: 0 <= i < |v| ==> v[i] != 0
  }

  predicate NoNuls(values: seq<seq<byte>>) {
    forall i :: 0 <= i < |values| ==> NoNul(values[i])
  }

  /** Where value `i` starts: each value before it takes its bytes and a NUL. */
  function Start(values: seq<seq<byte>>, i: nat): nat
    requires i <= |values|
  {
    if i == 0 then 0 else Start(values, i - 1) + |values[i - 1]| + 1
  }

  function TotalSize(values: seq<seq<byte>>): nat {
    Start(values, |values|)
  }

  lemma {:induction false} StartGrows(values: seq<seq<byte>>, i: nat, j: nat)
    requires i <= j <= |values|
    ensures Start(values, i) + (j - i) <= Start(values, j)
    decreases j
  {
    if i < j {
      StartGrows(values, i, j - 1);
    }
  }

  /** nullTerminatedByteCount: the size of all values with their NULs, if it is within the maximum
      and no value has a NUL itself. */
  method NullTerminatedByteCount(max: nat, elements: seq<seq<byte>>) returns (r: SizeResult)
    requires max < TWO_TO_THE_32 && |elements| < TWO_TO_THE_32
    ensures r.Size? <==> TotalSize(elements) <= max && NoNuls(elements)
    ensures r.Size? ==> r.size == TotalSize(elements)
  {
    var count := |elements|;
    if count > max {
      StartGrows(elements, 0, count);
      return TooMany;
    }
    var bufSize := count;
    var i := 0;
    while i < |elements|
      invariant 0 <= i <= |elements| && NoNuls(elements[..i])
      invariant bufSize == Start(elements, i) + (|elements| - i) <= max
    {
      var e := elements[i];
      var j := 0;
      while j < |e|
        invariant 0 <= j <= |e| && NoNul(e[..j])
      {
        if e[j] == 0 {
          return HasNul;
        }
        j := j + 1;
      }
      assert e[..|e|] == e && elements[..i + 1] == elements[..i] + [e];
      StartGrows(elements, i + 1, |elements|);
      var nextSize := bufSize + |e|;
      if nextSize > max {
        return TooLarge;
      }
      bufSize := nextSize;
      i := i + 1;
    }
    return Size(bufSize);
  }

  // Writing

  /** The memory after the offsets and values have been written one after the other. */
  function Laid(s: seq<byte>, values: seq<seq<byte>>, offsets: nat, bytes: nat): (r: seq<byte>)
    requires offsets + 4 * |values| <= |s| && bytes + TotalSize(values) <= |s|
    ensures |r| == |s|
    decreases |values|
  {
    if values == [] then s
    else
      TailSize(values);
      var v := values[0];
      Laid(FirstLaid(s, v, offsets, bytes), values[1..], offsets + 4, bytes + |v| + 1)
  }

  lemma {:induction false} TailStart(values: seq<seq<byte>>, i: nat)
    requires 0 < i <= |values|
    ensures Start(values, i) == |values[0]| + 1 + Start(values[1..], i - 1)
  {
    if i > 1 {
      TailStart(values, i - 1);
    }
  }

  lemma TailSize(values: seq<seq<byte>>)
    requires values != []
    ensures TotalSize(values) == |values[0]| + 1 + TotalSize(values[1..])
  {
    TailStart(values, |values|);
  }

  /** The regions lie in memory. */
  predicate Fits(s: seq<byte>, values: seq<seq<byte>>, offsets: nat, bytes: nat) {
    offsets + 4 * |values| <= |s| && bytes + TotalSize(values) <= |s|
  }

  /** Writing the values takes `s` to `m`. */
  ghost predicate Becomes(s: seq<byte>, values: seq<seq<byte>>, offsets: nat, bytes: nat, m: seq<byte>) {
    Fits(s, values, offsets, bytes) && m == Laid(s, values, offsets, bytes)
  }

  /** The memory after the first value. */
  function FirstLaid(s: seq<byte>, v: seq<byte>, o: nat, b: nat): (r: seq<byte>)
    requires o + 4 <= |s| && b + |v| + 1 <= |s|
    ensures |r| == |s|
  {
    Overwritten(Overwritten(s, o, ToLE(b, U32_SIZE)), b, v + [0])
  }

  lemma BecomesRest(s: seq<byte>, values: seq<seq<byte>>, o: nat, b: nat, m: seq<byte>)
    requires Becomes(s, values, o, b, m) && values != []
    ensures TotalSize(values) == |values[0]| + 1 + TotalSize(values[1..])
    ensures Becomes(FirstLaid(s, values[0], o, b), values[1..], o + 4, b + |values[0]| + 1, m)
  {
    TailSize(values);
  }

  /** The arguments of the writer are uint32, and so are the sizes of its regions. */
  predicate Uint32s(length: nat, values: seq<seq<byte>>, offsets: nat, bytes: nat) {
    && length <= TWO_TO_THE_32 && offsets < TWO_TO_THE_32 && bytes < TWO_TO_THE_32
    && 4 * |values| < TWO_TO_THE_32 && TotalSize(values) < TWO_TO_THE_32
  }

  /** writeOffsetsAndNullTerminatedValues, with the size that was computed for the values. It panics
      exactly where it should write a region that ends at 2^32. */
  method WriteOffsetsAndNullTerminatedValues(mem: array<byte>, values: seq<seq<byte>>,
                                             offsets: nat, bytes: nat, bytesLen: nat)
      returns (r: Outcome)
    requires bytesLen == TotalSize(values) && Uint32s(mem.Length, values, offsets, bytes)
    modifies mem
    ensures r == Panicked <==> EndWraps(mem.Length, offsets, 4 * |values|) ||
                               (EndWraps(mem.Length, bytes, bytesLen) && offsets + 4 * |values| <= mem.Length)
    ensures r == EFAULT <==> offsets + 4 * |values| > mem.Length ||
                             (bytes + bytesLen > mem.Length && !EndWraps(mem.Length, offsets, 4 * |values|))
    ensures r != Ok ==> mem[..] == old(mem[..])
    ensures r == Ok ==> Becomes(old(mem[..]), values, offsets, bytes, mem[..])
  {
    var offsetsLen := |values| * 4;
    ReadExact(mem.Length, offsets, offsetsLen);
    var offsetsBuf := Read(mem.Length, offsets, offsetsLen);
    if !offsetsBuf.View? {
      return if offsetsBuf.OutOfRange? then EFAULT else Panicked;
    }
    ReadExact(mem.Length, bytes, bytesLen);
    var bytesBuf := Read(mem.Length, bytes, bytesLen);
    if !bytesBuf.View? {
      return if bytesBuf.OutOfRange? then EFAULT else Panicked;
    }
    WriteValues(mem, values, offsetsBuf.lo, bytesBuf.lo);
    return Ok;
  }

  /** Its loop. */
  method WriteValues(mem: array<byte>, values: seq<seq<byte>>, offsets: nat, bytes: nat)
    requires Fits(mem[..], values, offsets, bytes)
    modifies mem
    ensures Becomes(old(mem[..]), values, offsets, bytes, mem[..])
  {
    ghost var done := Laid(mem[..], values, offsets, bytes);
    var oI, bI := 0, 0;
    var i := 0;
    while i < |values|
      invariant 0 <= i <= |values| && oI == 4 * i && bI >= 0
      invariant Becomes(mem[..], values[i..], offsets + oI, bytes + bI, done)
    {
      var value := values[i];
      assert values[i..][0] == value && values[i..][1..] == values[i + 1..];
      WriteNext(mem, offsets + oI, bytes + bI, value, values[i..], done);
      oI := oI + 4;
      bI := bI + |value| + 1;
      i := i + 1;
    }
  }

  /** The first of the values that are left. */
  method WriteNext(mem: array<byte>, o: nat, b: nat, value: seq<byte>, ghost rest: seq<seq<byte>>,
                   ghost done: seq<byte>)
    requires rest != [] && value == rest[0] && Becomes(mem[..], rest, o, b, done)
    modifies mem
    ensures Becomes(mem[..], rest[1..], o + 4, b + |value| + 1, done)
  {
    BecomesRest(mem[..], rest, o, b, done);
    WriteValue(mem, o, b, value);
  }

  /** One offset, and the value with its NUL. */
  method WriteValue(mem: array<byte>, o: nat, b: nat, value: seq<byte>)
    requires o + 4 <= mem.Length && b + |value| + 1 <= mem.Length
    modifies mem
    ensures mem[..] == FirstLaid(old(mem[..]), value, o, b)
  {
    WriteAt(mem, o, ToLE(b, U32_SIZE));
    ghost var s := mem[..];
    WriteAt(mem, b, value);
    WriteAt(mem, b + |value|, [0]);
    OverwrittenTwice(s, b, value, [0]);
  }

  // What it means for the guest

  predicate Apart(lo: nat, hi: nat, lo': nat, hi': nat) {
    hi <= lo' || hi' <= lo
  }

  lemma FirstOutside(s: seq<byte>, v: seq<byte>, o: nat, b: nat, lo: nat, hi: nat)
    requires o + 4 <= |s| && b + |v| + 1 <= |s| && lo <= hi <= |s|
    requires Apart(lo, hi, o, o + 4) && Apart(lo, hi, b, b + |v| + 1)
    ensures FirstLaid(s, v, o, b)[lo..hi] == s[lo..hi]
  {
    OutsideWritten(s, o, ToLE(b, U32_SIZE), lo, hi);
    OutsideWritten(Overwritten(s, o, ToLE(b, U32_SIZE)), b, v + [0], lo, hi);
  }

  lemma FirstInside(s: seq<byte>, v: seq<byte>, o: nat, b: nat)
    requires o + 4 <= |s| <= TWO_TO_THE_32 && b + |v| + 1 <= |s| && Apart(o, o + 4, b, b + |v| + 1)
    ensures FromLE(FirstLaid(s, v, o, b)[o..o + 4]) == b && FirstLaid(s, v, o, b)[b..b + |v| + 1] == v + [0]
  {
    var le := ToLE(b, U32_SIZE);
    InsideWritten(s, o, le);
    InsideWritten(Overwritten(s, o, le), b, v + [0]);
    OutsideWritten(Overwritten(s, o, le), b, v + [0], o, o + 4);
    Pow256Values();
    LERoundTrip(b, U32_SIZE);
  }

  /** Nothing outside the two regions changes, whether or not they overlap. */
  lemma {:induction false} LaidOutside(s: seq<byte>, values: seq<seq<byte>>, offsets: nat, bytes: nat, m: seq<byte>,
                                       lo: nat, hi: nat)
    requires Becomes(s, values, offsets, bytes, m) && lo <= hi <= |s|
    requires Apart(lo, hi, offsets, offsets + 4 * |values|) && Apart(lo, hi, bytes, bytes + TotalSize(values))
    ensures |m| == |s| && m[lo..hi] == s[lo..hi]
    decreases |values|
  {
    if values != [] {
      BecomesRest(s, values, offsets, bytes, m);
      FirstOutside(s, values[0], offsets, bytes, lo, hi);
      var s2 := FirstLaid(s, values[0], offsets, bytes);
      LaidOutside(s2, values[1..], offsets + 4, bytes + |values[0]| + 1, m, lo, hi);
    }
  }

  /** Value `i` can be read back: its offset, and at that offset the value and a NUL. */
  ghost predicate ReadsBack(m: seq<byte>, v: seq<byte>, o: nat, p: nat) {
    && o + 4 <= |m| && p + |v| + 1 <= |m|
    && FromLE(m[o..o + 4]) == p && m[p..p + |v| + 1] == v + [0]
  }

  lemma FirstReadsBack(s: seq<byte>, values: seq<seq<byte>>, offsets: nat, bytes: nat, m: seq<byte>)
    requires values != [] && |s| <= TWO_TO_THE_32 && Becomes(s, values, offsets, bytes, m)
    requires Apart(offsets, offsets + 4 * |values|, bytes, bytes + TotalSize(values))
    ensures ReadsBack(m, values[0], offsets, bytes)
  {
    var v := values[0];
    var s2 := FirstLaid(s, v, offsets, bytes);
    BecomesRest(s, values, offsets, bytes, m);
    FirstInside(s, v, offsets, bytes);
    LaidOutside(s2, values[1..], offsets + 4, bytes + |v| + 1, m, offsets, offsets + 4);
    LaidOutside(s2, values[1..], offsets + 4, bytes + |v| + 1, m, bytes, bytes + |v| + 1);
  }

  /** The memory that the values after the first are written to. */
  lemma RestLaid(s: seq<byte>, values: seq<seq<byte>>, offsets: nat, bytes: nat, m: seq<byte>)
      returns (s2: seq<byte>)
    requires values != [] && Becomes(s, values, offsets, bytes, m)
    ensures |s2| == |s| && TotalSize(values) == |values[0]| + 1 + TotalSize(values[1..])
    ensures Becomes(s2, values[1..], offsets + 4, bytes + |values[0]| + 1, m)
  {
    BecomesRest(s, values, offsets, bytes, m);
    s2 := FirstLaid(s, values[0], offsets, bytes);
  }

  /** With the two regions apart, every value can be read back. */
  lemma {:induction false} LaidReadsBack(s: seq<byte>, values: seq<seq<byte>>, offsets: nat, bytes: nat,
                                         m: seq<byte>, i: nat)
    requires i < |values| && |s| <= TWO_TO_THE_32 && Becomes(s, values, offsets, bytes, m)
    requires Apart(offsets, offsets + 4 * |values|, bytes, bytes + TotalSize(values))
    ensures ReadsBack(m, values[i], offsets + 4 * i, bytes + Start(values, i))
    decreases i
  {
    if i == 0 {
      FirstReadsBack(s, values, offsets, bytes, m);
    } else {
      var s2 := RestLaid(s, values, offsets, bytes, m);
      TailStart(values, i);
      LaidReadsBack(s2, values[1..], offsets + 4, bytes + |values[0]| + 1, m, i - 1);
    }
  }

  /** The bytes from `p` up to the next NUL. */
  function CString(m: seq<byte>, p: nat): seq<byte>
    decreases |m| - p
  {
    if p >= |m| || m[p] == 0 then [] else [m[p]] + CString(m, p + 1)
  }

  lemma {:induction false} CStringIs(m: seq<byte>, p: nat, v: seq<byte>)
    requires NoNul(v) && p + |v| + 1 <= |m| && m[p..p + |v| + 1] == v + [0]
    ensures CString(m, p) == v
    decreases |v|
  {
    assert m[p] == (v + [0])[0];
    if v != [] {
      assert m[p + 1..p + 1 + |v[1..]| + 1] == (v + [0])[1..] == v[1..] + [0];
      CStringIs(m, p + 1, v[1..]);
    }
  }

  /** Following offset `i` to the next NUL yields value `i`. */
  lemma LayoutRoundTrip(s: seq<byte>, values: seq<seq<byte>>, offsets: nat, bytes: nat, m: seq<byte>, i: nat)
    requires i < |values| && |s| <= TWO_TO_THE_32 && NoNuls(values) && Becomes(s, values, offsets, bytes, m)
    requires Apart(offsets, offsets + 4 * |values|, bytes, bytes + TotalSize(values))
    ensures CString(m, FromLE(m[offsets + 4 * i..offsets + 4 * i + 4])) == values[i]
  {
    LaidReadsBack(s, values, offsets, bytes, m, i);
    CStringIs(m, bytes + Start(values, i), values[i]);
  }
}
