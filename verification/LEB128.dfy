/**
 LEB128 (internal/leb128/leb128.go), the variable-length integers of section 5.2.2 of the
 WebAssembly Core Specification 1.0: what a sequence of bytes stands for, and the unsigned
 encoder and decoders.
 */
module LEB128 {
  import opened Bits
  import opened Bytes

  datatype Result = Ok(value: int, bytesRead: nat) | EOF | Overflow

  // What bytes stand for

  /** Every byte but the last has its continuation bit set. */
  predicate Terminated(bs: seq<byte>) {
    |bs| > 0 && bs[|bs| - 1] < 0x80 && forall i :: 0 <= i < |bs| - 1 ==> bs[i] >= 0x80
  }

  /** The length of the terminated sequence at the front of `buf`, or 0 if there is none. */
  function TermLen(buf: seq<byte>): (n: nat)
    ensures n <= |buf| && (n > 0 ==> Terminated(buf[..n]))
    ensures n == 0 ==> forall i :: 0 <= i < |buf| ==> buf[i] >= 0x80
  {
    if buf == [] then 0
    else if buf[0] < 0x80 then 1
    else
      var n := TermLen(buf[1..]);
      if n == 0 then 0
      else
        assert buf[..n + 1] == [buf[0]] + buf[1..][..n];
        n + 1
  }

  lemma {:induction false} TermLenIs(bs: seq<byte>, suffix: seq<byte>)
    requires Terminated(bs)
    ensures TermLen(bs + suffix) == |bs|
    decreases |bs|
  {
    if |bs| > 1 {
      assert (bs + suffix)[1..] == bs[1..] + suffix;
      TermLenIs(bs[1..], suffix);
    }
  }

  /** More bytes behind a terminated sequence do not matter, and neither do those missing behind it. */
  lemma {:induction false} TermLenPrefix(a: seq<byte>, b: seq<byte>)
    requires a <= b
    ensures TermLen(a) > 0 ==> TermLen(b) == TermLen(a)
    ensures 0 < TermLen(b) <= |a| ==> TermLen(a) == TermLen(b)
    decreases |a|
  {
    if a != [] && a[0] >= 0x80 {
      assert a[1..] <= b[1..];
      TermLenPrefix(a[1..], b[1..]);
    }
  }

  function Unsigned(bs: seq<byte>): nat {
    if bs == [] then 0 else bs[0] % 128 + 128 * Unsigned(bs[1..])
  }

  /** The operator << */
  function Shl(c: nat, s: nat): nat
    decreases s
  {
    if s == 0 then c else 2 * Shl(c, s - 1)
  }

  lemma {:induction false} ShlSeven(c: nat, s: nat)
    ensures Shl(c, s + 7) == 128 * Shl(c, s)
  {
    assert Shl(c, s + 7) == 2 * Shl(c, s + 6) == 4 * Shl(c, s + 5) == 8 * Shl(c, s + 4);
    assert Shl(c, s + 4) == 2 * Shl(c, s + 3) == 4 * Shl(c, s + 2) == 8 * Shl(c, s + 1) == 16 * Shl(c, s);
  }

  lemma {:induction false} Pow2Seven(s: nat)
    ensures Pow2(s + 7) == 128 * Pow2(s)
  {
    assert Pow2(s + 7) == 2 * Pow2(s + 6) == 4 * Pow2(s + 5) == 8 * Pow2(s + 4);
    assert Pow2(s + 4) == 2 * Pow2(s + 3) == 4 * Pow2(s + 2) == 8 * Pow2(s + 1) == 16 * Pow2(s);
  }

  lemma {:induction false} UnsignedNext(bs: seq<byte>, b: byte)
    ensures Unsigned(bs + [b]) == Unsigned(bs) + Shl(b % 128, 7 * |bs|)
    decreases |bs|
  {
    if bs == [] {
      assert bs + [b] == [b];
    } else {
      assert (bs + [b])[1..] == bs[1..] + [b];
      UnsignedNext(bs[1..], b);
      ShlSeven(b % 128, 7 * (|bs| - 1));
    }
  }

  lemma {:induction false} UnsignedBounded(bs: seq<byte>)
    ensures Unsigned(bs) < Pow2(7 * |bs|)
  {
    if bs != [] {
      UnsignedBounded(bs[1..]);
      Pow2Seven(7 * (|bs| - 1));
    }
  }

  /** The reading of section 5.2.2: at most `maxLen` bytes, whose value has at most `bits` bits. */
  function UnsignedSpec(bits: nat, maxLen: nat, buf: seq<byte>): (r: Result)
    ensures r.Ok? ==> 0 < r.bytesRead <= |buf| && 0 <= r.value < Pow2(bits)
  {
    var n := TermLen(buf);
    if 0 < n <= maxLen then
      if Unsigned(buf[..n]) < Pow2(bits) then Ok(Unsigned(buf[..n]), n) else Overflow
    else if |buf| < maxLen then EOF else Overflow
  }

  // Encoding

  function EncodeUnsigned(v: nat): (bs: seq<byte>)
    ensures Terminated(bs)
  {
    if v / 128 == 0 then [v % 128] else [v % 128 + 0x80] + EncodeUnsigned(v / 128)
  }

  /** EncodeUint64 */
  method EncodeUint64(value: nat) returns (buf: seq<byte>)
    ensures buf == EncodeUnsigned(value)
  {
    var v := value;
    buf := [];
    while true
      invariant buf + EncodeUnsigned(v) == EncodeUnsigned(value)
      decreases v
    {
      var b: byte := v % 128;
      ghost var before, rest := buf, EncodeUnsigned(v / 128);
      v := v / 128;
      if v != 0 {
        b := b + 0x80;
      }
      buf := buf + [b];
      if b < 0x80 {
        return;
      }
      AppendAssociates(before, [b], rest);
    }
  }

  lemma {:induction false} EncodedValue(v: nat)
    ensures Unsigned(EncodeUnsigned(v)) == v
  {
    if v / 128 == 0 {
      assert EncodeUnsigned(v)[1..] == [];
    } else {
      EncodedValue(v / 128);
      assert EncodeUnsigned(v)[1..] == EncodeUnsigned(v / 128);
    }
  }

  /** No terminated sequence with the same value is shorter. */
  lemma {:induction false} EncodedShortest(v: nat, bs: seq<byte>)
    requires Terminated(bs) && Unsigned(bs) == v
    ensures |EncodeUnsigned(v)| <= |bs|
    decreases bs
  {
    if v / 128 != 0 {
      EncodedShortest(v / 128, bs[1..]);
    }
  }

  lemma {:induction false} EncodedLength(v: nat, n: nat)
    requires n > 0 && v < Pow2(7 * n)
    ensures |EncodeUnsigned(v)| <= n
  {
    Pow2Seven(7 * (n - 1));
    if v / 128 != 0 {
      EncodedLength(v / 128, n - 1);
    }
  }

  lemma {:induction false} Pow2AtMost(a: nat, b: nat)
    requires a <= b
    ensures Pow2(a) <= Pow2(b)
  {
    if a < b {
      Pow2Grows(a, b);
    }
  }

  /** What is encoded is decoded again, whatever follows it. */
  lemma UnsignedRoundTrip(bits: nat, maxLen: nat, v: nat, suffix: seq<byte>)
    requires 0 < maxLen && bits <= 7 * maxLen && v < Pow2(bits)
    ensures UnsignedSpec(bits, maxLen, EncodeUnsigned(v) + suffix) == Ok(v, |EncodeUnsigned(v)|)
  {
    var bs := EncodeUnsigned(v);
    TermLenIs(bs, suffix);
    EncodedValue(v);
    Pow2AtMost(bits, 7 * maxLen);
    EncodedLength(v, maxLen);
    assert (bs + suffix)[..|bs|] == bs;
  }

  // Decoding

  lemma {:induction false} OrDisjoint(a: nat, c: nat, s: nat)
    requires a < Pow2(s)
    ensures Or(a, Shl(c, s)) == a + Shl(c, s)
    decreases s
  {
    if s == 0 {
      OrZero(c);
    } else {
      OrDisjoint(a / 2, c, s - 1);
    }
  }

  lemma {:induction false} OrZero(b: nat)
    ensures Or(0, b) == b
  {
    if b > 0 {
      OrZero(b / 2);
    }
  }

  /** The last group decides whether a value has at most `bits` bits. */
  lemma {:induction false} LastGroupDecides(bs: seq<byte>, bits: nat)
    requires bs != [] && 7 * (|bs| - 1) <= bits
    ensures Unsigned(bs) < Pow2(bits) <==> bs[|bs| - 1] % 128 < Pow2(bits - 7 * (|bs| - 1))
    decreases |bs|
  {
    if |bs| > 1 {
      LastGroupDecides(bs[1..], bits - 7);
      Pow2Seven(bits - 7);
    }
  }

  /** decodeUint32 for 32 bits and 5 bytes, LoadUint64 for 64 bits and 10 bytes. The bits of the
      last byte that do not belong to the value must be zero. */
  method LoadUnsigned(bits: nat, maxLen: nat, buf: seq<byte>) returns (r: Result)
    requires 0 < maxLen && 7 * (maxLen - 1) < bits <= 7 * maxLen
    ensures r == UnsignedSpec(bits, maxLen, buf)
  {
    var ret, s := 0, 0;
    var i := 0;
    while i < maxLen
      invariant 0 <= i <= maxLen && i <= |buf| && s == 7 * i
      invariant forall j :: 0 <= j < i ==> buf[j] >= 0x80
      invariant ret == Unsigned(buf[..i])
    {
      if i >= |buf| {
        return EOF;
      }
      var b := buf[i];
      if b < 0x80 {
        FoundLast(bits, maxLen, buf, i);
        if i == maxLen - 1 && b >= Pow2(bits - s) {
          return Overflow;
        }
        return Ok(Or(ret, Shl(b, s)), i + 1);
      }
      NextGroup(buf, i);
      ret := Or(ret, Shl(b % 128, s));
      s := s + 7;
      i := i + 1;
    }
    return Overflow;
  }

  /** Taking in one byte more. */
  lemma NextGroup(buf: seq<byte>, i: nat)
    requires i < |buf|
    ensures Or(Unsigned(buf[..i]), Shl(buf[i] % 128, 7 * i)) == Unsigned(buf[..i + 1])
  {
    assert buf[..i + 1] == buf[..i] + [buf[i]];
    UnsignedNext(buf[..i], buf[i]);
    UnsignedBounded(buf[..i]);
    OrDisjoint(Unsigned(buf[..i]), buf[i] % 128, 7 * i);
  }

  lemma SmallGroup(n: nat, b: byte)
    requires n >= 7 && b < 0x80
    ensures b < Pow2(n)
  {
    Pow2Seven(0);
    Pow2AtMost(7, n);
  }

  /** The first byte without a continuation bit, at `i`. */
  lemma FoundLast(bits: nat, maxLen: nat, buf: seq<byte>, i: nat)
    requires i < maxLen && i < |buf| && 7 * (maxLen - 1) < bits <= 7 * maxLen
    requires buf[i] < 0x80 && forall j :: 0 <= j < i ==> buf[j] >= 0x80
    ensures UnsignedSpec(bits, maxLen, buf) ==
            if i == maxLen - 1 && buf[i] >= Pow2(bits - 7 * i) then Overflow
            else Ok(Or(Unsigned(buf[..i]), Shl(buf[i], 7 * i)), i + 1)
  {
    assert buf[i] % 128 == buf[i];
    NextGroup(buf, i);
    TermLenIs(buf[..i + 1], buf[i + 1..]);
    assert buf[..i + 1] + buf[i + 1..] == buf;
    LastGroupDecides(buf[..i + 1], bits);
    if i < maxLen - 1 {
      SmallGroup(bits - 7 * i, buf[i]);
    }
  }
}
