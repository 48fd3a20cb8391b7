/**
 Signed LEB128 (internal/leb128/leb128.go): the encoder, the decoders for 32, 33 and 64 bits, and
 where the decoders differ from section 5.2.2 of the WebAssembly Core Specification 1.0.
 */
module LEB128Signed {
  import opened Bits
  import opened Bytes
  import opened LEB128

  /** The value of a terminated sequence; bit 6 of the last byte is the sign. */
  function Signed(bs: seq<byte>): int
    requires bs != []
  {
    var p: int := bs[0] % 128;
    if |bs| > 1 then p + 128 * Signed(bs[1..]) else if p >= 64 then p - 128 else p
  }

  predicate InRange(bits: nat, v: int)
    requires bits > 0
  {
    0 <= v + Pow2(bits - 1) < Pow2(bits)
  }

  /** The reading of section 5.2.2: at most `maxLen` bytes, whose value is in range. */
  function SignedSpec(bits: nat, maxLen: nat, buf: seq<byte>): Result
    requires bits > 0
  {
    var n := TermLen(buf);
    if n == 0 then EOF
    else if n <= maxLen && InRange(bits, Signed(buf[..n])) then Ok(Signed(buf[..n]), n)
    else Overflow
  }

  // Encoding

  function EncodeSigned(v: int): (bs: seq<byte>)
    ensures Terminated(bs)
    decreases if v >= 0 then v else -v
  {
    if More(v % 128, v / 128) then [v % 128 + 0x80] + EncodeSigned(v / 128) else [v % 128]
  }

  /** Whether the group `b` and its bit 6 do not say all about the rest of the value. */
  predicate More(b: byte, rest: int) {
    (rest != -1 || b < 64) && (rest != 0 || b >= 64)
  }

  /** EncodeInt64 */
  method EncodeInt64(value: int) returns (buf: seq<byte>)
    ensures buf == EncodeSigned(value)
  {
    var v := value;
    buf := [];
    while true
      invariant buf + EncodeSigned(v) == EncodeSigned(value)
      decreases if v >= 0 then v else -v
    {
      var b: byte := v % 128;
      ghost var before, rest := buf, EncodeSigned(v / 128);
      v := v / 128;
      if More(b, v) {
        b := b + 0x80;
      }
      buf := buf + [b];
      if b < 0x80 {
        return;
      }
      AppendAssociates(before, [b], rest);
    }
  }

  lemma {:induction false} EncodedValue(v: int)
    ensures Signed(EncodeSigned(v)) == v
    decreases if v >= 0 then v else -v
  {
    if |EncodeSigned(v)| > 1 {
      EncodedValue(v / 128);
      assert EncodeSigned(v)[1..] == EncodeSigned(v / 128);
    }
  }

  /** No terminated sequence with the same value is shorter. */
  lemma {:induction false} EncodedShortest(v: int, bs: seq<byte>)
    requires Terminated(bs) && Signed(bs) == v
    ensures |EncodeSigned(v)| <= |bs|
    decreases |bs|
  {
    if |bs| > 1 && |EncodeSigned(v)| > 1 {
      EncodedShortest(v / 128, bs[1..]);
    }
  }

  lemma {:induction false} EncodedLength(v: int, n: nat)
    requires n > 0 && InRange(7 * n, v)
    ensures |EncodeSigned(v)| <= n
    decreases n
  {
    if n == 1 {
      assert Pow2(6) == 64;
    } else {
      Pow2Seven(7 * (n - 1) - 1);
      if |EncodeSigned(v)| > 1 {
        EncodedLength(v / 128, n - 1);
      }
    }
  }

  /** What is encoded is read again, whatever follows it. */
  lemma SignedRoundTrip(bits: nat, maxLen: nat, v: int, suffix: seq<byte>)
    requires 0 < maxLen && 0 < bits <= 7 * maxLen && InRange(bits, v)
    ensures SignedSpec(bits, maxLen, EncodeSigned(v) + suffix) == Ok(v, |EncodeSigned(v)|)
  {
    var bs := EncodeSigned(v);
    TermLenIs(bs, suffix);
    EncodedValue(v);
    Pow2AtMost(bits - 1, 7 * maxLen - 1);
    EncodedLength(v, maxLen);
    assert (bs + suffix)[..|bs|] == bs;
  }

  // Signed values and shifted groups

  lemma {:induction false} SignedIs(bs: seq<byte>)
    requires bs != []
    ensures Signed(bs) == Unsigned(bs) - if bs[|bs| - 1] % 128 >= 64 then Pow2(7 * |bs|) else 0
  {
    if |bs| > 1 {
      SignedIs(bs[1..]);
    }
    Pow2Seven(7 * (|bs| - 1));
  }

  /** Bit 6 of the last byte is the highest bit of the value. */
  lemma {:induction false} TopBit(bs: seq<byte>)
    requires bs != []
    ensures Unsigned(bs) >= Pow2(7 * |bs| - 1) <==> bs[|bs| - 1] % 128 >= 64
  {
    if |bs| == 1 {
      assert Pow2(6) == 64;
    } else {
      TopBit(bs[1..]);
      Pow2Seven(7 * (|bs| - 1) - 1);
    }
  }

  lemma {:induction false} ShlAdd(a: nat, b: nat, s: nat)
    ensures Shl(a + b, s) == Shl(a, s) + Shl(b, s)
    decreases s
  {
    if s > 0 {
      ShlAdd(a, b, s - 1);
    }
  }

  lemma {:induction false} ShlPow2(k: nat, s: nat)
    ensures Shl(Pow2(k), s) == Pow2(k + s)
    decreases s
  {
    if s > 0 {
      ShlPow2(k, s - 1);
    }
  }

  /** The operator << on words of `bits` bits, which lose what is shifted out. */
  function ShlWord(bits: nat, c: nat, s: nat): nat {
    if s >= bits then 0 else Shl(c % Pow2(bits - s), s)
  }

  // Decoding

  /** How many bits of the last of `maxLen` bytes belong to the value. */
  function LastBits(bits: nat, maxLen: nat): int {
    bits - 7 * (maxLen - 1)
  }

  /** The formats of the decoders: 4 such bits for 32 in 5 bytes, 5 for 33 in 5, 1 for 64 in 10. */
  predicate Format(bits: nat, maxLen: nat) {
    maxLen > 0 && LastBits(bits, maxLen) in {1, 4, 5}
  }

  /** A last byte with bit 6 set as bit 5 is. */
  function WithSign(b: byte): byte {
    if b % 64 >= 32 then b % 64 + 64 else b % 64
  }

  function Repaired(bs: seq<byte>): (r: seq<byte>)
    requires bs != []
    ensures |r| == |bs|
  {
    bs[..|bs| - 1] + [WithSign(bs[|bs| - 1])]
  }

  /** What the decoders return: the reading of the specification, but bit 6 of a last byte at the
      maximal length is ignored and bit 5 stands for it. */
  function Decoded(bits: nat, maxLen: nat, buf: seq<byte>): (r: Result)
    requires Format(bits, maxLen)
    ensures r.Ok? ==> 0 < r.bytesRead <= |buf| && InRange(bits, r.value)
  {
    var n := TermLen(buf);
    if n == 0 then EOF
    else if n > maxLen then Overflow
    else
      var bs := if n == maxLen then Repaired(buf[..n]) else buf[..n];
      if InRange(bits, Signed(bs)) then Ok(Signed(bs), n) else Overflow
  }

  /** A word of `bits` bits as a signed number. */
  function Sign(bits: nat, r: nat): int
    requires bits > 0
  {
    if r >= Pow2(bits - 1) then r - Pow2(bits) else r
  }

  /** The sign extension of a value that ends before the last bits. */
  function Extended(bits: nat, shift: nat, r: nat, b: byte): nat
  {
    if shift < bits && b % 128 >= 64 then
      Pow2AtMost(shift, bits);
      Or(r, Pow2(bits) - Pow2(shift))
    else r
  }

  /** ^0 << shift, put in front of a value below it. */
  lemma OrOnes(bits: nat, shift: nat, r: nat)
    requires shift < bits && r < Pow2(shift)
    ensures Pow2(shift) <= Pow2(bits) && Or(r, Pow2(bits) - Pow2(shift)) == r + Pow2(bits) - Pow2(shift)
  {
    Pow2AtMost(shift, bits);
    var c := Pow2(bits - shift) - 1;
    ShlPow2(bits - shift, shift);
    ShlPow2(0, shift);
    ShlAdd(c, 1, shift);
    OrDisjoint(r, c, shift);
  }

  lemma ShortDecodes(bits: nat, bs: seq<byte>)
    requires bs != [] && 7 * |bs| < bits
    ensures Sign(bits, Extended(bits, 7 * |bs|, Unsigned(bs), bs[|bs| - 1])) == Signed(bs)
    ensures InRange(bits, Signed(bs))
  {
    UnsignedBounded(bs);
    SignedIs(bs);
    TopBit(bs);
    Pow2AtMost(7 * |bs|, bits - 1);
    OrOnes(bits, 7 * |bs|, Unsigned(bs));
  }

  /** The overflow checks on the last byte of a sequence of maximal length: the bits from `u` up
      to 5 repeat the sign. */
  predicate Passes(u: nat, b: byte, negative: bool)
    requires u == 4 || u == 5 || u == 1
  {
    if u == 4 then b % 64 / 16 == if negative then 3 else 0
    else if u == 5 then b % 64 / 32 == if negative then 1 else 0
    else b % 64 / 2 == if negative then 31 else 0
  }

  lemma ShlMonotone(a: nat, b: nat, s: nat)
    requires a <= b
    ensures Shl(a, s) <= Shl(b, s)
  {
    ShlAdd(a, b - a, s);
  }

  /** The value that the last byte contributes when bit 5 is taken for the sign. */
  function Contribution(b: byte): int {
    SixBits(b % 64)
  }

  function SixBits(q: int): int {
    if q >= 32 then q - 64 else q
  }

  lemma Checks4(p: nat)
    requires p < 128
    ensures Passes(4, p, p % 16 >= 8) <==> -8 <= Contribution(p) < 8
    ensures -8 <= Contribution(p) < 8 ==>
              p % 16 == if Contribution(p) < 0 then Contribution(p) + 16 else Contribution(p)
  {
    var q := p % 64;
    LowFour(4 * (p / 64) + q / 16, q % 16);
    Fits4(q, q / 16, q % 16);
  }

  lemma LowFour(m: nat, d: nat)
    requires d < 16
    ensures (16 * m + d) % 16 == d
  {
  }

  lemma Fits4(q: int, c: int, d: int)
    requires 0 <= q < 64 && q == 16 * c + d && 0 <= d < 16
    ensures c == (if d >= 8 then 3 else 0) <==> -8 <= SixBits(q) < 8
    ensures -8 <= SixBits(q) < 8 ==> d == if SixBits(q) < 0 then SixBits(q) + 16 else SixBits(q)
  {
  }

  lemma Checks5(p: nat)
    requires p < 128
    ensures Passes(5, p, p % 32 >= 16) <==> -16 <= Contribution(p) < 16
    ensures -16 <= Contribution(p) < 16 ==>
              p % 32 == if Contribution(p) < 0 then Contribution(p) + 32 else Contribution(p)
  {
    var q := p % 64;
    LowFive(2 * (p / 64) + q / 32, q % 32);
    Fits5(q, q / 32, q % 32);
  }

  lemma LowFive(m: nat, d: nat)
    requires d < 32
    ensures (32 * m + d) % 32 == d
  {
  }

  lemma Fits5(q: int, c: int, d: int)
    requires 0 <= q < 64 && q == 32 * c + d && 0 <= d < 32
    ensures c == (if d >= 16 then 1 else 0) <==> -16 <= SixBits(q) < 16
    ensures -16 <= SixBits(q) < 16 ==> d == if SixBits(q) < 0 then SixBits(q) + 32 else SixBits(q)
  {
  }

  lemma Checks1(p: nat)
    requires p < 128
    ensures Passes(1, p, p % 2 >= 1) <==> -1 <= Contribution(p) < 1
    ensures -1 <= Contribution(p) < 1 ==> p % 2 == if Contribution(p) < 0 then Contribution(p) + 2 else Contribution(p)
  {
    var q := p % 64;
    LowOne(32 * (p / 64) + q / 2, q % 2);
    Fits1(q, q / 2, q % 2);
  }

  lemma LowOne(m: nat, d: nat)
    requires d < 2
    ensures (2 * m + d) % 2 == d
  {
  }

  lemma Fits1(q: int, c: int, d: int)
    requires 0 <= q < 64 && q == 2 * c + d && 0 <= d < 2
    ensures c == (if d >= 1 then 31 else 0) <==> -1 <= SixBits(q) < 1
    ensures -1 <= SixBits(q) < 1 ==> d == if SixBits(q) < 0 then SixBits(q) + 2 else SixBits(q)
  {
  }

  /** The checks pass just when the contribution fits the bits of the last byte, and then those
      bits are the contribution. */
  lemma ChecksFit(p: nat, u: nat, h: int, l: nat)
    requires p < 128 && (u == 4 || u == 5 || u == 1) && h == Pow2(u - 1) && l == p % Pow2(u)
    ensures Passes(u, p, l >= h) <==> -h <= Contribution(p) < h
    ensures -h <= Contribution(p) < h ==> l == if Contribution(p) < 0 then Contribution(p) + 2 * h else Contribution(p)
  {
    assert Pow2(0) == 1 && Pow2(1) == 2 && Pow2(3) == 8 && Pow2(4) == 16 && Pow2(5) == 32;
    Checks1(p);
    Checks4(p);
    Checks5(p);
  }

  lemma GroupBelow(front: nat, a: nat, b: nat, s: nat)
    requires front < Pow2(s)
    ensures front + Shl(a, s) < Shl(b, s) <==> a < b
  {
    ShlPow2(0, s);
    ShlAdd(a, 1, s);
    if a < b {
      ShlMonotone(a + 1, b, s);
    } else {
      ShlMonotone(b, a, s);
    }
  }

  /** The word that the decoder has after the last group, and the value that it should stand for. */
  function LastWord(front: nat, p: nat, s: nat, u: nat): nat {
    front + Shl(p % Pow2(u), s)
  }

  function LastValue(front: nat, c: int, s: nat): int {
    if c < 0 then front - Shl(-c, s) else front + Shl(c, s)
  }

  lemma LastInRange(front: nat, c: int, s: nat, u: nat, h: int)
    requires front < Pow2(s) && u > 0 && h == Pow2(u - 1)
    ensures InRange(s + u, LastValue(front, c, s)) <==> -h <= c < h
  {
    ShlPow2(u - 1, s);
    if c >= 0 {
      GroupBelow(front, c, h, s);
    } else {
      ShlPow2(0, s);
      ShlAdd(h, 1, s);
      ShlMonotone(1, -c, s);
      if -c <= h {
        ShlMonotone(-c, h, s);
      } else {
        ShlMonotone(h + 1, -c, s);
      }
    }
  }

  lemma LastGroup(front: nat, p: nat, s: nat, u: nat)
    requires front < Pow2(s) && p < 128 && (u == 4 || u == 5 || u == 1)
    ensures var r, v := LastWord(front, p, s, u), LastValue(front, Contribution(p), s);
            && (Passes(u, p, r >= Pow2(s + u - 1)) <==> InRange(s + u, v))
            && (InRange(s + u, v) ==> Sign(s + u, r) == v)
  {
    var h, c, l := Pow2(u - 1), Contribution(p), p % Pow2(u);
    ChecksFit(p, u, h, l);
    LastInRange(front, c, s, u, h);
    ShlPow2(u - 1, s);
    GroupBelow(front, l, h, s);
    if -h <= c < 0 {
      ShlAdd(l, -c, s);
      ShlAdd(h, h, s);
    }
  }

  /** The value that a last byte contributes by itself. */
  function GroupValue(b: byte): int {
    var p: int := b % 128;
    if p >= 64 then p - 128 else p
  }

  lemma SignedLast(bs: seq<byte>)
    requires bs != []
    ensures Signed(bs) == LastValue(Unsigned(bs[..|bs| - 1]), GroupValue(bs[|bs| - 1]), 7 * (|bs| - 1))
  {
    var s := 7 * (|bs| - 1);
    SignedNext(bs, bs[..|bs| - 1], bs[|bs| - 1], s);
    GroupArith(Signed(bs), Unsigned(bs[..|bs| - 1]), bs[|bs| - 1], s);
  }

  lemma SignedNext(bs: seq<byte>, front: seq<byte>, b: byte, s: nat)
    requires bs == front + [b] && s == 7 * |front|
    ensures Signed(bs) == Unsigned(front) + Shl(b % 128, s) - if b % 128 >= 64 then Pow2(s + 7) else 0
  {
    SignedIs(bs);
    UnsignedNext(front, b);
    assert 7 * |bs| == s + 7;
  }

  lemma GroupArith(v: int, u: nat, b: byte, s: nat)
    requires v == u + Shl(b % 128, s) - if b % 128 >= 64 then Pow2(s + 7) else 0
    ensures v == LastValue(u, GroupValue(b), s)
  {
    TopGroup(b % 128, s);
  }

  lemma TopGroup(p: nat, s: nat)
    requires p < 128
    ensures Shl(p, s) == Pow2(s + 7) - Shl(128 - p, s)
  {
    ShlOneTwentyEight(s);
    ShlAdd(p, 128 - p, s);
  }

  lemma RepairedValue(bs: seq<byte>)
    requires bs != []
    ensures Signed(Repaired(bs)) ==
            LastValue(Unsigned(bs[..|bs| - 1]), Contribution(bs[|bs| - 1]), 7 * (|bs| - 1))
  {
    SignedLast(Repaired(bs));
    assert Repaired(bs)[..|bs| - 1] == bs[..|bs| - 1];
  }

  lemma {:induction false} ShlOneTwentyEight(s: nat)
    ensures Shl(128, s) == Pow2(s + 7)
  {
    assert Pow2(3) == 8 && Pow2(7) == 128;
    ShlPow2(7, s);
  }

  lemma LowSix(b: byte)
    ensures b % 128 % 64 == b % 64 && b % 128 % 128 == b % 128
  {
    var q := b / 128;
    assert b == 128 * q + b % 128;
  }

  /** The checks of the last byte `b` and the word with it tell whether `v` is in range, and the word
      then is `v`. */
  predicate Agrees(bits: nat, u: nat, b: byte, word: nat, v: int)
    requires bits > 0 && (u == 4 || u == 5 || u == 1)
  {
    && (Passes(u, b, word >= Pow2(bits - 1)) <==> InRange(bits, v))
    && (InRange(bits, v) ==> Sign(bits, word) == v)
  }

  lemma LastByte(front: nat, b: byte, s: nat, u: nat)
    requires front < Pow2(s) && (u == 4 || u == 5 || u == 1)
    ensures Agrees(s + u, u, b, LastWord(front, b % 128, s, u), LastValue(front, Contribution(b), s))
  {
    LowSix(b);
    SameLast(b, u);
    LastGroup(front, b % 128, s, u);
  }

  lemma SameLast(b: byte, u: nat)
    requires (u == 4 || u == 5 || u == 1) && b % 128 % 64 == b % 64
    ensures Contribution(b % 128) == Contribution(b)
    ensures forall negative :: Passes(u, b % 128, negative) == Passes(u, b, negative)
  {
  }

  /** The same for a sequence of maximal length. */
  lemma FullDecodes(bits: nat, maxLen: nat, bs: seq<byte>, front: nat)
    requires Format(bits, maxLen) && |bs| == maxLen && front == Unsigned(bs[..maxLen - 1])
    ensures var u, b := LastBits(bits, maxLen), bs[maxLen - 1];
            Agrees(bits, u, b, LastWord(front, b % 128, 7 * (maxLen - 1), u), Signed(Repaired(bs)))
  {
    UnsignedBounded(bs[..maxLen - 1]);
    RepairedValue(bs);
    LastByte(front, bs[maxLen - 1], 7 * (maxLen - 1), LastBits(bits, maxLen));
  }

  /** What decodeInt32 and decodeInt64 do when they have taken in the last byte. */
  function Finish(bits: nat, maxLen: nat, b: byte, word: nat, bytesRead: nat): Result
    requires Format(bits, maxLen)
  {
    var ret := Extended(bits, 7 * bytesRead, word, b);
    if bytesRead > maxLen then Overflow
    else if bytesRead == maxLen && !Passes(LastBits(bits, maxLen), b, ret >= Pow2(bits - 1)) then Overflow
    else Ok(Sign(bits, ret), bytesRead)
  }

  /** The word that they have after `n` bytes. */
  ghost predicate Holds(bits: nat, maxLen: nat, buf: seq<byte>, n: nat, word: nat)
    requires n <= |buf|
  {
    && (n < maxLen ==> word == Unsigned(buf[..n]))
    && (n == maxLen > 0 && bits >= 7 * (maxLen - 1) ==>
          word == LastWord(Unsigned(buf[..n - 1]), buf[n - 1] % 128, 7 * (n - 1), bits - 7 * (n - 1)))
  }

  lemma FinishDecodes(bits: nat, maxLen: nat, buf: seq<byte>, n: nat, word: nat)
    requires Format(bits, maxLen) && 0 < n <= |buf| && buf[n - 1] < 0x80
    requires forall j :: 0 <= j < n - 1 ==> buf[j] >= 0x80
    requires Holds(bits, maxLen, buf, n, word)
    ensures Finish(bits, maxLen, buf[n - 1], word, n) == Decoded(bits, maxLen, buf)
  {
    TermLenIs(buf[..n], buf[n..]);
    assert buf[..n] + buf[n..] == buf;
    if n < maxLen {
      FinishShort(bits, maxLen, buf, n, buf[..n]);
    } else if n == maxLen {
      assert buf[..n][..n - 1] == buf[..n - 1];
      FinishFull(bits, maxLen, buf, buf[..n], word);
    }
  }

  lemma FinishShort(bits: nat, maxLen: nat, buf: seq<byte>, n: nat, bs: seq<byte>)
    requires Format(bits, maxLen) && 0 < n == TermLen(buf) < maxLen && bs == buf[..n]
    ensures Finish(bits, maxLen, bs[n - 1], Unsigned(bs), n) == Decoded(bits, maxLen, buf)
  {
    ShortDecodes(bits, bs);
  }

  lemma FinishFull(bits: nat, maxLen: nat, buf: seq<byte>, bs: seq<byte>, word: nat)
    requires Format(bits, maxLen) && TermLen(buf) == maxLen && bs == buf[..maxLen]
    requires var u, b := LastBits(bits, maxLen), bs[maxLen - 1];
             word == LastWord(Unsigned(bs[..maxLen - 1]), b % 128, 7 * (maxLen - 1), u)
    ensures Finish(bits, maxLen, bs[maxLen - 1], word, maxLen) == Decoded(bits, maxLen, buf)
  {
    FullDecodes(bits, maxLen, bs, Unsigned(bs[..maxLen - 1]));
  }

  /** Taking in one byte more. */
  lemma HoldsNext(bits: nat, maxLen: nat, buf: seq<byte>, i: nat, word: nat)
    requires Format(bits, maxLen) && i < |buf| && Holds(bits, maxLen, buf, i, word)
    ensures Holds(bits, maxLen, buf, i + 1, Or(word, ShlWord(bits, buf[i] % 128, 7 * i)))
  {
    if i + 1 < maxLen {
      SmallGroup(bits - 7 * i, buf[i] % 128);
      ModSmall(buf[i] % 128, Pow2(bits - 7 * i));
      NextGroup(buf, i);
    } else if i + 1 == maxLen {
      UnsignedBounded(buf[..i]);
      OrDisjoint(Unsigned(buf[..i]), buf[i] % 128 % Pow2(bits - 7 * i), 7 * i);
    }
  }

  /** decodeInt32 and decodeInt64 */
  method LoadSigned(bits: nat, maxLen: nat, buf: seq<byte>) returns (r: Result)
    requires Format(bits, maxLen)
    ensures r == Decoded(bits, maxLen, buf)
  {
    var ret: nat, shift: nat, bytesRead: nat := 0, 0, 0;
    while true
      invariant bytesRead <= |buf| && shift == 7 * bytesRead
      invariant forall j :: 0 <= j < bytesRead ==> buf[j] >= 0x80
      invariant Holds(bits, maxLen, buf, bytesRead, ret)
      decreases |buf| - bytesRead
    {
      if bytesRead >= |buf| {
        return EOF;
      }
      var b := buf[bytesRead];
      HoldsNext(bits, maxLen, buf, bytesRead, ret);
      ret := Or(ret, ShlWord(bits, b % 128, shift));
      shift := shift + 7;
      bytesRead := bytesRead + 1;
      if b < 0x80 {
        FinishDecodes(bits, maxLen, buf, bytesRead, ret);
        return Finish(bits, maxLen, b, ret, bytesRead);
      }
    }
  }

  /** Only the bytes up to the end of the sequence matter. */
  lemma SamePrefix(bits: nat, maxLen: nat, a: seq<byte>, b: seq<byte>)
    requires Format(bits, maxLen) && TermLen(a) == TermLen(b) > 0 && a[..TermLen(a)] == b[..TermLen(a)]
    ensures Decoded(bits, maxLen, a) == Decoded(bits, maxLen, b)
  {
  }

  /** The condition under which bit 6 goes unnoticed: the sequence has its maximal length, bit 6 of
      the last byte differs from bit 5, and the bits up to 5 pass for a value in range. */
  predicate BitSixIgnored(bits: nat, maxLen: nat, buf: seq<byte>)
    requires Format(bits, maxLen)
  {
    && TermLen(buf) == maxLen
    && WithSign(buf[maxLen - 1]) != buf[maxLen - 1]
    && var h: int := Pow2(LastBits(bits, maxLen) - 1);
       -h <= Contribution(buf[maxLen - 1]) < h
  }

  lemma FullRange(bits: nat, maxLen: nat, bs: seq<byte>, h: int)
    requires Format(bits, maxLen) && |bs| == maxLen && h == Pow2(LastBits(bits, maxLen) - 1)
    ensures InRange(bits, Signed(bs)) <==> -h <= GroupValue(bs[maxLen - 1]) < h
  {
    SignedLast(bs);
    UnsignedBounded(bs[..maxLen - 1]);
    LastInRange(Unsigned(bs[..maxLen - 1]), GroupValue(bs[maxLen - 1]), 7 * (maxLen - 1), LastBits(bits, maxLen), h);
  }

  lemma RepairedRange(bits: nat, maxLen: nat, bs: seq<byte>, h: int)
    requires Format(bits, maxLen) && |bs| == maxLen && h == Pow2(LastBits(bits, maxLen) - 1)
    ensures InRange(bits, Signed(Repaired(bs))) <==> -h <= Contribution(bs[maxLen - 1]) < h
  {
    RepairedValue(bs);
    UnsignedBounded(bs[..maxLen - 1]);
    LastInRange(Unsigned(bs[..maxLen - 1]), Contribution(bs[maxLen - 1]), 7 * (maxLen - 1), LastBits(bits, maxLen), h);
  }

  /** A sequence of maximal length is accepted just when its last byte passes. */
  lemma AcceptsFull(bits: nat, maxLen: nat, buf: seq<byte>, h: int)
    requires Format(bits, maxLen) && TermLen(buf) == maxLen && h == Pow2(LastBits(bits, maxLen) - 1)
    ensures var r := Decoded(bits, maxLen, buf);
            r != EOF && (r.Ok? <==> -h <= Contribution(buf[maxLen - 1]) < h)
  {
    RepairedRange(bits, maxLen, buf[..maxLen], h);
  }

  lemma SmallHalf(u: int)
    requires u in {1, 4, 5}
    ensures Pow2(u - 1) <= 16
  {
    assert Pow2(0) == 1 && Pow2(3) == 8 && Pow2(4) == 16;
  }

  /** A group in range has bit 6 as bit 5. */
  lemma GroupFits(b: byte, h: int)
    requires b < 0x80 && h <= 16
    ensures -h <= GroupValue(b) < h <==> WithSign(b) == b && -h <= Contribution(b) < h
  {
  }

  /** The decoders read what the specification says, or reject what it rejects, except under that condition. */
  lemma DecodedExact(bits: nat, maxLen: nat, buf: seq<byte>)
    requires Format(bits, maxLen)
    ensures Decoded(bits, maxLen, buf) == SignedSpec(bits, maxLen, buf) <==> !BitSixIgnored(bits, maxLen, buf)
  {
    if TermLen(buf) == maxLen {
      ExactAtMaxLen(bits, maxLen, buf, buf[..maxLen]);
    } else {
      ExactElsewhere(bits, maxLen, buf);
    }
  }

  lemma ExactElsewhere(bits: nat, maxLen: nat, buf: seq<byte>)
    requires Format(bits, maxLen) && TermLen(buf) != maxLen
    ensures Decoded(bits, maxLen, buf) == SignedSpec(bits, maxLen, buf)
  {
    if 0 < TermLen(buf) < maxLen {
      ShortDecodes(bits, buf[..TermLen(buf)]);
    }
  }

  lemma ExactAtMaxLen(bits: nat, maxLen: nat, buf: seq<byte>, bs: seq<byte>)
    requires Format(bits, maxLen) && TermLen(buf) == maxLen && bs == buf[..maxLen]
    ensures Decoded(bits, maxLen, buf) == SignedSpec(bits, maxLen, buf) <==> !BitSixIgnored(bits, maxLen, buf)
  {
    FullExact(bits, maxLen, bs);
  }

  lemma FullExact(bits: nat, maxLen: nat, bs: seq<byte>)
    requires Format(bits, maxLen) && |bs| == maxLen && Terminated(bs)
    ensures var h: int, b := Pow2(LastBits(bits, maxLen) - 1), bs[maxLen - 1];
            && (WithSign(b) == b ==> Repaired(bs) == bs)
            && (WithSign(b) != b ==> !InRange(bits, Signed(bs)))
            && (InRange(bits, Signed(Repaired(bs))) <==> -h <= Contribution(b) < h)
  {
    var h: int, b := Pow2(LastBits(bits, maxLen) - 1), bs[maxLen - 1];
    SmallHalf(LastBits(bits, maxLen));
    GroupFits(b, h);
    FullRange(bits, maxLen, bs, h);
    RepairedRange(bits, maxLen, bs, h);
    assert bs == bs[..maxLen - 1] + [b];
  }

  /** What the specification accepts is decoded to the same value. */
  lemma DecodersAcceptTheSpec(bits: nat, maxLen: nat, buf: seq<byte>)
    requires Format(bits, maxLen) && SignedSpec(bits, maxLen, buf).Ok?
    ensures Decoded(bits, maxLen, buf) == SignedSpec(bits, maxLen, buf)
  {
    DecodedExact(bits, maxLen, buf);
    if TermLen(buf) == maxLen {
      FullExact(bits, maxLen, buf[..maxLen]);
    }
  }

  /** Encoding and decoding for each of the formats. */
  lemma DecodedRoundTrip(bits: nat, maxLen: nat, v: int, suffix: seq<byte>)
    requires Format(bits, maxLen) && InRange(bits, v)
    ensures Decoded(bits, maxLen, EncodeSigned(v) + suffix) == Ok(v, |EncodeSigned(v)|)
  {
    SignedRoundTrip(bits, maxLen, v, suffix);
    DecodersAcceptTheSpec(bits, maxLen, EncodeSigned(v) + suffix);
  }

  /** A value whose groups but the last are zero. */
  lemma ZeroGroups(b: byte)
    ensures Signed([0x80, 0x80, 0x80, 0x80, b]) == 0x1000_0000 * GroupValue(b)
  {
    var t1, t2, t3, t4 := [b], [0x80, b], [0x80, 0x80, b], [0x80, 0x80, 0x80, b];
    assert t2[1..] == t1 && t3[1..] == t2 && t4[1..] == t3 && [0x80, 0x80, 0x80, 0x80, b][1..] == t4;
    assert Signed(t2) == 128 * Signed(t1) && Signed(t3) == 128 * Signed(t2);
    assert Signed(t4) == 128 * Signed(t3);
  }

  /** Five bytes that are no int32: bit 6 of the last is set and bit 5 is not. They decode to zero. */
  lemma BitSixGoesUnnoticed()
    ensures Decoded(32, 5, [0x80, 0x80, 0x80, 0x80, 0x40]) == Ok(0, 5)
    ensures SignedSpec(32, 5, [0x80, 0x80, 0x80, 0x80, 0x40]) == Overflow
  {
    var buf: seq<byte> := [0x80, 0x80, 0x80, 0x80, 0x40];
    TermLenIs(buf, []);
    assert buf + [] == buf && buf[..5] == buf;
    ZeroGroups(0x40);
    ZeroGroups(0);
    assert Repaired(buf) == [0x80, 0x80, 0x80, 0x80, 0];
    assert Pow2(3) == 8;
    Pow2Seven(3);
    Pow2Seven(10);
    Pow2Seven(17);
    Pow2Seven(24);
  }
}
