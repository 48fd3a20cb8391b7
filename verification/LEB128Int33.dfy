/**
 DecodeInt33AsInt64 (internal/leb128/leb128.go): the decoder of block types, which stops after five
 bytes whether or not the fifth has its continuation bit set.
 */
module LEB128Int33 {
  import opened Bits
  import opened Bytes
  import opened LEB128
  import opened LEB128Signed

  const TWO_TO_THE_33: nat := 0x2_0000_0000

  /** The bytes as the decoder sees them: it takes no notice of the continuation bit of the fifth. */
  function Clipped(buf: seq<byte>): (r: seq<byte>)
    ensures |r| == |buf|
  {
    seq(|buf|, i requires 0 <= i < |buf| => if i == 4 then buf[i] % 128 else buf[i])
  }

  lemma Powers()
    ensures Pow2(33) == TWO_TO_THE_33 && Pow2(32) == TWO_TO_THE_32
    ensures Pow2(7) == 128 && Pow2(14) == 0x4000 && Pow2(21) == 0x20_0000 && Pow2(28) == 0x1000_0000
  {
    assert Pow2(0) == 1 && Pow2(4) == 16 && Pow2(5) == 32;
    Pow2Seven(0); Pow2Seven(7); Pow2Seven(14); Pow2Seven(21);
    Pow2Seven(4); Pow2Seven(11); Pow2Seven(18); Pow2Seven(25);
    Pow2Seven(5); Pow2Seven(12); Pow2Seven(19); Pow2Seven(26);
  }

  lemma Shifted(c: nat)
    ensures Shl(c, 7) == 128 * c && Shl(c, 14) == 0x4000 * c && Shl(c, 21) == 0x20_0000 * c &&
            Shl(c, 28) == 0x1000_0000 * c
  {
    assert Shl(c, 0) == c;
    ShlSeven(c, 0); ShlSeven(c, 7); ShlSeven(c, 14); ShlSeven(c, 21);
  }

  /** The sign extension by 33 ones, cut to 33 bits. */
  lemma Extends(n: nat, r: nat)
    requires 0 < n < 5 && r < Pow2(7 * n)
    ensures Pow2(7 * n) <= Pow2(33)
    ensures Or(r, Shl(TWO_TO_THE_33 - 1, 7 * n)) % TWO_TO_THE_33 == Or(r, Pow2(33) - Pow2(7 * n))
    ensures r < TWO_TO_THE_33
  {
    Powers();
    OrDisjoint(r, TWO_TO_THE_33 - 1, 7 * n);
    OrOnes(33, 7 * n, r);
    Shifted(TWO_TO_THE_33 - 1);
    if n == 1 {
      Wraps(r, 128);
    } else if n == 2 {
      Wraps(r, 0x4000);
    } else if n == 3 {
      Wraps(r, 0x20_0000);
    } else {
      Wraps(r, 0x1000_0000);
    }
  }

  lemma Wraps(r: nat, k: nat)
    requires r < k && k in {128, 0x4000, 0x20_0000, 0x1000_0000}
    ensures (r + k * (TWO_TO_THE_33 - 1)) % TWO_TO_THE_33 == r + TWO_TO_THE_33 - k
  {
    assert r + k * (TWO_TO_THE_33 - 1) == (k - 1) * TWO_TO_THE_33 + (r + TWO_TO_THE_33 - k);
  }

  lemma CutTo33(u: nat, p: nat)
    requires u < 0x1000_0000 && p < 128
    ensures (u + 0x1000_0000 * p) % TWO_TO_THE_33 == u + 0x1000_0000 * (p % 32)
  {
    var a, l := p / 32, p % 32;
    assert p == 32 * a + l;
    assert u + 0x1000_0000 * p == TWO_TO_THE_33 * a + (u + 0x1000_0000 * l);
  }

  /** Five groups, cut to 33 bits. */
  lemma FiveGroups(buf: seq<byte>, s: nat, k: nat)
    requires |buf| >= 5 && s == 28 && k == 4
    ensures Unsigned(buf[..k + 1]) % TWO_TO_THE_33 == LastWord(Unsigned(buf[..k]), buf[k] % 128, s, 5)
  {
    var front, p := buf[..k], buf[k] % 128;
    assert buf[..k + 1] == front + [buf[k]];
    var u, all := Unsigned(front), Unsigned(buf[..k + 1]);
    assert u < 0x1000_0000 by {
      UnsignedBounded(front);
      Powers();
    }
    assert all == u + 0x1000_0000 * p by {
      UnsignedNext(front, buf[k]);
      Shifted(p);
    }
    CutTo33(u, p);
    assert Shl(p % Pow2(5), s) == 0x1000_0000 * (p % 32) by {
      assert Pow2(5) == 32;
      Shifted(p % 32);
    }
  }

  /** The value of a word of 33 bits, checked as the decoder does. */
  function Checked(b: byte, word: nat, bytesRead: nat): Result {
    var ret := if word >= TWO_TO_THE_32 then word - TWO_TO_THE_33 else word;
    if bytesRead > 5 then Overflow
    else if bytesRead == 5 && !Passes(5, b, ret < 0) then Overflow
    else Ok(ret, bytesRead)
  }

  /** The word of 33 bits after the groups: extended by 33 ones if it ends early on a set bit 6, and
      then cut to 33 bits. */
  function Word(b: byte, ret: nat, bytesRead: nat): nat {
    var extended := if 7 * bytesRead < 33 && b % 128 >= 64 then Or(ret, Shl(TWO_TO_THE_33 - 1, 7 * bytesRead)) else ret;
    extended % TWO_TO_THE_33
  }

  /** The decoder stops after `n` bytes. */
  predicate Stops(buf: seq<byte>, n: nat) {
    && 0 < n <= 5 && n <= |buf|
    && (forall j :: 0 <= j < n - 1 ==> buf[j] >= 0x80)
    && (buf[n - 1] < 0x80 || n == 5)
  }

  /** What the decoders for 32 and 64 bits would have taken in. */
  ghost function Taken(buf: seq<byte>, n: nat): nat
    requires Stops(buf, n)
  {
    if n == 5 then LastWord(Unsigned(buf[..4]), buf[4] % 128, 28, 5) else Unsigned(buf[..n])
  }

  lemma WordHolds(buf: seq<byte>, n: nat)
    requires Stops(buf, n)
    ensures Word(buf[n - 1], Unsigned(buf[..n]), n) == Extended(33, 7 * n, Taken(buf, n), buf[n - 1] % 128)
  {
    if n == 5 {
      FiveGroups(buf, 28, 4);
    } else {
      UnsignedBounded(buf[..n]);
      ShortWord(buf[n - 1], Unsigned(buf[..n]), n);
    }
  }

  lemma ShortWord(b: byte, ret: nat, n: nat)
    requires 0 < n < 5 && ret < Pow2(7 * n)
    ensures Word(b, ret, n) == Extended(33, 7 * n, ret, b % 128)
  {
    LowSix(b);
    Extends(n, ret);
    ModSmall(ret, TWO_TO_THE_33);
  }

  lemma ClippedHolds(buf: seq<byte>, n: nat, m: nat)
    requires Stops(buf, n) && m == 5
    ensures Holds(33, m, Clipped(buf), n, Taken(buf, n))
  {
    var cb := Clipped(buf);
    if n == 5 {
      assert cb[..n - 1] == buf[..4] && cb[n - 1] % 128 == buf[4] % 128;
    } else {
      assert cb[..n] == buf[..n];
    }
  }

  lemma Finishes(buf: seq<byte>, n: nat)
    requires Stops(buf, n)
    ensures Checked(buf[n - 1], Word(buf[n - 1], Unsigned(buf[..n]), n), n) == Decoded(33, 5, Clipped(buf))
  {
    WordHolds(buf, n);
    ClippedHolds(buf, n, 5);
    FinishDecodes(33, 5, Clipped(buf), n, Taken(buf, n));
    ClippedLast(buf, n);
    SameChecks(buf[n - 1], Extended(33, 7 * n, Taken(buf, n), buf[n - 1] % 128), n);
  }

  lemma ClippedLast(buf: seq<byte>, n: nat)
    requires Stops(buf, n)
    ensures Clipped(buf)[n - 1] == buf[n - 1] % 128
  {
  }

  lemma SameChecks(b: byte, word: nat, n: nat)
    requires word < TWO_TO_THE_33
    ensures Checked(b, word, n) ==
            if n > 5 then Overflow
            else if n == 5 && !Passes(5, b % 128, word >= Pow2(32)) then Overflow
            else Ok(Sign(33, word), n)
  {
    Powers();
    LowSix(b);
  }

  method DecodeInt33AsInt64(buf: seq<byte>) returns (r: Result)
    ensures r == Decoded(33, 5, Clipped(buf))
  {
    var ret: nat, shift: nat, bytesRead: nat := 0, 0, 0;
    var b: byte := 0;
    while shift < 35
      invariant bytesRead <= |buf| && shift == 7 * bytesRead && bytesRead <= 5
      invariant forall j :: 0 <= j < bytesRead ==> buf[j] >= 0x80
      invariant ret == Unsigned(buf[..bytesRead])
      invariant bytesRead > 0 ==> b == buf[bytesRead - 1]
    {
      if bytesRead >= |buf| {
        Unfinished(buf);
        return EOF;
      }
      b := buf[bytesRead];
      NextGroup(buf, bytesRead);
      ret := Or(ret, Shl(b % 128, shift));
      shift := shift + 7;
      bytesRead := bytesRead + 1;
      if b < 0x80 {
        break;
      }
    }
    Finishes(buf, bytesRead);
    return Checked(b, Word(b, ret, bytesRead), bytesRead);
  }

  lemma Unfinished(buf: seq<byte>)
    requires |buf| < 5 && forall j :: 0 <= j < |buf| ==> buf[j] >= 0x80
    ensures Decoded(33, 5, Clipped(buf)) == EOF
  {
  }

  /** Where the fifth byte ends the sequence or comes after its end, the decoder is as those for 32
      and 64 bits; in particular it reads back what has been encoded. */
  lemma Int33RoundTrip(v: int, suffix: seq<byte>)
    requires InRange(33, v)
    ensures Decoded(33, 5, Clipped(EncodeSigned(v) + suffix)) == Ok(v, |EncodeSigned(v)|)
  {
    var bs := EncodeSigned(v);
    SignedRoundTrip(33, 5, v, suffix);
    TermLenIs(bs, suffix);
    var cb := Clipped(bs + suffix);
    ClippedAfter(bs, suffix);
    DecodedRoundTrip(33, 5, v, cb[|bs|..]);
  }

  lemma ClippedAfter(bs: seq<byte>, suffix: seq<byte>)
    requires Terminated(bs) && |bs| <= 5
    ensures Clipped(bs + suffix) == bs + Clipped(bs + suffix)[|bs|..]
  {
  }

  /** The continuation bit of the fifth byte does not matter to a sequence that ends by then. */
  lemma EndsInTime(buf: seq<byte>)
    requires 0 < TermLen(buf) <= 5
    ensures Decoded(33, 5, Clipped(buf)) == Decoded(33, 5, buf)
  {
    var n := TermLen(buf);
    var bs, rest := buf[..n], buf[n..];
    assert buf == bs + rest;
    ClippedAfter(bs, rest);
    TermLenIs(bs, Clipped(buf)[n..]);
    assert Clipped(buf)[..n] == bs;
    SamePrefix(33, 5, Clipped(buf), buf);
  }

  /** Five bytes with their continuation bits set. */
  predicate GoesOn(buf: seq<byte>) {
    |buf| >= 5 && forall i :: 0 <= i < 5 ==> buf[i] >= 0x80
  }

  /** A sequence that goes on is invalid, but is accepted just when its first five bytes would be
      if the fifth were the last. */
  lemma AcceptedGoingOn(buf: seq<byte>)
    requires GoesOn(buf)
    ensures var r := Decoded(33, 5, Clipped(buf));
            r != EOF && (r.Ok? <==> -16 <= Contribution(buf[4]) < 16)
  {
    ClippedEnds(buf);
    assert Pow2(4) == 16;
    AcceptsFull(33, 5, Clipped(buf), 16);
    SameContribution(buf[4]);
  }

  lemma InvalidGoingOn(buf: seq<byte>)
    requires GoesOn(buf)
    ensures SignedSpec(33, 5, buf) == if TermLen(buf) == 0 then EOF else Overflow
  {
    ClippedEnds(buf);
  }

  lemma SameContribution(b: byte)
    ensures Contribution(b % 128) == Contribution(b)
  {
    LowSix(b);
  }

  /** The condition under which the continuation bit of the fifth byte goes unnoticed: it is set, and
      the sequence does not end at all, or the bits of the fifth byte pass for a value in range. */
  predicate FifthBitIgnored(buf: seq<byte>) {
    GoesOn(buf) && (TermLen(buf) == 0 || -16 <= Contribution(buf[4]) < 16)
  }

  /** DecodeInt33AsInt64 reads what the specification says, or rejects as it does, except when that
      bit or bit 6 of the fifth byte goes unnoticed. */
  lemma Int33Exact(buf: seq<byte>)
    ensures Decoded(33, 5, Clipped(buf)) == SignedSpec(33, 5, buf) <==>
            !BitSixIgnored(33, 5, buf) && !FifthBitIgnored(buf)
  {
    if 0 < TermLen(buf) <= 5 {
      EndsInTime(buf);
      DecodedExact(33, 5, buf);
    } else if |buf| < 5 {
      Unfinished(buf);
    } else {
      OnAfterFive(buf);
      AcceptedGoingOn(buf);
      InvalidGoingOn(buf);
    }
  }

  lemma OnAfterFive(buf: seq<byte>)
    requires |buf| >= 5 && !(0 < TermLen(buf) <= 5)
    ensures GoesOn(buf)
  {
    var n := TermLen(buf);
    if n > 5 {
      assert forall i :: 0 <= i < 5 ==> buf[..n][i] == buf[i];
    }
  }

  /** Five bytes that never end, and decode to zero. */
  lemma FifthBitGoesUnnoticed()
    ensures Decoded(33, 5, Clipped([0x80, 0x80, 0x80, 0x80, 0x80])) == Ok(0, 5)
    ensures SignedSpec(33, 5, [0x80, 0x80, 0x80, 0x80, 0x80]) == EOF
  {
    var buf: seq<byte> := [0x80, 0x80, 0x80, 0x80, 0x80];
    assert Clipped(buf) == [0x80, 0x80, 0x80, 0x80, 0];
    AcceptedGoingOn(buf);
    InvalidGoingOn(buf);
    ClippedEnds(buf);
    ZeroDecodes(Clipped(buf));
  }

  lemma ZeroDecodes(cb: seq<byte>)
    requires cb == [0x80, 0x80, 0x80, 0x80, 0] && TermLen(cb) == 5 && Decoded(33, 5, cb).Ok?
    ensures Decoded(33, 5, cb) == Ok(0, 5)
  {
    assert cb[..5] == cb && Repaired(cb) == cb;
    ZeroGroups(0);
  }

  lemma ClippedEnds(buf: seq<byte>)
    requires GoesOn(buf)
    ensures TermLen(Clipped(buf)) == 5 && Clipped(buf)[4] == buf[4] % 128
    ensures !(0 < TermLen(buf) <= 5)
  {
    var cb := Clipped(buf);
    var bs := cb[..5];
    assert Terminated(bs) && cb == bs + cb[5..];
    TermLenIs(bs, cb[5..]);
  }
}
