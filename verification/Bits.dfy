/** Machine words as numbers, with the bitwise operators of Go on them. */
module Bits {

  function Pow2(n: nat): (p: nat)
    ensures p > 0
  {
    if n == 0 then 1 else 2 * Pow2(n - 1)
  }

  /** Bit `j` of `m`, the lowest being bit 0. */
  predicate Bit(m: nat, j: nat)
    decreases j
  {
    if j == 0 then m % 2 == 1 else Bit(m / 2, j - 1)
  }

  function Digit(b: bool): nat {
    if b then 1 else 0
  }

  /** The operator | */
  function Or(a: nat, b: nat): nat {
    if a == 0 && b == 0 then 0 else 2 * Or(a / 2, b / 2) + Digit(a % 2 == 1 || b % 2 == 1)
  }

  /** The operator & */
  function And(a: nat, b: nat): nat {
    if a == 0 || b == 0 then 0 else 2 * And(a / 2, b / 2) + Digit(a % 2 == 1 && b % 2 == 1)
  }

  /** The operator ^ on words of `n` bits */
  function Not(n: nat, a: nat): nat
    requires a < Pow2(n)
  {
    Pow2(n) - 1 - a
  }

  /** bits.TrailingZeros64 of a word that is not zero */
  function TrailingZeros(m: nat): (r: nat)
    requires m > 0
    ensures Bit(m, r) && forall j :: 0 <= j < r ==> !Bit(m, j)
  {
    if m % 2 == 1 then 0 else
      var r := TrailingZeros(m / 2);
      assert forall j :: 0 < j < r + 1 ==> Bit(m, j) == Bit(m / 2, j - 1);
      r + 1
  }

  /** bits.OnesCount64 */
  function OnesCount(m: nat): nat {
    if m == 0 then 0 else Digit(m % 2 == 1) + OnesCount(m / 2)
  }

  /** How many of the `n` low bits are set. */
  function LowOnes(m: nat, n: nat): nat {
    if n == 0 then 0 else LowOnes(m, n - 1) + Digit(Bit(m, n - 1))
  }

  lemma {:induction false} ZeroBit(j: nat)
    ensures !Bit(0, j)
  {
    if j > 0 {
      ZeroBit(j - 1);
    }
  }

  /** A number with a bit put below it. */
  lemma BitBelow(x: nat, d: bool)
    ensures (2 * x + Digit(d)) / 2 == x && (2 * x + Digit(d)) % 2 == Digit(d)
  {
  }

  lemma {:induction false} OrBit(a: nat, b: nat, j: nat)
    ensures Bit(Or(a, b), j) == (Bit(a, j) || Bit(b, j))
    decreases j
  {
    if a == 0 && b == 0 {
      ZeroBit(j);
    } else {
      BitBelow(Or(a / 2, b / 2), a % 2 == 1 || b % 2 == 1);
      if j > 0 {
        OrBit(a / 2, b / 2, j - 1);
      }
    }
  }

  lemma {:induction false} AndBit(a: nat, b: nat, j: nat)
    ensures Bit(And(a, b), j) == (Bit(a, j) && Bit(b, j))
    decreases j
  {
    if a == 0 || b == 0 {
      ZeroBit(j);
    } else {
      BitBelow(And(a / 2, b / 2), a % 2 == 1 && b % 2 == 1);
      if j > 0 {
        AndBit(a / 2, b / 2, j - 1);
      }
    }
  }

  lemma {:induction false} NotBit(n: nat, a: nat, j: nat)
    requires j < n && a < Pow2(n)
    ensures Bit(Not(n, a), j) == !Bit(a, j)
    decreases j
  {
    if j > 0 {
      assert Not(n, a) / 2 == Not(n - 1, a / 2);
      NotBit(n - 1, a / 2, j - 1);
    }
  }

  lemma {:induction false} Pow2Bit(s: nat, j: nat)
    ensures Bit(Pow2(s), j) == (j == s)
    decreases j
  {
    if s == 0 {
      if j > 0 {
        ZeroBit(j - 1);
      }
    } else if j > 0 {
      assert Pow2(s) / 2 == Pow2(s - 1);
      Pow2Bit(s - 1, j - 1);
    }
  }

  lemma {:induction false} OrBounded(n: nat, a: nat, b: nat)
    requires a < Pow2(n) && b < Pow2(n)
    ensures Or(a, b) < Pow2(n)
    decreases n
  {
    if n > 0 {
      OrBounded(n - 1, a / 2, b / 2);
    }
  }

  lemma {:induction false} AndBounded(a: nat, b: nat)
    ensures And(a, b) <= a
  {
    if a > 0 && b > 0 {
      AndBounded(a / 2, b / 2);
    }
  }

  lemma {:induction false} Pow2Grows(s: nat, n: nat)
    requires s < n
    ensures Pow2(s) < Pow2(n)
    decreases n
  {
    if s < n - 1 {
      Pow2Grows(s, n - 1);
    }
  }

  /** A word with a high bit is large. */
  lemma {:induction false} BitsBounded(n: nat, m: nat, j: nat)
    requires m < Pow2(n) && Bit(m, j)
    ensures j < n
    decreases j
  {
    if n == 0 {
      ZeroBit(j);
    } else if j > 0 {
      BitsBounded(n - 1, m / 2, j - 1);
    }
  }

  lemma {:induction false} LowOnesHalf(m: nat, n: nat)
    requires n > 0
    ensures LowOnes(m, n) == Digit(m % 2 == 1) + LowOnes(m / 2, n - 1)
  {
    if n > 1 {
      LowOnesHalf(m, n - 1);
    }
  }

  /** All the bits of a word are counted. */
  lemma {:induction false} LowOnesAll(m: nat, n: nat)
    requires m < Pow2(n)
    ensures LowOnes(m, n) == OnesCount(m)
    decreases n
  {
    if n > 0 {
      LowOnesHalf(m, n);
      LowOnesAll(m / 2, n - 1);
    }
  }
}
