/** Bitwise AND and OR on non-negative integers, defined one bit at a time. They give the
    meaning of C#'s `&` and `|` on the octets of StaticExtensions.cs; the lemmas are the
    facts about them that subnet arithmetic needs. */
module Bits {

  function Pow2(k: nat): (r: nat)
    ensures r >= 1
  {
    if k == 0 then 1 else 2 * Pow2(k - 1)
  }

  /** The lowest bit of `x & y`. */
  function LowAnd(x: nat, y: nat): nat
  {
    if x % 2 == 1 && y % 2 == 1 then 1 else 0
  }

  /** The lowest bit of `x | y`. */
  function LowOr(x: nat, y: nat): nat
  {
    if x % 2 == 1 || y % 2 == 1 then 1 else 0
  }

  /** `x & y`. */
  function BitAnd(x: nat, y: nat): (r: nat)
    ensures r <= x && r <= y
    decreases x
  {
    if x == 0 || y == 0 then 0 else 2 * BitAnd(x / 2, y / 2) + LowAnd(x, y)
  }

  /** `x | y`. */
  function BitOr(x: nat, y: nat): (r: nat)
    ensures x <= r && y <= r
    decreases x + y
  {
    if x == 0 then y
    else if y == 0 then x
    else 2 * BitOr(x / 2, y / 2) + LowOr(x, y)
  }

  /** The defining recursion of BitAnd holds with no case split. */
  lemma BitAndStep(x: nat, y: nat)
    ensures BitAnd(x, y) == 2 * BitAnd(x / 2, y / 2) + LowAnd(x, y)
  {
  }

  /** The defining recursion of BitOr holds with no case split. */
  lemma BitOrStep(x: nat, y: nat)
    ensures BitOr(x, y) == 2 * BitOr(x / 2, y / 2) + LowOr(x, y)
  {
    if x == 0 {
      BitOrZeroLeft(y / 2);
    } else if y == 0 {
      BitOrZeroRight(x / 2);
    }
  }

  lemma BitOrZeroLeft(y: nat)
    ensures BitOr(0, y) == y
  {
  }

  lemma BitOrZeroRight(x: nat)
    ensures BitOr(x, 0) == x
  {
  }

  /** Masking twice with the same mask changes nothing. */
  lemma {:induction false} BitAndIdempotent(x: nat, y: nat)
    ensures BitAnd(BitAnd(x, y), y) == BitAnd(x, y)
    decreases x
  {
    if x != 0 && y != 0 {
      var h := BitAnd(x / 2, y / 2);
      var a := BitAnd(x, y);
      assert a / 2 == h && a % 2 == LowAnd(x, y);
      BitAndStep(a, y);
      BitAndIdempotent(x / 2, y / 2);
    }
  }

  /** OR of two k-bit values is a k-bit value. */
  lemma {:induction false} BitOrBound(x: nat, y: nat, k: nat)
    requires x < Pow2(k) && y < Pow2(k)
    ensures BitOr(x, y) < Pow2(k)
    decreases k
  {
    if x != 0 && y != 0 {
      BitOrBound(x / 2, y / 2, k - 1);
    }
  }

  /** Within k bits, `a & m` and the complement c of m share no bit, so adding them is
      OR-ing them: `(a & m) + ~m == a | ~m`. */
  lemma {:induction false} AndPlusComplement(a: nat, m: nat, c: nat, k: nat)
    requires a < Pow2(k) && m + c == Pow2(k) - 1
    ensures BitAnd(a, m) + c == BitOr(a, c)
    decreases k
  {
    if k > 0 {
      ghost var P := Pow2(k - 1);
      assert a / 2 < P && (m / 2) + (c / 2) == P - 1 && c % 2 == 1 - m % 2 by {
        assert m + c == 2 * P - 1;
      }
      AndPlusComplement(a / 2, m / 2, c / 2, k - 1);
      BitAndStep(a, m);
      BitOrStep(a, c);
      LowComplement(a, m, c);
      Recombine(BitAnd(a, m), BitAnd(a / 2, m / 2), LowAnd(a, m),
                BitOr(a, c), BitOr(a / 2, c / 2), LowOr(a, c), c, c / 2, c % 2);
    }
  }

  /** The lowest bits: where m has a 0 its complement has a 1, so AND plus complement is OR. */
  lemma LowComplement(a: nat, m: nat, c: nat)
    requires c % 2 == 1 - m % 2
    ensures LowAnd(a, m) + c % 2 == LowOr(a, c)
  {
  }

  /** The induction step of AndPlusComplement as plain linear arithmetic. */
  lemma Recombine(and: int, hAnd: int, lowAnd: int, or: int, hOr: int, lowOr: int,
                  c: int, ch: int, cl: int)
    requires and == 2 * hAnd + lowAnd && or == 2 * hOr + lowOr
    requires hAnd + ch == hOr && lowAnd + cl == lowOr && c == 2 * ch + cl
    ensures and + c == or
  {
  }

  /** Octets are the 8-bit case. */
  lemma Pow2Eight()
    ensures Pow2(8) == 0x100
  {
  }
}
