/** The 32-bit stipple pattern that `DrawLine` rotates by one bit for every pixel. */
module Patterns {
  import opened Basics
  import Rounding

  const TOP_BIT := 0x8000_0000

  /** The rotation of `rol`; the bit rotated round is the new lowest one, so `|` adds. */
  function Rotated(p: Uint32): Uint32 {
    p % TOP_BIT * 2 + p / TOP_BIT
  }

  /** The value of `rol`. */
  function LowBit(p: Uint32): bool {
    p % 2 == 1
  }

  /** Bit `i` of `p`, counted from the lowest. */
  predicate Bit(p: nat, i: nat) {
    if i == 0 then p % 2 == 1 else Bit(p / 2, i - 1)
  }

  /** The pixels of a line that the pattern lets through, the highest bit first. */
  predicate Shows(pattern: Uint32, k: nat) {
    Bit(pattern, 31 - k % 32)
  }

  lemma {:induction false} BitOfDoubled(p: nat, b: nat, i: nat)
    requires b < 2
    ensures Bit(2 * p + b, i) == if i == 0 then b == 1 else Bit(p, i - 1)
  {
    assert (2 * p + b) / 2 == p && (2 * p + b) % 2 == b;
  }

  /** Below the bit cut off, a remainder has the bits of the number. */
  lemma {:induction false} BitOfRemainder(p: nat, n: nat, i: nat)
    requires i < n
    ensures Bit(p % PowerOfTwo(n), i) == Bit(p, i)
  {
    var h := PowerOfTwo(n - 1);
    HalfOfRemainder(p, h);
    if i > 0 {
      BitOfRemainder(p / 2, n - 1, i - 1);
    }
  }

  lemma HalfOfRemainder(p: nat, h: nat)
    requires h > 0
    ensures p % (2 * h) / 2 == p / 2 % h && p % (2 * h) % 2 == p % 2
  {
    var q, r := p / 2 / h, p / 2 % h;
    assert p == (2 * h) * q + (2 * r + p % 2);
    assert p % (2 * h) == 2 * r + p % 2 by {
      RemainderUnique(p, 2 * h, q, 2 * r + p % 2);
    }
  }

  lemma RemainderUnique(n: int, d: int, q: int, r: int)
    requires d > 0 && 0 <= r < d && n == d * q + r
    ensures n % d == r
  {
    Rounding.QuotientUnique(n, d, q);
  }

  /** Bit `n - 1` of a number below 2^n is its quotient by half of that. */
  lemma {:induction false} TopBitIs(p: nat, n: nat)
    requires p < 2 * PowerOfTwo(n)
    ensures p / PowerOfTwo(n) < 2 && Bit(p, n) == (p / PowerOfTwo(n) == 1)
  {
    if n > 0 {
      var h := PowerOfTwo(n - 1);
      TopBitIs(p / 2, n - 1);
      assert p / 2 / h == p / (2 * h) by {
        var q, r := p / 2 / h, p / 2 % h;
        assert p == (2 * h) * q + (2 * r + p % 2);
        Rounding.QuotientUnique(p, 2 * h, q);
      }
    }
  }

  lemma PowerIs31()
    ensures PowerOfTwo(31) == TOP_BIT
  {
    assert PowerOfTwo(8) == 256;
    assert PowerOfTwo(16) == 0x1_0000;
    assert PowerOfTwo(24) == 0x100_0000;
  }

  /** A rotation moves every bit up by one and the top bit to the bottom. */
  lemma RotatedBits(p: Uint32, i: nat)
    requires i < 32
    ensures Bit(Rotated(p), i) == Bit(p, if i == 0 then 31 else i - 1)
  {
    PowerIs31();
    TopBitIs(p, 31);
    BitOfDoubled(p % TOP_BIT, p / TOP_BIT, i);
    if i > 0 {
      BitOfRemainder(p, 31, i - 1);
    }
  }

  /** A bit position; named so that facts about all positions are used only where one is named. */
  ghost predicate Position(i: int) {
    0 <= i < 32
  }

  /** `p` is the pattern after `k` rotations. */
  ghost predicate RotatedTimes(pattern: Uint32, k: nat, p: Uint32) {
    forall i: nat {:trigger Position(i)} :: Position(i) ==> Bit(p, i) == Bit(pattern, (i + 31 * k) % 32)
  }

  /** Rotating once more moves every bit's origin back by one, all round. */
  lemma OriginMoves(i: nat, k: nat)
    requires i < 32
    ensures (i + 31 * (k + 1)) % 32 == ((if i == 0 then 31 else i - 1) + 31 * k) % 32
  {
    var n := i - 1 + 31 * k;
    RemainderUnique(n + 32, 32, n / 32 + 1, n % 32);
  }

  lemma OriginOfTop(k: nat)
    ensures (31 + 31 * k) % 32 == 31 - k % 32
  {
    RemainderUnique(31 + 31 * k, 32, k - k / 32, 31 - k % 32);
  }

  /** The k-th call of `rol` yields bit 31 - k mod 32 of the original pattern. */
  lemma RotateOnce(pattern: Uint32, k: nat, p: Uint32)
    requires RotatedTimes(pattern, k, p)
    ensures RotatedTimes(pattern, k + 1, Rotated(p))
    ensures LowBit(Rotated(p)) == Shows(pattern, k)
  {
    forall i: nat | Position(i) ensures Bit(Rotated(p), i) == Bit(pattern, (i + 31 * (k + 1)) % 32) {
      RotatedBit(pattern, k, p, i);
    }
    RotatedBit(pattern, k, p, 0);
    OriginMoves(0, k);
    OriginOfTop(k);
    hide Rotated;
    assert Bit(Rotated(p), 0) == LowBit(Rotated(p));
  }

  lemma RotatedBit(pattern: Uint32, k: nat, p: Uint32, i: nat)
    requires RotatedTimes(pattern, k, p) && i < 32
    ensures Bit(Rotated(p), i) == Bit(pattern, (i + 31 * (k + 1)) % 32)
  {
    RotatedBits(p, i);
    OriginMoves(i, k);
    assert Position(if i == 0 then 31 else i - 1);
    hide Bit, Rotated;
  }

  /** Every bit of the full pattern is set. */
  lemma {:induction false} FullPatternShowsAll(k: nat)
    ensures Shows(0xFFFF_FFFF, k)
  {
    AllOnes(32, 31 - k % 32);
    assert PowerOfTwo(32) == 2 * PowerOfTwo(31);
    PowerIs31();
  }

  lemma {:induction false} AllOnes(n: nat, i: nat)
    requires i < n
    ensures Bit(PowerOfTwo(n) - 1, i)
  {
    BitOfDoubled(PowerOfTwo(n - 1) - 1, 1, i);
    if i > 0 {
      AllOnes(n - 1, i - 1);
    }
  }
}
