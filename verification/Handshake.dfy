/** The transformation of the challenge a new connection has to answer. */
module Handshake {

  type Uint64 = n: int | 0 <= n < 0x1_0000_0000_0000_0000

  const IN_KEY: bv64 := 0xDEADBEEFC0DECAFE
  const OUT_KEY: bv64 := 0xC0DEFACE12345678

  function Xor(a: bv64, b: bv64): bv64 {
    a ^ b
  }

  /** The low 56 bits. */
  function Low(x: bv64): bv64 {
    x & 0xFF_FFFF_FFFF_FFFF
  }

  /** Swaps the halves of the seven low bytes; the masks drop the top byte. */
  function SwapNibbles(x: bv64): bv64 {
    ((x & 0xF0F0F0F0F0F0F0) >> 4) | ((x & 0x0F0F0F0F0F0F0F) << 4)
  }

  /** `Connection::scramble`. */
  function Scramble64(input: bv64): bv64 {
    Xor(SwapNibbles(Xor(input, IN_KEY)), OUT_KEY)
  }

  function Scramble(input: Uint64): Uint64 {
    Scramble64(input as bv64) as int
  }

  lemma SwapTwice(x: bv64)
    ensures SwapNibbles(SwapNibbles(x)) == Low(x)
  {
  }

  lemma SwapIgnoresTop(x: bv64)
    ensures SwapNibbles(x) == SwapNibbles(Low(x))
  {
  }

  lemma XorCancels(a: bv64, k: bv64)
    ensures Xor(Xor(a, k), k) == a
  {
  }

  lemma LowOfXor(a: bv64, k: bv64)
    ensures Low(Xor(a, k)) == Xor(Low(a), Low(k))
  {
  }

  /** Two challenges have the same answer exactly if they agree but for the top byte. */
  lemma CollidesExactly(a: bv64, b: bv64)
    ensures Scramble64(a) == Scramble64(b) <==> Low(a) == Low(b)
  {
    hide Xor, Low, SwapNibbles;
    var x, y := Xor(a, IN_KEY), Xor(b, IN_KEY);
    XorCancels(SwapNibbles(x), OUT_KEY);
    XorCancels(SwapNibbles(y), OUT_KEY);
    SwapTwice(x);
    SwapTwice(y);
    SwapIgnoresTop(x);
    SwapIgnoresTop(y);
    LowOfXor(a, IN_KEY);
    LowOfXor(b, IN_KEY);
    XorCancels(Low(a), Low(IN_KEY));
    XorCancels(Low(b), Low(IN_KEY));
  }

  lemma TopByte(input: bv64)
    ensures Scramble64(input) >> 56 == 0xC0
  {
  }

  lemma LowPart(output: bv64)
    requires output >> 56 == 0xC0
    ensures Low(Xor(output, OUT_KEY)) == Xor(output, OUT_KEY)
  {
  }

  /** The answers are exactly the values with top byte 0xC0. */
  lemma ImageExactly(output: bv64)
    ensures (exists input :: Scramble64(input) == output) <==> output >> 56 == 0xC0
  {
    hide Xor, Low, SwapNibbles;
    if output >> 56 == 0xC0 {
      var input := Xor(SwapNibbles(Xor(output, OUT_KEY)), IN_KEY);
      XorCancels(SwapNibbles(Xor(output, OUT_KEY)), IN_KEY);
      SwapTwice(Xor(output, OUT_KEY));
      LowPart(output);
      XorCancels(output, OUT_KEY);
      assert Scramble64(input) == output;
    }
    if input :| Scramble64(input) == output {
      TopByte(input);
    }
  }

  /** What a change of the challenge changes in the answer. */
  function Difference(x: bv64): bv64 {
    Xor(Scramble64(x), Scramble64(0))
  }

  lemma XorDifference(p: bv64, q: bv64, k: bv64)
    ensures Xor(Xor(Xor(p, q), k), Xor(p, k)) == q
  {
    hide Xor;
    XorMoves(p, q, k);
    XorMoves(Xor(p, k), q, Xor(p, k));
    XorSelf(Xor(p, k));
    XorMoves(0, q, 0);
  }

  lemma XorSelf(a: bv64)
    ensures Xor(a, a) == 0
  {
  }

  lemma DifferenceIs(a: bv64, x: bv64)
    ensures Xor(Scramble64(Xor(a, x)), Scramble64(a)) == SwapNibbles(x)
  {
    hide Xor, SwapNibbles;
    XorMoves(a, x, IN_KEY);
    SwapOfXor(Xor(a, IN_KEY), x);
    XorDifference(SwapNibbles(Xor(a, IN_KEY)), SwapNibbles(x), OUT_KEY);
  }

  /** Changes add up, whatever the challenge, and no change in the top byte has an effect. */
  lemma DifferencesAdd(a: bv64, x: bv64)
    ensures Xor(Scramble64(Xor(a, x)), Scramble64(a)) == Difference(x)
    ensures Difference(x) == Difference(Low(x))
  {
    hide Low, Xor, SwapNibbles, Scramble64;
    DifferenceIs(a, x);
    XorMoves(0, x, 0);
    DifferenceIs(0, x);
    XorMoves(0, Low(x), 0);
    DifferenceIs(0, Low(x));
    SwapIgnoresTop(x);
  }

  lemma SwapOfXor(a: bv64, x: bv64)
    ensures SwapNibbles(Xor(a, x)) == Xor(SwapNibbles(a), SwapNibbles(x))
  {
  }

  lemma XorMoves(a: bv64, x: bv64, k: bv64)
    ensures Xor(Xor(a, x), k) == Xor(Xor(a, k), x) && Xor(0, x) == x
  {
  }

  /** A change in one half of one of the seven low bytes shows in the other half of that byte. */
  lemma HalvesSwapped(v: bv64)
    requires v <= 0xF
    ensures Difference(v) == v << 4
    ensures Difference((v << 4)) == v
    ensures Difference((v << 8)) == v << 12
    ensures Difference((v << 12)) == v << 8
    ensures Difference((v << 16)) == v << 20
    ensures Difference((v << 20)) == v << 16
    ensures Difference((v << 24)) == v << 28
    ensures Difference((v << 28)) == v << 24
    ensures Difference((v << 32)) == v << 36
    ensures Difference((v << 36)) == v << 32
    ensures Difference((v << 40)) == v << 44
    ensures Difference((v << 44)) == v << 40
    ensures Difference((v << 48)) == v << 52
    ensures Difference((v << 52)) == v << 48
  {
  }

  /** The answers to two challenges. */
  lemma Answers()
    ensures Scramble64(0) == 0xC00411301ED9FA97
    ensures Scramble64(0x0123456789ABCDEF) == 0xC036454686632669
  {
  }
}
