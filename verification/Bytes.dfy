/** Little-endian integers as bytes, the way `memcpy` of a fixed-size field lays them out. */
module Bytes {

  type Byte = b: int | 0 <= b < 256

  function ToBytes(x: nat, n: nat): (s: seq<Byte>)
    ensures |s| == n
  {
    if n == 0 then [] else [x % 256] + ToBytes(x / 256, n - 1)
  }

  /** Four bytes of a number, the lowest first. */
  lemma FourBytes(x: nat)
    ensures ToBytes(x, 4) == [x % 256, x / 0x100 % 256, x / 0x1_0000 % 256, x / 0x100_0000 % 256]
  {
    assert x / 256 / 256 == x / 0x1_0000 && x / 0x1_0000 / 256 == x / 0x100_0000;
    assert ToBytes(x, 4) == [x % 256] + ToBytes(x / 256, 3);
    assert ToBytes(x / 256, 3) == [x / 256 % 256] + ToBytes(x / 256 / 256, 2);
    assert ToBytes(x / 256 / 256, 2) == [x / 256 / 256 % 256] + ToBytes(x / 256 / 256 / 256, 1);
    assert ToBytes(x / 256 / 256 / 256, 1) == [x / 256 / 256 / 256 % 256];
  }

  function FromBytes(s: seq<Byte>): nat {
    if s == [] then 0 else s[0] + 256 * FromBytes(s[1..])
  }

  /** `x` fits into `n` bytes. */
  predicate Fits(x: nat, n: nat) {
    if n == 0 then x == 0 else Fits(x / 256, n - 1)
  }

  lemma {:induction false} RoundTrip(x: nat, n: nat)
    requires Fits(x, n)
    ensures FromBytes(ToBytes(x, n)) == x
  {
    if n > 0 {
      RoundTrip(x / 256, n - 1);
      assert ToBytes(x, n)[1..] == ToBytes(x / 256, n - 1);
    }
  }

  lemma {:induction false} RoundTripBack(s: seq<Byte>)
    ensures Fits(FromBytes(s), |s|)
    ensures ToBytes(FromBytes(s), |s|) == s
  {
    if s != [] {
      RoundTripBack(s[1..]);
      assert FromBytes(s) % 256 == s[0] && FromBytes(s) / 256 == FromBytes(s[1..]);
    }
  }

  lemma Fits32(x: nat)
    ensures Fits(x, 4) <==> x < 0x1_0000_0000
  {
    assert Fits(x, 4) <==> Fits(x / 256, 3);
    assert Fits(x / 256, 3) <==> Fits(x / 256 / 256, 2);
    assert Fits(x / 256 / 256, 2) <==> Fits(x / 256 / 256 / 256, 1);
    assert Fits(x / 256 / 256 / 256, 1) <==> x / 256 / 256 / 256 / 256 == 0;
  }

  lemma {:induction false} FitsSplit(x: nat, n: nat)
    ensures Fits(x, n + 4) <==> Fits(x / 0x1_0000_0000, n)
  {
    assert x / 256 / 256 / 256 / 256 == x / 0x1_0000_0000;
    assert Fits(x, n + 4) <==> Fits(x / 256, n + 3);
    assert Fits(x / 256, n + 3) <==> Fits(x / 256 / 256, n + 2);
    assert Fits(x / 256 / 256, n + 2) <==> Fits(x / 256 / 256 / 256, n + 1);
    assert Fits(x / 256 / 256 / 256, n + 1) <==> Fits(x / 256 / 256 / 256 / 256, n);
  }

  lemma Fits64(x: nat)
    ensures Fits(x, 8) <==> x < 0x1_0000_0000_0000_0000
  {
    FitsSplit(x, 4);
    Fits32(x / 0x1_0000_0000);
  }
}
