/** Bytes and little-endian numbers, as the assembler and the executable format write them. */
module Bytes {
  type Byte = b: int | 0 <= b < 256

  /** Offsets and lengths are 32-bit unsigned numbers. */
  const WRAP: nat := 0x1_0000_0000

  function Pow256(k: nat): (r: nat)
    ensures r > 0
  {
    if k == 0 then 1 else 256 * Pow256(k - 1)
  }

  function Le(v: nat, k: nat): (r: seq<Byte>)
    ensures |r| == k
  {
    if k == 0 then [] else [v % 256] + Le(v / 256, k - 1)
  }

  function Value(bs: seq<Byte>): nat {
    if bs == [] then 0 else bs[0] + 256 * Value(bs[1..])
  }

  lemma {:induction false} ValueOfLe(v: nat, k: nat)
    ensures v < Pow256(k) ==> Value(Le(v, k)) == v
  {
    if k > 0 {
      ValueOfLe(v / 256, k - 1);
      assert Le(v, k)[1..] == Le(v / 256, k - 1);
    }
  }

  lemma {:induction false} LeOfValue(bs: seq<Byte>)
    ensures Value(bs) < Pow256(|bs|) && Le(Value(bs), |bs|) == bs
  {
    if bs != [] {
      LeOfValue(bs[1..]);
      var rest := Value(bs[1..]);
      assert Value(bs) % 256 == bs[0] && Value(bs) / 256 == rest;
    }
  }

  lemma Powers()
    ensures Pow256(1) == 256 && Pow256(2) == 0x1_0000 && Pow256(4) == WRAP && Pow256(8) == 0x1_0000_0000_0000_0000
  {
    assert Pow256(1) == 256 * Pow256(0) && Pow256(2) == 256 * Pow256(1) && Pow256(3) == 256 * Pow256(2);
    assert Pow256(4) == 256 * Pow256(3) && Pow256(5) == 256 * Pow256(4) && Pow256(6) == 256 * Pow256(5);
    assert Pow256(7) == 256 * Pow256(6) && Pow256(8) == 256 * Pow256(7);
  }

  lemma FourBytes(v: nat)
    ensures Le(v, 2) == [v % 256, v / 0x100 % 256]
    ensures Le(v, 4) == [v % 256, v / 0x100 % 256, v / 0x1_0000 % 256, v / 0x100_0000 % 256]
  {
    var a: nat, b: nat, c: nat := v / 256, v / 256 / 256, v / 256 / 256 / 256;
    assert Le(c, 1) == [c % 256] + Le(c / 256, 0) == [c % 256];
    assert Le(b, 2) == [b % 256] + Le(c, 1);
    assert Le(a, 3) == [a % 256] + Le(b, 2);
    assert Le(a, 1) == [a % 256] + Le(b, 0) == [a % 256];
    assert b == v / 0x1_0000 && c == v / 0x100_0000;
  }

  // ----- Two's complement -----

  function AsSigned(v: nat, size: nat): int {
    if 2 * v < size then v else v - size
  }
}
