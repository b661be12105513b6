/** Bytes, bitwise XOR and the fixed-width integer encodings used on the wire. */
module Bytes {

  type byte = b: int | 0 <= b < 256

  /** XOR of two naturals, bit by bit from the least significant end. */
  function XorNat(a: nat, b: nat): nat
    decreases a + b
  {
    if a == 0 && b == 0 then 0
    else 2 * XorNat(a / 2, b / 2) + (a % 2 + b % 2) % 2
  }

  lemma {:induction false} XorNatBound(a: nat, b: nat, m: nat, n: nat)
    requires a < m && b < m
    requires m == Pow2(n)
    ensures XorNat(a, b) < m
    decreases n
  {
    if a == 0 && b == 0 {
    } else {
      XorNatBound(a / 2, b / 2, m / 2, n - 1);
    }
  }

  lemma XorNatHalves(a: nat, b: nat)
    ensures XorNat(a, b) / 2 == XorNat(a / 2, b / 2)
    ensures XorNat(a, b) % 2 == (a % 2 + b % 2) % 2
  {
  }

  lemma ParityCancel(x: nat, y: nat)
    requires x < 2 && y < 2
    ensures ((x + y) % 2 + y) % 2 == x
  {
  }

  lemma EqualHalves(x: nat, y: nat)
    requires x / 2 == y / 2 && x % 2 == y % 2
    ensures x == y
  {
  }

  lemma {:induction false} XorNatCancel(a: nat, b: nat)
    ensures XorNat(XorNat(a, b), b) == a
    decreases a + b
  {
    if a != 0 || b != 0 {
      var r := XorNat(a, b);
      XorNatHalves(a, b);
      XorNatHalves(r, b);
      XorNatCancel(a / 2, b / 2);
      ParityCancel(a % 2, b % 2);
      EqualHalves(XorNat(r, b), a);
    }
  }

  lemma {:induction false} XorNatZero(b: nat)
    ensures XorNat(0, b) == b
  {
    if b != 0 {
      XorNatZero(b / 2);
    }
  }

  function Pow2(n: nat): (r: nat)
    ensures r >= 1
  {
    if n == 0 then 1 else 2 * Pow2(n - 1)
  }

  /** XOR of two bytes. */
  function Xor(a: byte, b: byte): byte
  {
    XorNatBound(a, b, 256, 8);
    XorNat(a, b)
  }

  /** Bit `i` of a number. */
  function Bit(n: nat, i: nat): nat { if i == 0 then n % 2 else Bit(n / 2, i - 1) }

  /** XOR adds bit by bit without carry. */
  lemma {:induction false} XorBits(a: nat, b: nat, i: nat)
    ensures Bit(XorNat(a, b), i) == (Bit(a, i) + Bit(b, i)) % 2
    decreases i
  {
    XorNatHalves(a, b);
    if i > 0 {
      XorBits(a / 2, b / 2, i - 1);
    }
  }

  function Zeros(n: nat): (z: seq<byte>)
    ensures |z| == n
  {
    seq(n, i => 0)
  }

  function Pow256(w: nat): (r: nat)
    ensures r >= 1
  {
    if w == 0 then 1 else 256 * Pow256(w - 1)
  }

  /** The low `w` bytes of `n`, least significant byte first. */
  function LittleEndian(n: nat, w: nat): (s: seq<byte>)
    ensures |s| == w
  {
    if w == 0 then [] else [n % 256] + LittleEndian(n / 256, w - 1)
  }

  function FromLittleEndian(s: seq<byte>): nat
  {
    if s == [] then 0 else s[0] + 256 * FromLittleEndian(s[1..])
  }

  lemma {:induction false} LittleEndianInverse(n: nat, w: nat)
    requires n < Pow256(w)
    ensures FromLittleEndian(LittleEndian(n, w)) == n
  {
    if w != 0 {
      LittleEndianInverse(n / 256, w - 1);
      assert LittleEndian(n, w)[1..] == LittleEndian(n / 256, w - 1);
    }
  }

  lemma {:induction false} FromLittleEndianInverse(s: seq<byte>)
    ensures FromLittleEndian(s) < Pow256(|s|)
    ensures LittleEndian(FromLittleEndian(s), |s|) == s
  {
    if s != [] {
      FromLittleEndianInverse(s[1..]);
      assert s == [s[0]] + s[1..];
      var n := FromLittleEndian(s);
      assert n % 256 == s[0] && n / 256 == FromLittleEndian(s[1..]);
    }
  }

  /** Byte `i` of a number, the least significant being byte 0. */
  function ByteAt(n: nat, i: nat): byte { if i == 0 then n % 256 else ByteAt(n / 256, i - 1) }

  lemma {:induction false} LittleEndianAt(n: nat, w: nat, i: nat)
    requires i < w
    ensures LittleEndian(n, w)[i] == ByteAt(n, i)
    decreases i
  {
    if i > 0 {
      LittleEndianAt(n / 256, w - 1, i - 1);
    }
  }

  lemma {:induction false} BigEndianAt(n: nat, w: nat, i: nat)
    requires i < w
    ensures BigEndian(n, w)[w - 1 - i] == ByteAt(n, i)
    decreases i
  {
    if i > 0 {
      BigEndianAt(n / 256, w - 1, i - 1);
    }
  }

  /** The low `w` bytes of `n`, most significant byte first. */
  function BigEndian(n: nat, w: nat): (s: seq<byte>)
    ensures |s| == w
  {
    if w == 0 then [] else BigEndian(n / 256, w - 1) + [n % 256]
  }

  lemma {:induction false} BigEndianInjective(m: nat, n: nat, w: nat)
    requires m < Pow256(w) && n < Pow256(w)
    requires BigEndian(m, w) == BigEndian(n, w)
    ensures m == n
  {
    if w != 0 {
      var bm, bn := BigEndian(m, w), BigEndian(n, w);
      assert bm[..w - 1] == BigEndian(m / 256, w - 1);
      assert bn[..w - 1] == BigEndian(n / 256, w - 1);
      assert bm[w - 1] == m % 256 && bn[w - 1] == n % 256;
      BigEndianInjective(m / 256, n / 256, w - 1);
    }
  }

  type Id16 = s: seq<byte> | |s| == 16 witness Zeros(16)
  type Id32 = s: seq<byte> | |s| == 32 witness Zeros(32)

  const U32_SIZE: nat := 0x1_0000_0000
  const U64_SIZE: nat := 0x1_0000_0000_0000_0000

  lemma Pow256Widths()
    ensures Pow256(4) == U32_SIZE
    ensures Pow256(8) == U64_SIZE
  {
    assert Pow256(4) == 256 * (256 * (256 * (256 * Pow256(0))));
    assert Pow256(8) == 256 * (256 * (256 * (256 * Pow256(4))));
  }

  /** Equal concatenations of parts with equal first lengths have equal parts. */
  lemma SplitConcat<T>(a: seq<T>, b: seq<T>, c: seq<T>, d: seq<T>)
    requires a + b == c + d
    requires |a| == |c|
    ensures a == c && b == d
  {
    assert a == (a + b)[..|a|];
    assert c == (c + d)[..|c|];
    assert b == (a + b)[|a|..];
    assert d == (c + d)[|c|..];
  }
}
