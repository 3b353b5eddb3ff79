/**
 Fixed-width integers as byte sequences, in both byte orders. The framer writes
 network order; the pickle and the MD5 length field are little-endian.
 */
module Bytes {

  type byte = x: int | 0 <= x < 256

  const TWO64: nat := 0x1_0000_0000_0000_0000
  const TWO62: nat := 0x4000_0000_0000_0000
  const TWO48: nat := 0x1_0000_0000_0000
  const TWO32: nat := 0x1_0000_0000
  const TWO16: nat := 0x1_0000

  /** 256 to the power `n`: the number of values of an `n`-byte field. */
  function Pow256(n: nat): (r: nat)
    ensures r > 0
  {
    if n == 0 then 1 else 256 * Pow256(n - 1)
  }

  lemma Pow256Values()
    ensures Pow256(1) == 256 && Pow256(2) == TWO16 && Pow256(4) == TWO32
    ensures Pow256(6) == TWO48 && Pow256(8) == TWO64
  {
    assert Pow256(3) == 256 * Pow256(2);
    assert Pow256(5) == 256 * Pow256(4);
    assert Pow256(7) == 256 * Pow256(6);
  }

  /** The low `n` bytes of `v`, most significant first. */
  function BigEndian(n: nat, v: nat): (s: seq<byte>)
    ensures |s| == n
  {
    if n == 0 then [] else BigEndian(n - 1, v / 256) + [v % 256]
  }

  /** The number whose most-significant-first bytes are `s`. */
  function FromBigEndian(s: seq<byte>): (v: nat)
    ensures v < Pow256(|s|)
  {
    if s == [] then 0 else 256 * FromBigEndian(s[..|s| - 1]) + s[|s| - 1]
  }

  /** The low `n` bytes of `v`, least significant first. */
  function LittleEndian(n: nat, v: nat): (s: seq<byte>)
    ensures |s| == n
  {
    if n == 0 then [] else [v % 256] + LittleEndian(n - 1, v / 256)
  }

  /** The number whose least-significant-first bytes are `s`. */
  function FromLittleEndian(s: seq<byte>): (v: nat)
    ensures v < Pow256(|s|)
  {
    if s == [] then 0 else s[0] + 256 * FromLittleEndian(s[1..])
  }

  lemma SplitMod(v: nat, m: nat)
    requires m > 0
    ensures 256 * ((v / 256) % m) + v % 256 == v % (256 * m)
  {
    var q := (v / 256) / m;
    var r := (v / 256) % m;
    assert v == (256 * m) * q + (256 * r + v % 256) by {
      assert v == 256 * (v / 256) + v % 256;
      assert v / 256 == m * q + r;
      assert 256 * (m * q) == (256 * m) * q;
    }
    ModUnique(v, 256 * m, q, 256 * r + v % 256);
  }

  /** The remainder is determined by the quotient equation. */
  lemma ModUnique(v: nat, m: nat, q: int, r: nat)
    requires r < m && v == m * q + r
    ensures v % m == r && v / m == q
  {
    var d := v / m - q;
    assert m * d == r - v % m;
  }

  /** Reading back an `n`-byte field gives the value modulo 256^n. */
  lemma {:induction false} BigEndianRoundTrip(n: nat, v: nat)
    ensures FromBigEndian(BigEndian(n, v)) == v % Pow256(n)
  {
    if n > 0 {
      BigEndianRoundTrip(n - 1, v / 256);
      SplitMod(v, Pow256(n - 1));
      var s := BigEndian(n, v);
      assert s[..|s| - 1] == BigEndian(n - 1, v / 256);
    }
  }

  lemma {:induction false} LittleEndianRoundTrip(n: nat, v: nat)
    ensures FromLittleEndian(LittleEndian(n, v)) == v % Pow256(n)
  {
    if n > 0 {
      LittleEndianRoundTrip(n - 1, v / 256);
      SplitMod(v, Pow256(n - 1));
    }
  }

  lemma MulMono(a: nat, b: nat, d: nat)
    requires a <= b
    ensures a * d <= b * d
  {
  }

  lemma ModSmall(v: nat, m: nat)
    requires v < m
    ensures v % m == v
  {
    ModUnique(v, m, 0, v);
  }

  /** A value that fits its field is read back unchanged. */
  lemma BigEndianExact(n: nat, v: nat)
    requires v < Pow256(n)
    ensures FromBigEndian(BigEndian(n, v)) == v
  {
    BigEndianRoundTrip(n, v);
    ModSmall(v, Pow256(n));
  }

  lemma LittleEndianExact(n: nat, v: nat)
    requires v < Pow256(n)
    ensures FromLittleEndian(LittleEndian(n, v)) == v
  {
    LittleEndianRoundTrip(n, v);
    ModSmall(v, Pow256(n));
  }

  lemma TimesPower(a: nat, n: nat)
    requires n > 0
    ensures Pow256(n) * a == 256 * (Pow256(n - 1) * a)
    ensures a * Pow256(n) == 256 * (a * Pow256(n - 1))
  {
  }

  /** A number by its most significant byte. */
  lemma {:induction false} LeadingByte(s: seq<byte>)
    requires s != []
    ensures FromBigEndian(s) == s[0] * Pow256(|s| - 1) + FromBigEndian(s[1..])
  {
    if |s| == 1 {
      assert s[..0] == [];
    } else {
      var front := s[..|s| - 1];
      LeadingByte(front);
      assert s[1..][..|s| - 2] == front[1..];
      TimesPower(s[0], |s| - 1);
    }
  }
}
