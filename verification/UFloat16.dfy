/**
 The 16-bit unsigned float of ack delays: 11 mantissa bits with a hidden twelfth,
 5 exponent bits.
 */
module UFloat16 {
  import opened Bytes

  const MAX_VALUE: nat := 0x3FFC0000000

  function Pow2(e: nat): (r: nat)
    ensures r > 0
  {
    if e == 0 then 1 else 2 * Pow2(e - 1)
  }

  /** The number of low bits that do not fit the twelve significant ones. */
  function Exponent(v: nat): (e: nat)
    ensures v < 4096 <==> e == 0
  {
    if v < 4096 then 0 else 1 + Exponent(v / 2)
  }

  function Encode(v: nat): (w: nat)
  {
    if v < 4096 then v
    else if v >= MAX_VALUE then 65535
    else v / Pow2(Exponent(v)) + 2048 * Exponent(v)
  }

  function Decode(w: nat): (v: nat)
    requires w < 65536
  {
    if w < 4096 then w
    else
      var e := w / 2048 - 1;
      (w - 2048 * e) * Pow2(e)
  }

  lemma DivTwice(v: nat, d: nat)
    requires d > 0
    ensures v / (2 * d) == (v / 2) / d
  {
    var q, r := (v / 2) / d, (v / 2) % d;
    assert v == (2 * d) * q + (2 * r + v % 2) by {
      assert v / 2 == d * q + r;
      assert 2 * (d * q) == (2 * d) * q;
    }
    ModUnique(v, 2 * d, q, 2 * r + v % 2);
  }

  /** The shifted value always has its top bit in position 11. */
  lemma {:induction false} ShiftedMantissa(v: nat)
    requires v >= 4096
    ensures 2048 <= v / Pow2(Exponent(v)) < 4096
  {
    DivTwice(v, Pow2(Exponent(v / 2)));
    if v / 2 < 4096 {
      assert Exponent(v / 2) == 0;
    } else {
      ShiftedMantissa(v / 2);
    }
  }

  lemma {:induction false} ExponentBelow(v: nat, e: nat)
    requires v < 4096 * Pow2(e)
    ensures Exponent(v) <= e
  {
    if v >= 4096 {
      ExponentBelow(v / 2, e - 1);
    }
  }

  lemma {:induction false} ExponentOf(m: nat, e: nat)
    requires 2048 <= m < 4096 && e > 0
    ensures m * Pow2(e) >= 4096 && Exponent(m * Pow2(e)) == e
  {
    assert m * Pow2(e) == 2 * (m * Pow2(e - 1));
    if e == 1 {
      assert Pow2(1) == 2 && Exponent(m) == 0;
    } else {
      ExponentOf(m, e - 1);
    }
  }

  lemma Pow2Values()
    ensures Pow2(30) == 0x4000_0000
  {
    assert Pow2(5) == 32;
    assert Pow2(10) == 1024;
    assert Pow2(15) == 32768;
    assert Pow2(20) == 1048576;
    assert Pow2(25) == 33554432;
  }

  lemma WordExponent(w: nat, m: nat, e: nat)
    requires 2048 <= m < 4096 && w == m + 2048 * e
    ensures w / 2048 == e + 1
  {
    ModUnique(w, 2048, e + 1, m - 2048);
  }

  lemma DecodeOf(w: nat, m: nat, e: nat)
    requires 2048 <= m < 4096 && 1 <= e <= 30 && w == m + 2048 * e && w < 65536
    ensures Decode(w) == m * Pow2(e)
  {
    WordExponent(w, m, e);
  }

  lemma QuotientAndRest(v: nat, d: nat)
    requires d > 0
    ensures v / d * d == v - v % d
  {
  }

  lemma EncodeThenDecodeNormal(v: nat)
    requires 4096 <= v < MAX_VALUE
    ensures Encode(v) < 65536 && Decode(Encode(v)) == RoundedDown(v)
  {
    Pow2Values();
    ExponentBelow(v, 30);
    ShiftedMantissa(v);
    hide Decode, Exponent, Pow2;
    var e := Exponent(v);
    DecodeOf(Encode(v), v / Pow2(e), e);
    QuotientAndRest(v, Pow2(e));
  }

  /** What is lost is less than one part in 2048. */
  lemma DroppedBits(v: nat)
    ensures 2048 * (v % Pow2(Exponent(v))) <= v
    ensures v < 4096 ==> v % Pow2(Exponent(v)) == 0
  {
    if v < 4096 {
      assert v % Pow2(0) == 0;
    } else {
      ShiftedMantissa(v);
      var d := Pow2(Exponent(v));
      QuotientAndRest(v, d);
      MulMono(2048, v / d, d);
    }
  }

  /** The value with twelve significant bits. */
  function RoundedDown(v: nat): (r: nat)
    ensures r <= v && 2048 * (v - r) <= v && (v < 4096 ==> r == v)
  {
    DroppedBits(v);
    v - v % Pow2(Exponent(v))
  }

  /** Encoding a value below the maximum and decoding it drops the low bits and nothing else. */
  lemma EncodeThenDecode(v: nat)
    ensures Encode(v) < 65536
    ensures v < MAX_VALUE ==> Decode(Encode(v)) == RoundedDown(v)
    ensures v >= MAX_VALUE ==> Decode(Encode(v)) == MAX_VALUE
  {
    if v < 4096 {
      assert v % Pow2(0) == 0;
    } else if v < MAX_VALUE {
      EncodeThenDecodeNormal(v);
    } else {
      Pow2Values();
      assert 65535 / 2048 == 31;
    }
  }

  /** Every 16-bit word is the encoding of the value it decodes to. */
  lemma DecodeThenEncode(w: nat)
    requires w < 65536
    ensures Encode(Decode(w)) == w
  {
    Pow2Values();
    if w >= 4096 {
      var e := w / 2048 - 1;
      var m := w - 2048 * e;
      assert 2048 <= m < 4096 && 1 <= e <= 30;
      ExponentOf(m, e);
      if m * Pow2(e) >= MAX_VALUE {
        TopWord(m, e);
      } else {
        ModUnique(m * Pow2(e), Pow2(e), m, 0);
      }
    }
  }

  lemma {:induction false} Pow2Monotone(a: nat, b: nat)
    requires a <= b
    ensures Pow2(a) <= Pow2(b)
  {
    if a < b {
      Pow2Monotone(a, b - 1);
    }
  }

  lemma TopWord(m: nat, e: nat)
    requires m < 4096 && e <= 30 && m * Pow2(e) >= MAX_VALUE
    ensures m == 4095 && e == 30
  {
    Pow2Values();
    MulMono(m, 4095, Pow2(e));
    if e < 30 {
      Pow2Monotone(e, 29);
    }
  }

  /** The writer's loop: shifts by 16, 8, 4, 2 and 1 whenever the value stays at or above 2^11. */
  method EncodeByShifting(input: nat) returns (w: nat)
    ensures w == Encode(input) && w < 65536
  {
    EncodeThenDecode(input);
    if input < 4096 {
      return input;
    }
    if input >= MAX_VALUE {
      return 65535;
    }
    var value, exponent, offset := input, 0, 16;
    Pow2Values();
    assert Pow2(32) == 4 * Pow2(30) && Pow2(31) == 2 * Pow2(30);
    while offset > 0
      invariant offset in {16, 8, 4, 2, 1, 0}
      invariant value >= 2048
      invariant offset > 0 ==> value < 2048 * Pow2(2 * offset)
      invariant offset == 0 ==> value < 4096
      invariant value == input / Pow2(exponent)
      decreases offset
    {
      Pow2Add(offset, offset);
      if value >= 2048 * Pow2(offset) {
        DivDiv(input, exponent, offset);
        DivBounds(value, 2048, Pow2(offset));
        exponent, value := exponent + offset, value / Pow2(offset);
      }
      assert Pow2(1) == 2;
      offset := offset / 2;
    }
    ExponentUnique(input, exponent);
    w := value + 2048 * exponent;
  }

  lemma {:induction false} Pow2Add(a: nat, b: nat)
    ensures Pow2(a + b) == Pow2(a) * Pow2(b)
  {
    if a > 0 {
      Pow2Add(a - 1, b);
      assert Pow2(a) * Pow2(b) == 2 * (Pow2(a - 1) * Pow2(b));
    }
  }

  lemma {:induction false} DivDiv(v: nat, a: nat, b: nat)
    ensures v / Pow2(a) / Pow2(b) == v / Pow2(a + b)
  {
    if a > 0 {
      DivTwice(v, Pow2(a - 1));
      DivTwice(v, Pow2(a - 1 + b));
      DivDiv(v / 2, a - 1, b);
    }
  }

  lemma DivAtLeast(v: nat, lo: nat, d: nat)
    requires d > 0 && lo * d <= v
    ensures lo <= v / d
  {
    QuotientAndRest(v, d);
    if v / d < lo {
      MulMono(v / d + 1, lo, d);
    }
  }

  lemma DivBelow(v: nat, hi: nat, d: nat)
    requires d > 0 && v < hi * d
    ensures v / d < hi
  {
    QuotientAndRest(v, d);
    if v / d >= hi {
      MulMono(hi, v / d, d);
    }
  }

  lemma DivBounds(v: nat, lo: nat, d: nat)
    requires d > 0 && lo * d <= v < lo * (d * d)
    ensures lo <= v / d < lo * d
  {
    DivAtLeast(v, lo, d);
    assert lo * (d * d) == (lo * d) * d;
    DivBelow(v, lo * d, d);
  }

  lemma DivShrinks(v: nat, d: nat)
    requires d > 0
    ensures v / d <= v
  {
    assert v == d * (v / d) + v % d;
    MulMono(1, d, v / d);
  }

  lemma {:induction false} ExponentUnique(v: nat, e: nat)
    requires v >= 4096 && 2048 <= v / Pow2(e) < 4096
    ensures e == Exponent(v)
  {
    assert e > 0;
    DivTwice(v, Pow2(e - 1));
    if v / 2 >= 4096 {
      ExponentUnique(v / 2, e - 1);
    } else if e > 1 {
      DivTwice(v / 2, Pow2(e - 2));
      DivShrinks(v / 4, Pow2(e - 2));
    }
  }
}
