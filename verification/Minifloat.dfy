/** The 8-bit float converters of BENCH_minifloat.c.  Values are exact: a finite binary32 or 8-bit number is
    an integer multiple of 2^-149, the least positive binary32 number. */
module Minifloat {

  function Pow2(n: nat): (p: nat)
    ensures p >= 1
  {
    if n == 0 then 1 else 2 * Pow2(n - 1)
  }

  lemma {:induction false} Pow2Add(a: nat, b: nat)
    ensures Pow2(a + b) == Pow2(a) * Pow2(b)
  {
    if a > 0 {
      Pow2Add(a - 1, b);
    }
  }

  /** The two formats.  With `saturates` the top exponent is all NaN and overflow goes to the largest
      finite code (E4M3); without, the top exponent is infinity and NaN as in IEEE 754 (E5M2). */
  datatype Format = E4M3 | E5M2
  {
    function Msize(): int { if E4M3? then 3 else 2 }
    function Bias(): nat { if E4M3? then 7 else 15 }
    function TopExp(): nat { if E4M3? then 15 else 31 }
    function NanCode(): nat { 0x7F }
    function OverflowCode(): nat { if E4M3? then 0x77 else 0x7C }
    // 2^Msize, and the number of binary32 mantissa steps in one of this format
    function MStep(): nat { if E4M3? then 8 else 4 }
    function Step(): nat { if E4M3? then 0x100000 else 0x200000 }
    // difference of the exponent biases
    function Delta(): nat { 127 - Bias() }
  }

  type U32 = u: int | 0 <= u < 0x1_0000_0000
  type Byte = c: int | 0 <= c < 256

  function Sign32(u: U32): nat { u / 0x8000_0000 }
  function Exp32(u: U32): nat { u / 0x80_0000 % 256 }
  function Mant32(u: U32): nat { u % 0x80_0000 }

  function Sign8(c: Byte): nat { c / 128 }
  function Exp8(f: Format, c: Byte): nat { c % 128 / f.MStep() }
  function Mant8(f: Format, c: Byte): nat { c % f.MStep() }

  predicate Finite32(u: U32) { Exp32(u) < 255 }
  predicate Finite8(f: Format, c: Byte) { Exp8(f, c) < f.TopExp() }

  /** f32_to_f8e4m3 and f32_to_f8e5m2. */
  function Narrow(f: Format, u: U32): (c: Byte)
  {
    var sign, exp, mant := Sign32(u), Exp32(u), Mant32(u);
    if exp == 0xFF then
      if f.E5M2? && mant == 0 then sign * 128 + 0x7C else sign * 128 + f.NanCode()
    else
      var adj := exp - f.Delta();
      if adj >= f.TopExp() then sign * 128 + f.OverflowCode()
      else if adj <= 0 then
        if exp == 0 || adj < -f.Msize() then sign * 128
        else sign * 128 + (mant + 0x80_0000) / Pow2(24 - f.Msize() - adj) % f.MStep()
      else
        var rm := (mant + f.Step() / 2) / f.Step();
        var e8 := adj + rm / f.MStep();
        if e8 >= f.TopExp() then sign * 128 + f.OverflowCode()
        else sign * 128 + e8 * f.MStep() + rm % f.MStep()
  }

  /** One entry of the widening table, as a binary32 bit pattern. */
  function Widen(f: Format, c: Byte): (u: U32)
  {
    var sign, exp, mant := Sign8(c), Exp8(f, c), Mant8(f, c);
    var s := sign * 0x8000_0000;
    if exp == f.TopExp() then
      if f.E5M2? && mant == 0 then s + 0x7F80_0000 else s + 0x7FC0_0000
    else if exp > 0 then s + (exp + f.Delta()) * 0x80_0000 + mant * f.Step()
    else if mant == 0 then s
    else
      // a subnormal code is a normal binary32 number
      var k := if mant >= 4 then 2 else if mant >= 2 then 1 else 0;
      s + (k + 1 + f.Delta() - f.Msize()) * 0x80_0000 + (mant - Pow2(k)) * (0x80_0000 / Pow2(k))
  }

  // ----- values -----

  /** The magnitude of a finite binary32 number, in multiples of 2^-149. */
  function Value32(u: U32): nat
  {
    if Exp32(u) == 0 then Mant32(u) else (0x80_0000 + Mant32(u)) * Pow2(Exp32(u) - 1)
  }

  /** The magnitude of a finite code, in multiples of the least subnormal of its format. */
  function Value8(f: Format, c: Byte): nat
  {
    if Exp8(f, c) == 0 then Mant8(f, c) else (f.MStep() + Mant8(f, c)) * Pow2(Exp8(f, c) - 1)
  }

  /** The least subnormal of the format, in multiples of 2^-149: 2^(1 - bias - msize + 149). */
  function Unit(f: Format): nat
  {
    Pow2(150 - f.Bias() - f.Msize())
  }
}
