/** What the converters of BENCH_minifloat.c guarantee, for every bit pattern. */
module MinifloatProofs {
  import opened Arith
  import opened Minifloat

  lemma FieldsOf(u: U32)
    ensures u == Sign32(u) * 0x8000_0000 + Exp32(u) * 0x80_0000 + Mant32(u)
    ensures Sign32(u) <= 1 && Exp32(u) <= 255 && Mant32(u) < 0x80_0000
  {
  }

  lemma FieldsFrom(s: nat, e: nat, m: nat)
    requires s <= 1 && e <= 255 && m < 0x80_0000
    ensures var u := s * 0x8000_0000 + e * 0x80_0000 + m;
            0 <= u < 0x1_0000_0000 && Sign32(u) == s && Exp32(u) == e && Mant32(u) == m
  {
  }

  /** For a normal result the code is the bit pattern rounded to the shorter mantissa, rebiased: the carry
      of the rounding runs into the exponent by itself. */
  lemma NormalCode(f: Format, u: U32)
    requires Sign32(u) == 0 && 1 <= Exp32(u) - f.Delta() < f.TopExp()
    ensures var r := (u + f.Step() / 2) / f.Step() - f.Delta() * f.MStep();
            && Narrow(f, u) == (if r >= f.TopExp() * f.MStep() then f.OverflowCode() else r)
            && r >= f.MStep()
  {
    FieldsOf(u);
    var rm := (Mant32(u) + f.Step() / 2) / f.Step();
    assert (u + f.Step() / 2) / f.Step() == Exp32(u) * f.MStep() + rm;
  }

  /** The denominators of the subnormal shift. */
  function SubShift(f: Format, d: nat): nat
    requires d <= 3
  {
    var e := if f.E4M3? then d else d + 1;
    if e == 0 then 0x20_0000 else if e == 1 then 0x40_0000 else if e == 2 then 0x80_0000 else 0x100_0000 * (e - 2)
  }

  /** Below the normal range the mantissa is cut off, not rounded. */
  lemma SubnormalCode(f: Format, u: U32)
    requires Sign32(u) == 0 && Exp32(u) <= f.Delta()
    ensures var c, d := Narrow(f, u), f.Delta() - Exp32(u);
            && 0 <= c < f.MStep()
            && (d > f.Msize() ==> c == 0)
            && (d <= f.Msize() ==> c == (Mant32(u) + 0x80_0000) / SubShift(f, d))
  {
    FieldsOf(u);
    SubnormalBranch(f, u);
    var d := f.Delta() - Exp32(u);
    hide Narrow, Sign32, Exp32, Mant32, Pow2;
    if d <= f.Msize() {
      ShiftIsPower(f, d);
      assert Mant32(u) + 0x80_0000 < SubShift(f, d) * f.MStep();
      hide SubShift;
      QuotientBelow(SubShift(f, d), Mant32(u) + 0x80_0000, f.MStep());
    }
  }

  lemma ShiftIsPower(f: Format, d: nat)
    requires d <= f.Msize()
    ensures Pow2(24 - f.Msize() + d) == SubShift(f, d)
  {
    PowTable();
  }

  lemma SubnormalBranch(f: Format, u: U32)
    requires Sign32(u) == 0 && Exp32(u) <= f.Delta()
    ensures var d := f.Delta() - Exp32(u);
            Narrow(f, u) == if d > f.Msize() then 0
                            else (Mant32(u) + 0x80_0000) / Pow2(24 - f.Msize() + d) % f.MStep()
  {
    FieldsOf(u);
    hide Sign32, Exp32, Mant32, Pow2;
  }

  lemma SubnormalRange(f: Format, u: U32)
    requires Sign32(u) == 0 && Exp32(u) <= f.Delta()
    ensures var c, d := Narrow(f, u), f.Delta() - Exp32(u);
            && (d == 0 ==> f.MStep() / 2 <= c < f.MStep())
            && (d == 1 ==> f.MStep() / 4 <= c < f.MStep() / 2)
            && (d == 2 ==> f.MStep() / 8 <= c <= f.MStep() / 8)
            && (d >= 3 ==> c == 0)
  {
    SubnormalCode(f, u);
    FieldsOf(u);
  }

  lemma PowTable()
    ensures Pow2(0) == 1 && Pow2(1) == 2 && Pow2(2) == 4
    ensures Pow2(20) == 0x10_0000 && Pow2(21) == 0x20_0000 && Pow2(22) == 0x40_0000 && Pow2(23) == 0x80_0000
    ensures Pow2(24) == 0x100_0000
  {
    assert Pow2(4) == 16;
    assert Pow2(8) == 256;
    assert Pow2(12) == 4096;
    assert Pow2(16) == 0x1_0000;
    assert Pow2(20) == 0x10_0000;
  }

  lemma OverflowsTo(f: Format, u: U32)
    requires Sign32(u) == 0 && Finite32(u) && Exp32(u) - f.Delta() >= f.TopExp()
    ensures Narrow(f, u) == f.OverflowCode()
  {
  }

  /** Narrowing is monotone on the non-negative finite numbers. */
  lemma NarrowMonotone(f: Format, u: U32, v: U32)
    requires u <= v < 0x7F80_0000
    ensures Narrow(f, u) <= Narrow(f, v)
  {
    hide Narrow;
    FieldsOf(u);
    FieldsOf(v);
    assert Sign32(u) == 0 == Sign32(v) && Exp32(u) <= Exp32(v) < 255;
    hide Pow2, SubShift, Sign32, Exp32, Mant32;
    if Exp32(v) <= f.Delta() {
      SubnormalCode(f, u);
      SubnormalCode(f, v);
      if Exp32(u) == Exp32(v) && f.Delta() - Exp32(u) <= f.Msize() {
        DivMono(Mant32(u) + 0x80_0000, Mant32(v) + 0x80_0000, SubShift(f, f.Delta() - Exp32(u)));
      } else {
        SubnormalRange(f, u);
        SubnormalRange(f, v);
      }
    } else if Exp32(v) - f.Delta() < f.TopExp() {
      NormalCode(f, v);
      if Exp32(u) <= f.Delta() {
        SubnormalCode(f, u);
      } else {
        NormalCode(f, u);
        DivMono(u + f.Step() / 2, v + f.Step() / 2, f.Step());
      }
    } else {
      OverflowsTo(f, v);
      if Exp32(u) <= f.Delta() {
        SubnormalCode(f, u);
      } else if Exp32(u) - f.Delta() < f.TopExp() {
        NormalCode(f, u);
      } else {
        OverflowsTo(f, u);
      }
    }
  }

  lemma CodeFields(f: Format, c: Byte)
    ensures c == Sign8(c) * 128 + Exp8(f, c) * f.MStep() + Mant8(f, c)
    ensures Sign8(c) <= 1 && Exp8(f, c) <= f.TopExp() && Mant8(f, c) < f.MStep()
  {
  }

  lemma StripSign32(u: U32)
    ensures var v := u % 0x8000_0000; Sign32(v) == 0 && Exp32(v) == Exp32(u) && Mant32(v) == Mant32(u)
  {
    FieldsOf(u);
    FieldsFrom(0, Exp32(u), Mant32(u));
  }

  lemma StripSign8(f: Format, c: Byte)
    ensures var d := c % 128; Sign8(d) == 0 && Exp8(f, d) == Exp8(f, c) && Mant8(f, d) == Mant8(f, c)
  {
    CodeFields(f, c);
  }

  /** Both directions treat the sign bit alone. */
  lemma SignSymmetry(f: Format, u: U32, c: Byte)
    ensures Narrow(f, u) == Sign32(u) * 128 + Narrow(f, u % 0x8000_0000)
    ensures Widen(f, c) == Sign8(c) * 0x8000_0000 + Widen(f, c % 128)
  {
    StripSign32(u);
    StripSign8(f, c);
    hide Pow2, Sign32, Exp32, Mant32, Sign8, Exp8, Mant8;
  }

  lemma WidenNormal(f: Format, c: Byte)
    requires c < 128 && 0 < Exp8(f, c) < f.TopExp()
    ensures var u := Widen(f, c);
            Sign32(u) == 0 && Exp32(u) == Exp8(f, c) + f.Delta() && Mant32(u) == Mant8(f, c) * f.Step()
  {
    CodeFields(f, c);
    FieldsFrom(0, Exp8(f, c) + f.Delta(), Mant8(f, c) * f.Step());
  }

  lemma WidenZero(f: Format, c: Byte)
    requires c == 0
    ensures Widen(f, c) == 0
  {
  }

  lemma NormalMagnitude(u: U32)
    requires Exp32(u) > 0
    ensures Value32(u) == (0x80_0000 + Mant32(u)) * Pow2(Exp32(u) - 1)
  {
  }

  /** The position of the leading bit of a subnormal mantissa. */
  function TopBit(m: nat): nat { if m >= 4 then 2 else if m >= 2 then 1 else 0 }

  lemma WidenSubnormal(f: Format, c: Byte)
    requires 0 < c < f.MStep()
    ensures var u, k := Widen(f, c), TopBit(c);
            && Sign32(u) == 0 && Exp32(u) == k + 1 + f.Delta() - f.Msize()
            && 0x80_0000 + Mant32(u) == c * (if k == 0 then 0x80_0000 else if k == 1 then 0x40_0000 else 0x20_0000)
  {
    CodeFields(f, c);
    var k := TopBit(c);
    assert Pow2(0) == 1 && Pow2(1) == 2 && Pow2(2) == 4;
    var mant := if k == 0 then 0 else if k == 1 then (c - 2) * 0x40_0000 else (c - 4) * 0x20_0000;
    assert Widen(f, c) == (k + 1 + f.Delta() - f.Msize()) * 0x80_0000 + mant;
    FieldsFrom(0, k + 1 + f.Delta() - f.Msize(), mant);
  }

  /** Narrowing undoes widening on every finite code, zeros, subnormals and both signs included. */
  lemma NarrowWiden(f: Format, c: Byte)
    requires Finite8(f, c)
    ensures Finite32(Widen(f, c)) && Narrow(f, Widen(f, c)) == c
  {
    hide Narrow, Widen, Pow2;
    var b: Byte := c % 128;
    NarrowWidenPositive(f, b);
    var u := Widen(f, b);
    assert u < 0x8000_0000;
    SignSymmetry(f, Widen(f, c), c);
    assert Widen(f, c) % 0x8000_0000 == u;
  }

  lemma NarrowWidenPositive(f: Format, c: Byte)
    requires c < 128 && Finite8(f, c)
    ensures Sign32(Widen(f, c)) == 0 && Finite32(Widen(f, c)) && Narrow(f, Widen(f, c)) == c
  {
    hide Narrow, Widen, Pow2;
    CodeFields(f, c);
    if Exp8(f, c) > 0 {
      WidenNormal(f, c);
      NarrowNormal(f, Widen(f, c), c);
    } else if c > 0 {
      WidenSubnormal(f, c);
      NarrowSubnormal(f, Widen(f, c), c);
    } else {
      WidenZero(f, c);
      SubnormalCode(f, 0);
    }
  }

  lemma NarrowNormal(f: Format, u: U32, c: Byte)
    requires c < 128 && 0 < Exp8(f, c) < f.TopExp()
    requires Sign32(u) == 0 && Exp32(u) == Exp8(f, c) + f.Delta() && Mant32(u) == Mant8(f, c) * f.Step()
    ensures Narrow(f, u) == c
  {
    hide Narrow, Pow2;
    FieldsOf(u);
    CodeFields(f, c);
    NormalCode(f, u);
    hide Sign32, Exp32, Mant32, Exp8, Mant8;
    assert (u + f.Step() / 2) / f.Step() == (Exp8(f, c) + f.Delta()) * f.MStep() + Mant8(f, c);
  }

  lemma NarrowSubnormal(f: Format, u: U32, c: Byte)
    requires 0 < c < f.MStep()
    requires Sign32(u) == 0 && Exp32(u) == TopBit(c) + 1 + f.Delta() - f.Msize()
    requires 0x80_0000 + Mant32(u)
             == c * (if TopBit(c) == 0 then 0x80_0000 else if TopBit(c) == 1 then 0x40_0000 else 0x20_0000)
    ensures Narrow(f, u) == c
  {
    SubnormalCode(f, u);
    hide Narrow, Pow2, Sign32, Exp32, Mant32;
    assert SubShift(f, f.Msize() - 1 - TopBit(c))
      == if TopBit(c) == 0 then 0x80_0000 else if TopBit(c) == 1 then 0x40_0000 else 0x20_0000;
  }

  // ----- values -----

  /** The table entry has exactly the value of the code, and its sign. */
  lemma WidenExact(f: Format, c: Byte)
    requires Finite8(f, c)
    ensures Sign32(Widen(f, c)) == Sign8(c)
    ensures Value32(Widen(f, c)) == Value8(f, c) * Unit(f)
  {
    hide Widen, Pow2, Value32, Value8, Unit;
    NarrowWidenPositive(f, c % 128);
    SignSymmetry(f, 0, c);
    WidenExactPositive(f, c % 128);
    SameMagnitude(f, c);
  }

  lemma SameMagnitude(f: Format, c: Byte)
    requires Sign32(Widen(f, c % 128)) == 0 && Widen(f, c) == Sign8(c) * 0x8000_0000 + Widen(f, c % 128)
    ensures Sign32(Widen(f, c)) == Sign8(c)
    ensures Value32(Widen(f, c)) == Value32(Widen(f, c % 128))
    ensures Value8(f, c) == Value8(f, c % 128)
  {
    hide Widen, Pow2;
    StripSign8(f, c);
    var u := Widen(f, c);
    StripSign32(u);
    FieldsOf(u);
    assert u % 0x8000_0000 == Widen(f, c % 128);
    hide Sign32, Exp32, Mant32, Sign8, Exp8, Mant8;
  }

  lemma WidenExactPositive(f: Format, c: Byte)
    requires c < 128 && Finite8(f, c)
    ensures Value32(Widen(f, c)) == Value8(f, c) * Unit(f)
  {
    hide Widen, Pow2;
    CodeFields(f, c);
    var e, m := Exp8(f, c), Mant8(f, c);
    if e > 0 {
      WidenNormal(f, c);
      NormalValue(f, e, m);
    } else if c > 0 {
      WidenSubnormal(f, c);
      SubnormalValue(f, c);
    } else {
      WidenZero(f, c);
    }
  }

  lemma UnitFactors(f: Format)
    ensures Unit(f) == Pow2(f.Delta()) * f.Step()
  {
    PowTable();
    Pow2Add(f.Delta(), 23 - f.Msize());
  }

  lemma NormalValue(f: Format, e: nat, m: nat)
    requires e > 0
    ensures (0x80_0000 + m * f.Step()) * Pow2(e + f.Delta() - 1) == (f.MStep() + m) * Pow2(e - 1) * Unit(f)
  {
    hide Pow2;
    Pow2Add(e - 1, f.Delta());
    UnitFactors(f);
    assert 0x80_0000 + m * f.Step() == (f.MStep() + m) * f.Step();
    Regroup(f.MStep() + m, f.Step(), Pow2(e - 1), Pow2(f.Delta()));
  }

  lemma Regroup(a: nat, b: nat, x: nat, y: nat)
    ensures (a * b) * (x * y) == (a * x) * (y * b)
  {
    assert (a * b) * (x * y) == a * (b * (x * y)) == a * (x * (y * b));
  }

  lemma SubnormalValue(f: Format, m: nat)
    requires 0 < m < f.MStep()
    ensures var k := TopBit(m);
            m * (if k == 0 then 0x80_0000 else if k == 1 then 0x40_0000 else 0x20_0000)
              * Pow2(k + f.Delta() - f.Msize())
            == m * Unit(f)
  {
    PowTable();
    hide Pow2;
    var k := TopBit(m);
    Pow2Add(23 - k, k + f.Delta() - f.Msize());
    assert 23 - k + (k + f.Delta() - f.Msize()) == 150 - f.Bias() - f.Msize();
    assert (m * Pow2(23 - k)) * Pow2(k + f.Delta() - f.Msize()) == m * (Pow2(23 - k) * Pow2(k + f.Delta() - f.Msize()));
  }

  /** Bit patterns of non-negative finite numbers are ordered as their values: so a value has one pattern, and
      the table entry of a code is determined by WidenExact. */
  lemma ValueStrictlyMonotone(u: U32, v: U32)
    requires u < v < 0x7F80_0000
    ensures Value32(u) < Value32(v)
  {
    FieldsOf(u);
    FieldsOf(v);
    assert Exp32(u) <= Exp32(v);
    hide Pow2, Sign32, Exp32, Mant32;
    if Exp32(u) == Exp32(v) {
      assert Mant32(u) < Mant32(v);
      if Exp32(u) > 0 {
        StrictMul(0x80_0000 + Mant32(u), 0x80_0000 + Mant32(v), Pow2(Exp32(u) - 1));
      }
    } else {
      ValueBelow(u);
      PowMono(Exp32(u), Exp32(v) - 1);
      StrictMul2(0x80_0000, 0x80_0000 + Mant32(v), Pow2(Exp32(v) - 1));
    }
  }

  lemma StrictMul(a: nat, b: nat, p: nat)
    requires a < b && p >= 1
    ensures a * p < b * p
  {
  }

  lemma StrictMul2(a: nat, b: nat, p: nat)
    requires a <= b
    ensures a * p <= b * p
  {
  }

  lemma ValueBelow(u: U32)
    ensures Value32(u) < 0x80_0000 * Pow2(Exp32(u))
  {
    FieldsOf(u);
    if Exp32(u) == 0 {
      assert Pow2(0) == 1;
    } else {
      assert Pow2(Exp32(u)) == 2 * Pow2(Exp32(u) - 1);
      hide Pow2, Sign32, Exp32, Mant32;
      StrictMul(0x80_0000 + Mant32(u), 0x100_0000, Pow2(Exp32(u) - 1));
    }
  }

  lemma {:induction false} PowMono(a: nat, b: nat)
    requires a <= b
    ensures Pow2(a) <= Pow2(b)
  {
    if a < b {
      PowMono(a, b - 1);
    }
  }

  /** The first bit pattern that overflows: half a step below the top exponent. */
  function Limit(f: Format): nat
  {
    (f.TopExp() + f.Delta()) * 0x80_0000 - f.Step() / 2
  }

  /** The spacing of codes around a normal number, in multiples of 2^-149. */
  function Spacing(f: Format, u: U32): nat
    requires Exp32(u) > 0
  {
    f.Step() * Pow2(Exp32(u) - 1)
  }

  /** Infinities and NaN keep their sign and never become finite; E5M2 also keeps them apart. */
  lemma NarrowSpecial(f: Format, u: U32)
    requires !Finite32(u)
    ensures var c := Narrow(f, u);
            && !Finite8(f, c) && Sign8(c) == Sign32(u)
            && (f.E5M2? ==> (Mant8(f, c) == 0 <==> Mant32(u) == 0))
  {
    FieldsOf(u);
    hide Pow2, Sign32, Exp32, Mant32;
  }

  /** The overflow code is the largest finite code of E4M3, and the infinity of E5M2. */
  lemma OverflowMeaning(f: Format, c: Byte)
    requires c < 128
    ensures f.E4M3? ==> (Finite8(f, c) <==> c <= f.OverflowCode())
    ensures f.E5M2? ==> Exp8(f, f.OverflowCode()) == f.TopExp() && Mant8(f, f.OverflowCode()) == 0
  {
    CodeFields(f, c);
  }

  /** From the limit on, every finite number goes to the overflow code. */
  lemma Saturates(f: Format, u: U32)
    requires Limit(f) <= u < 0x7F80_0000
    ensures Narrow(f, u) == f.OverflowCode()
  {
    FieldsOf(u);
    hide Narrow, Pow2;
    if Exp32(u) - f.Delta() < f.TopExp() {
      NormalCode(f, u);
    } else {
      OverflowsTo(f, u);
    }
  }

  /** Below the limit a normal number goes to a finite code at most half a spacing away, ties upwards. */
  lemma NormalError(f: Format, u: U32)
    requires u < Limit(f) && Exp32(u) > f.Delta()
    ensures Sign32(u) == 0 && Finite32(u) && Finite8(f, Narrow(f, u))
    ensures var off := Value8(f, Narrow(f, u)) * Unit(f) - Value32(u);
            0 < 2 * off + Spacing(f, u) && 2 * off <= Spacing(f, u)
  {
    hide Narrow, Pow2, Value8, Value32, Unit;
    FieldsOf(u);
    var rm := (Mant32(u) + f.Step() / 2) / f.Step();
    var e := Exp32(u) - f.Delta();
    NormalCode(f, u);
    RoundedValue(f, e, rm, Narrow(f, u)) by {
      hide Sign32, Exp32, Mant32, Exp8, Mant8;
      assert (u + f.Step() / 2) / f.Step() == Exp32(u) * f.MStep() + rm;
    }
    NormalDistance(f, Exp32(u), Mant32(u), rm);
    NormalMagnitude(u);
  }

  lemma RoundedValue(f: Format, e: nat, rm: nat, c: Byte)
    requires e > 0 && rm <= f.MStep()
    requires c == e * f.MStep() + rm && c < f.TopExp() * f.MStep()
    ensures Finite8(f, c) && Value8(f, c) == (f.MStep() + rm) * Pow2(e - 1)
  {
    assert Pow2(e) == 2 * Pow2(e - 1);
    hide Pow2;
    if rm == f.MStep() {
      assert Exp8(f, c) == e + 1 && Mant8(f, c) == 0;
    } else {
      assert Exp8(f, c) == e && Mant8(f, c) == rm;
    }
  }

  lemma NormalDistance(f: Format, exp: nat, mant: nat, rm: nat)
    requires exp > f.Delta() && mant < 0x80_0000 && rm == (mant + f.Step() / 2) / f.Step()
    ensures var off := (f.MStep() + rm) * Pow2(exp - f.Delta() - 1) * Unit(f) - (0x80_0000 + mant) * Pow2(exp - 1);
            0 < 2 * off + f.Step() * Pow2(exp - 1) && 2 * off <= f.Step() * Pow2(exp - 1)
  {
    hide Pow2, Unit;
    NormalValue(f, exp - f.Delta(), rm);
    var o := rm * f.Step() - mant;
    assert 0 < 2 * o + f.Step() && 2 * o <= f.Step();
    ScaleBounds(f.Step(), 2 * o, Pow2(exp - 1));
    Difference(rm * f.Step(), mant, Pow2(exp - 1));
  }

  lemma Difference(a: int, b: int, p: int)
    ensures 2 * ((0x80_0000 + a) * p - (0x80_0000 + b) * p) == 2 * (a - b) * p
  {
  }

  lemma ScaleBounds(s: nat, o: int, p: nat)
    requires 0 < o + s && o <= s && p >= 1
    ensures 0 < o * p + s * p && o * p <= s * p
  {
    assert o * p + s * p == (o + s) * p;
  }

  /** At or below the least normal exponent the value is cut off to a multiple of the least subnormal. */
  lemma SubnormalError(f: Format, u: U32)
    requires u < 0x8000_0000 && Exp32(u) <= f.Delta()
    ensures 0 <= Value32(u) - Value8(f, Narrow(f, u)) * Unit(f) < Unit(f)
  {
    hide Narrow, Pow2, Value8, Value32, Unit, SubShift;
    FieldsOf(u);
    SubnormalCode(f, u);
    var c, d := Narrow(f, u), f.Delta() - Exp32(u);
    SmallCode(f, c);
    hide Sign32, Exp32, Mant32;
    if d <= f.Msize() {
      NormalMagnitude(u);
      CutOff(f, d, 0x80_0000 + Mant32(u));
    } else {
      TinyValue(f, u);
    }
  }

  lemma SmallCode(f: Format, c: Byte)
    requires c < f.MStep()
    ensures Value8(f, c) == c
  {
    hide Pow2;
    assert c % 128 == c;
    if f.E4M3? {
      assert c / 8 == 0 && c % 8 == c;
    } else {
      assert c / 4 == 0 && c % 4 == c;
    }
  }

  lemma TinyValue(f: Format, u: U32)
    requires f.Delta() - Exp32(u) > f.Msize()
    ensures Value32(u) < Unit(f)
  {
    ValueBelow(u);
    PowTable();
    hide Pow2, Value32;
    Pow2Add(23, Exp32(u));
    PowMono(23 + Exp32(u), 150 - f.Bias() - f.Msize());
  }

  lemma CutOff(f: Format, d: nat, n: nat)
    requires d <= f.Msize()
    ensures 0 <= n * Pow2(f.Delta() - d - 1) - n / SubShift(f, d) * Unit(f) < Unit(f)
  {
    PowTable();
    assert Pow2(24 - f.Msize() + d) == SubShift(f, d);
    Pow2Add(24 - f.Msize() + d, f.Delta() - d - 1);
    assert Unit(f) == Pow2(24 - f.Msize() + d) * Pow2(f.Delta() - d - 1);
    hide Pow2, SubShift, Unit;
    Floor(n, SubShift(f, d), Pow2(f.Delta() - d - 1));
  }

  lemma Floor(n: nat, s: nat, p: nat)
    requires s >= 1 && p >= 1
    ensures 0 <= n * p - n / s * (s * p) < s * p
  {
    var q, r := n / s, n % s;
    assert n == q * s + r;
    assert n * p == q * (s * p) + r * p;
    StrictMul(r, s, p);
  }

  // ----- the arithmetic of the table builder -----

  function Exp2(e: int): real
    decreases if e < 0 then -e else e
  {
    if e == 0 then 1.0 else if e > 0 then 2.0 * Exp2(e - 1) else Exp2(e + 1) / 2.0
  }

  /** build_widen_lut's formula for the magnitude of a finite code; every step of it is exact in binary32. */
  function Formula(f: Format, c: Byte): real
  {
    var fraction := Mant8(f, c) as real / f.MStep() as real;
    if Exp8(f, c) == 0 then fraction * Exp2(1 - f.Bias()) else (1.0 + fraction) * Exp2(Exp8(f, c) - f.Bias())
  }

  /** The magnitude of a finite binary32 number. */
  function RealValue(u: U32): real
  {
    Value32(u) as real * Exp2(-149)
  }

  lemma {:induction false} Exp2Up(e: int)
    ensures Exp2(e + 1) == 2.0 * Exp2(e)
  {
  }

  lemma {:induction false} Exp2Add(a: nat, e: int)
    ensures Pow2(a) as real * Exp2(e) == Exp2(e + a)
  {
    if a > 0 {
      Exp2Add(a - 1, e);
      Exp2Up(e + a - 1);
      assert Pow2(a) as real == 2.0 * Pow2(a - 1) as real;
      RealAssociates(2.0, Pow2(a - 1) as real, Exp2(e));
    }
  }

  lemma RealAssociates(x: real, y: real, z: real)
    ensures (x * y) * z == x * (y * z)
  {
  }

  lemma RealProduct(a: nat, b: nat)
    ensures (a * b) as real == a as real * b as real
  {
  }

  lemma RealDivide(a: real, d: real, z: real)
    requires d != 0.0
    ensures (a / d) * (d * z) == a * z
  {
    assert (a / d) * d == a;
    RealAssociates(a / d, d, z);
  }

  /** The table entry of a finite code has the value of the formula. */
  lemma WidenIsFormula(f: Format, c: Byte)
    requires Finite8(f, c)
    ensures RealValue(Widen(f, c)) == Formula(f, c)
  {
    hide Widen, Pow2, Value32, Value8, Exp2, Unit;
    WidenExact(f, c);
    UnitReal(f);
    RealProduct(Value8(f, c), Unit(f));
    RealAssociates(Value8(f, c) as real, Unit(f) as real, Exp2(-149));
    CodeReal(f, c);
  }

  lemma UnitReal(f: Format)
    ensures Unit(f) as real * Exp2(-149) == Exp2(1 - f.Bias() - f.Msize())
  {
    hide Pow2, Exp2;
    Exp2Add(150 - f.Bias() - f.Msize(), -149);
  }

  lemma StepReal(f: Format, e: int)
    ensures f.MStep() as real * Exp2(e - f.Msize()) == Exp2(e)
  {
    PowTable();
    assert Pow2(3) == 8;
    hide Pow2, Exp2;
    Exp2Add(f.Msize(), e - f.Msize());
  }

  lemma CodeReal(f: Format, c: Byte)
    ensures Value8(f, c) as real * Exp2(1 - f.Bias() - f.Msize()) == Formula(f, c)
  {
    hide Pow2, Exp2, Exp8, Mant8;
    var e, m := Exp8(f, c), Mant8(f, c);
    if e == 0 {
      StepReal(f, 1 - f.Bias());
      RealDivide(m as real, f.MStep() as real, Exp2(1 - f.Bias() - f.Msize()));
    } else {
      Exp2Add(e - 1, 1 - f.Bias() - f.Msize());
      StepReal(f, e - f.Bias());
      RealProduct(f.MStep() + m, Pow2(e - 1));
      RealAssociates((f.MStep() + m) as real, Pow2(e - 1) as real, Exp2(1 - f.Bias() - f.Msize()));
      assert (1 - f.Bias() - f.Msize()) + (e - 1) == e - f.Bias() - f.Msize();
      assert 1.0 + m as real / f.MStep() as real == (f.MStep() + m) as real / f.MStep() as real;
      RealDivide((f.MStep() + m) as real, f.MStep() as real, Exp2(e - f.Bias() - f.Msize()));
    }
  }

  /** The formats are those of the table of formats: one, the largest finite number (240 and 57344) and the least
      subnormal (2^-9 and 2^-16), as binary32 patterns, in both directions. */
  lemma Landmarks()
    ensures Widen(E4M3, 0x38) == 0x3F80_0000 && Narrow(E4M3, 0x3F80_0000) == 0x38
    ensures Widen(E4M3, 0x77) == 0x4370_0000 && Narrow(E4M3, 0x4370_0000) == 0x77
    ensures Widen(E4M3, 0x01) == 0x3B00_0000 && Narrow(E4M3, 0x3B00_0000) == 0x01
    ensures Widen(E5M2, 0x3C) == 0x3F80_0000 && Narrow(E5M2, 0x3F80_0000) == 0x3C
    ensures Widen(E5M2, 0x7B) == 0x4760_0000 && Narrow(E5M2, 0x4760_0000) == 0x7B
    ensures Widen(E5M2, 0x01) == 0x3780_0000 && Narrow(E5M2, 0x3780_0000) == 0x01
  {
    E4M3Landmarks();
    E5M2Landmarks();
    hide Widen, Narrow;
    assert Finite8(E4M3, 0x38) && Finite8(E4M3, 0x77) && Finite8(E4M3, 0x01);
    assert Finite8(E5M2, 0x3C) && Finite8(E5M2, 0x7B) && Finite8(E5M2, 0x01);
    NarrowWiden(E4M3, 0x38);
    NarrowWiden(E4M3, 0x77);
    NarrowWiden(E4M3, 0x01);
    NarrowWiden(E5M2, 0x3C);
    NarrowWiden(E5M2, 0x7B);
    NarrowWiden(E5M2, 0x01);
  }

  lemma E4M3Landmarks()
    ensures Widen(E4M3, 0x38) == 0x3F80_0000 && Widen(E4M3, 0x77) == 0x4370_0000 && Widen(E4M3, 0x01) == 0x3B00_0000
  {
  }

  lemma E5M2Landmarks()
    ensures Widen(E5M2, 0x3C) == 0x3F80_0000 && Widen(E5M2, 0x7B) == 0x4760_0000 && Widen(E5M2, 0x01) == 0x3780_0000
  {
  }
}
