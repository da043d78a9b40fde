/** The conversion callbacks of BENCH_minifloat.c on one shared buffer: source and destination overlap, so
    narrowing runs upwards and widening downwards. */
module MinifloatBuffer {
  import opened Minifloat
  import opened MinifloatProofs

  function Join(a: int, b: int, c: int, d: int): int
  {
    a + 0x100 * b + 0x1_0000 * c + 0x100_0000 * d
  }

  /** The i-th 32-bit word of a little-endian buffer. */
  function Word(s: seq<Byte>, i: nat): U32
    requires 4 * i + 4 <= |s|
  {
    Join(s[4 * i], s[4 * i + 1], s[4 * i + 2], s[4 * i + 3])
  }

  /** t holds at element i the table entry of byte i of s, for the first n elements. */
  ghost predicate IsWidened(f: Format, s: seq<Byte>, t: seq<Byte>, n: nat)
  {
    && |t| == |s| && 4 * n <= |s|
    && (forall i :: 0 <= i < n ==> Word(t, i) == Widen(f, s[i]))
    && (forall j :: 4 * n <= j < |s| ==> t[j] == s[j])
  }

  /** t holds at byte i the code of word i of s, for the first n elements. */
  ghost predicate IsNarrowed(f: Format, s: seq<Byte>, t: seq<Byte>, n: nat)
  {
    && |t| == |s| && 4 * n <= |s|
    && (forall i :: 0 <= i < n ==> t[i] == Narrow(f, Word(s, i)))
    && (forall j :: n <= j < |s| ==> t[j] == s[j])
  }

  /** build_widen_lut: every finite code gets its sign and the value of the formula, the top exponent infinity or
      NaN.  The entry is stored as the bit pattern that has this value. */
  method BuildWidenLut(f: Format) returns (lut: array<U32>)
    ensures fresh(lut) && lut.Length == 256
    ensures forall c: Byte :: lut[c] == Widen(f, c)
    ensures forall c: Byte :: Finite8(f, c) ==>
      && Sign32(lut[c]) == Sign8(c) && Finite32(lut[c])
      && Value32(lut[c]) == Value8(f, c) * Unit(f) && RealValue(lut[c]) == Formula(f, c)
    ensures forall c: Byte :: !Finite8(f, c) ==>
      && Exp32(lut[c]) == 255 && (Mant32(lut[c]) == 0 <==> f.E5M2? && Mant8(f, c) == 0)
  {
    hide *;
    lut := new U32[256];
    var code := 0;
    while code < 256
      invariant 0 <= code <= 256
      invariant forall c: Byte :: c < code ==> lut[c] == Widen(f, c)
    {
      lut[code] := Widen(f, code);
      code := code + 1;
    }
    forall c: Byte | Finite8(f, c)
      ensures Sign32(lut[c]) == Sign8(c) && Finite32(lut[c])
      ensures Value32(lut[c]) == Value8(f, c) * Unit(f) && RealValue(lut[c]) == Formula(f, c)
    {
      WidenExact(f, c);
      WidenIsFormula(f, c);
      NarrowWiden(f, c);
    }
    forall c: Byte | !Finite8(f, c)
      ensures Exp32(lut[c]) == 255 && (Mant32(lut[c]) == 0 <==> f.E5M2? && Mant8(f, c) == 0)
    {
      WidenSpecial(f, c);
    }
  }

  lemma WidenSpecial(f: Format, c: Byte)
    requires !Finite8(f, c)
    ensures Exp32(Widen(f, c)) == 255 && (Mant32(Widen(f, c)) == 0 <==> f.E5M2? && Mant8(f, c) == 0)
  {
    CodeFields(f, c);
    FieldsFrom(Sign8(c), 255, 0);
    FieldsFrom(Sign8(c), 255, 0x40_0000);
  }

  /** conv_float_f8e4m3 and conv_float_f8e5m2: the code of element i goes to byte i, over words already read. */
  method NarrowInPlace(f: Format, buf: array<Byte>, nelmts: nat)
    requires 4 * nelmts <= buf.Length
    modifies buf
    ensures IsNarrowed(f, old(buf[..]), buf[..], nelmts)
  {
    hide Narrow;
    var i := 0;
    while i < nelmts
      invariant 0 <= i <= nelmts
      invariant forall k :: 0 <= k < i ==> buf[k] == Narrow(f, Word(old(buf[..]), k))
      invariant forall k :: i <= k < buf.Length ==> buf[k] == old(buf[k])
    {
      assert Word(buf[..], i) == Word(old(buf[..]), i);
      var u := Join(buf[4 * i], buf[4 * i + 1], buf[4 * i + 2], buf[4 * i + 3]);
      buf[i] := Narrow(f, u);
      i := i + 1;
    }
  }

  /** conv_f8e4m3_float and conv_f8e5m2_float: element i goes to bytes 4i to 4i+3, from the last one down. */
  method WidenInPlace(f: Format, lut: array<U32>, buf: array<Byte>, nelmts: nat)
    requires lut.Length == 256 && forall c: Byte :: lut[c] == Widen(f, c)
    requires 4 * nelmts <= buf.Length
    modifies buf
    ensures IsWidened(f, old(buf[..]), buf[..], nelmts)
  {
    hide Widen, Word;
    ghost var was := buf[..];
    var i := nelmts;
    while i > 0
      invariant 0 <= i <= nelmts
      invariant forall k :: i <= k < nelmts ==> Word(buf[..], k) == Widen(f, was[k])
      invariant forall k :: 0 <= k < 4 * i ==> buf[k] == was[k]
      invariant forall k :: 4 * nelmts <= k < buf.Length ==> buf[k] == was[k]
    {
      ghost var prev := buf[..];
      var u := lut[buf[i - 1]];
      i := i - 1;
      Store(buf, i, u);
      forall k | i < k < nelmts
        ensures Word(buf[..], k) == Widen(f, was[k])
      {
        SameWord(prev, buf[..], k);
      }
    }
  }

  lemma SameWord(s: seq<Byte>, t: seq<Byte>, k: nat)
    requires |s| == |t| && 4 * k + 4 <= |s|
    requires forall j :: 0 <= j < |s| && j / 4 == k ==> s[j] == t[j]
    ensures Word(s, k) == Word(t, k)
  {
    assert 4 * k / 4 == k && (4 * k + 1) / 4 == k && (4 * k + 2) / 4 == k && (4 * k + 3) / 4 == k;
  }

  method Store(buf: array<Byte>, i: nat, u: U32)
    requires 4 * i + 4 <= buf.Length
    modifies buf
    ensures Word(buf[..], i) == u
    ensures forall k :: 0 <= k < buf.Length && k / 4 != i ==> buf[k] == old(buf[k])
  {
    var b0, b1, b2, b3 := u % 0x100, u / 0x100 % 0x100, u / 0x1_0000 % 0x100, u / 0x100_0000;
    SplitJoin(u);
    hide Join;
    buf[4 * i], buf[4 * i + 1], buf[4 * i + 2], buf[4 * i + 3] := b0, b1, b2, b3;
  }

  /** A word is its bytes, the lowest first. */
  lemma SplitJoin(u: U32)
    ensures Join(u % 0x100, u / 0x100 % 0x100, u / 0x1_0000 % 0x100, u / 0x100_0000) == u
  {
    assert u / 0x1_0000 == u / 0x100 / 0x100 && u / 0x100_0000 == u / 0x1_0000 / 0x100;
  }

  /** Widening a buffer in place and narrowing it again brings every finite code back to its byte. */
  lemma RoundTrip(f: Format, s: seq<Byte>, t: seq<Byte>, r: seq<Byte>, n: nat)
    requires IsWidened(f, s, t, n) && IsNarrowed(f, t, r, n)
    requires forall i :: 0 <= i < n ==> Finite8(f, s[i])
    ensures r[..n] == s[..n] && r[4 * n..] == s[4 * n..]
  {
    hide Narrow, Widen, Word, Finite8;
    forall i | 0 <= i < n
      ensures r[i] == s[i]
    {
      NarrowWiden(f, s[i]);
      assert Word(t, i) == Widen(f, s[i]);
    }
  }
}
