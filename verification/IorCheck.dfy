/** The data pattern of ior.c and its comparison. */
module IorCheck {

  const WORD: int := 0x1_0000_0000_0000_0000

  type UInt32 = s: nat | s < 0x1_0000_0000

  /** The i-th 8-byte word of a transfer: rank and time stamp, or the file offset. */
  function Word(offset: nat, rank: nat, stamp: UInt32, i: nat): nat
  {
    if i % 2 == 0 then rank * 0x1_0000_0000 + stamp else (offset + 8 * i) % WORD
  }

  function Pattern(words: nat, offset: nat, rank: nat, stamp: UInt32): (p: seq<nat>)
    ensures |p| == words
  {
    seq(words, i requires 0 <= i < words => Word(offset, rank, stamp, i))
  }

  /** FillBuffer, for the packet types that are compared by value.  The stamp has 32 bits, so joining it to the
      shifted rank is an addition. */
  method FillBuffer(buf: array<nat>, transferSize: nat, offset: nat, fillrank: nat, stamp: UInt32)
    requires buf.Length == transferSize / 8 && stamp < 0x1_0000_0000
    modifies buf
    ensures buf[..] == Pattern(buf.Length, offset, fillrank, stamp)
  {
    var hi := fillrank * 0x1_0000_0000;
    var lo := stamp;
    var i := 0;
    while i < transferSize / 8
      invariant 0 <= i <= buf.Length
      invariant forall k :: 0 <= k < i ==> buf[k] == Word(offset, fillrank, stamp, k)
    {
      if i % 2 == 0 {
        buf[i] := hi + lo;
      } else {
        buf[i] := (offset + i * 8) % WORD;
      }
      i := i + 1;
    }
  }

  /** The number of places where two buffers differ. */
  function Mismatches(good: seq<nat>, test: seq<nat>): nat
    requires |good| == |test|
  {
    if good == [] then 0
    else
      var n := |good| - 1;
      Mismatches(good[..n], test[..n]) + if good[n] != test[n] then 1 else 0
  }

  /** CompareBuffers: the errors it counts, and the first and last word it reports when there are any. */
  method CompareBuffers(expectedBuffer: array<nat>, unknownBuffer: array<nat>, size: nat)
    returns (errorCount: nat, first: int, last: int)
    requires expectedBuffer.Length == unknownBuffer.Length == size / 8
    ensures errorCount == Mismatches(expectedBuffer[..], unknownBuffer[..])
    ensures errorCount == 0 <==> expectedBuffer[..] == unknownBuffer[..]
    ensures errorCount > 0 ==>
      && 0 <= first <= last < size / 8
      && expectedBuffer[first] != unknownBuffer[first] && expectedBuffer[last] != unknownBuffer[last]
      && (forall k :: 0 <= k < size / 8 && (k < first || k > last) ==> expectedBuffer[k] == unknownBuffer[k])
  {
    var length := size / 8;
    errorCount, first, last := 0, -1, -1;
    var inError := false;
    var i := 0;
    while i < length
      invariant 0 <= i <= length
      invariant errorCount == Mismatches(expectedBuffer[..i], unknownBuffer[..i])
      invariant inError <==> errorCount > 0
      invariant !inError ==> forall k :: 0 <= k < i ==> expectedBuffer[k] == unknownBuffer[k]
      invariant inError ==>
        && 0 <= first <= last < i
        && expectedBuffer[first] != unknownBuffer[first] && expectedBuffer[last] != unknownBuffer[last]
        && (forall k :: 0 <= k < i && (k < first || k > last) ==> expectedBuffer[k] == unknownBuffer[k])
    {
      assert expectedBuffer[..i + 1][..i] == expectedBuffer[..i];
      assert unknownBuffer[..i + 1][..i] == unknownBuffer[..i];
      if unknownBuffer[i] != expectedBuffer[i] {
        errorCount := errorCount + 1;
        if !inError {
          inError := true;
          first, last := i, i;
        } else {
          last := i;
        }
      }
      i := i + 1;
    }
    assert expectedBuffer[..length] == expectedBuffer[..] && unknownBuffer[..length] == unknownBuffer[..];
  }

  lemma {:induction false} NoMismatch(a: seq<nat>, b: seq<nat>)
    requires |a| == |b|
    ensures Mismatches(a, b) == 0 <==> a == b
  {
    if a != [] {
      var n := |a| - 1;
      NoMismatch(a[..n], b[..n]);
      assert a == a[..n] + [a[n]] && b == b[..n] + [b[n]];
    }
  }

  /** Exactly how many errors the comparison of two transfers reports: all even words when the rank or the
      stamp differs, all odd words when the offset does. */
  lemma {:induction false} MismatchCount(words: nat, o: nat, r: nat, stamp: UInt32, p: nat, q: nat, other: UInt32)
    requires o < WORD && p < WORD
    ensures Mismatches(Pattern(words, o, r, stamp), Pattern(words, p, q, other))
            == (if r != q || stamp != other then (words + 1) / 2 else 0) + (if o != p then words / 2 else 0)
  {
    hide Word, Pattern;
    if words > 0 {
      var n := words - 1;
      MismatchCount(n, o, r, stamp, p, q, other);
      WordsDiffer(o, r, stamp, p, q, other, n);
      LastWord(n, o, r, stamp);
      LastWord(n, p, q, other);
    }
  }

  lemma LastWord(n: nat, o: nat, r: nat, stamp: UInt32)
    ensures Pattern(n + 1, o, r, stamp)[..n] == Pattern(n, o, r, stamp)
    ensures Pattern(n + 1, o, r, stamp)[n] == Word(o, r, stamp, n)
  {
    hide Word;
  }

  lemma WordsDiffer(o: nat, r: nat, stamp: UInt32, p: nat, q: nat, other: UInt32, i: nat)
    requires o < WORD && p < WORD
    ensures Word(o, r, stamp, i) != Word(p, q, other, i)
            <==> if i % 2 == 0 then r != q || stamp != other else o != p
  {
    if i % 2 == 1 {
      ShiftInjective(o, p, 8 * i);
    }
  }

  lemma ShiftInjective(o: nat, p: nat, d: nat)
    requires o < WORD && p < WORD
    ensures (o + d) % WORD == (p + d) % WORD <==> o == p
  {
    if (o + d) % WORD == (p + d) % WORD {
      assert (o + d) - (p + d) == WORD * ((o + d) / WORD - (p + d) / WORD);
    }
  }
}
