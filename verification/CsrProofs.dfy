/** Writing with any row split in any order gives one file; reading any rows but the last gives them back. */
module CsrProofs {
  import opened Csr

  // ----- encodings -----

  lemma IntRoundTrip(v: int)
    requires Fits(v)
    ensures IntOf(IntBytes(v)) == v
  {
    var u := v % 0x1_0000_0000;
    assert u / 0x1_0000 == u / 0x100 / 0x100 && u / 0x100_0000 == u / 0x1_0000 / 0x100;
  }

  lemma IntsRoundTrip(s: seq<int>)
    requires forall i :: 0 <= i < |s| ==> Fits(s[i])
    ensures IntsOf(Ints(s)) == s
  {
    hide IntBytes, IntOf;
    forall i | 0 <= i < |s|
      ensures IntOf(Ints(s)[4 * i..4 * i + 4]) == s[i]
    {
      forall j | 0 <= j < 4
        ensures Ints(s)[4 * i..4 * i + 4][j] == IntBytes(s[i])[j]
      {
        assert (4 * i + j) / 4 == i && (4 * i + j) % 4 == j;
      }
      assert Ints(s)[4 * i..4 * i + 4] == IntBytes(s[i]);
      IntRoundTrip(s[i]);
    }
  }

  lemma DoublesRoundTrip(s: seq<Double>)
    ensures DoublesOf(Doubles(s)) == s
  {
    forall i | 0 <= i < |s|
      ensures Doubles(s)[8 * i..8 * i + 8] == s[i]
    {
      forall j | 0 <= j < 8
        ensures Doubles(s)[8 * i..8 * i + 8][j] == s[i][j]
      {
        assert (8 * i + j) / 8 == i && (8 * i + j) % 8 == j;
      }
    }
  }

  lemma IntsSlice(s: seq<int>, x: nat, y: nat)
    requires x <= y <= |s|
    ensures Ints(s)[4 * x..4 * y] == Ints(s[x..y])
  {
    hide IntBytes;
    forall p | 0 <= p < 4 * (y - x)
      ensures Ints(s)[4 * x..4 * y][p] == Ints(s[x..y])[p]
    {
      assert (4 * x + p) / 4 == x + p / 4 && (4 * x + p) % 4 == p % 4;
    }
  }

  lemma DoublesSlice(s: seq<Double>, x: nat, y: nat)
    requires x <= y <= |s|
    ensures Doubles(s)[8 * x..8 * y] == Doubles(s[x..y])
  {
    forall p | 0 <= p < 8 * (y - x)
      ensures Doubles(s)[8 * x..8 * y][p] == Doubles(s[x..y])[p]
    {
      assert (8 * x + p) / 8 == x + p / 8 && (8 * x + p) % 8 == p % 8;
    }
  }

  lemma Sandwich<T>(x: seq<T>, y: seq<T>, z: seq<T>, lo: nat, hi: nat)
    requires lo <= hi <= |y|
    ensures (x + y + z)[|x| + lo..|x| + hi] == y[lo..hi]
  {
  }

  /** The regions of the file, at the offsets the code computes. */
  lemma HeaderRegion(title: Text, m: Matrix)
    requires m.Valid()
    ensures Image(title, m)[..80] == TitleBlock(title)
    ensures Image(title, m)[80..88] == Ints([m.N(), m.Nz()])
  {
    hide TitleBlock, Ints, Doubles, Matrix.Valid;
  }

  lemma StartsRegion(title: Text, m: Matrix, lo: nat, hi: nat)
    requires m.Valid() && lo <= hi <= m.N()
    ensures Image(title, m)[80 + (2 + lo) * 4..80 + (2 + hi) * 4] == Ints(m.ia[lo..hi])
  {
    hide TitleBlock, Ints, Doubles, Matrix.Valid;
    var t, h, r, c, v := TitleBlock(title), Ints([m.N(), m.Nz()]), Ints(m.ia), Ints(m.ja), Doubles(m.a);
    Sandwich(t + h, r, c + v, 4 * lo, 4 * hi);
    IntsSlice(m.ia, lo, hi);
    assert Image(title, m) == t + h + r + (c + v);
  }

  lemma ColumnsRegion(title: Text, m: Matrix, lo: nat, hi: nat)
    requires m.Valid() && lo <= hi <= m.Nz()
    ensures Image(title, m)[80 + (2 + m.N() + lo) * 4..80 + (2 + m.N() + hi) * 4] == Ints(m.ja[lo..hi])
  {
    hide TitleBlock, Ints, Doubles, Matrix.Valid;
    var t, h, r, c, v := TitleBlock(title), Ints([m.N(), m.Nz()]), Ints(m.ia), Ints(m.ja), Doubles(m.a);
    Sandwich(t + h + r, c, v, 4 * lo, 4 * hi);
    IntsSlice(m.ja, lo, hi);
  }

  lemma ValuesRegion(title: Text, m: Matrix, lo: nat, hi: nat)
    requires m.Valid() && lo <= hi <= m.Nz()
    ensures var base := 80 + (2 + m.N() + m.Nz()) * 4;
            Image(title, m)[base + lo * 8..base + hi * 8] == Doubles(m.a[lo..hi])
  {
    hide TitleBlock, Ints, Doubles;
    assert |m.a| == |m.ja|;
    hide Matrix.Valid;
    var t, h, r, c, v := TitleBlock(title), Ints([m.N(), m.Nz()]), Ints(m.ia), Ints(m.ja), Doubles(m.a);
    Sandwich(t + h + r + c, v, [], 8 * lo, 8 * hi);
    DoublesSlice(m.a, lo, hi);
    assert Image(title, m) == t + h + r + c + v + [];
  }

  // ----- the writers -----

  /** Row boundaries of the ranks: rank k has rows cut[k] to cut[k + 1] - 1, possibly none. */
  ghost predicate IsSplit(cut: seq<nat>, n: nat)
  {
    && |cut| >= 2 && cut[0] == 0 && cut[|cut| - 1] == n
    && (forall k :: 0 <= k < |cut| ==> cut[k] <= n)
    && (forall k, l :: 0 <= k <= l < |cut| ==> cut[k] <= cut[l])
  }

  lemma StartMono(m: Matrix, i: nat, j: nat)
    requires m.Valid() && i <= j <= m.N()
    ensures 0 <= m.Start(i) <= m.Start(j) <= m.Nz()
    ensures m.Start(0) == 0 && (i < m.N() ==> m.Start(i) == m.ia[i])
    ensures m.Start(m.N()) == m.Nz()
  {
  }

  /** The arguments of a rank: its rows, with starts counted from its first nonzero. */
  function PartOf(m: Matrix, lo: nat, hi: nat): Part
    requires m.Valid() && lo <= hi <= m.N()
  {
    StartMono(m, lo, hi);
    Part(lo, LocalStarts(m, lo, hi), m.ja[m.Start(lo)..m.Start(hi)], m.a[m.Start(lo)..m.Start(hi)])
  }

  function LocalStarts(m: Matrix, lo: nat, hi: nat): (s: seq<int>)
    requires m.Valid() && lo <= hi <= m.N()
    ensures |s| == hi - lo
  {
    seq(hi - lo, i requires 0 <= i < hi - lo => m.ia[lo + i] - m.Start(lo))
  }

  function Parts(m: Matrix, cut: seq<nat>): (parts: seq<Part>)
    requires m.Valid() && IsSplit(cut, m.N())
    ensures |parts| == |cut| - 1
  {
    seq(|cut| - 1, k requires 0 <= k < |cut| - 1 => PartOf(m, cut[k], cut[k + 1]))
  }

  /** MPI_Exscan of the nonzero counts, 0 at rank 0; at |parts| it is the Allreduce. */
  function PrevNz(parts: seq<Part>, k: nat): nat
    requires k <= |parts|
  {
    if k == 0 then 0 else PrevNz(parts, k - 1) + |parts[k - 1].ja|
  }

  /** The sum of the counts before a rank is the start of its first row in the whole matrix. */
  lemma {:induction false} PrevNzIsStart(m: Matrix, cut: seq<nat>, k: nat)
    requires m.Valid() && IsSplit(cut, m.N()) && k < |cut|
    ensures PrevNz(Parts(m, cut), k) == m.Start(cut[k])
  {
    if k == 0 {
      StartMono(m, 0, 0);
    } else {
      PrevNzIsStart(m, cut, k - 1);
      StartMono(m, cut[k - 1], cut[k]);
    }
  }

  /** The writes rank k issues for its part of the matrix. */
  function WritesOf(title: Text, m: Matrix, cut: seq<nat>, k: nat): seq<Write>
    requires m.Valid() && IsSplit(cut, m.N()) && k < |cut| - 1
  {
    var parts := Parts(m, cut);
    RankWrites(title, m.N(), PrevNz(parts, k), PrevNz(parts, |parts|), parts[k], k == 0)
  }

  /** The same writes, in terms of the whole matrix. */
  function BlocksOf(title: Text, m: Matrix, lo: nat, hi: nat, root: bool): seq<Write>
    requires m.Valid() && lo <= hi <= m.N()
  {
    StartMono(m, lo, hi);
    (if root then [Write(0, TitleBlock(title)), Write(80, Ints([m.N(), m.Nz()]))] else []) +
    [Write(80 + (2 + lo) * 4, Ints(m.ia[lo..hi])),
     Write(80 + (2 + m.N() + m.Start(lo)) * 4, Ints(m.ja[m.Start(lo)..m.Start(hi)])),
     Write(80 + (2 + m.N() + m.Nz()) * 4 + m.Start(lo) * 8, Doubles(m.a[m.Start(lo)..m.Start(hi)]))]
  }

  lemma WritesAreBlocks(title: Text, m: Matrix, cut: seq<nat>, k: nat)
    requires m.Valid() && IsSplit(cut, m.N()) && k < |cut| - 1
    ensures WritesOf(title, m, cut, k) == BlocksOf(title, m, cut[k], cut[k + 1], k == 0)
  {
    hide RankWrites, BlocksOf, Matrix.Valid, Matrix.Start, PartOf, PrevNz;
    PrevNzIsStart(m, cut, k);
    PrevNzIsStart(m, cut, |cut| - 1);
    StartMono(m, 0, 0);
    PartBlocks(title, m, cut[k], cut[k + 1], k == 0);
  }

  lemma PartBlocks(title: Text, m: Matrix, lo: nat, hi: nat, root: bool)
    requires m.Valid() && lo <= hi <= m.N() && 0 <= m.Start(lo)
    ensures RankWrites(title, m.N(), m.Start(lo), m.Nz(), PartOf(m, lo, hi), root) == BlocksOf(title, m, lo, hi, root)
  {
    hide TitleBlock, Ints, Doubles, Matrix.Valid, Matrix.Start, Shifted, LocalStarts;
    ShiftBack(m, lo, hi);
  }

  lemma ShiftBack(m: Matrix, lo: nat, hi: nat)
    requires m.Valid() && lo <= hi <= m.N()
    ensures Shifted(LocalStarts(m, lo, hi), m.Start(lo)) == m.ia[lo..hi]
  {
    hide Matrix.Valid, Matrix.Start;
  }

  /** Every byte a rank writes is the byte of the layout at that place. */
  ghost predicate Agrees(w: Write, img: seq<Byte>)
  {
    w.End() <= |img| && w.data == img[w.off..w.End()]
  }

  lemma HeaderAgrees(title: Text, m: Matrix)
    requires m.Valid()
    ensures Agrees(Write(0, TitleBlock(title)), Image(title, m)) && Agrees(Write(80, Ints([m.N(), m.Nz()])), Image(title, m))
  {
    hide TitleBlock, Ints, Doubles, Matrix.Valid;
    HeaderRegion(title, m);
  }

  lemma StartsAgree(title: Text, m: Matrix, lo: nat, hi: nat)
    requires m.Valid() && lo <= hi <= m.N()
    ensures Agrees(Write(80 + (2 + lo) * 4, Ints(m.ia[lo..hi])), Image(title, m))
  {
    hide TitleBlock, Ints, Doubles, Matrix.Valid, Image;
    StartsRegion(title, m, lo, hi);
  }

  lemma NonzerosAgree(title: Text, m: Matrix, x: nat, y: nat)
    requires m.Valid() && x <= y <= m.Nz()
    ensures |m.a| == |m.ja|
    ensures Agrees(Write(80 + (2 + m.N() + x) * 4, Ints(m.ja[x..y])), Image(title, m))
    ensures Agrees(Write(80 + (2 + m.N() + m.Nz()) * 4 + x * 8, Doubles(m.a[x..y])), Image(title, m))
  {
    assert |m.a| == |m.ja|;
    hide TitleBlock, Ints, Doubles, Matrix.Valid, Image;
    ColumnsRegion(title, m, x, y);
    ValuesRegion(title, m, x, y);
  }

  lemma BlocksAgree(title: Text, m: Matrix, lo: nat, hi: nat, root: bool, w: Write)
    requires m.Valid() && lo <= hi <= m.N() && w in BlocksOf(title, m, lo, hi, root)
    ensures Agrees(w, Image(title, m))
  {
    hide Image, TitleBlock, Ints, Doubles, Matrix.Valid, Matrix.Start, Agrees;
    StartMono(m, lo, hi);
    HeaderAgrees(title, m);
    StartsAgree(title, m, lo, hi);
    NonzerosAgree(title, m, m.Start(lo), m.Start(hi));
  }

  // ----- disjointness and coverage -----

  /** The place of a value in a nondecreasing chain of boundaries. */
  lemma {:induction false} Bracket(f: seq<int>, x: int) returns (k: nat)
    requires |f| >= 2 && f[0] <= x < f[|f| - 1]
    ensures k < |f| - 1 && f[k] <= x < f[k + 1]
  {
    if x < f[1] {
      k := 0;
    } else {
      var l := Bracket(f[1..], x);
      k := l + 1;
    }
  }

  function Starts(m: Matrix, cut: seq<nat>): (s: seq<int>)
    requires m.Valid() && IsSplit(cut, m.N())
    ensures |s| == |cut|
  {
    seq(|cut|, k requires 0 <= k < |cut| => m.Start(cut[k]))
  }

  ghost predicate Covers(w: Write, p: nat) { w.off <= p < w.End() }

  /** Every byte of the layout is written by some rank. */
  lemma EveryByteWritten(title: Text, m: Matrix, cut: seq<nat>, p: nat) returns (k: nat, w: Write)
    requires m.Valid() && IsSplit(cut, m.N()) && p < |Image(title, m)|
    ensures k < |cut| - 1 && w in BlocksOf(title, m, cut[k], cut[k + 1], k == 0) && Covers(w, p)
  {
    hide TitleBlock, Ints, Doubles, Image;
    StartMono(m, 0, m.N());
    if p < 88 {
      k := 0;
      w := BlocksOf(title, m, cut[0], cut[1], true)[if p < 80 then 0 else 1];
    } else if p < 88 + 4 * m.N() {
      k := Bracket(cut, (p - 88) / 4);
      var b := BlocksOf(title, m, cut[k], cut[k + 1], k == 0);
      w := b[|b| - 3];
    } else if p < 88 + 4 * m.N() + 4 * m.Nz() {
      k := Bracket(Starts(m, cut), (p - 88 - 4 * m.N()) / 4);
      StartMono(m, cut[k], cut[k + 1]);
      var b := BlocksOf(title, m, cut[k], cut[k + 1], k == 0);
      w := b[|b| - 2];
    } else {
      k := Bracket(Starts(m, cut), (p - 88 - 4 * m.N() - 4 * m.Nz()) / 8);
      StartMono(m, cut[k], cut[k + 1]);
      var b := BlocksOf(title, m, cut[k], cut[k + 1], k == 0);
      w := b[|b| - 1];
    }
  }

  ghost predicate Apart(v: Write, w: Write) { v.End() <= w.off || w.End() <= v.off || v.data == [] || w.data == [] }

  /** No two writes of the whole job overlap: neither two blocks of one rank nor blocks of two ranks. */
  lemma WritesApart(title: Text, m: Matrix, cut: seq<nat>, k: nat, i: nat, l: nat, j: nat)
    requires m.Valid() && IsSplit(cut, m.N()) && k < |cut| - 1 && l < |cut| - 1
    requires i < |WritesOf(title, m, cut, k)| && j < |WritesOf(title, m, cut, l)| && (k, i) != (l, j)
    ensures Apart(WritesOf(title, m, cut, k)[i], WritesOf(title, m, cut, l)[j])
  {
    WritesAreBlocks(title, m, cut, k);
    WritesAreBlocks(title, m, cut, l);
    hide TitleBlock, Ints, Doubles, WritesOf;
    if k <= l {
      BlocksApart(title, m, cut, k, i, l, j);
    } else {
      BlocksApart(title, m, cut, l, j, k, i);
    }
  }

  /** Where the r-th region of the file stands when the rows before `row` are done. */
  function Mark(m: Matrix, r: nat, row: nat): int
    requires m.Valid() && row <= m.N()
  {
    if r == 0 then (if row == 0 then 0 else 80)
    else if r == 1 then (if row == 0 then 80 else 88)
    else if r == 2 then 88 + 4 * row
    else if r == 3 then 88 + 4 * m.N() + 4 * m.Start(row)
    else 88 + 4 * m.N() + 4 * m.Nz() + 8 * m.Start(row)
  }

  lemma BlockSpan(title: Text, m: Matrix, lo: nat, hi: nat, root: bool, i: nat)
    requires m.Valid() && lo <= hi <= m.N() && i < |BlocksOf(title, m, lo, hi, root)|
    ensures var w, r := BlocksOf(title, m, lo, hi, root)[i], if root then i else i + 2;
            && r < 5
            && (r < 2 ==> w.off == Mark(m, r, 0) && w.End() == Mark(m, r, m.N()))
            && (r >= 2 ==> w.off == Mark(m, r, lo) && w.End() == Mark(m, r, hi))
  {
    assert |m.a| == |m.ja|;
    hide TitleBlock, Ints, Doubles, Matrix.Valid, Matrix.Start;
    StartMono(m, lo, hi);
  }

  lemma MarkMono(m: Matrix, r: nat, row: nat, s: nat, next: nat)
    requires m.Valid() && row <= m.N() && next <= m.N() && r <= s <= 4 && (r < s || row <= next)
    ensures Mark(m, r, row) <= Mark(m, s, next)
  {
    hide Matrix.Valid, Matrix.Start;
    StartMono(m, row, m.N());
    StartMono(m, next, m.N());
    if r == s {
      StartMono(m, row, next);
    }
  }

  lemma BlocksApart(title: Text, m: Matrix, cut: seq<nat>, k: nat, i: nat, l: nat, j: nat)
    requires m.Valid() && IsSplit(cut, m.N()) && k <= l < |cut| - 1 && (k, i) != (l, j)
    requires i < |BlocksOf(title, m, cut[k], cut[k + 1], k == 0)|
    requires j < |BlocksOf(title, m, cut[l], cut[l + 1], l == 0)|
    ensures Apart(BlocksOf(title, m, cut[k], cut[k + 1], k == 0)[i], BlocksOf(title, m, cut[l], cut[l + 1], l == 0)[j])
  {
    hide BlocksOf, Mark, Matrix.Valid;
    BlockSpan(title, m, cut[k], cut[k + 1], k == 0, i);
    BlockSpan(title, m, cut[l], cut[l + 1], l == 0, j);
    var r, s := if k == 0 then i else i + 2, if l == 0 then j else j + 2;
    if r < s {
      MarkMono(m, r, if r < 2 then m.N() else cut[k + 1], s, if s < 2 then 0 else cut[l]);
    } else if s < r {
      MarkMono(m, s, if s < 2 then m.N() else cut[l + 1], r, if r < 2 then 0 else cut[k]);
    } else {
      MarkMono(m, r, cut[k + 1], s, cut[l]);
    }
  }

  // ----- the written file -----

  /** The writes of all ranks, as one bag. */
  function AllWrites(title: Text, m: Matrix, cut: seq<nat>, ranks: nat): seq<Write>
    requires m.Valid() && IsSplit(cut, m.N()) && ranks <= |cut| - 1
  {
    if ranks == 0 then [] else AllWrites(title, m, cut, ranks - 1) + WritesOf(title, m, cut, ranks - 1)
  }

  lemma {:induction false} InAllWrites(title: Text, m: Matrix, cut: seq<nat>, ranks: nat, w: Write)
    requires m.Valid() && IsSplit(cut, m.N()) && ranks <= |cut| - 1
    ensures w in AllWrites(title, m, cut, ranks) <==> exists k :: 0 <= k < ranks && w in WritesOf(title, m, cut, k)
  {
    hide WritesOf;
    if ranks > 0 {
      InAllWrites(title, m, cut, ranks - 1, w);
    }
  }

  lemma {:induction false} PutAllAgrees(file: seq<Byte>, ws: seq<Write>, img: seq<Byte>, p: nat)
    requires forall w :: w in ws ==> Agrees(w, img)
    requires p < |img| && exists w :: w in ws && Covers(w, p)
    ensures p < |PutAll(file, ws)| && PutAll(file, ws)[p] == img[p]
  {
    var last := ws[|ws| - 1];
    assert last in ws;
    if Covers(last, p) {
      assert last.data[p - last.off] == img[last.off..last.End()][p - last.off];
    } else {
      PutAllAgrees(file, ws[..|ws| - 1], img, p);
    }
  }

  lemma {:induction false} PutAllLength(file: seq<Byte>, ws: seq<Write>, img: seq<Byte>)
    requires forall w :: w in ws ==> Agrees(w, img)
    ensures |file| <= |PutAll(file, ws)|
    ensures |PutAll(file, ws)| <= |file| || |PutAll(file, ws)| <= |img|
    ensures forall p :: |img| <= p < |file| ==> PutAll(file, ws)[p] == file[p]
  {
    if ws != [] {
      assert ws[|ws| - 1] in ws;
      PutAllLength(file, ws[..|ws| - 1], img);
    }
  }

  /** For any split of the rows over any number of ranks, and for the writes of all ranks in any order, the
      file begins with the one layout of the matrix; a longer old file keeps its tail. */
  lemma WrittenFile(title: Text, m: Matrix, cut: seq<nat>, file: seq<Byte>, ws: seq<Write>)
    requires m.Valid() && IsSplit(cut, m.N())
    requires multiset(ws) == multiset(AllWrites(title, m, cut, |cut| - 1))
    ensures var img := Image(title, m);
            PutAll(file, ws) == img + (if |file| > |img| then file[|img|..] else [])
  {
    hide Image, BlocksOf, WritesOf, AllWrites, PutAll;
    var img := Image(title, m);
    forall w | w in ws
      ensures Agrees(w, img)
    {
      assert w in multiset(ws);
      InAllWrites(title, m, cut, |cut| - 1, w);
      var k :| 0 <= k < |cut| - 1 && w in WritesOf(title, m, cut, k);
      WritesAreBlocks(title, m, cut, k);
      BlocksAgree(title, m, cut[k], cut[k + 1], k == 0, w);
    }
    forall p | 0 <= p < |img|
      ensures p < |PutAll(file, ws)| && PutAll(file, ws)[p] == img[p]
    {
      var k, w := EveryByteWritten(title, m, cut, p);
      WritesAreBlocks(title, m, cut, k);
      InAllWrites(title, m, cut, |cut| - 1, w);
      assert w in multiset(ws);
      PutAllAgrees(file, ws, img, p);
    }
    PutAllLength(file, ws, img);
    assert |img| > 0 && |img| - 1 < |PutAll(file, ws)|;
  }

  // ----- reading back -----

  /** The header comes back; the title as far as it fits. */
  lemma HeaderRoundTrip(title: Text, m: Matrix, tail: seq<Byte>)
    requires m.Valid()
    ensures var (t, h) := HeaderOf(Image(title, m) + tail);
            && CString(t) == title[..if |title| < 79 then |title| else 79]
            && h == [m.N(), m.Nz()]
  {
    HeaderRegion(title, m);
    var img := Image(title, m);
    assert Get(img + tail, 0, 80) == img[..80];
    assert Get(img + tail, 80, 8) == img[80..88];
    IntsRoundTrip([m.N(), m.Nz()]);
    TitlePrefix(title, 0);
    assert TitleBlock(title)[0..] == TitleBlock(title);
  }

  lemma {:induction false} TitlePrefix(title: Text, i: nat)
    requires forall j :: 0 <= j < |title| ==> title[j] != 0
    requires i <= 79 && i <= |title|
    ensures CString(TitleBlock(title)[i..]) == title[i..if |title| < 79 then |title| else 79]
    decreases 79 - i
  {
    var b := TitleBlock(title);
    if i < 79 && i < |title| {
      TitlePrefix(title, i + 1);
      assert b[i..][1..] == b[i + 1..];
    }
  }

  lemma GetInside(img: seq<Byte>, tail: seq<Byte>, off: nat, len: nat)
    requires off + len <= |img|
    ensures Get(img + tail, off, len) == img[off..off + len]
  {
  }

  /** The row starts read for a range that ends before the last row. */
  lemma EntriesRead(title: Text, m: Matrix, tail: seq<Byte>, lo: nat, hi: nat, stale: seq<int>)
    requires m.Valid() && lo < hi < m.N() && |stale| == hi - lo + 1
    ensures RowEntries(Image(title, m) + tail, lo, hi, stale) == m.ia[lo..hi + 1]
  {
    hide Image, Ints, IntsOf, Get, Matrix.Valid;
    StartsRegion(title, m, lo, hi + 1);
    GetInside(Image(title, m), tail, 80 + (2 + lo) * 4, 4 * (hi - lo + 1));
    StartsFit(m, lo, hi + 1);
    IntsRoundTrip(m.ia[lo..hi + 1]);
  }

  lemma StartsFit(m: Matrix, lo: nat, hi: nat)
    requires m.Valid() && lo <= hi <= m.N()
    ensures forall i :: 0 <= i < hi - lo ==> Fits(m.ia[lo..hi][i])
  {
    forall i | 0 <= i < hi - lo
      ensures Fits(m.ia[lo..hi][i])
    {
      StartMono(m, lo + i, m.N());
    }
  }

  /** Columns and values of a slice of the nonzeros. */
  lemma NonzerosRead(title: Text, m: Matrix, tail: seq<Byte>, x: nat, y: nat)
    requires m.Valid() && x <= y <= m.Nz()
    ensures IntsOf(Get(Image(title, m) + tail, 80 + (2 + m.N() + x) * 4, 4 * (y - x))) == m.ja[x..y]
    ensures DoublesOf(Get(Image(title, m) + tail, 80 + (2 + m.N() + m.Nz()) * 4 + x * 8, 8 * (y - x))) == m.a[x..y]
  {
    hide Image, Ints, IntsOf, Get, Doubles, DoublesOf;
    assert |m.a| == |m.ja| && forall j :: 0 <= j < m.Nz() ==> Fits(m.ja[j]);
    hide Matrix.Valid;
    ColumnsRegion(title, m, x, y);
    ValuesRegion(title, m, x, y);
    GetInside(Image(title, m), tail, 80 + (2 + m.N() + x) * 4, 4 * (y - x));
    GetInside(Image(title, m), tail, 80 + (2 + m.N() + m.Nz()) * 4 + x * 8, 8 * (y - x));
    IntsRoundTrip(m.ja[x..y]);
    DoublesRoundTrip(m.a[x..y]);
  }

  /** Any range of rows that ends before the last row comes back as that slice of the matrix, however the
      rows were split when they were written. */
  lemma RowsRoundTrip(title: Text, m: Matrix, tail: seq<Byte>, room: nat, lo: nat, hi: nat, stale: seq<int>)
    requires m.Valid() && lo < hi < m.N() && |stale| == hi - lo + 1
    ensures ReadRows(Image(title, m) + tail, m.N(), m.Nz(), room, lo, hi, stale, true)
            == if room == 0 || room >= m.ia[hi] - m.ia[lo] then Slice(m, lo, hi) else IoError
  {
    hide Image, IntsOf, DoublesOf, Get, RowEntries, Matrix.Valid, Matrix.Start, ReadRows, Slice;
    EntriesRead(title, m, tail, lo, hi, stale);
    StartMono(m, lo, hi);
    StartMono(m, hi, hi);
    NonzerosRead(title, m, tail, m.ia[lo], m.ia[hi]);
    ReadParts(Image(title, m) + tail, m, room, lo, hi, stale);
  }

  lemma ReadParts(file: seq<Byte>, m: Matrix, room: nat, lo: nat, hi: nat, stale: seq<int>)
    requires m.Valid() && lo < hi < m.N() && |stale| == hi - lo + 1
    requires RowEntries(file, lo, hi, stale) == m.ia[lo..hi + 1]
    requires 0 <= m.ia[lo] <= m.ia[hi] <= m.Nz()
    requires IntsOf(Get(file, 80 + (2 + m.N() + m.ia[lo]) * 4, 4 * (m.ia[hi] - m.ia[lo]))) == m.ja[m.ia[lo]..m.ia[hi]]
    requires DoublesOf(Get(file, 80 + (2 + m.N() + m.Nz()) * 4 + m.ia[lo] * 8, 8 * (m.ia[hi] - m.ia[lo])))
             == m.a[m.ia[lo]..m.ia[hi]]
    ensures ReadRows(file, m.N(), m.Nz(), room, lo, hi, stale, true)
            == if room == 0 || room >= m.ia[hi] - m.ia[lo] then Slice(m, lo, hi) else IoError
  {
    hide IntsOf, DoublesOf, RowEntries, Get;
  }

  /** The entry after the last row is not a row start: it is the first column index, or for a matrix without
      nonzeros whatever follows the file. */
  function EntryAfterLast(m: Matrix, tail: seq<Byte>, stale: int): int
    requires m.Valid()
  {
    if m.Nz() > 0 then m.ja[0] else if |tail| >= 4 then IntOf(tail[..4]) else stale
  }

  lemma EntriesReadToEnd(title: Text, m: Matrix, tail: seq<Byte>, lo: nat, stale: seq<int>)
    requires m.Valid() && lo < m.N() && |stale| == m.N() - lo + 1
    ensures RowEntries(Image(title, m) + tail, lo, m.N(), stale)
            == m.ia[lo..] + [EntryAfterLast(m, tail, stale[m.N() - lo])]
  {
    hide Image, Ints, IntOf, IntsOf, Matrix.Valid, EntryAfterLast;
    var n := m.N();
    var got := Get(Image(title, m) + tail, 80 + (2 + lo) * 4, 4 * (n - lo + 1));
    StartsRegion(title, m, lo, n);
    assert got[..4 * (n - lo)] == Ints(m.ia[lo..n]);
    StartsFit(m, lo, n);
    IntsRoundTrip(m.ia[lo..n]);
    IntsOfPrefix(got, n - lo);
    LastEntry(title, m, tail, lo, stale[n - lo]);
    assert m.ia[lo..n] == m.ia[lo..];
    forall i | 0 <= i < n - lo
      ensures IntsOf(got)[i] == m.ia[lo..][i]
    {
      assert IntsOf(got)[i] == IntsOf(got)[..n - lo][i];
    }
  }

  lemma SubSlice(img: seq<Byte>, off: nat, len: nat, k: nat)
    requires off + len <= |img| && k <= len
    ensures img[off..off + len][k..len] == img[off + k..off + len]
  {
  }

  lemma LastEntry(title: Text, m: Matrix, tail: seq<Byte>, lo: nat, stale: int)
    requires m.Valid() && lo < m.N()
    ensures var n := m.N();
            var got := IntsOf(Get(Image(title, m) + tail, 80 + (2 + lo) * 4, 4 * (n - lo + 1)));
            |got| >= n - lo && (if |got| > n - lo then got[n - lo] else stale) == EntryAfterLast(m, tail, stale)
  {
    hide Image, Ints, IntOf, Matrix.Valid;
    var k := m.N() - lo;
    var got := Get(Image(title, m) + tail, 80 + (2 + lo) * 4, 4 * (k + 1));
    if m.Nz() > 0 {
      FirstColumn(title, m, tail, lo);
    } else if |tail| >= 4 {
      var file := Image(title, m) + tail;
      assert got == file[80 + (2 + lo) * 4..80 + (2 + lo) * 4 + 4 * (k + 1)];
      SubSlice(file, 80 + (2 + lo) * 4, 4 * (k + 1), 4 * k);
      assert file[|Image(title, m)|..|Image(title, m)| + 4] == tail[..4];
    }
  }

  lemma FirstColumn(title: Text, m: Matrix, tail: seq<Byte>, lo: nat)
    requires m.Valid() && lo < m.N() && m.Nz() > 0
    ensures var k := m.N() - lo;
            var got := Get(Image(title, m) + tail, 80 + (2 + lo) * 4, 4 * (k + 1));
            |got| == 4 * k + 4 && IntOf(got[4 * k..4 * k + 4]) == m.ja[0]
  {
    hide Image, Ints, IntOf, Get;
    assert Fits(m.ja[0]);
    hide Matrix.Valid;
    var k := m.N() - lo;
    ColumnsRegion(title, m, 0, 1);
    GetInside(Image(title, m), tail, 80 + (2 + lo) * 4, 4 * (k + 1));
    SubSlice(Image(title, m), 80 + (2 + lo) * 4, 4 * (k + 1), 4 * k);
    IntsRoundTrip(m.ja[0..1]);
    assert Ints(m.ja[0..1])[4 * 0..4 * 0 + 4] == Ints(m.ja[0..1]);
    assert IntsOf(Ints(m.ja[0..1]))[0] == m.ja[0];
  }

  lemma IntsOfPrefix(b: seq<Byte>, k: nat)
    requires 4 * k <= |b|
    ensures IntsOf(b)[..k] == IntsOf(b[..4 * k])
  {
    hide IntOf;
    forall i | 0 <= i < k
      ensures IntsOf(b)[i] == IntsOf(b[..4 * k])[i]
    {
      assert b[..4 * k][4 * i..4 * i + 4] == b[4 * i..4 * i + 4];
    }
  }

  /** A range that includes the last row is read correctly exactly when that entry happens to be the number
      of nonzeros: only n row starts are in the file, and the reader needs one more. */
  lemma LastRowRead(title: Text, m: Matrix, tail: seq<Byte>, lo: nat, stale: seq<int>)
    requires m.Valid() && lo < m.N() && |stale| == m.N() - lo + 1
    ensures ReadRows(Image(title, m) + tail, m.N(), m.Nz(), 0, lo, m.N(), stale, true) == Slice(m, lo, m.N())
            <==> EntryAfterLast(m, tail, stale[m.N() - lo]) == m.Nz()
  {
    hide Image, IntsOf, DoublesOf, Get, RowEntries, Matrix.Valid, Matrix.Start, ReadRows, Slice, EntryAfterLast;
    EntriesReadToEnd(title, m, tail, lo, stale);
    StartMono(m, lo, m.N());
    NonzerosRead(title, m, tail, m.ia[lo], m.Nz());
    ReadToEndParts(Image(title, m) + tail, m, lo, stale, EntryAfterLast(m, tail, stale[m.N() - lo]));
  }

  lemma ReadToEndParts(file: seq<Byte>, m: Matrix, lo: nat, stale: seq<int>, next: int)
    requires m.Valid() && lo < m.N() && |stale| == m.N() - lo + 1
    requires RowEntries(file, lo, m.N(), stale) == m.ia[lo..] + [next]
    requires 0 <= m.ia[lo] <= m.Nz()
    requires IntsOf(Get(file, 80 + (2 + m.N() + m.ia[lo]) * 4, 4 * (m.Nz() - m.ia[lo]))) == m.ja[m.ia[lo]..m.Nz()]
    requires DoublesOf(Get(file, 80 + (2 + m.N() + m.Nz()) * 4 + m.ia[lo] * 8, 8 * (m.Nz() - m.ia[lo])))
             == m.a[m.ia[lo]..m.Nz()]
    ensures ReadRows(file, m.N(), m.Nz(), 0, lo, m.N(), stale, true) == Slice(m, lo, m.N()) <==> next == m.Nz()
  {
    hide IntsOf, DoublesOf, RowEntries, Get;
  }

  /** Written with one split, in any order of the ranks' writes, over any old file, and read back with any
      other range of rows that ends before the last: the slice of the matrix, unless the caller has too
      little room for it. */
  lemma WriteThenRead(title: Text, m: Matrix, cut: seq<nat>, file: seq<Byte>, ws: seq<Write>,
                      room: nat, lo: nat, hi: nat, stale: seq<int>)
    requires m.Valid() && IsSplit(cut, m.N()) && lo < hi < m.N() && |stale| == hi - lo + 1
    requires multiset(ws) == multiset(AllWrites(title, m, cut, |cut| - 1))
    ensures ReadRows(PutAll(file, ws), m.N(), m.Nz(), room, lo, hi, stale, true)
            == if room == 0 || room >= m.ia[hi] - m.ia[lo] then Slice(m, lo, hi) else IoError
  {
    hide Image, PutAll, AllWrites, ReadRows, Slice;
    WrittenFile(title, m, cut, file, ws);
    RowsRoundTrip(title, m, if |file| > |Image(title, m)| then file[|Image(title, m)|..] else [], room, lo, hi, stale);
  }

  /** The smallest matrix whose last row is misread: one row, one nonzero, in column 0.  The entry after the
      last row start is that column, and the row comes back empty. */
  lemma LastRowMissed(title: Text, value: Double, stale: seq<int>)
    requires |stale| == 2
    ensures var m := Matrix([0], [0], [value]);
            && m.Valid()
            && ReadRows(Image(title, m), 1, 1, 0, 0, 1, stale, true) != Slice(m, 0, 1)
  {
    var m := Matrix([0], [0], [value]);
    assert m.Valid();
    hide ReadRows, Slice, Image;
    LastRowRead(title, m, [], 0, stale);
    assert Image(title, m) + [] == Image(title, m);
  }
}
