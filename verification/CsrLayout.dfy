/** The file of a whole job, entry by entry, and the read of a whole job. */
module CsrLayout {
  import opened Csr
  import opened CsrProofs

  /** A 32-bit integer is stored as its digits to base 256, the lowest first, a negative one as its complement. */
  lemma IntBytesAreDigits(v: int)
    ensures var b := IntBytes(v);
            (b[0] as int) + 0x100 * (b[1] as int) + 0x1_0000 * (b[2] as int) + 0x100_0000 * (b[3] as int) == v % 0x1_0000_0000
  {
    var u := v % 0x1_0000_0000;
    assert u / 0x1_0000 == u / 0x100 / 0x100 && u / 0x100_0000 == u / 0x1_0000 / 0x100;
  }

  lemma OneInt(v: int)
    requires Fits(v)
    ensures IntOf(Ints([v])) == v
  {
    IntsRoundTrip([v]);
    assert IntsOf(Ints([v]))[0] == v;
    assert Ints([v])[4 * 0..4 * 0 + 4] == Ints([v]);
  }

  lemma OneDouble(d: Double)
    ensures Doubles([d]) == d
  {
  }

  /** The file has the integer v at byte p; it has the eight bytes d there. */
  predicate HasInt(f: seq<Byte>, p: nat, v: int)
  {
    p + 4 <= |f| && IntOf(f[p..p + 4]) == v
  }

  predicate HasDouble(f: seq<Byte>, p: nat, d: Double)
  {
    p + 8 <= |f| && f[p..p + 8] == d
  }

  lemma IntInPrefix(img: seq<Byte>, tail: seq<Byte>, p: nat, v: int)
    requires Fits(v) && p + 4 <= |img| && img[p..p + 4] == Ints([v])
    ensures HasInt(img + tail, p, v)
  {
    hide Ints, IntOf;
    OneInt(v);
    assert (img + tail)[p..p + 4] == img[p..p + 4];
  }

  lemma DoubleInPrefix(img: seq<Byte>, tail: seq<Byte>, p: nat, d: Double)
    requires p + 8 <= |img| && img[p..p + 8] == Doubles([d])
    ensures HasDouble(img + tail, p, d)
  {
    assert (img + tail)[p..p + 8] == img[p..p + 8];
    OneDouble(d);
  }

  lemma SizesInImage(title: Text, m: Matrix, tail: seq<Byte>)
    requires m.Valid()
    ensures HasInt(Image(title, m) + tail, 80, |m.ia|) && HasInt(Image(title, m) + tail, 84, |m.ja|)
  {
    var img := Image(title, m);
    HeaderRegion(title, m);
    assert |img| >= 88 && Fits(m.N()) && Fits(m.Nz());
    hide Image, Matrix.Valid;
    IntsSlice([m.N(), m.Nz()], 0, 1);
    IntsSlice([m.N(), m.Nz()], 1, 2);
    assert [m.N(), m.Nz()][0..1] == [m.N()] && [m.N(), m.Nz()][1..2] == [m.Nz()];
    assert img[80..84] == img[80..88][4 * 0..4 * 1] && img[84..88] == img[80..88][4 * 1..4 * 2];
    hide Ints, HasInt;
    IntInPrefix(img, tail, 80, m.N());
    IntInPrefix(img, tail, 84, m.Nz());
  }

  lemma StartInImage(title: Text, m: Matrix, tail: seq<Byte>, i: nat)
    requires m.Valid() && i < m.N()
    ensures HasInt(Image(title, m) + tail, 88 + 4 * i, m.ia[i])
  {
    StartFits(m, i);
    StartsRegion(title, m, i, i + 1);
    hide Image, Ints, HasInt, Matrix.Valid;
    assert m.ia[i..i + 1] == [m.ia[i]];
    IntInPrefix(Image(title, m), tail, 88 + 4 * i, m.ia[i]);
  }

  lemma ColumnInImage(title: Text, m: Matrix, tail: seq<Byte>, j: nat)
    requires m.Valid() && j < m.Nz()
    ensures HasInt(Image(title, m) + tail, 88 + 4 * |m.ia| + 4 * j, m.ja[j])
  {
    assert Fits(m.ja[j]);
    ColumnsRegion(title, m, j, j + 1);
    hide Image, Ints, HasInt, Matrix.Valid;
    assert m.ja[j..j + 1] == [m.ja[j]];
    IntInPrefix(Image(title, m), tail, 88 + 4 * m.N() + 4 * j, m.ja[j]);
  }

  lemma ValueInImage(title: Text, m: Matrix, tail: seq<Byte>, j: nat)
    requires m.Valid() && j < m.Nz()
    ensures |m.a| == |m.ja| && HasDouble(Image(title, m) + tail, 88 + 4 * |m.ia| + 4 * |m.ja| + 8 * j, m.a[j])
  {
    assert |m.a| == |m.ja|;
    ValuesRegion(title, m, j, j + 1);
    hide Image, Doubles, HasDouble, Matrix.Valid;
    assert m.a[j..j + 1] == [m.a[j]];
    DoubleInPrefix(Image(title, m), tail, 88 + 4 * m.N() + 4 * m.Nz() + 8 * j, m.a[j]);
  }

  /** Any split of the rows, any order of the writes, any old file: the file has the sizes at byte 80, the start of
      row i at byte 88 + 4 i, the column of nonzero j after those, and its value after the columns. */
  lemma WrittenEntries(title: Text, m: Matrix, cut: seq<nat>, file: seq<Byte>, ws: seq<Write>, i: nat, j: nat)
    requires m.Valid() && IsSplit(cut, m.N())
    requires multiset(ws) == multiset(AllWrites(title, m, cut, |cut| - 1))
    ensures HasInt(PutAll(file, ws), 80, |m.ia|) && HasInt(PutAll(file, ws), 84, |m.ja|)
    ensures i < |m.ia| ==> HasInt(PutAll(file, ws), 88 + 4 * i, m.ia[i])
    ensures |m.a| == |m.ja|
    ensures j < |m.ja| ==> HasInt(PutAll(file, ws), 88 + 4 * |m.ia| + 4 * j, m.ja[j])
                           && HasDouble(PutAll(file, ws), 88 + 4 * |m.ia| + 4 * |m.ja| + 8 * j, m.a[j])
  {
    WrittenFile(title, m, cut, file, ws);
    var img := Image(title, m);
    var tail := if |file| > |img| then file[|img|..] else [];
    assert |m.a| == |m.ja|;
    hide *;
    SizesInImage(title, m, tail);
    if i < |m.ia| {
      StartInImage(title, m, tail, i);
    }
    if j < |m.ja| {
      ColumnInImage(title, m, tail, j);
      ValueInImage(title, m, tail, j);
    }
  }

  lemma StartFits(m: Matrix, i: nat)
    requires m.Valid() && i < m.N()
    ensures Fits(m.ia[i])
  {
    assert 0 == m.ia[0] <= m.ia[i] <= m.ia[m.N() - 1] <= m.Nz();
  }

  // ----- all ranks read at once -----

  /** What a rank asks for: rows lo to hi - 1, with room for so many nonzeros (0 for any), and what its variables
      hold before the call. */
  datatype Request = Request(room: nat, lo: nat, hi: nat, stale: seq<int>)
  {
    predicate Valid() { lo < hi && |stale| == hi - lo + 1 }
  }

  /** Whether a rank has room for what it finds: its part of the reduction. */
  function HasRoom(file: seq<Byte>, q: Request): bool
    requires q.Valid()
  {
    var e := RowEntries(file, q.lo, q.hi, q.stale);
    q.room == 0 || q.room >= e[q.hi - q.lo] - e[0]
  }

  /** The call on rank r, in which all the others' answers are reduced. */
  ghost function Answer(file: seq<Byte>, n: nat, nz: nat, requests: seq<Request>, r: nat): Rows
    requires r < |requests| && forall q :: 0 <= q < |requests| ==> requests[q].Valid()
  {
    var me := requests[r];
    assert me.Valid();
    ReadRows(file, n, nz, me.room, me.lo, me.hi, me.stale,
             forall q :: 0 <= q < |requests| && q != r ==> HasRoom(file, requests[q]))
  }

  lemma Refused(file: seq<Byte>, n: nat, nz: nat, q: Request, others: bool)
    requires q.Valid() && !(HasRoom(file, q) && others)
    ensures ReadRows(file, n, nz, q.room, q.lo, q.hi, q.stale, others) == IoError
  {
    hide RowEntries, IntsOf, DoublesOf, Get;
  }

  lemma RoomMeans(title: Text, m: Matrix, tail: seq<Byte>, q: Request)
    requires m.Valid() && q.Valid() && q.hi < m.N()
    ensures HasRoom(Image(title, m) + tail, q) <==> q.room == 0 || q.room >= m.ia[q.hi] - m.ia[q.lo]
  {
    hide Image, RowEntries, Matrix.Valid;
    EntriesRead(title, m, tail, q.lo, q.hi, q.stale);
  }

  /** Request q of the job is legal and ends before the last row. */
  ghost predicate Asks(m: Matrix, requests: seq<Request>)
  {
    forall q :: 0 <= q < |requests| ==> requests[q].Valid() && requests[q].hi < m.N()
  }

  /** Whether every rank has room for the nonzeros of its rows. */
  ghost predicate AllHaveRoom(m: Matrix, requests: seq<Request>)
    requires Asks(m, requests)
  {
    forall q :: 0 <= q < |requests| ==>
      requests[q].room == 0 || requests[q].room >= m.ia[requests[q].hi] - m.ia[requests[q].lo]
  }

  /** All ranks are served or none is: from any file of the job's matrix, whatever rows the ranks ask for before
      the last, each gets the count, starts, columns and values of its rows if every rank has the room it needs,
      and otherwise all get the error. */
  lemma AllOrNone(title: Text, m: Matrix, cut: seq<nat>, file: seq<Byte>, ws: seq<Write>, requests: seq<Request>, r: nat)
    requires m.Valid() && IsSplit(cut, m.N()) && multiset(ws) == multiset(AllWrites(title, m, cut, |cut| - 1))
    requires r < |requests| && Asks(m, requests)
    ensures AllHaveRoom(m, requests) ==> GivesRows(m, requests[r].lo, requests[r].hi, Answer(PutAll(file, ws), m.N(), m.Nz(), requests, r))
    ensures !AllHaveRoom(m, requests) ==> Answer(PutAll(file, ws), m.N(), m.Nz(), requests, r) == IoError
  {
    WrittenFile(title, m, cut, file, ws);
    var img := Image(title, m);
    var tail := if |file| > |img| then file[|img|..] else [];
    hide *;
    AnswerFromImage(title, m, tail, requests, r);
  }

  /** The count, starts, columns and values of rows lo to hi - 1. */
  ghost predicate GivesRows(m: Matrix, lo: nat, hi: nat, rows: Rows)
    requires lo < hi < m.N()
  {
    && 0 <= m.ia[lo] <= m.ia[hi] <= |m.ja| == |m.a|
    && rows.Rows? && rows.count == m.ia[hi] - m.ia[lo]
    && |rows.ia| == hi - lo && (forall k :: 0 <= k < hi - lo ==> rows.ia[k] == m.ia[lo + k] - m.ia[lo])
    && rows.ja == m.ja[m.ia[lo]..m.ia[hi]] && rows.a == m.a[m.ia[lo]..m.ia[hi]]
  }

  lemma SliceGives(m: Matrix, lo: nat, hi: nat)
    requires m.Valid() && lo < hi < m.N()
    ensures GivesRows(m, lo, hi, Slice(m, lo, hi))
  {
    StartMono(m, lo, hi);
    StartMono(m, hi, hi);
  }

  lemma AnswerFromImage(title: Text, m: Matrix, tail: seq<Byte>, requests: seq<Request>, r: nat)
    requires m.Valid() && r < |requests| && Asks(m, requests)
    ensures AllHaveRoom(m, requests) ==> GivesRows(m, requests[r].lo, requests[r].hi, Answer(Image(title, m) + tail, m.N(), m.Nz(), requests, r))
    ensures !AllHaveRoom(m, requests) ==> Answer(Image(title, m) + tail, m.N(), m.Nz(), requests, r) == IoError
  {
    hide Image, ReadRows, HasRoom, Slice, Matrix.Valid, GivesRows;
    var img, me := Image(title, m), requests[r];
    SliceGives(m, me.lo, me.hi);
    forall q | 0 <= q < |requests|
      ensures HasRoom(img + tail, requests[q]) <==>
                requests[q].room == 0 || requests[q].room >= m.ia[requests[q].hi] - m.ia[requests[q].lo]
    {
      RoomMeans(title, m, tail, requests[q]);
    }
    var others := forall q :: 0 <= q < |requests| && q != r ==> HasRoom(img + tail, requests[q]);
    RowsRoundTrip(title, m, tail, me.room, me.lo, me.hi, me.stale);
    if !(HasRoom(img + tail, me) && others) {
      Refused(img + tail, m.N(), m.Nz(), me, others);
    }
  }
}
