/** The compressed-sparse-row file of csrio-mpiio.c, byte for byte: an 80-byte title, n and nz, the row
    starts, the column indices and the values. */
module Csr {

  type Byte = b: int | 0 <= b < 256
  // a double is only ever moved, so its eight bytes are its value
  type Double = d: seq<Byte> | |d| == 8 witness [0, 0, 0, 0, 0, 0, 0, 0]

  /** A C string, without its terminating zero. */
  type Text = t: seq<Byte> | forall i :: 0 <= i < |t| ==> t[i] != 0

  /** What a C int can hold. */
  predicate Fits(v: int) { -0x8000_0000 <= v < 0x8000_0000 }

  /** Native 32-bit integers, least significant byte first. */
  function IntBytes(v: int): (b: seq<Byte>)
    ensures |b| == 4
  {
    var u := v % 0x1_0000_0000;
    [u % 0x100, u / 0x100 % 0x100, u / 0x1_0000 % 0x100, u / 0x100_0000]
  }

  function IntOf(b: seq<Byte>): int
    requires |b| == 4
  {
    var u := (b[0] as int) + 0x100 * (b[1] as int) + 0x1_0000 * (b[2] as int) + 0x100_0000 * (b[3] as int);
    if u >= 0x8000_0000 then u - 0x1_0000_0000 else u
  }

  function Ints(s: seq<int>): (b: seq<Byte>)
    ensures |b| == 4 * |s|
  {
    seq(4 * |s|, i requires 0 <= i < 4 * |s| => IntBytes(s[i / 4])[i % 4])
  }

  function Doubles(s: seq<Double>): (b: seq<Byte>)
    ensures |b| == 8 * |s|
  {
    seq(8 * |s|, i requires 0 <= i < 8 * |s| => s[i / 8][i % 8])
  }

  function IntsOf(b: seq<Byte>): (s: seq<int>)
    ensures |s| == |b| / 4
  {
    seq(|b| / 4, i requires 0 <= i < |b| / 4 => IntOf(b[4 * i..4 * i + 4]))
  }

  function DoublesOf(b: seq<Byte>): (s: seq<Double>)
    ensures |s| == |b| / 8
  {
    seq(|b| / 8, i requires 0 <= i < |b| / 8 => b[8 * i..8 * i + 8])
  }

  /** The global matrix: row i holds the nonzeros from ia[i] up to the start of row i + 1. */
  datatype Matrix = Matrix(ia: seq<int>, ja: seq<int>, a: seq<Double>)
  {
    function N(): nat { |ia| }
    function Nz(): nat { |ja| }

    ghost predicate Valid()
    {
      && N() > 0 && |a| == |ja| && (forall j :: 0 <= j < Nz() ==> Fits(ja[j]))
      && 2 + N() + Nz() < 0x8000_0000
      && ia[0] == 0
      && (forall i, j :: 0 <= i <= j < N() ==> ia[i] <= ia[j])
      && ia[N() - 1] <= Nz()
    }

    // where row i starts, and where the rows before i end
    function Start(i: nat): int
      requires i <= N()
    {
      if i == N() then Nz() else ia[i]
    }
  }

  /** The arguments one rank passes to CSRIO_Write: rows lo to hi - 1, starts counted from its own nonzeros. */
  datatype Part = Part(lo: nat, ia: seq<int>, ja: seq<int>, a: seq<Double>)

  // ----- files -----

  datatype Write = Write(off: nat, data: seq<Byte>)
  {
    function End(): nat { off + |data| }
  }

  /** A write at an offset; a gap before it is filled with zeros. */
  function Put(file: seq<Byte>, w: Write): (r: seq<Byte>)
    ensures |r| == if |file| < w.End() then w.End() else |file|
    ensures forall p :: 0 <= p < |r| ==>
      r[p] == if w.off <= p < w.End() then w.data[p - w.off] else if p < |file| then file[p] else 0
  {
    var size := if |file| < w.End() then w.End() else |file|;
    seq(size, p requires 0 <= p < size =>
      if w.off <= p < w.End() then w.data[p - w.off] else if p < |file| then file[p] else 0)
  }

  function PutAll(file: seq<Byte>, ws: seq<Write>): seq<Byte>
  {
    if ws == [] then file else Put(PutAll(file, ws[..|ws| - 1]), ws[|ws| - 1])
  }

  /** What a read of len bytes delivers: less at the end of the file. */
  function Get(file: seq<Byte>, off: nat, len: nat): seq<Byte>
  {
    if off >= |file| then []
    else if off + len > |file| then file[off..]
    else file[off..off + len]
  }

  // ----- writing -----

  /** The 80-byte title block: at most 79 characters, then zeros. */
  function TitleBlock(title: Text): (b: seq<Byte>)
    ensures |b| == 80
  {
    seq(80, i requires 0 <= i < 80 => if i < 79 && i < |title| then title[i] else 0)
  }

  /** The string in a title block. */
  function CString(b: seq<Byte>): seq<Byte>
  {
    if b == [] || b[0] == 0 then [] else [b[0]] + CString(b[1..])
  }

  /** Row starts counted from the first nonzero of the matrix. */
  function Shifted(ia: seq<int>, shift: int): (r: seq<int>)
    ensures |r| == |ia|
  {
    seq(|ia|, i requires 0 <= i < |ia| => ia[i] + shift)
  }

  /** The writes of one rank, with the sums it got from Exscan and Allreduce. */
  function RankWrites(title: Text, n: nat, prevNz: nat, totNz: nat, part: Part, root: bool): seq<Write>
  {
    (if root then [Write(0, TitleBlock(title)), Write(80, Ints([n, totNz]))] else []) +
    [Write(80 + (2 + part.lo) * 4, Ints(Shifted(part.ia, prevNz))),
     Write(80 + (2 + n + prevNz) * 4, Ints(part.ja)),
     Write(80 + (2 + n + totNz) * 4 + prevNz * 8, Doubles(part.a))]
  }

  // ----- reading -----

  /** The header: title block, n and nz. */
  function HeaderOf(file: seq<Byte>): (seq<Byte>, seq<int>)
  {
    (Get(file, 0, 80), IntsOf(Get(file, 80, 8)))
  }

  datatype Rows = IoError | Rows(count: int, ia: seq<int>, ja: seq<int>, a: seq<Double>)

  /** The row starts of lo to hi - 1 and the entry after them.  An entry past the end of the file is not
      delivered: the variable keeps what it held before. */
  function RowEntries(file: seq<Byte>, lo: nat, hi: nat, stale: seq<int>): (e: seq<int>)
    requires lo <= hi && |stale| == hi - lo + 1
    ensures |e| == hi - lo + 1
  {
    var got := IntsOf(Get(file, 80 + (2 + lo) * 4, 4 * (hi - lo + 1)));
    seq(hi - lo + 1, i requires 0 <= i < hi - lo + 1 => if i < |got| then got[i] else stale[i])
  }

  /** CSRIO_Read_rows for rows lo to hi - 1: room is the caller's buffer size (0 for any), others whether every
      other rank had room. */
  function ReadRows(file: seq<Byte>, n: nat, nz: nat, room: nat, lo: nat, hi: nat, stale: seq<int>, others: bool): Rows
    requires lo < hi && |stale| == hi - lo + 1
  {
    var e := RowEntries(file, lo, hi, stale);
    var count := e[hi - lo] - e[0];
    if !(room == 0 || room >= count) || !others then IoError
    else if count < 0 || e[0] < 0 then IoError // a negative count or offset is an MPI error
    else
      var cols := IntsOf(Get(file, 80 + (2 + n + e[0]) * 4, 4 * count));
      var vals := DoublesOf(Get(file, 80 + (2 + n + nz) * 4 + e[0] * 8, 8 * count));
      Rows(count, seq(hi - lo, i requires 0 <= i < hi - lo => e[i] - e[0]), cols, vals)
  }

  /** What reading rows lo to hi - 1 of a matrix means. */
  function Slice(m: Matrix, lo: nat, hi: nat): Rows
    requires m.Valid() && lo < hi <= m.N()
  {
    Rows(m.Start(hi) - m.ia[lo], seq(hi - lo, i requires 0 <= i < hi - lo => m.ia[lo + i] - m.ia[lo]),
         m.ja[m.ia[lo]..m.Start(hi)], m.a[m.ia[lo]..m.Start(hi)])
  }

  // ----- the file as a whole -----

  /** The layout, independent of who wrote it. */
  function Image(title: Text, m: Matrix): (b: seq<Byte>)
    requires m.Valid()
    ensures |b| == 88 + 4 * m.N() + 12 * m.Nz()
  {
    TitleBlock(title) + Ints([m.N(), m.Nz()]) + Ints(m.ia) + Ints(m.ja) + Doubles(m.a)
  }
}
