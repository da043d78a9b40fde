/** CSRIO_Write, CSRIO_Read_header and CSRIO_Read_rows as one rank runs them on the shared file. */
module CsrFile {
  import opened Csr
  import CsrProofs

  /** The MPI file: reads and writes at explicit offsets. */
  class File {
    var bytes: seq<Byte>

    constructor (initial: seq<Byte>)
      ensures bytes == initial
    {
      bytes := initial;
    }

    method WriteAt(off: nat, data: seq<Byte>)
      modifies this
      ensures bytes == Put(old(bytes), Write(off, data))
      ensures Get(bytes, off, |data|) == data
      ensures |old(bytes)| <= |bytes|
      ensures forall p :: 0 <= p < |old(bytes)| && !(off <= p < off + |data|) ==> bytes[p] == old(bytes)[p]
    {
      bytes := Put(bytes, Write(off, data));
    }

    method ReadAt(off: nat, len: nat) returns (data: seq<Byte>)
      ensures data == Get(bytes, off, len)
    {
      data := Get(bytes, off, len);
    }
  }

  lemma PutAllSnoc(file: seq<Byte>, ws: seq<Write>, w: Write)
    ensures PutAll(file, ws + [w]) == Put(PutAll(file, ws), w)
  {
    assert (ws + [w])[..|ws|] == ws;
  }

  /** strncpy of 79 characters into a zeroed block. */
  method FillTitle(title: Text) returns (block: array<Byte>)
    ensures fresh(block) && block[..] == TitleBlock(title)
    ensures var k := if |title| < 79 then |title| else 79;
            block.Length == 80 && block[..k] == title[..k] && forall i :: k <= i < 80 ==> block[i] == 0
  {
    block := new Byte[80](i => 0);
    var i := 0;
    while i < 79 && i < |title|
      invariant 0 <= i <= 79 && i <= |title|
      invariant forall k :: 0 <= k < 80 ==> block[k] == if k < i then title[k] else 0
    {
      block[i] := title[i];
      i := i + 1;
    }
  }

  /** Row starts made relative to the whole matrix, in a fresh array. */
  method Globalise(myIa: array<int>, prevNz: int) returns (tmpIa: array<int>)
    ensures fresh(tmpIa) && tmpIa[..] == Shifted(myIa[..], prevNz)
    ensures tmpIa.Length == myIa.Length && forall k :: 0 <= k < myIa.Length ==> tmpIa[k] == myIa[k] + prevNz
  {
    tmpIa := new int[myIa.Length];
    var i := 0;
    while i < myIa.Length
      invariant 0 <= i <= myIa.Length
      invariant forall k :: 0 <= k < i ==> tmpIa[k] == myIa[k] + prevNz
    {
      tmpIa[i] := myIa[i] + prevNz;
      i := i + 1;
    }
  }

  /** Row starts made relative to the rows read, in place: the first one is zeroed last, since every other
      entry still needs it. */
  method Localise(myIa: array<int>)
    requires myIa.Length > 0
    modifies myIa
    ensures forall k :: 0 <= k < myIa.Length ==> myIa[k] == old(myIa[k]) - old(myIa[0])
  {
    var i := 1;
    while i < myIa.Length
      invariant 1 <= i <= myIa.Length
      invariant myIa[0] == old(myIa[0])
      invariant forall k :: 1 <= k < i ==> myIa[k] == old(myIa[k]) - old(myIa[0])
      invariant forall k :: i <= k < myIa.Length ==> myIa[k] == old(myIa[k])
    {
      myIa[i] := myIa[i] - myIa[0];
      i := i + 1;
    }
    myIa[0] := 0;
  }

  /** CSRIO_Write on one rank: prevNz from Exscan (0 on rank 0) and totNz from Allreduce. */
  method WriteRank(fh: File, title: Text, n: nat, prevNz: nat, totNz: nat, rowStart: nat,
                   myIa: array<int>, myJa: seq<int>, myA: seq<Double>, rank: nat)
    modifies fh
    ensures fh.bytes == PutAll(old(fh.bytes),
              RankWrites(title, n, prevNz, totNz, Part(rowStart, myIa[..], myJa, myA), rank == 0))
  {
    hide Put, Ints, Doubles, TitleBlock, Shifted;
    ghost var was := fh.bytes;
    ghost var ws: seq<Write> := [];
    if rank == 0 {
      var block := FillTitle(title);
      PutAllSnoc(was, ws, Write(0, block[..]));
      fh.WriteAt(0, block[..]);
      ws := ws + [Write(0, block[..])];
      PutAllSnoc(was, ws, Write(80, Ints([n, totNz])));
      fh.WriteAt(80, Ints([n, totNz]));
      ws := ws + [Write(80, Ints([n, totNz]))];
    }
    var tmpIa := Globalise(myIa, prevNz);
    var rowOffset := 80 + (2 + rowStart) * 4;
    var colOffset := 80 + (2 + n + prevNz) * 4;
    var dataOffset := 80 + (2 + n + totNz) * 4 + prevNz * 8;
    PutAllSnoc(was, ws, Write(rowOffset, Ints(tmpIa[..])));
    fh.WriteAt(rowOffset, Ints(tmpIa[..]));
    ws := ws + [Write(rowOffset, Ints(tmpIa[..]))];
    PutAllSnoc(was, ws, Write(colOffset, Ints(myJa)));
    fh.WriteAt(colOffset, Ints(myJa));
    ws := ws + [Write(colOffset, Ints(myJa))];
    PutAllSnoc(was, ws, Write(dataOffset, Doubles(myA)));
    fh.WriteAt(dataOffset, Doubles(myA));
    ws := ws + [Write(dataOffset, Doubles(myA))];
    assert ws == RankWrites(title, n, prevNz, totNz, Part(rowStart, myIa[..], myJa, myA), rank == 0);
  }

  /** CSRIO_Read_header on the reading rank: from a file that begins with the layout of a matrix it gets the
      title, as far as it was kept, and the two sizes. */
  method ReadHeader(fh: File) returns (title: seq<Byte>, counts: seq<int>)
    ensures (title, counts) == HeaderOf(fh.bytes)
    ensures forall t: Text, m: Matrix, tail: seq<Byte> {:trigger Image(t, m) + tail} :: m.Valid() && fh.bytes == Image(t, m) + tail ==>
                CString(title) == t[..if |t| < 79 then |t| else 79] && counts == [m.N(), m.Nz()]
  {
    title := fh.ReadAt(0, 80);
    var b := fh.ReadAt(80, 8);
    counts := IntsOf(b);
    hide *;
    forall t: Text, m: Matrix, tail: seq<Byte> {:trigger Image(t, m) + tail} | m.Valid() && fh.bytes == Image(t, m) + tail
      ensures CString(title) == t[..if |t| < 79 then |t| else 79] && counts == [m.N(), m.Nz()]
    {
      CsrProofs.HeaderRoundTrip(t, m, tail);
    }
  }

  datatype Status = Success(myNz: int, ja: seq<int>, a: seq<Double>) | MpiError

  /** CSRIO_Read_rows: myIa receives the row starts and is then made local in place. */
  method ReadRowRange(fh: File, n: nat, nz: nat, myNz: nat, rowStart: nat, myIa: array<int>, nextRowIa: int,
                      othersOk: bool) returns (st: Status)
    requires myIa.Length > 0
    modifies myIa
    ensures var want := ReadRows(fh.bytes, n, nz, myNz, rowStart, rowStart + myIa.Length,
                                 old(myIa[..]) + [nextRowIa], othersOk);
            match st
            case MpiError => want == IoError
            case Success(count, ja, a) => want == Rows(count, myIa[..], ja, a)
  {
    hide IntsOf, DoublesOf, RowEntries, Get;
    var rows := myIa.Length;
    ghost var stale := myIa[..] + [nextRowIa];
    var next := ReadEntries(fh, rowStart, myIa, nextRowIa);
    ghost var e := RowEntries(fh.bytes, rowStart, rowStart + rows, stale);
    assert e[rows] == next && forall k :: 0 <= k < rows ==> e[k] == myIa[k];
    var count := next - myIa[0];
    if !(myNz == 0 || myNz >= count) || !othersOk {
      return MpiError;
    }
    if count < 0 || myIa[0] < 0 {
      return MpiError;
    }
    var cols := fh.ReadAt(80 + (2 + n + myIa[0]) * 4, 4 * count);
    var vals := fh.ReadAt(80 + (2 + n + nz) * 4 + myIa[0] * 8, 8 * count);
    Localise(myIa);
    st := Success(count, IntsOf(cols), DoublesOf(vals));
    assert ReadRows(fh.bytes, n, nz, myNz, rowStart, rowStart + rows, stale, othersOk).ia == myIa[..];
  }

  /** The collective read of the row starts and the one after them. */
  method ReadEntries(fh: File, rowStart: nat, myIa: array<int>, nextRowIa: int) returns (next: int)
    modifies myIa
    ensures myIa[..] + [next] ==
      RowEntries(fh.bytes, rowStart, rowStart + myIa.Length, old(myIa[..]) + [nextRowIa])
  {
    hide IntsOf, Get;
    var b := fh.ReadAt(80 + (2 + rowStart) * 4, 4 * (myIa.Length + 1));
    next := ReceiveInts(b, myIa, nextRowIa);
  }

  /** The struct datatype of the read: the row starts, then one more integer; what does not arrive is left. */
  method ReceiveInts(b: seq<Byte>, myIa: array<int>, nextRowIa: int) returns (next: int)
    modifies myIa
    ensures forall k :: 0 <= k < myIa.Length ==> myIa[k] == if k < |IntsOf(b)| then IntsOf(b)[k] else old(myIa[k])
    ensures next == if myIa.Length < |IntsOf(b)| then IntsOf(b)[myIa.Length] else nextRowIa
  {
    var got := IntsOf(b);
    var i := 0;
    while i < myIa.Length && i < |got|
      invariant 0 <= i <= myIa.Length && i <= |got|
      invariant forall k :: 0 <= k < myIa.Length ==> myIa[k] == if k < i then got[k] else old(myIa[k])
    {
      myIa[i] := got[i];
      i := i + 1;
    }
    next := if myIa.Length < |got| then got[myIa.Length] else nextRowIa;
  }
}
