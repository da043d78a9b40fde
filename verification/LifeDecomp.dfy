/** The two ways the Life programs deal out the board: MLIFE_MeshDecomp of mlife2d.c and the row blocks
    of mlife.c; and that the result of a run does not depend on the choice. */
module LifeDecomp {
  import opened Arith
  import opened LifeBoard
  import opened LifeGrid
  import opened LifePt2pt
  import opened LifeOutcome

  /** First position of block `p` when `n` positions are dealt to `parts` blocks of n / parts each, the
      last block taking the remainder. */
  function MeshStart(n: int, parts: int, p: int): int
    requires parts >= 1
  {
    if p == parts then n + 1 else 1 + p * (n / parts)
  }

  function MeshCut(n: int, parts: int): seq<int>
    requires parts >= 1
  {
    seq(parts + 1, p => MeshStart(n, parts, p))
  }

  lemma MeshCutIsCut(n: int, parts: int)
    requires 1 <= parts <= n
    ensures IsCut(MeshCut(n, parts), n)
  {
    var x := n / parts;
    assert x >= 1 && parts * x <= n;
    forall p, q | 0 <= p < q < parts + 1 ensures MeshStart(n, parts, p) < MeshStart(n, parts, q) {
      MulStep(p, q, x);
    }
  }

  lemma MeshBlock(n: int, parts: int, p: int)
    requires 1 <= parts <= n && 0 <= p < parts
    ensures var c := MeshCut(n, parts);
            && |c| == parts + 1
            && c[p] == 1 + p * (n / parts)
            && c[p + 1] == (if p == parts - 1 then n else 1 + (p + 1) * (n / parts) - 1) + 1
            && c[p] < c[p + 1]
  {
    MeshCutIsCut(n, parts);
  }

  function MeshLayout(rows: int, cols: int, prows: int, pcols: int): Layout
    requires prows >= 1 && pcols >= 1
  {
    Layout(MeshCut(rows, prows), MeshCut(cols, pcols))
  }

  /** Ranks are numbered across the rows of the grid. */
  function RankAt(pcols: int, a: Place): int
  {
    a.p * pcols + a.q
  }

  lemma RankSplits(pcols: int, a: Place)
    requires 0 <= a.q < pcols
    ensures RankAt(pcols, a) / pcols == a.p && RankAt(pcols, a) % pcols == a.q
  {
    DivModUnique(a.p, pcols, a.q);
  }

  const PROC_NULL := -1

  /** The rank of a neighbouring place, or MPI_PROC_NULL where the grid ends. */
  function RankBeside(l: Layout, pcols: int, a: Place, d: Side): int
  {
    if l.Has(Neighbour(a, d)) then RankAt(pcols, Neighbour(a, d)) else PROC_NULL
  }

  lemma MeshPlace(rank: int, prows: int, pcols: int, grows: int, gcols: int)
    requires 1 <= prows <= grows && 1 <= pcols <= gcols
    requires 0 <= rank < prows * pcols
    ensures var l, a := MeshLayout(grows, gcols, prows, pcols), Place(rank / pcols, rank % pcols);
            && l.Has(a) && RankAt(pcols, a) == rank
            && l.BoardRow(a, 1) == 1 + a.p * (grows / prows)
            && l.BoardCol(a, 1) == 1 + a.q * (gcols / pcols)
            && l.BoardRow(a, 1) + l.LRows(a) == 1 + (if a.p == prows - 1 then grows else 1 + (a.p + 1) * (grows / prows) - 1)
            && l.BoardCol(a, 1) + l.LCols(a) == 1 + (if a.q == pcols - 1 then gcols else 1 + (a.q + 1) * (gcols / pcols) - 1)
            && l.LRows(a) >= 1 && l.LCols(a) >= 1
            && RankBeside(l, pcols, a, Left) == (if a.q > 0 then rank - 1 else PROC_NULL)
            && RankBeside(l, pcols, a, Right) == (if a.q < pcols - 1 then rank + 1 else PROC_NULL)
            && RankBeside(l, pcols, a, Above) == (if a.p > 0 then rank - pcols else PROC_NULL)
            && RankBeside(l, pcols, a, Below) == (if a.p < prows - 1 then rank + pcols else PROC_NULL)
  {
    hide MeshCut, RankAt;
    RankInGrid(rank, prows, pcols);
    MeshBlock(grows, prows, rank / pcols);
    MeshBlock(gcols, pcols, rank % pcols);
  }

  /** MLIFE_MeshDecomp, for a grid of prows by pcols processes.  Its numbers are those of the layout: the
      neighbours it names are the ranks of the neighbouring places, or MPI_PROC_NULL where the grid ends,
      and the blocks it computes are the blocks of a cut of the board. */
  method MeshDecomp(rank: int, prows: int, pcols: int, grows: int, gcols: int)
    returns (left: int, right: int, top: int, bottom: int,
             lrows: int, lcols: int, gfirstrow: int, gfirstcol: int)
    requires 1 <= prows <= grows && 1 <= pcols <= gcols
    requires 0 <= rank < prows * pcols
    ensures var l, a := MeshLayout(grows, gcols, prows, pcols), Place(rank / pcols, rank % pcols);
            && l.Has(a) && RankAt(pcols, a) == rank
            && lrows == l.LRows(a) >= 1 && lcols == l.LCols(a) >= 1
            && gfirstrow == l.BoardRow(a, 1) && gfirstcol == l.BoardCol(a, 1)
            && left == RankBeside(l, pcols, a, Left) && right == RankBeside(l, pcols, a, Right)
            && top == RankBeside(l, pcols, a, Above) && bottom == RankBeside(l, pcols, a, Below)
  {
    hide *;
    MeshPlace(rank, prows, pcols, grows, gcols);
    var prow, pcol := rank / pcols, rank % pcols;
    left, right, top, bottom := PROC_NULL, PROC_NULL, PROC_NULL, PROC_NULL;
    if prow > 0 {
      top := rank - pcols;
    }
    if pcol > 0 {
      left := rank - 1;
    }
    if prow < prows - 1 {
      bottom := rank + pcols;
    }
    if pcol < pcols - 1 {
      right := rank + 1;
    }
    var firstcol := 1 + pcol * (gcols / pcols);
    var firstrow := 1 + prow * (grows / prows);
    var lastcol, lastrow;
    if pcol == pcols - 1 {
      lastcol := gcols;
    } else {
      lastcol := 1 + (pcol + 1) * (gcols / pcols) - 1;
    }
    if prow == prows - 1 {
      lastrow := grows;
    } else {
      lastrow := 1 + (prow + 1) * (grows / prows) - 1;
    }
    lrows, lcols := lastrow - firstrow + 1, lastcol - firstcol + 1;
    gfirstrow, gfirstcol := firstrow, firstcol;
  }

  /** Where the grid ends, told from the rank alone. */
  lemma ColumnEnds(rank: int, pcols: int)
    requires 1 <= pcols && 0 <= rank
    ensures 0 <= rank % pcols < pcols
    ensures rank % pcols == pcols - 1 <==> (rank + 1) % pcols == 0
  {
    var p, q := rank / pcols, rank % pcols;
    DivMod(pcols, rank);
    if q == pcols - 1 {
      Distribute(pcols, p, 1);
      RemainderIs(pcols, rank + 1, p + 1, 0);
    } else {
      RemainderIs(pcols, rank + 1, p, q + 1);
    }
  }

  lemma RowEnds(rank: int, prows: int, pcols: int)
    requires 1 <= prows && 1 <= pcols && 0 <= rank < pcols * prows
    ensures 0 <= rank / pcols < prows
    ensures rank / pcols == 0 <==> rank < pcols
    ensures rank / pcols == prows - 1 <==> rank + pcols >= pcols * prows
  {
    QuotientBelow(pcols, rank, prows);
    QuotientBelow(pcols, rank, prows - 1);
    QuotientBelow(pcols, rank, 1);
    Distribute(pcols, prows - 1, 1);
    DivMod(pcols, rank);
  }

  /** The neighbours of a rank in plain numbers: one rank to the left and right within the row of the grid, one
      row of ranks up and down. */
  lemma MeshNeighbours(rank: int, prows: int, pcols: int, grows: int, gcols: int)
    requires 1 <= prows <= grows && 1 <= pcols <= gcols
    requires 0 <= rank < prows * pcols
    ensures var l, a := MeshLayout(grows, gcols, prows, pcols), Place(rank / pcols, rank % pcols);
            && RankBeside(l, pcols, a, Left) == (if rank % pcols == 0 then -1 else rank - 1)
            && RankBeside(l, pcols, a, Right) == (if (rank + 1) % pcols == 0 then -1 else rank + 1)
            && RankBeside(l, pcols, a, Above) == (if rank < pcols then -1 else rank - pcols)
            && RankBeside(l, pcols, a, Below) == (if rank + pcols >= prows * pcols then -1 else rank + pcols)
  {
    assert prows * pcols == pcols * prows;
    ColumnEnds(rank, pcols);
    RowEnds(rank, prows, pcols);
    MeshPlace(rank, prows, pcols, grows, gcols);
    hide *;
  }

  /** The blocks in plain numbers: all have the same size but for those at the end. */
  lemma MeshBlocks(prows: int, pcols: int, grows: int, gcols: int, a: Place)
    requires 1 <= prows <= grows && 1 <= pcols <= gcols && 0 <= a.p < prows && 0 <= a.q < pcols
    ensures var l := MeshLayout(grows, gcols, prows, pcols);
            && l.Has(a)
            && l.LRows(a) == grows / prows + (if a.p == prows - 1 then grows % prows else 0)
            && l.LCols(a) == gcols / pcols + (if a.q == pcols - 1 then gcols % pcols else 0)
            && l.BoardRow(a, 1) == 1 + a.p * (grows / prows) && l.BoardCol(a, 1) == 1 + a.q * (gcols / pcols)
  {
    BlockLength(grows, prows, a.p);
    BlockLength(gcols, pcols, a.q);
  }

  lemma BlockLength(n: int, parts: int, p: int)
    requires 1 <= parts <= n && 0 <= p < parts
    ensures var c := MeshCut(n, parts);
            |c| == parts + 1 && c[p] == 1 + p * (n / parts) && c[p + 1] - c[p] == n / parts + if p == parts - 1 then n % parts else 0
  {
    var x := n / parts;
    assert (p + 1) * x == p * x + x;
    DivMod(parts, n);
    assert parts * x == x * parts;
  }

  lemma RankInGrid(rank: int, prows: int, pcols: int)
    requires 1 <= pcols && 0 <= rank < prows * pcols
    ensures 0 <= rank / pcols < prows && RankAt(pcols, Place(rank / pcols, rank % pcols)) == rank
    ensures forall d :: RankAt(pcols, Neighbour(Place(rank / pcols, rank % pcols), d)) ==
              match d case Left => rank - 1 case Right => rank + 1 case Above => rank - pcols case Below => rank + pcols
  {
    var p := rank / pcols;
    if prows < p {
      MulStep(prows, p, pcols);
    }
    assert (p - 1) * pcols == p * pcols - pcols && (p + 1) * pcols == p * pcols + pcols;
  }

  // ----- row blocks of mlife.c -----

  function MyRows(rows: int, rank: int, nprocs: int): int
    requires nprocs >= 1
  {
    rows / nprocs + if rank < rows % nprocs then 1 else 0
  }

  function MyRowOffset(rows: int, rank: int, nprocs: int): int
    requires nprocs >= 1
  {
    rank * (rows / nprocs) + if rank > rows % nprocs then rows % nprocs else rank
  }

  function RowLayout(rows: int, cols: int, nprocs: int): Layout
    requires nprocs >= 1
  {
    Layout(seq(nprocs + 1, p => 1 + MyRowOffset(rows, p, nprocs)), [1, cols + 1])
  }

  /** The blocks of MLIFE_myrows at the offsets of MLIFE_myrowoffset follow one another without gap or
      overlap, the first at row 1 and the last ending at the last row; none is empty. */
  lemma RowBlocks(rows: int, cols: int, nprocs: int, rank: int)
    requires 1 <= nprocs <= rows && cols >= 1 && 0 <= rank < nprocs
    ensures MyRowOffset(rows, 0, nprocs) == 0 && MyRowOffset(rows, nprocs, nprocs) == rows
    ensures MyRowOffset(rows, rank, nprocs) + MyRows(rows, rank, nprocs) == MyRowOffset(rows, rank + 1, nprocs)
    ensures MyRows(rows, rank, nprocs) >= 1
    ensures forall q :: rank <= q < nprocs ==>
              MyRows(rows, q, nprocs) <= MyRows(rows, rank, nprocs) <= MyRows(rows, q, nprocs) + 1
  {
    var x, rest := rows / nprocs, rows % nprocs;
    assert rows == nprocs * x + rest;
    assert (rank + 1) * x == rank * x + x;
    assert 0 * x == 0;
  }

  lemma {:induction false} RowOffsetsIncrease(rows: int, cols: int, nprocs: int, p: int, q: int)
    requires 1 <= nprocs <= rows && cols >= 1 && 0 <= p < q <= nprocs
    ensures MyRowOffset(rows, p, nprocs) < MyRowOffset(rows, q, nprocs)
    decreases q - p
  {
    RowBlocks(rows, cols, nprocs, p);
    if p + 1 < q {
      RowOffsetsIncrease(rows, cols, nprocs, p + 1, q);
    }
  }

  lemma RowLayoutFits(b: Board, nprocs: int)
    requires 1 <= nprocs <= b.rows && b.cols >= 1
    ensures RowLayout(b.rows, b.cols, nprocs).Fits(b)
  {
    forall p, q | 0 <= p < q <= nprocs ensures MyRowOffset(b.rows, p, nprocs) < MyRowOffset(b.rows, q, nprocs) {
      RowOffsetsIncrease(b.rows, b.cols, nprocs, p, q);
    }
    RowBlocks(b.rows, b.cols, nprocs, 0);
  }

  lemma MeshLayoutFits(b: Board, prows: int, pcols: int)
    requires 1 <= prows <= b.rows && 1 <= pcols <= b.cols
    ensures MeshLayout(b.rows, b.cols, prows, pcols).Fits(b)
  {
    MeshCutIsCut(b.rows, prows);
    MeshCutIsCut(b.cols, pcols);
  }

  /** Any legal two-dimensional grid and any legal number of row blocks, each under any interleaving that
      runs to the end, put the same value in every board cell. */
  lemma GridIndependence(b: Board, n: nat, prows: int, pcols: int, nprocs: int,
                         s2: State, run2: seq<Event>, s1: State, run1: seq<Event>,
                         a2: Place, a1: Place, gi: int, gj: int)
    requires 1 <= prows <= b.rows && 1 <= pcols <= b.cols && 1 <= nprocs <= b.rows
    requires var l2 := MeshLayout(b.rows, b.cols, prows, pcols);
             && Initial(b, l2, s2) && Executes(l2, n, s2, run2)
             && Finished(l2, n, Final(l2, n, s2, run2)) && Owns(l2, a2, gi, gj)
    requires var l1 := RowLayout(b.rows, b.cols, nprocs);
             && Initial(b, l1, s1) && Executes(l1, n, s1, run1)
             && Finished(l1, n, Final(l1, n, s1, run1)) && Owns(l1, a1, gi, gj)
    ensures var l2, l1 := MeshLayout(b.rows, b.cols, prows, pcols), RowLayout(b.rows, b.cols, nprocs);
            && Shows(l2, Final(l2, n, s2, run2), a2, gi, gj, b.Cell(n, gi, gj))
            && Shows(l1, Final(l1, n, s1, run1), a1, gi, gj, b.Cell(n, gi, gj))
  {
    hide Board.Cell, Final, Executes, Initial;
    MeshLayoutFits(b, prows, pcols);
    RowLayoutFits(b, nprocs);
    FinishedIsGeneration(b, MeshLayout(b.rows, b.cols, prows, pcols), n, s2, run2, a2, gi, gj);
    FinishedIsGeneration(b, RowLayout(b.rows, b.cols, nprocs), n, s1, run1, a1, gi, gj);
  }
}
