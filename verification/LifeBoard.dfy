/** The sequential game that the parallel Life programs compute, and the ways they cut the board. */
module LifeBoard {

  const DIES := 0
  const BORN := 1

  /** MLIFE_nextstate, given the sum over the eight neighbours and the cell itself. */
  function Rule(sum: int, self: int): int
  {
    if sum < 2 || sum > 3 then DIES
    else if sum == 3 then BORN
    else self
  }

  /** The board has rows 1..rows and columns 1..cols; `init` is generation 0. */
  datatype Board = Board(rows: int, cols: int, init: (int, int) -> int)
  {
    predicate Inside(i: int, j: int)
    {
      1 <= i <= rows && 1 <= j <= cols
    }

    /** Cell (i, j) of generation k of the SEQUENTIAL game, with dead cells all round the board. */
    function Cell(k: nat, i: int, j: int): int
      decreases k, 0
    {
      if !Inside(i, j) then DIES
      else if k == 0 then init(i, j)
      else Rule(Around(k - 1, i, j), Cell(k - 1, i, j))
    }

    /** The eight neighbours of cell (i, j) at generation k. */
    function Around(k: nat, i: int, j: int): int
      decreases k, 1
    {
      Cell(k, i - 1, j - 1) + Cell(k, i - 1, j) + Cell(k, i - 1, j + 1)
      + Cell(k, i, j - 1) + Cell(k, i, j + 1)
      + Cell(k, i + 1, j - 1) + Cell(k, i + 1, j) + Cell(k, i + 1, j + 1)
    }
  }

  /** A place in the process grid. */
  datatype Place = Place(p: int, q: int)

  datatype Side = Left | Right | Above | Below

  function Opposite(d: Side): Side
  {
    match d case Left => Right case Right => Left case Above => Below case Below => Above
  }

  function Neighbour(a: Place, d: Side): Place
  {
    match d
    case Left => Place(a.p, a.q - 1)
    case Right => Place(a.p, a.q + 1)
    case Above => Place(a.p - 1, a.q)
    case Below => Place(a.p + 1, a.q)
  }

  /** Cuts of the board into blocks: process row p holds board rows rowStart[p] .. rowStart[p + 1] - 1,
      and likewise for columns. */
  datatype Layout = Layout(rowStart: seq<int>, colStart: seq<int>)
  {
    predicate Fits(b: Board)
    {
      && IsCut(rowStart, b.rows)
      && IsCut(colStart, b.cols)
    }

    predicate Has(a: Place)
    {
      0 <= a.p < |rowStart| - 1 && 0 <= a.q < |colStart| - 1
    }

    function LRows(a: Place): int
      requires Has(a)
    {
      rowStart[a.p + 1] - rowStart[a.p]
    }

    function LCols(a: Place): int
      requires Has(a)
    {
      colStart[a.q + 1] - colStart[a.q]
    }

    /** Board row of row `i` of the padded tile at `a` (rows 0 and LRows + 1 are the halo). */
    function BoardRow(a: Place, i: int): int
      requires Has(a)
    {
      rowStart[a.p] - 1 + i
    }

    function BoardCol(a: Place, j: int): int
      requires Has(a)
    {
      colStart[a.q] - 1 + j
    }
  }

  /** Non-empty consecutive blocks covering 1..n. */
  predicate IsCut(start: seq<int>, n: int)
  {
    && |start| >= 2
    && start[0] == 1
    && start[|start| - 1] == n + 1
    && forall p, q :: 0 <= p < q < |start| ==> start[p] < start[q]
  }

  predicate InBlock(start: seq<int>, p: int, i: int)
  {
    0 <= p < |start| - 1 && start[p] <= i < start[p + 1]
  }

  /** Every position of 1..n lies in exactly one block. */
  lemma CutCovers(start: seq<int>, n: int, i: int)
    requires IsCut(start, n) && 1 <= i <= n
    ensures exists p :: InBlock(start, p, i)
    ensures forall p, q :: InBlock(start, p, i) && InBlock(start, q, i) ==> p == q
  {
    var p := 0;
    while start[p + 1] <= i
      invariant 0 <= p < |start| - 1 && start[p] <= i
    {
      p := p + 1;
    }
    assert InBlock(start, p, i);
    forall p, q | InBlock(start, p, i) && InBlock(start, q, i) ensures p == q {}
  }

  /** Every board cell is in the interior of exactly one tile. */
  lemma TilesPartitionBoard(b: Board, l: Layout, gi: int, gj: int)
    requires l.Fits(b) && b.Inside(gi, gj)
    ensures exists a :: Owns(l, a, gi, gj)
    ensures forall a, c :: Owns(l, a, gi, gj) && Owns(l, c, gi, gj) ==> a == c
  {
    CutCovers(l.rowStart, b.rows, gi);
    CutCovers(l.colStart, b.cols, gj);
    var p :| InBlock(l.rowStart, p, gi);
    var q :| InBlock(l.colStart, q, gj);
    assert Owns(l, Place(p, q), gi, gj);
  }

  predicate Owns(l: Layout, a: Place, gi: int, gj: int)
  {
    InBlock(l.rowStart, a.p, gi) && InBlock(l.colStart, a.q, gj)
  }

  /** A halo row or column lies off the board exactly when there is no neighbour on that side. */
  lemma HaloOffBoard(b: Board, l: Layout, a: Place)
    requires l.Fits(b) && l.Has(a)
    ensures 1 <= l.LRows(a) && 1 <= l.LCols(a)
    ensures forall i, j :: 1 <= i <= l.LRows(a) && 1 <= j <= l.LCols(a)
              ==> b.Inside(l.BoardRow(a, i), l.BoardCol(a, j))
    ensures l.Has(Neighbour(a, Left)) <==> 1 <= l.BoardCol(a, 0)
    ensures l.Has(Neighbour(a, Right)) <==> l.BoardCol(a, l.LCols(a) + 1) <= b.cols
    ensures l.Has(Neighbour(a, Above)) <==> 1 <= l.BoardRow(a, 0)
    ensures l.Has(Neighbour(a, Below)) <==> l.BoardRow(a, l.LRows(a) + 1) <= b.rows
  {
  }
}
