/** One rank's padded tile: rows 0 .. LRows + 1 by columns 0 .. LCols + 1, and what the exchange and the
    sweep do to it. */
module LifeGrid {
  import opened LifeBoard

  type Grid = seq<seq<int>>

  predicate Sized(m: Grid, rows: int, cols: int)
  {
    && rows >= 1 && cols >= 1
    && |m| == rows + 2
    && forall i :: 0 <= i < |m| ==> |m[i]| == cols + 2
  }

  /** The strided vector type of the exchange: column j, rows 1 .. rows. */
  function Column(m: Grid, rows: int, cols: int, j: int): (c: seq<int>)
    requires Sized(m, rows, cols) && 0 <= j < cols + 2
  {
    seq(rows, i requires 0 <= i < rows => m[i + 1][j])
  }

  /** Receive into column j, rows 1 .. rows. */
  function WithColumn(m: Grid, rows: int, cols: int, j: int, c: seq<int>): (m': Grid)
    requires Sized(m, rows, cols) && 0 <= j < cols + 2 && |c| == rows
    ensures Sized(m', rows, cols)
  {
    seq(rows + 2, i requires 0 <= i < rows + 2 =>
      if 1 <= i <= rows then m[i][j := c[i - 1]] else m[i])
  }

  lemma SameGrid(m: Grid, n: Grid, rows: int, cols: int)
    requires Sized(m, rows, cols) && Sized(n, rows, cols)
    requires forall i, j :: 0 <= i < rows + 2 && 0 <= j < cols + 2 ==> m[i][j] == n[i][j]
    ensures m == n
  {
    forall i | 0 <= i < |m| ensures m[i] == n[i] {}
  }

  /** MLIFE_nextstate on a tile. */
  function NextState(m: Grid, rows: int, cols: int, i: int, j: int): int
    requires Sized(m, rows, cols) && 1 <= i <= rows && 1 <= j <= cols
  {
    Rule(m[i - 1][j - 1] + m[i - 1][j] + m[i - 1][j + 1] + m[i][j - 1]
         + m[i][j + 1] + m[i + 1][j - 1] + m[i + 1][j] + m[i + 1][j + 1],
         m[i][j])
  }

  /** The compute loops: the interior of `temp` becomes the next state of `m`. */
  function Sweep(m: Grid, temp: Grid, rows: int, cols: int): (t: Grid)
    requires Sized(m, rows, cols) && Sized(temp, rows, cols)
    ensures Sized(t, rows, cols)
  {
    seq(rows + 2, i requires 0 <= i < rows + 2 =>
      seq(cols + 2, j requires 0 <= j < cols + 2 =>
        if 1 <= i <= rows && 1 <= j <= cols then NextState(m, rows, cols, i, j) else temp[i][j]))
  }

  /** The tile at `a` of the zero-padded board at generation k. */
  ghost predicate IsPadded(b: Board, l: Layout, a: Place, k: nat, m: Grid)
    requires l.Has(a)
  {
    && Sized(m, l.LRows(a), l.LCols(a))
    && forall i, j {:trigger m[i][j]} :: 0 <= i <= l.LRows(a) + 1 && 0 <= j <= l.LCols(a) + 1
         ==> m[i][j] == b.Cell(k, l.BoardRow(a, i), l.BoardCol(a, j))
  }

  /** Correct so far: the interior holds generation k, and everything off the board is dead. */
  ghost predicate IsTile(b: Board, l: Layout, a: Place, k: nat, m: Grid)
    requires l.Has(a)
  {
    && Sized(m, l.LRows(a), l.LCols(a))
    && (forall i, j {:trigger m[i][j]} :: 1 <= i <= l.LRows(a) && 1 <= j <= l.LCols(a)
         ==> m[i][j] == b.Cell(k, l.BoardRow(a, i), l.BoardCol(a, j)))
    && OffBoardDead(b, l, a, m)
  }

  ghost predicate OffBoardDead(b: Board, l: Layout, a: Place, m: Grid)
    requires l.Has(a)
  {
    && Sized(m, l.LRows(a), l.LCols(a))
    && forall i, j {:trigger m[i][j]} :: 0 <= i <= l.LRows(a) + 1 && 0 <= j <= l.LCols(a) + 1
         ==> b.Inside(l.BoardRow(a, i), l.BoardCol(a, j)) || m[i][j] == DIES
  }

  /** One step of the sequential game, stated once so that other proofs need not unfold `Cell`. */
  lemma CellStep(b: Board, k: nat, i: int, j: int)
    requires b.Inside(i, j)
    ensures b.Cell(k + 1, i, j)
         == Rule(b.Cell(k, i - 1, j - 1) + b.Cell(k, i - 1, j) + b.Cell(k, i - 1, j + 1)
                 + b.Cell(k, i, j - 1) + b.Cell(k, i, j + 1)
                 + b.Cell(k, i + 1, j - 1) + b.Cell(k, i + 1, j) + b.Cell(k, i + 1, j + 1),
                 b.Cell(k, i, j))
  {
  }

  lemma CellOffBoard(b: Board, k: nat, i: int, j: int)
    requires !b.Inside(i, j)
    ensures b.Cell(k, i, j) == DIES
  {
  }

  lemma PaddedStep(b: Board, l: Layout, a: Place, k: nat, m: Grid, i: int, j: int)
    requires l.Fits(b) && l.Has(a) && IsPadded(b, l, a, k, m)
    requires 1 <= i <= l.LRows(a) && 1 <= j <= l.LCols(a)
    ensures NextState(m, l.LRows(a), l.LCols(a), i, j) == b.Cell(k + 1, l.BoardRow(a, i), l.BoardCol(a, j))
  {
    hide Board.Cell;
    HaloOffBoard(b, l, a);
    CellStep(b, k, l.BoardRow(a, i), l.BoardCol(a, j));
  }

  /** One sweep over a fully padded generation k gives generation k + 1, and leaves the boundary of the
      other buffer dead, so that the swap may be made. */
  lemma SweepAdvances(b: Board, l: Layout, a: Place, k: nat, m: Grid, temp: Grid)
    requires l.Fits(b) && l.Has(a)
    requires IsPadded(b, l, a, k, m) && OffBoardDead(b, l, a, temp)
    ensures IsTile(b, l, a, k + 1, Sweep(m, temp, l.LRows(a), l.LCols(a)))
    ensures OffBoardDead(b, l, a, m)
  {
    hide Board.Cell;
    var rows, cols := l.LRows(a), l.LCols(a);
    var t := Sweep(m, temp, rows, cols);
    HaloOffBoard(b, l, a);
    forall i, j | 1 <= i <= rows && 1 <= j <= cols
      ensures t[i][j] == b.Cell(k + 1, l.BoardRow(a, i), l.BoardCol(a, j))
    {
      PaddedStep(b, l, a, k, m, i, j);
    }
    forall i, j | 0 <= i <= rows + 1 && 0 <= j <= cols + 1 && !b.Inside(l.BoardRow(a, i), l.BoardCol(a, j))
      ensures m[i][j] == DIES
    {
      CellOffBoard(b, k, l.BoardRow(a, i), l.BoardCol(a, j));
    }
  }
}
