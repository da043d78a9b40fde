/** The buffers of one rank and the loops of mlife2d.c that change them in place.  mlife.c runs the same
    loops with first column 1 and first row 1 + its row offset. */
module LifeTile {
  import opened LifeBoard
  import opened LifeGrid
  import opened LifeRule
  import opened LifePt2pt

  /** The seed of a board row: 1000 exclusive-or the row number. */
  function Xor(x: nat, y: nat): nat
    decreases x + y
  {
    if x == 0 && y == 0 then 0 else (x % 2 + y % 2) % 2 + 2 * Xor(x / 2, y / 2)
  }

  /** srand48 and drand48: draw number n after seeding with s is above one half iff above(s, n). */
  class Drand48 {
    const above: (nat, nat) -> bool
    var seed: nat
    var drawn: nat

    constructor (above: (nat, nat) -> bool)
      ensures this.above == above
    {
      this.above := above;
    }

    method Seed(s: nat)
      modifies this
      ensures seed == s && drawn == 0
    {
      seed, drawn := s, 0;
    }

    method Draw() returns (high: bool)
      modifies this
      ensures seed == old(seed) && drawn == old(drawn) + 1
      ensures high == above(old(seed), old(drawn))
    {
      high := above(seed, drawn);
      drawn := drawn + 1;
    }
  }

  /** Generation 0 of the board, as one generator would fill it row by row. */
  function SeededBoard(rows: int, cols: int, above: (nat, nat) -> bool): Board
  {
    Board(rows, cols, (i, j) => if i >= 0 && j >= 1 && above(Xor(1000, i), j - 1) then BORN else DIES)
  }

  ghost function Value(m: array2<int>): Grid
    reads m
  {
    seq(m.Length0, i requires 0 <= i < m.Length0 reads m =>
      seq(m.Length1, j requires 0 <= j < m.Length1 reads m => m[i, j]))
  }

  class Tile {
    const lrows: int
    const lcols: int
    var matrix: array2<int>
    var temp: array2<int>

    ghost predicate Valid()
      reads this
    {
      && lrows >= 1 && lcols >= 1
      && matrix != temp
      && matrix.Length0 == temp.Length0 == lrows + 2
      && matrix.Length1 == temp.Length1 == lcols + 2
    }

    constructor (lrows: int, lcols: int)
      requires lrows >= 1 && lcols >= 1
      ensures Valid() && fresh(matrix) && fresh(temp)
      ensures this.lrows == lrows && this.lcols == lcols
    {
      this.lrows, this.lcols := lrows, lcols;
      matrix := new int[lrows + 2, lcols + 2];
      temp := new int[lrows + 2, lcols + 2];
    }

    /** The boundary loops. */
    method ClearBoundary()
      requires Valid()
      modifies matrix, temp
      ensures forall i, j :: 0 <= i < lrows + 2 && 0 <= j < lcols + 2 && (i == 0 || i == lrows + 1 || j == 0 || j == lcols + 1)
                ==> matrix[i, j] == DIES && temp[i, j] == DIES
    {
      for j := 0 to lcols + 2
        invariant forall r, c :: (r == 0 || r == lrows + 1) && 0 <= c < j ==> matrix[r, c] == DIES && temp[r, c] == DIES
      {
        temp[lrows + 1, j] := DIES;
        temp[0, j] := DIES;
        matrix[lrows + 1, j] := DIES;
        matrix[0, j] := DIES;
      }
      for i := 0 to lrows + 2
        invariant forall r, c :: (r == 0 || r == lrows + 1) && 0 <= c < lcols + 2 ==> matrix[r, c] == DIES && temp[r, c] == DIES
        invariant forall r, c :: 0 <= r < i && (c == 0 || c == lcols + 1) ==> matrix[r, c] == DIES && temp[r, c] == DIES
      {
        temp[i, lcols + 1] := DIES;
        temp[i, 0] := DIES;
        matrix[i, lcols + 1] := DIES;
        matrix[i, 0] := DIES;
      }
    }

    /** The random fill: each row is seeded by its BOARD row, and the draws of the columns to the left are
        skipped, so that the tile gets its part of one board-wide pattern. */
    method Fill(gfirstrow: int, gfirstcol: int, gen: Drand48)
      requires Valid() && gfirstrow >= 1 && gfirstcol >= 1
      modifies matrix, gen
      ensures forall i, j :: 1 <= i <= lrows && 1 <= j <= lcols
                ==> matrix[i, j] == SeededBoard(0, 0, gen.above).init(gfirstrow - 1 + i, gfirstcol - 1 + j)
      ensures forall i, j :: 1 <= i <= lrows && 1 <= j <= lcols
                ==> matrix[i, j] == if gen.above(Xor(1000, gfirstrow - 1 + i), gfirstcol - 1 + j - 1) then BORN else DIES
      ensures forall i, j :: 0 <= i < lrows + 2 && 0 <= j < lcols + 2 && (i == 0 || i == lrows + 1 || j == 0 || j == lcols + 1)
                ==> matrix[i, j] == old(matrix[i, j])
    {
      for i := 1 to lrows + 1
        invariant forall r, c :: 1 <= r < i && 1 <= c <= lcols
                    ==> matrix[r, c] == SeededBoard(0, 0, gen.above).init(gfirstrow - 1 + r, gfirstcol - 1 + c)
        invariant forall r, c :: 0 <= r < lrows + 2 && 0 <= c < lcols + 2 && (r == 0 || r == lrows + 1 || c == 0 || c == lcols + 1)
                    ==> matrix[r, c] == old(matrix[r, c])
      {
        gen.Seed(Xor(1000, i + gfirstrow - 1));
        for j := 1 to gfirstcol
          modifies gen
          invariant gen.seed == Xor(1000, i + gfirstrow - 1) && gen.drawn == j - 1
        {
          var _ := gen.Draw();
        }
        for j := 1 to lcols + 1
          invariant gen.seed == Xor(1000, i + gfirstrow - 1) && gen.drawn == gfirstcol - 1 + j - 1
          invariant forall r, c :: 1 <= r <= i && 1 <= c <= lcols && (r < i || c < j)
                      ==> matrix[r, c] == SeededBoard(0, 0, gen.above).init(gfirstrow - 1 + r, gfirstcol - 1 + c)
          invariant forall r, c :: 0 <= r < lrows + 2 && 0 <= c < lcols + 2 && (r == 0 || r == lrows + 1 || c == 0 || c == lcols + 1)
                      ==> matrix[r, c] == old(matrix[r, c])
        {
          var high := gen.Draw();
          matrix[i, j] := if high then BORN else DIES;
        }
      }
    }

    /** The whole set-up leaves the rank as the machine of LifePt2pt starts it, with a board that does not
        depend on the layout. */
    method Initialise(ghost b: Board, ghost l: Layout, ghost a: Place, gfirstrow: int, gfirstcol: int, gen: Drand48)
      requires Valid() && l.Fits(b) && l.Has(a)
      requires lrows == l.LRows(a) && lcols == l.LCols(a)
      requires gfirstrow == l.BoardRow(a, 1) && gfirstcol == l.BoardCol(a, 1)
      requires b.init == SeededBoard(b.rows, b.cols, gen.above).init
      modifies matrix, temp, gen
      ensures Started(b, l, a, Value(matrix), Value(temp))
    {
      hide IsCut, Board.Cell, Xor;
      HaloOffBoard(b, l, a);
      ClearBoundary();
      Fill(gfirstrow, gfirstcol, gen);
    }

    /** A receive into column j. */
    method ReceiveColumn(j: int, c: seq<int>)
      requires Valid() && 0 <= j < lcols + 2 && |c| == lrows
      modifies matrix
      ensures Value(matrix) == WithColumn(old(Value(matrix)), lrows, lcols, j, c)
    {
      for i := 0 to lrows
        invariant forall r, k :: 0 <= r < lrows + 2 && 0 <= k < lcols + 2
                    ==> matrix[r, k] == if k == j && 1 <= r <= i then c[r - 1] else old(matrix[r, k])
      {
        matrix[i + 1, j] := c[i];
      }
      SameGrid(Value(matrix), WithColumn(old(Value(matrix)), lrows, lcols, j, c), lrows, lcols);
    }

    /** A receive into a whole row. */
    method ReceiveRow(i: int, c: seq<int>)
      requires Valid() && 0 <= i < lrows + 2 && |c| == lcols + 2
      modifies matrix
      ensures Value(matrix) == old(Value(matrix))[i := c]
    {
      for j := 0 to lcols + 2
        invariant forall r, k :: 0 <= r < lrows + 2 && 0 <= k < lcols + 2
                    ==> matrix[r, k] == if r == i && k < j then c[k] else old(matrix[r, k])
      {
        matrix[i, j] := c[j];
      }
      SameGrid(Value(matrix), old(Value(matrix))[i := c], lrows, lcols);
    }

    /** MLIFE_nextstate. */
    method NextStateAt(row: int, col: int) returns (next: int)
      requires Valid() && 1 <= row <= lrows && 1 <= col <= lcols
      ensures next == NextState(Value(matrix), lrows, lcols, row, col)
    {
      var sum := matrix[row - 1, col - 1] + matrix[row - 1, col] + matrix[row - 1, col + 1] + matrix[row, col - 1]
                 + matrix[row, col + 1] + matrix[row + 1, col - 1] + matrix[row + 1, col] + matrix[row + 1, col + 1];
      if sum < 2 || sum > 3 {
        next := DIES;
      } else if sum == 3 {
        next := BORN;
      } else {
        next := matrix[row, col];
      }
    }

    /** The compute loops and the swap.  Of a tile of dead and live cells, those live afterwards that have three
        live cells around them, or two and live themselves. */
    method Advance()
      requires Valid()
      modifies this, temp
      ensures Valid() && matrix == old(temp) && temp == old(matrix)
      ensures Value(matrix) == Sweep(old(Value(matrix)), old(Value(temp)), lrows, lcols)
      ensures Value(temp) == old(Value(matrix))
      ensures AllFlags(old(Value(matrix)), lrows, lcols) ==> forall i, j :: 1 <= i <= lrows && 1 <= j <= lcols ==>
                var n := |LiveIn(old(Value(matrix)), lrows, lcols, i, j)|;
                matrix[i, j] == if n == 3 || (n == 2 && old(matrix[i, j]) == BORN) then BORN else DIES
    {
      ghost var m, t := Value(matrix), Value(temp);
      ComputeLoops(m, t);
      if AllFlags(m, lrows, lcols) {
        forall i, j | 1 <= i <= lrows && 1 <= j <= lcols
          ensures var n := |LiveIn(m, lrows, lcols, i, j)|;
                  Value(temp)[i][j] == if n == 3 || (n == 2 && m[i][j] == BORN) then BORN else DIES
        {
          SweepIsLife(m, t, lrows, lcols, i, j);
        }
      }
      hide Sweep, LiveIn, AllFlags;
      var addr := matrix;
      matrix := temp;
      temp := addr;
    }

    method ComputeLoops(ghost m: Grid, ghost t: Grid)
      requires Valid() && m == Value(matrix) && t == Value(temp)
      modifies temp
      ensures Valid() && Value(temp) == Sweep(m, t, lrows, lcols) && Value(matrix) == m
    {
      hide NextState;
      for i := 1 to lrows + 1
        invariant forall r, k :: 0 <= r < lrows + 2 && 0 <= k < lcols + 2
                    ==> temp[r, k] == if 1 <= r < i && 1 <= k <= lcols then NextState(m, lrows, lcols, r, k) else t[r][k]
      {
        for j := 1 to lcols + 1
          invariant forall r, k :: 0 <= r < lrows + 2 && 0 <= k < lcols + 2
                      ==> temp[r, k] == if 1 <= k <= lcols && (1 <= r < i || (r == i && k < j))
                                        then NextState(m, lrows, lcols, r, k) else t[r][k]
        {
          assert Value(matrix) == m;
          temp[i, j] := NextStateAt(i, j);
        }
      }
      assert Value(matrix) == m;
      SameGrid(Value(temp), Sweep(m, t, lrows, lcols), lrows, lcols);
    }
  }

  // ----- the seeds of the rows -----

  /** Binary digit k. */
  function Bit(x: nat, k: nat): nat
  {
    if k == 0 then x % 2 else Bit(x / 2, k - 1)
  }

  /** A digit of the seed is set if and only if it is set in just one of the two numbers. */
  lemma {:induction false} XorBits(x: nat, y: nat, k: nat)
    ensures Bit(Xor(x, y), k) == if Bit(x, k) != Bit(y, k) then 1 else 0
    decreases k
  {
    XorHalves(x, y);
    if k > 0 {
      XorBits(x / 2, y / 2, k - 1);
    }
  }

  /** So different rows have different seeds. */
  lemma {:induction false} SeedsDiffer(x: nat, y: nat, z: nat)
    ensures Xor(x, y) == Xor(x, z) <==> y == z
    decreases x + y + z
  {
    hide Xor;
    if x + y + z > 0 {
      SeedsDiffer(x / 2, y / 2, z / 2);
      XorHalves(x, y);
      XorHalves(x, z);
      assert y == z <==> y / 2 == z / 2 && y % 2 == z % 2;
    }
  }

  lemma XorHalves(x: nat, y: nat)
    ensures Xor(x, y) / 2 == Xor(x / 2, y / 2) && Xor(x, y) % 2 == (x % 2 + y % 2) % 2
  {
  }
}
