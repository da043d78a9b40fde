/** What the Life programs promise of one time step, said by counting live cells. */
module LifeRule {
  import opened LifeBoard
  import opened LifeGrid

  /** The live cells among some places, counted one by one. */
  function Live(cell: (int, int) -> int, places: seq<(int, int)>): set<(int, int)>
  {
    if places == [] then {}
    else Live(cell, places[1..]) + if cell(places[0].0, places[0].1) == BORN then {places[0]} else {}
  }

  function Sum(cell: (int, int) -> int, places: seq<(int, int)>): int
  {
    if places == [] then 0 else cell(places[0].0, places[0].1) + Sum(cell, places[1..])
  }

  lemma {:induction false} LiveMembers(cell: (int, int) -> int, places: seq<(int, int)>, x: int, y: int)
    ensures (x, y) in Live(cell, places) <==> (x, y) in places && cell(x, y) == BORN
  {
    if places != [] {
      LiveMembers(cell, places[1..], x, y);
    }
  }

  lemma {:induction false} LiveCount(cell: (int, int) -> int, places: seq<(int, int)>)
    requires forall k, l :: 0 <= k < l < |places| ==> places[k] != places[l]
    requires forall p :: p in places ==> cell(p.0, p.1) == DIES || cell(p.0, p.1) == BORN
    ensures |Live(cell, places)| == Sum(cell, places)
  {
    if places != [] {
      LiveCount(cell, places[1..]);
      LiveMembers(cell, places[1..], places[0].0, places[0].1);
    }
  }

  /** The eight neighbours of (i, j). */
  function Eight(i: int, j: int): seq<(int, int)>
  {
    [(i - 1, j - 1), (i - 1, j), (i - 1, j + 1), (i, j - 1), (i, j + 1), (i + 1, j - 1), (i + 1, j), (i + 1, j + 1)]
  }

  lemma EightMembers(i: int, j: int, x: int, y: int)
    ensures (x, y) in Eight(i, j) <==> i - 1 <= x <= i + 1 && j - 1 <= y <= j + 1 && (x, y) != (i, j)
  {
  }

  lemma SumStep(cell: (int, int) -> int, p: (int, int), rest: seq<(int, int)>)
    ensures Sum(cell, [p] + rest) == cell(p.0, p.1) + Sum(cell, rest)
  {
    assert ([p] + rest)[1..] == rest;
  }

  lemma SumEight(cell: (int, int) -> int, i: int, j: int)
    ensures Sum(cell, Eight(i, j))
         == cell(i - 1, j - 1) + cell(i - 1, j) + cell(i - 1, j + 1) + cell(i, j - 1)
            + cell(i, j + 1) + cell(i + 1, j - 1) + cell(i + 1, j) + cell(i + 1, j + 1)
  {
    var e := Eight(i, j);
    assert Sum(cell, e[8..]) == 0;
    var k := 8;
    while k > 0
      invariant 0 <= k <= 8
      invariant Sum(cell, e[k..])
             == (if k <= 0 then cell(i - 1, j - 1) else 0) + (if k <= 1 then cell(i - 1, j) else 0)
                + (if k <= 2 then cell(i - 1, j + 1) else 0) + (if k <= 3 then cell(i, j - 1) else 0)
                + (if k <= 4 then cell(i, j + 1) else 0) + (if k <= 5 then cell(i + 1, j - 1) else 0)
                + (if k <= 6 then cell(i + 1, j) else 0) + (if k <= 7 then cell(i + 1, j + 1) else 0)
    {
      k := k - 1;
      assert e[k..] == [e[k]] + e[k + 1..];
      SumStep(cell, e[k], e[k + 1..]);
    }
    assert e[0..] == e;
  }

  /** With cells that are dead or alive, the sum over the eight neighbours is the number of live ones. */
  lemma SumCountsLive(cell: (int, int) -> int, i: int, j: int)
    requires forall x, y :: i - 1 <= x <= i + 1 && j - 1 <= y <= j + 1 ==> cell(x, y) == DIES || cell(x, y) == BORN
    ensures |set x, y | i - 1 <= x <= i + 1 && j - 1 <= y <= j + 1 && (x, y) != (i, j) && cell(x, y) == BORN :: (x, y)|
         == cell(i - 1, j - 1) + cell(i - 1, j) + cell(i - 1, j + 1) + cell(i, j - 1)
            + cell(i, j + 1) + cell(i + 1, j - 1) + cell(i + 1, j) + cell(i + 1, j + 1)
  {
    forall p | p in Eight(i, j) ensures cell(p.0, p.1) == DIES || cell(p.0, p.1) == BORN {
      EightMembers(i, j, p.0, p.1);
    }
    EightDistinct(i, j);
    SumEight(cell, i, j);
    hide *;
    LiveCount(cell, Eight(i, j));
    LiveEight(cell, i, j);
  }

  lemma EightDistinct(i: int, j: int)
    ensures forall k, l :: 0 <= k < l < |Eight(i, j)| ==> Eight(i, j)[k] != Eight(i, j)[l]
  {
  }

  lemma LiveEight(cell: (int, int) -> int, i: int, j: int)
    ensures (set x, y | i - 1 <= x <= i + 1 && j - 1 <= y <= j + 1 && (x, y) != (i, j) && cell(x, y) == BORN :: (x, y))
         == Live(cell, Eight(i, j))
  {
    hide *;
    var all := set x, y | i - 1 <= x <= i + 1 && j - 1 <= y <= j + 1 && (x, y) != (i, j) && cell(x, y) == BORN :: (x, y);
    forall x, y ensures (x, y) in all <==> (x, y) in Live(cell, Eight(i, j)) {
      LiveMembers(cell, Eight(i, j), x, y);
      EightMembers(i, j, x, y);
    }
    assert forall p :: p in all <==> p == (p.0, p.1) && p in Live(cell, Eight(i, j));
    assert all == Live(cell, Eight(i, j));
  }

  /** Cells stay dead or alive. */
  lemma {:induction false} DeadOrAlive(b: Board, k: nat, i: int, j: int)
    requires forall x, y :: b.Inside(x, y) ==> b.init(x, y) == DIES || b.init(x, y) == BORN
    ensures b.Cell(k, i, j) == DIES || b.Cell(k, i, j) == BORN
    decreases k
  {
    if k > 0 && b.Inside(i, j) {
      CellStep(b, k - 1, i, j);
      DeadOrAlive(b, k - 1, i, j);
    }
  }

  /** The live cells around (i, j) in generation k. */
  ghost function LiveAround(b: Board, k: nat, i: int, j: int): set<(int, int)>
  {
    set x, y | i - 1 <= x <= i + 1 && j - 1 <= y <= j + 1 && (x, y) != (i, j) && b.Cell(k, x, y) == BORN :: (x, y)
  }

  /** The sequential game is Conway's: a cell lives in the next generation if and only if three of the cells
      around it live now, or two do and it lives itself. */
  lemma LifeStep(b: Board, k: nat, i: int, j: int)
    requires forall x, y :: b.Inside(x, y) ==> b.init(x, y) == DIES || b.init(x, y) == BORN
    requires b.Inside(i, j)
    ensures b.Cell(k + 1, i, j) == DIES || b.Cell(k + 1, i, j) == BORN
    ensures var n := |LiveAround(b, k, i, j)|;
            b.Cell(k + 1, i, j) == BORN <==> n == 3 || (n == 2 && b.Cell(k, i, j) == BORN)
  {
    hide Board.Cell;
    forall x, y ensures b.Cell(k, x, y) == DIES || b.Cell(k, x, y) == BORN {
      DeadOrAlive(b, k, x, y);
    }
    var cell := (x, y) => b.Cell(k, x, y);
    SumCountsLive(cell, i, j);
    assert LiveAround(b, k, i, j)
        == (set x, y | i - 1 <= x <= i + 1 && j - 1 <= y <= j + 1 && (x, y) != (i, j) && cell(x, y) == BORN :: (x, y));
    hide LiveAround;
    CellStep(b, k, i, j);
    DeadOrAlive(b, k + 1, i, j);
  }

  /** The live cells around place (i, j) of a padded tile. */
  ghost function LiveIn(m: Grid, rows: int, cols: int, i: int, j: int): set<(int, int)>
    requires Sized(m, rows, cols) && 1 <= i <= rows && 1 <= j <= cols
  {
    set x, y | i - 1 <= x <= i + 1 && j - 1 <= y <= j + 1 && (x, y) != (i, j) && m[x][y] == BORN :: (x, y)
  }

  ghost predicate AllFlags(m: Grid, rows: int, cols: int)
    requires Sized(m, rows, cols)
  {
    forall x, y :: 0 <= x < rows + 2 && 0 <= y < cols + 2 ==> m[x][y] == DIES || m[x][y] == BORN
  }

  /** The same for the sweep over a padded tile. */
  lemma SweepIsLife(m: Grid, temp: Grid, rows: int, cols: int, i: int, j: int)
    requires Sized(m, rows, cols) && Sized(temp, rows, cols) && 1 <= i <= rows && 1 <= j <= cols && AllFlags(m, rows, cols)
    ensures var n := |LiveIn(m, rows, cols, i, j)|;
            Sweep(m, temp, rows, cols)[i][j] == if n == 3 || (n == 2 && m[i][j] == BORN) then BORN else DIES
  {
    CountIn(m, rows, cols, i, j);
    assert m[i][j] == DIES || m[i][j] == BORN;
    hide LiveIn, AllFlags;
  }

  lemma CountIn(m: Grid, rows: int, cols: int, i: int, j: int)
    requires Sized(m, rows, cols) && 1 <= i <= rows && 1 <= j <= cols && AllFlags(m, rows, cols)
    ensures |LiveIn(m, rows, cols, i, j)|
         == m[i - 1][j - 1] + m[i - 1][j] + m[i - 1][j + 1] + m[i][j - 1]
            + m[i][j + 1] + m[i + 1][j - 1] + m[i + 1][j] + m[i + 1][j + 1]
  {
    var cell := (x, y) => if 0 <= x < rows + 2 && 0 <= y < cols + 2 then m[x][y] else DIES;
    SumCountsLive(cell, i, j);
    assert LiveIn(m, rows, cols, i, j)
        == (set x, y | i - 1 <= x <= i + 1 && j - 1 <= y <= j + 1 && (x, y) != (i, j) && cell(x, y) == BORN :: (x, y));
  }
}
