/** The one-sided exchange of mlife2d-fence.c.  Between two fences every rank issues its puts; their
    elements reach the target windows in any order whatever.  Offsets are in window units (one int), as
    the program computes them from its neighbours' sizes. */
module LifeFence {
  import opened Arith
  import opened LifeBoard
  import opened LifeGrid
  import opened LifeDecomp
  import opened LifePt2pt

  /** One int of the window of the rank at `at`. */
  datatype Loc = Loc(at: Place, off: int)

  type Memory = map<Loc, int>

  /** Element `t` of the put to side `d`. */
  datatype Put = Put(at: Place, d: Side, t: int)

  predicate Issued(l: Layout, p: Put, sides: bool)
  {
    && l.Has(p.at) && l.Has(Neighbour(p.at, p.d))
    && OnSides(p.d) == sides
    && 0 <= p.t < Extent(l, p.at, p.d)
  }

  /** Where the element is read: &matrix[1][1], [1][LCols], [1][0] or [LRows][0], then by stride. */
  function Source(l: Layout, p: Put): Loc
    requires l.Has(p.at)
  {
    var w := l.LCols(p.at) + 2;
    Loc(p.at,
        match p.d
        case Left => w + 1 + p.t * w
        case Right => w + l.LCols(p.at) + p.t * w
        case Above => w + p.t
        case Below => l.LRows(p.at) * w + p.t)
  }

  /** Where it is written: the displacement and stride computed from the neighbour's size. */
  function Target(l: Layout, p: Put): Loc
    requires l.Has(p.at) && l.Has(Neighbour(p.at, p.d))
  {
    var n := Neighbour(p.at, p.d);
    var lcols, nrows, ncols := l.LCols(p.at), l.LRows(n), l.LCols(n);
    Loc(n,
        match p.d
        case Left => (ncols + 2) + (ncols + 1) + p.t * (ncols + 2)
        case Right => (ncols + 2) + p.t * (ncols + 2)
        case Above => (nrows + 1) * (lcols + 2) + p.t
        case Below => p.t)
  }

  /** The cell (i, j) of the padded tile at `a`, in row-major order. */
  function CellLoc(l: Layout, a: Place, i: int, j: int): Loc
    requires l.Has(a)
  {
    Loc(a, i * (l.LCols(a) + 2) + j)
  }

  function SourceCell(l: Layout, p: Put): (int, int)
    requires l.Has(p.at)
  {
    match p.d
    case Left => (p.t + 1, 1)
    case Right => (p.t + 1, l.LCols(p.at))
    case Above => (1, p.t)
    case Below => (l.LRows(p.at), p.t)
  }

  function TargetCell(l: Layout, p: Put): (int, int)
    requires l.Has(Neighbour(p.at, p.d))
  {
    match p.d
    case Left => (p.t + 1, l.LCols(Neighbour(p.at, p.d)) + 1)
    case Right => (p.t + 1, 0)
    case Above => (l.LRows(Neighbour(p.at, p.d)) + 1, p.t)
    case Below => (0, p.t)
  }

  lemma SourceOffset(l: Layout, p: Put)
    requires l.Has(p.at)
    ensures var c := SourceCell(l, p); Source(l, p) == CellLoc(l, p.at, c.0, c.1)
  {
    var w := l.LCols(p.at) + 2;
    assert (p.t + 1) * w == p.t * w + w;
  }

  lemma TargetOffset(l: Layout, p: Put)
    requires l.Has(p.at) && l.Has(Neighbour(p.at, p.d))
    ensures var c := TargetCell(l, p); Target(l, p) == CellLoc(l, Neighbour(p.at, p.d), c.0, c.1)
  {
    var w := l.LCols(Neighbour(p.at, p.d)) + 2;
    assert (p.t + 1) * w == p.t * w + w;
  }

  lemma PutCells(b: Board, l: Layout, p: Put, sides: bool)
    requires l.Fits(b) && Issued(l, p, sides)
    ensures var n, c, c' := Neighbour(p.at, p.d), SourceCell(l, p), TargetCell(l, p);
            && 1 <= c.0 <= l.LRows(p.at) && 0 <= c.1 <= l.LCols(p.at) + 1
            && (sides ==> 1 <= c.1 <= l.LCols(p.at))
            && 0 <= c'.0 <= l.LRows(n) + 1 && 0 <= c'.1 <= l.LCols(n) + 1
            && (if sides then 1 <= c'.0 <= l.LRows(n) && (c'.1 == 0 || c'.1 == l.LCols(n) + 1)
                else c'.0 == 0 || c'.0 == l.LRows(n) + 1)
            && l.BoardRow(p.at, c.0) == l.BoardRow(n, c'.0) && l.BoardCol(p.at, c.1) == l.BoardCol(n, c'.1)
  {
    hide Board.Cell, Board.Inside;
    HaloOffBoard(b, l, p.at);
    HaloOffBoard(b, l, Neighbour(p.at, p.d));
  }

  /** The displacements hit the intended cells: an edge cell of the origin goes to the halo cell of the
      neighbour that stands for the same cell of the board. */
  lemma PutHitsHalo(b: Board, l: Layout, p: Put, sides: bool)
    requires l.Fits(b) && Issued(l, p, sides)
    ensures var c := SourceCell(l, p);
            && Source(l, p) == CellLoc(l, p.at, c.0, c.1)
            && 1 <= c.0 <= l.LRows(p.at) && 0 <= c.1 <= l.LCols(p.at) + 1
            && (sides ==> 1 <= c.1 <= l.LCols(p.at))
    ensures var n, c := Neighbour(p.at, p.d), TargetCell(l, p);
            && Target(l, p) == CellLoc(l, n, c.0, c.1)
            && 0 <= c.0 <= l.LRows(n) + 1 && 0 <= c.1 <= l.LCols(n) + 1
            && if sides then 1 <= c.0 <= l.LRows(n) && (c.1 == 0 || c.1 == l.LCols(n) + 1)
               else c.0 == 0 || c.0 == l.LRows(n) + 1
    ensures var n, c, c' := Neighbour(p.at, p.d), SourceCell(l, p), TargetCell(l, p);
            l.BoardRow(p.at, c.0) == l.BoardRow(n, c'.0) && l.BoardCol(p.at, c.1) == l.BoardCol(n, c'.1)
  {
    hide Source, Target, CellLoc, SourceCell, TargetCell, Board.Cell, IsCut;
    SourceOffset(l, p);
    TargetOffset(l, p);
    PutCells(b, l, p, sides);
  }

  lemma CellLocInjective(l: Layout, a: Place, i: int, j: int, a': Place, i': int, j': int)
    requires l.Has(a) && l.Has(a') && 0 <= j < l.LCols(a) + 2 && 0 <= j' < l.LCols(a') + 2
    requires CellLoc(l, a, i, j) == CellLoc(l, a', i', j')
    ensures a == a' && i == i' && j == j'
  {
    DivModUnique(i, l.LCols(a) + 2, j);
    DivModUnique(i', l.LCols(a) + 2, j');
  }

  /** Within an epoch no two elements have the same target, and none is read where another is written. */
  lemma NoOverlap(b: Board, l: Layout, p: Put, q: Put, sides: bool)
    requires l.Fits(b) && Issued(l, p, sides) && Issued(l, q, sides)
    ensures Target(l, p) != Source(l, q)
    ensures Target(l, p) == Target(l, q) ==> p == q
  {
    hide Source, Target, CellLoc, Board.Cell, Board.Inside, IsCut;
    PutHitsHalo(b, l, p, sides);
    PutHitsHalo(b, l, q, sides);
    var c, c', e := TargetCell(l, p), TargetCell(l, q), SourceCell(l, q);
    if Target(l, p) == Source(l, q) {
      CellLocInjective(l, Neighbour(p.at, p.d), c.0, c.1, q.at, e.0, e.1);
    }
    if Target(l, p) == Target(l, q) {
      CellLocInjective(l, Neighbour(p.at, p.d), c.0, c.1, Neighbour(q.at, q.d), c'.0, c'.1);
      HaloOffBoard(b, l, Neighbour(p.at, p.d));
    }
  }

  // ----- one epoch -----

  /** The order in which the elements of an epoch happen to arrive: each exactly once. */
  ghost predicate IsOrder(l: Layout, order: seq<Put>, sides: bool)
  {
    && (forall p :: p in order <==> Issued(l, p, sides))
    && (forall i, j :: 0 <= i < j < |order| ==> order[i] != order[j])
  }

  ghost predicate HoldsTiles(l: Layout, mem: Memory)
  {
    forall a, i, j :: l.Has(a) && 0 <= i <= l.LRows(a) + 1 && 0 <= j <= l.LCols(a) + 1
      ==> CellLoc(l, a, i, j) in mem
  }

  predicate Covered(l: Layout, mem: Memory, order: seq<Put>)
  {
    forall p :: p in order ==>
      l.Has(p.at) && l.Has(Neighbour(p.at, p.d)) && Source(l, p) in mem && Target(l, p) in mem
  }

  function Epoch(l: Layout, mem: Memory, order: seq<Put>): Memory
    requires Covered(l, mem, order)
  {
    if order == [] then mem
    else Epoch(l, mem[Target(l, order[0]) := mem[Source(l, order[0])]], order[1..])
  }

  /** Any order has the same effect as all elements moving at once. */
  lemma {:induction false} EpochEffect(b: Board, l: Layout, mem: Memory, order: seq<Put>, sides: bool)
    requires l.Fits(b) && Covered(l, mem, order)
    requires forall p :: p in order ==> Issued(l, p, sides)
    requires forall i, j :: 0 <= i < j < |order| ==> order[i] != order[j]
    ensures var mem' := Epoch(l, mem, order);
            && mem'.Keys == mem.Keys
            && (forall p :: p in order ==> mem'[Target(l, p)] == mem[Source(l, p)])
            && (forall x :: x in mem && (forall p :: p in order ==> x != Target(l, p)) ==> mem'[x] == mem[x])
    decreases |order|
  {
    hide Source, Target;
    if order != [] {
      var p, rest := order[0], order[1..];
      var mem1 := mem[Target(l, p) := mem[Source(l, p)]];
      EpochEffect(b, l, mem1, rest, sides);
      var mem' := Epoch(l, mem, order);
      forall q | q in order ensures mem'[Target(l, q)] == mem[Source(l, q)] {
        NoOverlap(b, l, p, q, sides);
        if q == p {
          assert p !in rest;
          forall r | r in rest ensures Target(l, p) != Target(l, r) {
            NoOverlap(b, l, p, r, sides);
          }
        } else {
          assert q in rest;
        }
      }
    }
  }

  lemma IssuedCovered(b: Board, l: Layout, mem: Memory, order: seq<Put>, sides: bool)
    requires l.Fits(b) && HoldsTiles(l, mem) && forall p :: p in order ==> Issued(l, p, sides)
    ensures Covered(l, mem, order)
  {
    forall p | p in order ensures Source(l, p) in mem && Target(l, p) in mem {
      PutHitsHalo(b, l, p, sides);
    }
  }

  /** The two epochs of one MLIFE_exchange. */
  ghost function Exchange(b: Board, l: Layout, mem: Memory, o1: seq<Put>, o2: seq<Put>): (mem': Memory)
    requires l.Fits(b) && HoldsTiles(l, mem) && IsOrder(l, o1, true) && IsOrder(l, o2, false)
    ensures mem'.Keys == mem.Keys
  {
    IssuedCovered(b, l, mem, o1, true);
    EpochEffect(b, l, mem, o1, true);
    var mid := Epoch(l, mem, o1);
    IssuedCovered(b, l, mid, o2, false);
    EpochEffect(b, l, mid, o2, false);
    Epoch(l, mid, o2)
  }

  /** The tile of a rank as its row pointers show it. */
  ghost function TileOf(l: Layout, mem: Memory, a: Place): (m: Grid)
    requires l.Has(a) && l.LRows(a) >= 1 && l.LCols(a) >= 1 && HoldsTiles(l, mem)
    ensures Sized(m, l.LRows(a), l.LCols(a))
  {
    seq(l.LRows(a) + 2, i requires 0 <= i < l.LRows(a) + 2 =>
      seq(l.LCols(a) + 2, j requires 0 <= j < l.LCols(a) + 2 => mem[CellLoc(l, a, i, j)]))
  }

  /** The put that fills a halo cell, if there is a neighbour on that side. */
  function Filler(l: Layout, a: Place, i: int, j: int, sides: bool): Put
    requires l.Has(a)
  {
    if sides then
      if j == 0 then Put(Neighbour(a, Left), Right, i - 1) else Put(Neighbour(a, Right), Left, i - 1)
    else
      if i == 0 then Put(Neighbour(a, Above), Below, j) else Put(Neighbour(a, Below), Above, j)
  }

  lemma FillerIssued(b: Board, l: Layout, a: Place, i: int, j: int, sides: bool)
    requires l.Fits(b) && l.Has(a) && 0 <= i <= l.LRows(a) + 1 && 0 <= j <= l.LCols(a) + 1
    requires b.Inside(l.BoardRow(a, i), l.BoardCol(a, j)) || !sides
    requires if sides then 1 <= i <= l.LRows(a) && (j == 0 || j == l.LCols(a) + 1)
             else (i == 0 && l.Has(Neighbour(a, Above))) || (i == l.LRows(a) + 1 && l.Has(Neighbour(a, Below)))
    ensures var p := Filler(l, a, i, j, sides);
            && Issued(l, p, sides) && Neighbour(p.at, p.d) == a && TargetCell(l, p) == (i, j)
  {
    hide Board.Cell;
    HaloOffBoard(b, l, a);
  }

  /** A cell that no put of the epoch is aimed at. */
  lemma Untouched(b: Board, l: Layout, a: Place, i: int, j: int, p: Put, sides: bool)
    requires l.Fits(b) && l.Has(a) && 0 <= i <= l.LRows(a) + 1 && 0 <= j <= l.LCols(a) + 1
    requires Issued(l, p, sides)
    requires if sides then i == 0 || i == l.LRows(a) + 1 || (1 <= j <= l.LCols(a)) || !b.Inside(l.BoardRow(a, i), l.BoardCol(a, j))
             else (1 <= i <= l.LRows(a)) || (i == 0 && !l.Has(Neighbour(a, Above))) || (i == l.LRows(a) + 1 && !l.Has(Neighbour(a, Below)))
    ensures Target(l, p) != CellLoc(l, a, i, j)
  {
    hide Source, Target, CellLoc, Board.Cell;
    PutHitsHalo(b, l, p, sides);
    HaloOffBoard(b, l, a);
    var c := TargetCell(l, p);
    if Target(l, p) == CellLoc(l, a, i, j) {
      CellLocInjective(l, Neighbour(p.at, p.d), c.0, c.1, a, i, j);
      HaloOffBoard(b, l, p.at);
    }
  }

  lemma KeysKeepTiles(l: Layout, mem: Memory, mem': Memory)
    requires HoldsTiles(l, mem) && mem'.Keys == mem.Keys
    ensures HoldsTiles(l, mem')
  {
  }

  /** Rows 1 .. LRows of a tile hold generation k right across, the rest of the boundary is dead where it
      is off the board. */
  ghost predicate SidesIn(b: Board, l: Layout, k: nat, a: Place, mem: Memory)
    requires l.Has(a) && HoldsTiles(l, mem)
  {
    && (forall i, j {:trigger CellLoc(l, a, i, j)} :: 1 <= i <= l.LRows(a) && 0 <= j <= l.LCols(a) + 1
          ==> mem[CellLoc(l, a, i, j)] == b.Cell(k, l.BoardRow(a, i), l.BoardCol(a, j)))
    && (forall i, j {:trigger CellLoc(l, a, i, j)} :: 0 <= i <= l.LRows(a) + 1 && 0 <= j <= l.LCols(a) + 1
          ==> b.Inside(l.BoardRow(a, i), l.BoardCol(a, j)) || mem[CellLoc(l, a, i, j)] == DIES)
  }

  ghost predicate TilesAt(b: Board, l: Layout, k: nat, mem: Memory)
    requires HoldsTiles(l, mem)
  {
    forall a :: l.Has(a) ==>
      l.LRows(a) >= 1 && l.LCols(a) >= 1 && IsTile(b, l, a, k, TileOf(l, mem, a))
  }

  lemma TileCell(b: Board, l: Layout, k: nat, mem: Memory, a: Place, i: int, j: int)
    requires l.Fits(b) && HoldsTiles(l, mem) && TilesAt(b, l, k, mem) && l.Has(a)
    requires 0 <= i <= l.LRows(a) + 1 && 0 <= j <= l.LCols(a) + 1
    ensures (1 <= i <= l.LRows(a) && 1 <= j <= l.LCols(a)) || !b.Inside(l.BoardRow(a, i), l.BoardCol(a, j))
            ==> CellLoc(l, a, i, j) in mem && mem[CellLoc(l, a, i, j)] == b.Cell(k, l.BoardRow(a, i), l.BoardCol(a, j))
  {
    hide Board.Cell, CellLoc;
    assert TileOf(l, mem, a)[i][j] == mem[CellLoc(l, a, i, j)];
    if !b.Inside(l.BoardRow(a, i), l.BoardCol(a, j)) {
      CellOffBoard(b, k, l.BoardRow(a, i), l.BoardCol(a, j));
    }
  }

  /** After the first epoch. */
  lemma FirstEpoch(b: Board, l: Layout, k: nat, mem: Memory, o1: seq<Put>, a: Place)
    requires l.Fits(b) && HoldsTiles(l, mem) && TilesAt(b, l, k, mem) && IsOrder(l, o1, true)
    requires Covered(l, mem, o1) && l.Has(a)
    ensures HoldsTiles(l, Epoch(l, mem, o1)) && SidesIn(b, l, k, a, Epoch(l, mem, o1))
  {
    hide Board.Cell, CellLoc, Source, Target, Epoch, TilesAt, IsOrder;
    EpochEffect(b, l, mem, o1, true) by { assert IsOrder(l, o1, true); OrderFacts(l, o1, true); }
    var mid := Epoch(l, mem, o1);
    KeysKeepTiles(l, mem, mid);
    forall i, j | 0 <= i <= l.LRows(a) + 1 && 0 <= j <= l.LCols(a) + 1
      ensures 1 <= i <= l.LRows(a) || !b.Inside(l.BoardRow(a, i), l.BoardCol(a, j))
              ==> mid[CellLoc(l, a, i, j)] == b.Cell(k, l.BoardRow(a, i), l.BoardCol(a, j))
    {
      if 1 <= i <= l.LRows(a) || !b.Inside(l.BoardRow(a, i), l.BoardCol(a, j)) {
        FirstEpochCell(b, l, k, mem, o1, a, i, j);
      }
      DeadOrInside(b, k, l.BoardRow(a, i), l.BoardCol(a, j));
    }
    forall i, j | 0 <= i <= l.LRows(a) + 1 && 0 <= j <= l.LCols(a) + 1
      ensures b.Inside(l.BoardRow(a, i), l.BoardCol(a, j)) || mid[CellLoc(l, a, i, j)] == DIES
    {
      DeadOrInside(b, k, l.BoardRow(a, i), l.BoardCol(a, j));
    }
  }

  lemma DeadOrInside(b: Board, k: nat, i: int, j: int)
    ensures b.Inside(i, j) || b.Cell(k, i, j) == DIES
  {
  }

  lemma OrderFacts(l: Layout, order: seq<Put>, sides: bool)
    requires IsOrder(l, order, sides)
    ensures forall p :: p in order <==> Issued(l, p, sides)
    ensures forall i, j :: 0 <= i < j < |order| ==> order[i] != order[j]
  {
  }

  lemma FirstEpochCell(b: Board, l: Layout, k: nat, mem: Memory, o1: seq<Put>, a: Place, i: int, j: int)
    requires l.Fits(b) && HoldsTiles(l, mem) && TilesAt(b, l, k, mem) && IsOrder(l, o1, true)
    requires Covered(l, mem, o1) && l.Has(a)
    requires 0 <= i <= l.LRows(a) + 1 && 0 <= j <= l.LCols(a) + 1
    requires 1 <= i <= l.LRows(a) || !b.Inside(l.BoardRow(a, i), l.BoardCol(a, j))
    ensures var mid := Epoch(l, mem, o1);
            CellLoc(l, a, i, j) in mid && mid[CellLoc(l, a, i, j)] == b.Cell(k, l.BoardRow(a, i), l.BoardCol(a, j))
  {
    hide Board.Cell, CellLoc, Source, Target, Epoch, TilesAt, Issued, Filler, Board.Inside;
    OrderFacts(l, o1, true);
    EpochEffect(b, l, mem, o1, true);
    assert CellLoc(l, a, i, j) in mem;
    if b.Inside(l.BoardRow(a, i), l.BoardCol(a, j)) && (j == 0 || j == l.LCols(a) + 1) {
      FillerIssued(b, l, a, i, j, true);
      var p := Filler(l, a, i, j, true);
      PutHitsHalo(b, l, p, true);
      var c := SourceCell(l, p);
      TileCell(b, l, k, mem, p.at, c.0, c.1);
    } else {
      forall p | p in o1 ensures CellLoc(l, a, i, j) != Target(l, p) {
        Untouched(b, l, a, i, j, p, true);
      }
      TileCell(b, l, k, mem, a, i, j);
    }
  }

  lemma SecondEpochCell(b: Board, l: Layout, k: nat, mid: Memory, o2: seq<Put>, a: Place, i: int, j: int)
    requires l.Fits(b) && HoldsTiles(l, mid) && IsOrder(l, o2, false) && Covered(l, mid, o2) && l.Has(a)
    requires forall c :: l.Has(c) ==> SidesIn(b, l, k, c, mid)
    requires 0 <= i <= l.LRows(a) + 1 && 0 <= j <= l.LCols(a) + 1
    ensures var mem' := Epoch(l, mid, o2);
            CellLoc(l, a, i, j) in mem' && mem'[CellLoc(l, a, i, j)] == b.Cell(k, l.BoardRow(a, i), l.BoardCol(a, j))
  {
    hide Board.Cell, CellLoc, Source, Target, Epoch, Issued, Filler, Board.Inside;
    OrderFacts(l, o2, false);
    EpochEffect(b, l, mid, o2, false);
    assert CellLoc(l, a, i, j) in mid && SidesIn(b, l, k, a, mid);
    DeadOrInside(b, k, l.BoardRow(a, i), l.BoardCol(a, j));
    if (i == 0 && l.Has(Neighbour(a, Above))) || (i == l.LRows(a) + 1 && l.Has(Neighbour(a, Below))) {
      FillerIssued(b, l, a, i, j, false);
      var p := Filler(l, a, i, j, false);
      PutHitsHalo(b, l, p, false);
      var c := SourceCell(l, p);
      assert SidesIn(b, l, k, p.at, mid);
    } else {
      forall p | p in o2 ensures CellLoc(l, a, i, j) != Target(l, p) {
        Untouched(b, l, a, i, j, p, false);
      }
      RowOffBoard(b, l, a, i, j);
    }
  }

  lemma RowOffBoard(b: Board, l: Layout, a: Place, i: int, j: int)
    requires l.Fits(b) && l.Has(a)
    ensures (i == 0 && !l.Has(Neighbour(a, Above))) || (i == l.LRows(a) + 1 && !l.Has(Neighbour(a, Below)))
            ==> !b.Inside(l.BoardRow(a, i), l.BoardCol(a, j))
  {
    HaloOffBoard(b, l, a);
  }

  /** Whatever the order of arrival within each epoch, the exchange leaves every padded tile, corners
      included, equal to the zero-padded board. */
  lemma FenceExchangePads(b: Board, l: Layout, k: nat, mem: Memory, o1: seq<Put>, o2: seq<Put>, a: Place)
    requires l.Fits(b) && HoldsTiles(l, mem) && TilesAt(b, l, k, mem) && l.Has(a)
    requires IsOrder(l, o1, true) && IsOrder(l, o2, false)
    ensures var mem' := Exchange(b, l, mem, o1, o2);
            && HoldsTiles(l, mem') && l.LRows(a) >= 1 && l.LCols(a) >= 1
            && IsPadded(b, l, a, k, TileOf(l, mem', a))
  {
    hide Board.Cell, CellLoc, Source, Target, Epoch, IsOrder, SidesIn;
    OrderFacts(l, o1, true);
    OrderFacts(l, o2, false);
    IssuedCovered(b, l, mem, o1, true);
    var mid := Epoch(l, mem, o1);
    forall c | l.Has(c) ensures HoldsTiles(l, mid) && SidesIn(b, l, k, c, mid) {
      FirstEpoch(b, l, k, mem, o1, c);
    }
    IssuedCovered(b, l, mid, o2, false);
    var mem' := Exchange(b, l, mem, o1, o2);
    KeysKeepTiles(l, mem, mem');
    var t := TileOf(l, mem', a);
    forall i, j | 0 <= i <= l.LRows(a) + 1 && 0 <= j <= l.LCols(a) + 1
      ensures t[i][j] == b.Cell(k, l.BoardRow(a, i), l.BoardCol(a, j))
    {
      SecondEpochCell(b, l, k, mid, o2, a, i, j);
    }
  }

  /** The one-sided exchange and the point-to-point one give a rank the same padded tile. */
  lemma FenceEqualsPt2pt(b: Board, l: Layout, k: nat, mem: Memory, o1: seq<Put>, o2: seq<Put>, a: Place, m: Grid)
    requires l.Fits(b) && HoldsTiles(l, mem) && TilesAt(b, l, k, mem) && l.Has(a)
    requires IsOrder(l, o1, true) && IsOrder(l, o2, false)
    requires IsTile(b, l, a, k, m) && forall d :: HaloOk(b, l, a, k, m, d)
    ensures var mem' := Exchange(b, l, mem, o1, o2);
            && HoldsTiles(l, mem') && l.LRows(a) >= 1 && l.LCols(a) >= 1
            && TileOf(l, mem', a) == m
  {
    hide Board.Cell, CellLoc, Exchange, HaloOk;
    FenceExchangePads(b, l, k, mem, o1, o2, a);
    BothPhasesPad(b, l, a, k, m);
    SameGrid(TileOf(l, Exchange(b, l, mem, o1, o2), a), m, l.LRows(a), l.LCols(a));
  }

  // ----- a put as a message -----

  /** The elements of one put, each once, in any order. */
  ghost predicate IsPut(l: Layout, order: seq<Put>, a: Place, d: Side)
  {
    && (forall p :: p in order <==> Issued(l, p, OnSides(d)) && p.at == a && p.d == d)
    && (forall i, j :: 0 <= i < j < |order| ==> order[i] != order[j])
  }

  /** Is (i, j) a cell of the halo that a put from side d's opposite fills? */
  predicate InHalo(l: Layout, n: Place, d: Side, i: int, j: int)
    requires l.Has(n)
  {
    match d
    case Left => 1 <= i <= l.LRows(n) && j == 0
    case Right => 1 <= i <= l.LRows(n) && j == l.LCols(n) + 1
    case Above => i == 0 && 0 <= j <= l.LCols(n) + 1
    case Below => i == l.LRows(n) + 1 && 0 <= j <= l.LCols(n) + 1
  }

  /** The element of the put that is aimed at a cell of the halo it fills. */
  lemma HaloElement(b: Board, l: Layout, a: Place, d: Side, i: int, j: int)
    requires l.Fits(b) && l.Has(a) && l.Has(Neighbour(a, d)) && InHalo(l, Neighbour(a, d), Opposite(d), i, j)
    ensures var p := Put(a, d, if OnSides(d) then i - 1 else j);
            Issued(l, p, OnSides(d)) && TargetCell(l, p) == (i, j)
  {
    hide Board.Cell, Board.Inside;
    HaloOffBoard(b, l, a);
    HaloOffBoard(b, l, Neighbour(a, d));
  }

  lemma ElementsInHalo(b: Board, l: Layout, p: Put)
    requires l.Fits(b) && Issued(l, p, OnSides(p.d))
    ensures var t := TargetCell(l, p); InHalo(l, Neighbour(p.at, p.d), Opposite(p.d), t.0, t.1)
  {
    hide Board.Cell, Board.Inside;
    HaloOffBoard(b, l, p.at);
    HaloOffBoard(b, l, Neighbour(p.at, p.d));
  }

  /** The halo cells a put fills get the edge cells it is made of. */
  lemma LandedCell(b: Board, l: Layout, mem: Memory, a: Place, d: Side, order: seq<Put>, i: int, j: int)
    requires l.Fits(b) && HoldsTiles(l, mem) && l.Has(a) && l.Has(Neighbour(a, d)) && IsPut(l, order, a, d)
    requires Covered(l, mem, order) && InHalo(l, Neighbour(a, d), Opposite(d), i, j)
    ensures var mem', p := Epoch(l, mem, order), Put(a, d, if OnSides(d) then i - 1 else j);
            && Issued(l, p, OnSides(d)) && Source(l, p) in mem
            && CellLoc(l, Neighbour(a, d), i, j) in mem'
            && mem'[CellLoc(l, Neighbour(a, d), i, j)] == mem[Source(l, p)]
  {
    hide Board.Cell, Board.Inside, CellLoc, Source, Target, Epoch, InHalo, HoldsTiles;
    EpochEffect(b, l, mem, order, OnSides(d));
    HaloElement(b, l, a, d, i, j);
    var p := Put(a, d, if OnSides(d) then i - 1 else j);
    assert p in order;
    PutHitsHalo(b, l, p, OnSides(d));
  }

  /** Every other cell of every tile stays as it is. */
  lemma OtherCell(b: Board, l: Layout, mem: Memory, a: Place, d: Side, order: seq<Put>, c: Place, i: int, j: int)
    requires l.Fits(b) && HoldsTiles(l, mem) && l.Has(a) && l.Has(Neighbour(a, d)) && IsPut(l, order, a, d)
    requires l.Has(c) && 0 <= i <= l.LRows(c) + 1 && 0 <= j <= l.LCols(c) + 1
    requires Covered(l, mem, order) && !(c == Neighbour(a, d) && InHalo(l, c, Opposite(d), i, j))
    ensures var mem' := Epoch(l, mem, order);
            && CellLoc(l, c, i, j) in mem' && CellLoc(l, c, i, j) in mem
            && mem'[CellLoc(l, c, i, j)] == mem[CellLoc(l, c, i, j)]
  {
    hide Board.Cell, Board.Inside, CellLoc, Source, Target, Epoch, InHalo, TargetCell;
    EpochEffect(b, l, mem, order, OnSides(d));
    forall p | p in order ensures CellLoc(l, c, i, j) != Target(l, p) {
      PutHitsHalo(b, l, p, OnSides(d));
      ElementsInHalo(b, l, p);
      var t := TargetCell(l, p);
      if CellLoc(l, c, i, j) == Target(l, p) {
        CellLocInjective(l, c, i, j, Neighbour(a, d), t.0, t.1);
        assert false;
      }
    }
  }

  /** In whatever order its elements land, a put has the effect on the target's tile, and on no other, that the
      message to the same side has in the point-to-point program.  So the one-sided program with ranks that
      run ahead of each other is the machine of LifePt2pt: a put lands while its target is in the epoch, and a
      fence returns when the puts to and from the rank have landed, which is CanStep with `strict`. */
  lemma PutIsMessage(b: Board, l: Layout, mem: Memory, a: Place, d: Side, order: seq<Put>)
    requires l.Fits(b) && HoldsTiles(l, mem) && l.Has(a) && l.Has(Neighbour(a, d)) && IsPut(l, order, a, d)
    ensures Covered(l, mem, order) && HoldsTiles(l, Epoch(l, mem, order))
    ensures forall c :: l.Has(c) ==> l.LRows(c) >= 1 && l.LCols(c) >= 1
    ensures var n, mem' := Neighbour(a, d), Epoch(l, mem, order);
            var message := Outgoing(l, a, TileOf(l, mem, a), d);
            && |message| == Extent(l, n, Opposite(d))
            && TileOf(l, mem', n) == Incoming(l, n, TileOf(l, mem, n), Opposite(d), message)
            && forall c :: l.Has(c) && c != n ==> TileOf(l, mem', c) == TileOf(l, mem, c)
  {
    hide Board.Cell, Board.Inside, CellLoc, Source, Target, Epoch, Incoming, Outgoing, TileOf;
    IssuedCovered(b, l, mem, order, OnSides(d));
    EpochEffect(b, l, mem, order, OnSides(d));
    KeysKeepTiles(l, mem, Epoch(l, mem, order));
    forall c | l.Has(c) ensures l.LRows(c) >= 1 && l.LCols(c) >= 1 {
      HaloOffBoard(b, l, c);
    }
    MessageLength(b, l, TileOf(l, mem, a), a, d);
    LandedTile(b, l, mem, a, d, order);
    forall c | l.Has(c) && c != Neighbour(a, d) ensures TileOf(l, Epoch(l, mem, order), c) == TileOf(l, mem, c) {
      OtherTile(b, l, mem, a, d, order, c);
    }
  }

  lemma MessageLength(b: Board, l: Layout, m: Grid, a: Place, d: Side)
    requires l.Fits(b) && l.Has(a) && l.Has(Neighbour(a, d)) && Sized(m, l.LRows(a), l.LCols(a))
    ensures |Outgoing(l, a, m, d)| == Extent(l, Neighbour(a, d), Opposite(d))
  {
  }

  lemma OtherTile(b: Board, l: Layout, mem: Memory, a: Place, d: Side, order: seq<Put>, c: Place)
    requires l.Fits(b) && HoldsTiles(l, mem) && l.Has(a) && l.Has(Neighbour(a, d)) && IsPut(l, order, a, d)
    requires Covered(l, mem, order) && HoldsTiles(l, Epoch(l, mem, order))
    requires l.Has(c) && c != Neighbour(a, d) && l.LRows(c) >= 1 && l.LCols(c) >= 1
    ensures TileOf(l, Epoch(l, mem, order), c) == TileOf(l, mem, c)
  {
    hide Board.Cell, Board.Inside, CellLoc, Source, Target, Epoch, IsPut, Covered;
    var x, y := TileOf(l, Epoch(l, mem, order), c), TileOf(l, mem, c);
    forall i, j | 0 <= i < l.LRows(c) + 2 && 0 <= j < l.LCols(c) + 2 ensures x[i][j] == y[i][j] {
      OtherCell(b, l, mem, a, d, order, c, i, j);
    }
    SameGrid(x, y, l.LRows(c), l.LCols(c));
  }

  lemma LandedTile(b: Board, l: Layout, mem: Memory, a: Place, d: Side, order: seq<Put>)
    requires l.Fits(b) && HoldsTiles(l, mem) && l.Has(a) && l.Has(Neighbour(a, d)) && IsPut(l, order, a, d)
    requires Covered(l, mem, order) && HoldsTiles(l, Epoch(l, mem, order))
    requires l.LRows(a) >= 1 && l.LCols(a) >= 1
    requires l.LRows(Neighbour(a, d)) >= 1 && l.LCols(Neighbour(a, d)) >= 1
    requires |Outgoing(l, a, TileOf(l, mem, a), d)| == Extent(l, Neighbour(a, d), Opposite(d))
    ensures var n := Neighbour(a, d);
            TileOf(l, Epoch(l, mem, order), n)
            == Incoming(l, n, TileOf(l, mem, n), Opposite(d), Outgoing(l, a, TileOf(l, mem, a), d))
  {
    hide Board.Cell, Board.Inside, CellLoc, Source, Target, Epoch, IsPut, Covered, Incoming, Outgoing, InHalo, TileOf;
    var n := Neighbour(a, d);
    var message := Outgoing(l, a, TileOf(l, mem, a), d);
    var x, y := TileOf(l, Epoch(l, mem, order), n), Incoming(l, n, TileOf(l, mem, n), Opposite(d), message);
    forall i, j | 0 <= i < l.LRows(n) + 2 && 0 <= j < l.LCols(n) + 2 ensures x[i][j] == y[i][j] {
      TileAt(l, mem, n, i, j);
      TileAt(l, Epoch(l, mem, order), n, i, j);
      IncomingAt(l, n, TileOf(l, mem, n), Opposite(d), message, i, j);
      if !InHalo(l, n, Opposite(d), i, j) {
        OtherCell(b, l, mem, a, d, order, n, i, j);
      } else {
        var p := Put(a, d, if OnSides(d) then i - 1 else j);
        LandedCell(b, l, mem, a, d, order, i, j);
        PutHitsHalo(b, l, p, OnSides(d));
        var s := SourceCell(l, p);
        TileAt(l, mem, a, s.0, s.1);
        OutgoingAt(l, a, TileOf(l, mem, a), p);
      }
    }
    SameGrid(x, y, l.LRows(n), l.LCols(n));
  }

  lemma TileAt(l: Layout, mem: Memory, a: Place, i: int, j: int)
    requires l.Has(a) && l.LRows(a) >= 1 && l.LCols(a) >= 1 && HoldsTiles(l, mem)
    requires 0 <= i <= l.LRows(a) + 1 && 0 <= j <= l.LCols(a) + 1
    ensures CellLoc(l, a, i, j) in mem && TileOf(l, mem, a)[i][j] == mem[CellLoc(l, a, i, j)]
  {
    hide CellLoc;
  }

  lemma IncomingAt(l: Layout, n: Place, m: Grid, d: Side, message: seq<int>, i: int, j: int)
    requires l.Has(n) && Sized(m, l.LRows(n), l.LCols(n)) && |message| == Extent(l, n, d)
    requires 0 <= i <= l.LRows(n) + 1 && 0 <= j <= l.LCols(n) + 1
    ensures InHalo(l, n, d, i, j) ==> 0 <= (if OnSides(d) then i - 1 else j) < |message|
    ensures Incoming(l, n, m, d, message)[i][j]
            == if InHalo(l, n, d, i, j) then message[if OnSides(d) then i - 1 else j] else m[i][j]
  {
  }

  lemma OutgoingAt(l: Layout, a: Place, m: Grid, p: Put)
    requires l.Has(a) && Sized(m, l.LRows(a), l.LCols(a)) && p.at == a && Issued(l, p, OnSides(p.d))
    ensures p.t < |Outgoing(l, a, m, p.d)|
    ensures var c := SourceCell(l, p);
            0 <= c.0 < |m| && 0 <= c.1 < |m[c.0]| && Outgoing(l, a, m, p.d)[p.t] == m[c.0][c.1]
  {
  }

  // ----- the time loop -----

  /** Both windows; `current` is the one `matrix` points to, `other` the one `temp` points to. */
  datatype State = State(k: nat, current: Memory, other: Memory)

  /** One iteration of all ranks: exchange in the current window, sweep into the other one, swap. */
  ghost predicate Iterates(b: Board, l: Layout, s: State, s': State, o1: seq<Put>, o2: seq<Put>)
    requires l.Fits(b)
  {
    && HoldsTiles(l, s.current) && HoldsTiles(l, s.other) && HoldsTiles(l, s'.current)
    && IsOrder(l, o1, true) && IsOrder(l, o2, false)
    && s'.k == s.k + 1
    && s'.other == Exchange(b, l, s.current, o1, o2)
    && HoldsTiles(l, s'.other)
    && forall a :: l.Has(a) ==>
         && l.LRows(a) >= 1 && l.LCols(a) >= 1
         && TileOf(l, s'.current, a) == Sweep(TileOf(l, s'.other, a), TileOf(l, s.other, a), l.LRows(a), l.LCols(a))
  }

  ghost predicate Good(b: Board, l: Layout, s: State)
  {
    && HoldsTiles(l, s.current) && HoldsTiles(l, s.other)
    && TilesAt(b, l, s.k, s.current)
    && forall a :: l.Has(a) ==>
         l.LRows(a) >= 1 && l.LCols(a) >= 1 && OffBoardDead(b, l, a, TileOf(l, s.other, a))
  }

  /** Both windows as the initialisation leaves them. */
  ghost predicate SetUp(b: Board, l: Layout, s: State)
  {
    && s.k == 0 && HoldsTiles(l, s.current) && HoldsTiles(l, s.other)
    && forall a :: l.Has(a) ==>
         && l.LRows(a) >= 1 && l.LCols(a) >= 1
         && Started(b, l, a, TileOf(l, s.current, a), TileOf(l, s.other, a))
  }

  lemma SetUpGood(b: Board, l: Layout, s: State)
    requires l.Fits(b) && SetUp(b, l, s)
    ensures Good(b, l, s)
  {
    hide TileOf, HoldsTiles, IsTile, OffBoardDead, Started, Board.Cell, Layout.Fits;
    forall a | l.Has(a)
      ensures IsTile(b, l, a, 0, TileOf(l, s.current, a)) && OffBoardDead(b, l, a, TileOf(l, s.other, a))
    {
      StartedParts(b, l, a, TileOf(l, s.current, a), TileOf(l, s.other, a));
    }
  }

  lemma StartedParts(b: Board, l: Layout, a: Place, matrix: Grid, temp: Grid)
    requires l.Fits(b) && l.Has(a) && Started(b, l, a, matrix, temp)
    ensures IsTile(b, l, a, 0, matrix) && OffBoardDead(b, l, a, temp)
  {
    StartedOk(b, l, a, RankState(0, Ready, matrix, temp));
  }

  lemma IterationGood(b: Board, l: Layout, s: State, s': State, o1: seq<Put>, o2: seq<Put>)
    requires l.Fits(b) && Good(b, l, s) && Iterates(b, l, s, s', o1, o2)
    ensures Good(b, l, s')
  {
    hide Board.Cell, CellLoc, Exchange, IsTile, IsPadded, OffBoardDead, IsOrder, TileOf, Sweep;
    forall a | l.Has(a)
      ensures IsTile(b, l, a, s'.k, TileOf(l, s'.current, a)) && OffBoardDead(b, l, a, TileOf(l, s'.other, a))
    {
      FenceExchangePads(b, l, s.k, s.current, o1, o2, a);
      SweepAdvances(b, l, a, s.k, TileOf(l, s'.other, a), TileOf(l, s.other, a));
    }
  }

  lemma {:induction false} IterationsGood(b: Board, l: Layout, states: seq<State>, o1: seq<seq<Put>>, o2: seq<seq<Put>>)
    requires l.Fits(b) && |states| >= 1 && |o1| == |o2| == |states| - 1
    requires Good(b, l, states[0]) && states[0].k == 0
    requires forall n :: 0 <= n < |o1| ==> Iterates(b, l, states[n], states[n + 1], o1[n], o2[n])
    ensures var s := states[|states| - 1]; s.k == |states| - 1 && Good(b, l, s)
    decreases |states|
  {
    hide Good, Iterates;
    if |states| > 1 {
      var n := |states| - 2;
      IterationsGood(b, l, states[..n + 1], o1[..n], o2[..n]);
      IterationGood(b, l, states[n], states[n + 1], o1[n], o2[n]);
      IterationCounts(b, l, states[n], states[n + 1], o1[n], o2[n]);
    }
  }

  /** The one-sided program computes the sequential game: from the set-up on, after any number of iterations,
      each with any orders of arrival, every tile holds its part of the generation of that number. */
  lemma FenceRunsTheGame(b: Board, l: Layout, states: seq<State>, o1: seq<seq<Put>>, o2: seq<seq<Put>>, a: Place)
    requires l.Fits(b) && |states| >= 1 && |o1| == |o2| == |states| - 1
    requires SetUp(b, l, states[0]) && l.Has(a)
    requires forall n :: 0 <= n < |o1| ==> Iterates(b, l, states[n], states[n + 1], o1[n], o2[n])
    ensures var s := states[|states| - 1];
            && s.k == |states| - 1 && HoldsTiles(l, s.current) && l.LRows(a) >= 1 && l.LCols(a) >= 1
            && IsTile(b, l, a, |states| - 1, TileOf(l, s.current, a))
  {
    hide Board.Cell, Iterates, IsTile, TileOf, HoldsTiles, OffBoardDead;
    SetUpGood(b, l, states[0]);
    assert states[0].k == 0;
    hide SetUp, Started;
    IterationsGood(b, l, states, o1, o2);
  }

  lemma IterationCounts(b: Board, l: Layout, s: State, s': State, o1: seq<Put>, o2: seq<Put>)
    requires l.Fits(b) && Iterates(b, l, s, s', o1, o2)
    ensures s'.k == s.k + 1
  {
  }
}
