/** The point-to-point exchange of mlife2d-pt2pt.c inside the time loop of mlife2d.c, as a machine of
    ranks that step independently.  A message may be received at any time after it was sent; messages
    from one rank to another arrive in order (MPI-3.1, section 3.5).  A request to MPI_PROC_NULL
    completes at once, so with one process column this is also the exchange of mlife-pt2pt.c. */
module LifePt2pt {
  import opened LifeBoard
  import opened LifeGrid

  /** Where a rank is in its iteration; `got` are the receives that have completed. */
  datatype Phase =
    | Ready                   // about to enter MLIFE_exchange
    | Sides(got: set<Side>)   // left and right requests posted
    | Ends(got: set<Side>)    // above and below requests posted

  datatype RankState = RankState(k: nat, phase: Phase, matrix: Grid, temp: Grid)

  datatype State = State(rank: map<Place, RankState>, chan: map<(Place, Place), seq<seq<int>>>)

  datatype Action = PostSides | PostEnds | Receive(d: Side) | Advance

  datatype Event = Event(at: Place, action: Action)

  function Queue(chan: map<(Place, Place), seq<seq<int>>>, from: Place, to: Place): seq<seq<int>>
  {
    if (from, to) in chan then chan[(from, to)] else []
  }

  /** The requests of one phase. */
  predicate OnSides(d: Side)
  {
    d.Left? || d.Right?
  }

  /** Every receive from an existing neighbour has completed; MPI_Waitall cannot return before. */
  predicate AllIn(l: Layout, a: Place, got: set<Side>, sides: bool)
  {
    forall d: Side :: OnSides(d) == sides && l.Has(Neighbour(a, d)) ==> d in got
  }

  function Outgoing(l: Layout, a: Place, m: Grid, d: Side): seq<int>
    requires l.Has(a) && Sized(m, l.LRows(a), l.LCols(a))
  {
    match d
    case Left => Column(m, l.LRows(a), l.LCols(a), 1)
    case Right => Column(m, l.LRows(a), l.LCols(a), l.LCols(a))
    case Above => m[1]
    case Below => m[l.LRows(a)]
  }

  /** The length a message arriving from side `d` must have to match its receive. */
  function Extent(l: Layout, a: Place, d: Side): int
    requires l.Has(a)
  {
    if OnSides(d) then l.LRows(a) else l.LCols(a) + 2
  }

  function Incoming(l: Layout, a: Place, m: Grid, d: Side, c: seq<int>): (m': Grid)
    requires l.Has(a) && Sized(m, l.LRows(a), l.LCols(a)) && |c| == Extent(l, a, d)
    ensures Sized(m', l.LRows(a), l.LCols(a))
  {
    match d
    case Left => WithColumn(m, l.LRows(a), l.LCols(a), 0, c)
    case Right => WithColumn(m, l.LRows(a), l.LCols(a), l.LCols(a) + 1, c)
    case Above => m[0 := c]
    case Below => m[l.LRows(a) + 1 := c]
  }

  function Send(l: Layout, chan: map<(Place, Place), seq<seq<int>>>, a: Place, m: Grid, d: Side)
    : map<(Place, Place), seq<seq<int>>>
    requires l.Has(a) && Sized(m, l.LRows(a), l.LCols(a))
  {
    var to := Neighbour(a, d);
    if l.Has(to) then chan[(a, to) := Queue(chan, a, to) + [Outgoing(l, a, m, d)]] else chan
  }

  predicate Enabled(l: Layout, ntimes: nat, s: State, e: Event)
  {
    var a := e.at;
    && l.Has(a) && a in s.rank
    && var r := s.rank[a];
    && Sized(r.matrix, l.LRows(a), l.LCols(a)) && Sized(r.temp, l.LRows(a), l.LCols(a))
    && match e.action
       case PostSides => r.phase.Ready? && r.k < ntimes
       case PostEnds => r.phase.Sides? && AllIn(l, a, r.phase.got, true)
       case Receive(d) =>
         && !r.phase.Ready? && d !in r.phase.got && r.phase.Sides? == OnSides(d)
         && l.Has(Neighbour(a, d))
         && var q := Queue(s.chan, Neighbour(a, d), a); q != [] && |q[0]| == Extent(l, a, d)
       case Advance => r.phase.Ends? && AllIn(l, a, r.phase.got, false)
  }

  /** Every message the rank has sent on these sides has been received. */
  predicate Taken(l: Layout, s: State, a: Place, sides: bool)
  {
    forall d: Side :: OnSides(d) == sides && l.Has(Neighbour(a, d)) ==> Queue(s.chan, a, Neighbour(a, d)) == []
  }

  /** Enabled says what MPI may let happen, and so admits every run; this says what it has to let happen.
      MPI_Waitall waits for the rank's own sends too, and none of them need complete before its message is
      received (`strict`).  Between the two lies every library that buffers some messages and not others. */
  predicate CanStep(l: Layout, ntimes: nat, strict: bool, s: State, e: Event)
  {
    && Enabled(l, ntimes, s, e)
    && (strict ==>
          match e.action
          case PostEnds => Taken(l, s, e.at, true)
          case Advance => Taken(l, s, e.at, false)
          case _ => true)
  }

  function Apply(l: Layout, ntimes: nat, s: State, e: Event): State
    requires Enabled(l, ntimes, s, e)
  {
    var a, r := e.at, s.rank[e.at];
    match e.action
    case PostSides =>
      State(s.rank[a := r.(phase := Sides({}))],
            Send(l, Send(l, s.chan, a, r.matrix, Left), a, r.matrix, Right))
    case PostEnds =>
      State(s.rank[a := r.(phase := Ends({}))],
            Send(l, Send(l, s.chan, a, r.matrix, Above), a, r.matrix, Below))
    case Receive(d) =>
      var from := Neighbour(a, d);
      var q := Queue(s.chan, from, a);
      State(s.rank[a := r.(phase := if r.phase.Sides? then Sides(r.phase.got + {d}) else Ends(r.phase.got + {d}),
                           matrix := Incoming(l, a, r.matrix, d, q[0]))],
            s.chan[(from, a) := q[1..]])
    case Advance =>
      // compute into temp, then swap the two buffers
      State(s.rank[a := RankState(r.k + 1, Ready, Sweep(r.matrix, r.temp, l.LRows(a), l.LCols(a)), r.matrix)],
            s.chan)
  }

  /** Both buffers as the initialisation leaves them: boundary dead, interior of `matrix` generation 0. */
  ghost predicate Started(b: Board, l: Layout, a: Place, matrix: Grid, temp: Grid)
    requires l.Has(a)
  {
    var rows, cols := l.LRows(a), l.LCols(a);
    && Sized(matrix, rows, cols) && Sized(temp, rows, cols)
    && (forall i, j {:trigger matrix[i][j]} :: 1 <= i <= rows && 1 <= j <= cols
          ==> matrix[i][j] == b.init(l.BoardRow(a, i), l.BoardCol(a, j)))
    && (forall i, j {:trigger matrix[i][j]} :: 0 <= i <= rows + 1 && 0 <= j <= cols + 1
          ==> (1 <= i <= rows && 1 <= j <= cols) || matrix[i][j] == DIES)
    && (forall i, j {:trigger temp[i][j]} :: 0 <= i <= rows + 1 && 0 <= j <= cols + 1
          ==> (1 <= i <= rows && 1 <= j <= cols) || temp[i][j] == DIES)
  }

  ghost predicate Initial(b: Board, l: Layout, s: State)
  {
    && s.chan == map[]
    && (forall a :: a in s.rank <==> l.Has(a))
    && forall a :: l.Has(a) ==>
         s.rank[a].k == 0 && s.rank[a].phase == Ready && Started(b, l, a, s.rank[a].matrix, s.rank[a].temp)
  }

  predicate Executes(l: Layout, ntimes: nat, s: State, run: seq<Event>)
    decreases |run|
  {
    run == [] || (Enabled(l, ntimes, s, run[0]) && Executes(l, ntimes, Apply(l, ntimes, s, run[0]), run[1..]))
  }

  function Final(l: Layout, ntimes: nat, s: State, run: seq<Event>): State
    requires Executes(l, ntimes, s, run)
    decreases |run|
  {
    if run == [] then s else Final(l, ntimes, Apply(l, ntimes, s, run[0]), run[1..])
  }

  // ----- invariant -----

  /** What rank `a` sends to side `d` in iteration k, read off the SEQUENTIAL game.  Messages up and down
      are full padded rows, so they carry the diagonal cells. */
  function Edge(b: Board, l: Layout, a: Place, d: Side, k: nat): seq<int>
    requires l.Has(a) && l.LRows(a) >= 1 && l.LCols(a) >= 1
  {
    match d
    case Left => seq(l.LRows(a), i => b.Cell(k, l.BoardRow(a, i + 1), l.BoardCol(a, 1)))
    case Right => seq(l.LRows(a), i => b.Cell(k, l.BoardRow(a, i + 1), l.BoardCol(a, l.LCols(a))))
    case Above => seq(l.LCols(a) + 2, j => b.Cell(k, l.BoardRow(a, 1), l.BoardCol(a, j)))
    case Below => seq(l.LCols(a) + 2, j => b.Cell(k, l.BoardRow(a, l.LRows(a)), l.BoardCol(a, j)))
  }

  /** How many messages a rank has sent to, and received from, side `d` since the start. */
  function Sent(r: RankState, d: Side): nat
  {
    r.k + if (OnSides(d) && !r.phase.Ready?) || r.phase.Ends? then 1 else 0
  }

  function Got(r: RankState, d: Side): nat
  {
    r.k + if (!r.phase.Ready? && d in r.phase.got) || (OnSides(d) && r.phase.Ends?) then 1 else 0
  }

  /** The halo on side `d` holds generation k. */
  ghost predicate HaloOk(b: Board, l: Layout, a: Place, k: nat, m: Grid, d: Side)
    requires l.Has(a)
  {
    var rows, cols := l.LRows(a), l.LCols(a);
    && Sized(m, rows, cols)
    && match d
       case Left => forall i {:trigger m[i]} :: 1 <= i <= rows ==> m[i][0] == b.Cell(k, l.BoardRow(a, i), l.BoardCol(a, 0))
       case Right => forall i {:trigger m[i]} :: 1 <= i <= rows ==> m[i][cols + 1] == b.Cell(k, l.BoardRow(a, i), l.BoardCol(a, cols + 1))
       case Above => forall j {:trigger l.BoardCol(a, j)} :: 0 <= j <= cols + 1 ==> m[0][j] == b.Cell(k, l.BoardRow(a, 0), l.BoardCol(a, j))
       case Below => forall j {:trigger l.BoardCol(a, j)} :: 0 <= j <= cols + 1 ==> m[rows + 1][j] == b.Cell(k, l.BoardRow(a, rows + 1), l.BoardCol(a, j))
  }

  ghost predicate RankOk(b: Board, l: Layout, a: Place, r: RankState)
    requires l.Has(a)
  {
    && IsTile(b, l, a, r.k, r.matrix)
    && OffBoardDead(b, l, a, r.temp)
    && (r.phase.Sides? ==> forall d :: d in r.phase.got ==> OnSides(d))
    && (r.phase.Ends? ==> forall d :: d in r.phase.got ==> !OnSides(d))
    && (r.phase.Ends? ==> HaloOk(b, l, a, r.k, r.matrix, Left) && HaloOk(b, l, a, r.k, r.matrix, Right))
    && (!r.phase.Ready? ==> forall d :: d in r.phase.got ==> HaloOk(b, l, a, r.k, r.matrix, d))
  }

  /** The channel from `a` to side `d` holds exactly the messages sent and not yet received, the next of
      which is of the generation the receiver waits for. */
  ghost predicate ChannelOk(b: Board, l: Layout, s: State, a: Place, d: Side)
    requires l.Has(a) && l.Has(Neighbour(a, d)) && l.LRows(a) >= 1 && l.LCols(a) >= 1
    requires a in s.rank && Neighbour(a, d) in s.rank
  {
    var q := Queue(s.chan, a, Neighbour(a, d));
    var sent, got := Sent(s.rank[a], d), Got(s.rank[Neighbour(a, d)], Opposite(d));
    && |q| == sent - got
    && forall i {:trigger q[i]} :: 0 <= i < |q| ==> q[i] == Edge(b, l, a, d, got + i)
  }

  ghost predicate Inv(b: Board, l: Layout, s: State)
  {
    && l.Fits(b)
    && (forall a :: a in s.rank <==> l.Has(a))
    && (forall a :: l.Has(a) ==> l.LRows(a) >= 1 && l.LCols(a) >= 1)
    && (forall a :: l.Has(a) ==> RankOk(b, l, a, s.rank[a]))
    && (forall a, d :: l.Has(a) && l.Has(Neighbour(a, d)) ==> ChannelOk(b, l, s, a, d))
  }

  lemma InitialInv(b: Board, l: Layout, s: State)
    requires l.Fits(b) && Initial(b, l, s)
    ensures Inv(b, l, s)
  {
    forall a | l.Has(a) ensures l.LRows(a) >= 1 && l.LCols(a) >= 1 && RankOk(b, l, a, s.rank[a]) {
      HaloOffBoard(b, l, a);
      StartedOk(b, l, a, s.rank[a]);
    }
  }

  lemma StartedOk(b: Board, l: Layout, a: Place, r: RankState)
    requires l.Fits(b) && l.Has(a) && r.k == 0 && r.phase == Ready && Started(b, l, a, r.matrix, r.temp)
    ensures RankOk(b, l, a, r)
  {
    HaloOffBoard(b, l, a);
  }

  /** A side without a neighbour needs no message: its halo is off the board and was never written. */
  lemma NoNeighbourHalo(b: Board, l: Layout, a: Place, k: nat, m: Grid, d: Side)
    requires l.Fits(b) && l.Has(a) && OffBoardDead(b, l, a, m) && !l.Has(Neighbour(a, d))
    ensures HaloOk(b, l, a, k, m, d)
  {
    hide Board.Cell;
    HaloOffBoard(b, l, a);
    forall i, j | !b.Inside(i, j) ensures b.Cell(k, i, j) == DIES {
      CellOffBoard(b, k, i, j);
    }
  }

  /** What a rank sends is the edge of the sequential game, provided the halo columns are in when the
      full rows are sent. */
  lemma OutgoingIsEdge(b: Board, l: Layout, a: Place, k: nat, m: Grid, d: Side)
    requires l.Has(a) && IsTile(b, l, a, k, m)
    requires OnSides(d) || (HaloOk(b, l, a, k, m, Left) && HaloOk(b, l, a, k, m, Right))
    ensures Outgoing(l, a, m, d) == Edge(b, l, a, d, k)
  {
    hide Board.Cell;
  }

  /** The halo of one rank is the edge of its neighbour: both index the same board cells. */
  lemma EdgeIsHalo(b: Board, l: Layout, a: Place, d: Side, k: nat)
    requires l.Fits(b) && l.Has(a) && l.Has(Neighbour(a, d))
    ensures var n := Neighbour(a, d);
            && l.LRows(n) >= 1 && l.LCols(n) >= 1
            && var c := Edge(b, l, n, Opposite(d), k);
            && |c| == Extent(l, a, d)
            && match d
               case Left => forall i :: 0 <= i < |c| ==> c[i] == b.Cell(k, l.BoardRow(a, i + 1), l.BoardCol(a, 0))
               case Right => forall i :: 0 <= i < |c| ==> c[i] == b.Cell(k, l.BoardRow(a, i + 1), l.BoardCol(a, l.LCols(a) + 1))
               case Above => forall j :: 0 <= j < |c| ==> c[j] == b.Cell(k, l.BoardRow(a, 0), l.BoardCol(a, j))
               case Below => forall j :: 0 <= j < |c| ==> c[j] == b.Cell(k, l.BoardRow(a, l.LRows(a) + 1), l.BoardCol(a, j))
  {
    hide Board.Cell;
    HaloOffBoard(b, l, Neighbour(a, d));
  }

  /** What a rank receives fills its halo with the same generation and disturbs nothing already there. */
  lemma IncomingFillsHalo(b: Board, l: Layout, a: Place, k: nat, m: Grid, d: Side, c: seq<int>)
    requires l.Fits(b) && l.Has(a) && l.Has(Neighbour(a, d)) && IsTile(b, l, a, k, m)
    requires l.LRows(Neighbour(a, d)) >= 1 && l.LCols(Neighbour(a, d)) >= 1
    requires c == Edge(b, l, Neighbour(a, d), Opposite(d), k)
    ensures |c| == Extent(l, a, d)
    ensures var m' := Incoming(l, a, m, d, c);
            && IsTile(b, l, a, k, m')
            && HaloOk(b, l, a, k, m', d)
  {
    hide Board.Cell;
    EdgeIsHalo(b, l, a, d, k);
    var m' := Incoming(l, a, m, d, c);
    forall i, j | 0 <= i <= l.LRows(a) + 1 && 0 <= j <= l.LCols(a) + 1
      && !b.Inside(l.BoardRow(a, i), l.BoardCol(a, j))
      ensures m'[i][j] == DIES
    {
      CellOffBoard(b, k, l.BoardRow(a, i), l.BoardCol(a, j));
    }
  }

  lemma IncomingKeepsHalo(b: Board, l: Layout, a: Place, k: nat, m: Grid, d: Side, c: seq<int>, f: Side)
    requires l.Has(a) && HaloOk(b, l, a, k, m, f) && f != d && |c| == Extent(l, a, d)
    requires OnSides(d) ==> OnSides(f)
    ensures HaloOk(b, l, a, k, Incoming(l, a, m, d, c), f)
  {
    hide Board.Cell;
  }

  /** The diagonal trick: once both phases are in, all of the padded tile, corners included, is the
      zero-padded board. */
  lemma BothPhasesPad(b: Board, l: Layout, a: Place, k: nat, m: Grid)
    requires l.Has(a) && IsTile(b, l, a, k, m)
    requires forall d :: HaloOk(b, l, a, k, m, d)
    ensures IsPadded(b, l, a, k, m)
  {
    hide Board.Cell;
    var rows, cols := l.LRows(a), l.LCols(a);
    assert HaloOk(b, l, a, k, m, Left) && HaloOk(b, l, a, k, m, Right);
    assert HaloOk(b, l, a, k, m, Above) && HaloOk(b, l, a, k, m, Below);
    forall i, j | 0 <= i <= rows + 1 && 0 <= j <= cols + 1
      ensures m[i][j] == b.Cell(k, l.BoardRow(a, i), l.BoardCol(a, j))
    {
      if i == 0 {
        assert m[0][j] == b.Cell(k, l.BoardRow(a, 0), l.BoardCol(a, j));
      } else if i == rows + 1 {
        assert m[rows + 1][j] == b.Cell(k, l.BoardRow(a, rows + 1), l.BoardCol(a, j));
      }
    }
  }
}
