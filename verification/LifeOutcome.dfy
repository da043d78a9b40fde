/** What a run of the asynchronous Life program ends in, whatever the interleaving and the layout. */
module LifeOutcome {
  import opened LifeBoard
  import opened LifeGrid
  import opened LifePt2pt
  import opened LifeAsync
  import Counting

  /** Each rank holds its own generation of the sequential game, neighbours are at most one iteration
      apart, and the next message a rank can receive is its neighbour's edge at the receiver's own
      generation. */
  ghost predicate InStep(b: Board, l: Layout, n: nat, s: State)
  {
    && (forall a :: l.Has(a) ==> a in s.rank && IsTile(b, l, a, s.rank[a].k, s.rank[a].matrix))
    && (forall a, d :: l.Has(a) && l.Has(Neighbour(a, d)) ==> s.rank[a].k <= s.rank[Neighbour(a, d)].k + 1)
    && (forall a, d :: Enabled(l, n, s, Event(a, Receive(d))) ==>
          var from := Neighbour(a, d);
          && l.LRows(from) >= 1 && l.LCols(from) >= 1
          && Queue(s.chan, from, a)[0] == Edge(b, l, from, Opposite(d), s.rank[a].k))
  }

  lemma InvInStep(b: Board, l: Layout, n: nat, s: State)
    requires Inv(b, l, s)
    ensures InStep(b, l, n, s)
  {
    hide Board.Cell, IsTile, OffBoardDead, HaloOk, Edge, ChannelOk, IsCut;
    forall a | l.Has(a) ensures IsTile(b, l, a, s.rank[a].k, s.rank[a].matrix) {
      assert RankOk(b, l, a, s.rank[a]);
    }
    forall a, d | l.Has(a) && l.Has(Neighbour(a, d)) ensures s.rank[a].k <= s.rank[Neighbour(a, d)].k + 1 {
      ApartByOne(b, l, s, a, d);
    }
    forall a, d | Enabled(l, n, s, Event(a, Receive(d)))
      ensures var from := Neighbour(a, d);
              && l.Has(from) && l.LRows(from) >= 1 && l.LCols(from) >= 1
              && Queue(s.chan, from, a)[0] == Edge(b, l, from, Opposite(d), s.rank[a].k)
    {
      NextMessage(b, l, n, s, a, d);
    }
  }

  /** In every reachable state of every interleaving. */
  lemma EveryReachableState(b: Board, l: Layout, n: nat, s: State, run: seq<Event>)
    requires l.Fits(b) && Initial(b, l, s) && Executes(l, n, s, run)
    ensures InStep(b, l, n, Final(l, n, s, run))
  {
    hide Board.Cell, Executes, Final, Initial, Inv, InStep, Layout.Fits;
    InitialInv(b, l, s);
    RunInv(b, l, n, s, run);
    InvInStep(b, l, n, Final(l, n, s, run));
  }

  lemma ApartByOne(b: Board, l: Layout, s: State, a: Place, d: Side)
    requires Inv(b, l, s) && l.Has(a) && l.Has(Neighbour(a, d))
    ensures s.rank[a].k <= s.rank[Neighbour(a, d)].k + 1
  {
    hide Board.Cell, RankOk, Edge;
    var from := Neighbour(a, d);
    assert Neighbour(from, Opposite(d)) == a && Opposite(Opposite(d)) == d;
    assert ChannelOk(b, l, s, from, Opposite(d));
  }

  lemma NextMessage(b: Board, l: Layout, n: nat, s: State, a: Place, d: Side)
    requires Inv(b, l, s) && Enabled(l, n, s, Event(a, Receive(d)))
    ensures var from := Neighbour(a, d);
            && l.Has(from) && l.LRows(from) >= 1 && l.LCols(from) >= 1
            && Queue(s.chan, from, a)[0] == Edge(b, l, from, Opposite(d), s.rank[a].k)
  {
    hide Board.Cell, RankOk, Edge;
    var from := Neighbour(a, d);
    assert Neighbour(from, Opposite(d)) == a && Opposite(Opposite(d)) == d;
    assert ChannelOk(b, l, s, from, Opposite(d));
  }

  // ----- no deadlock -----

  ghost predicate Bounded(n: nat, s: State)
  {
    forall a :: a in s.rank ==> s.rank[a].k <= n && (s.rank[a].phase.Ready? || s.rank[a].k < n)
  }

  lemma {:induction false} RunBounded(l: Layout, n: nat, s: State, run: seq<Event>)
    requires Bounded(n, s) && Executes(l, n, s, run)
    ensures Bounded(n, Final(l, n, s, run))
    decreases |run|
  {
    if run != [] {
      RunBounded(l, n, Apply(l, n, s, run[0]), run[1..]);
    }
  }

  /** How far a rank has got. */
  function Progress(r: RankState): nat
  {
    3 * r.k + if r.phase.Ready? then 0 else if r.phase.Sides? then 1 else 2
  }

  lemma {:induction false} Slowest(rank: map<Place, RankState>, places: set<Place>) returns (m: Place)
    requires places != {} && places <= rank.Keys
    ensures m in places && forall a :: a in places ==> Progress(rank[m]) <= Progress(rank[a])
    decreases |places|
  {
    m :| m in places;
    if places != {m} {
      var m' := Slowest(rank, places - {m});
      assert forall a :: a in places ==> a == m || a in places - {m};
      if Progress(rank[m']) < Progress(rank[m]) {
        m := m';
      }
    }
  }

  /** The message a slowest rank is waiting for has already been sent. */
  lemma MessageIsThere(b: Board, l: Layout, n: nat, s: State, m: Place, d: Side)
    requires Inv(b, l, s) && l.Has(m) && l.Has(Neighbour(m, d))
    requires Progress(s.rank[m]) <= Progress(s.rank[Neighbour(m, d)])
    requires !s.rank[m].phase.Ready? && d !in s.rank[m].phase.got && s.rank[m].phase.Sides? == OnSides(d)
    ensures Enabled(l, n, s, Event(m, Receive(d)))
  {
    hide Board.Cell, HaloOk, Edge;
    var from := Neighbour(m, d);
    assert Neighbour(from, Opposite(d)) == m && Opposite(Opposite(d)) == d;
    assert RankOk(b, l, m, s.rank[m]);
    assert ChannelOk(b, l, s, from, Opposite(d));
    EdgeIsHalo(b, l, m, d, s.rank[m].k);
  }

  /** A message a slowest rank has sent and that is still under way is one its neighbour can receive now. */
  lemma ReceiverCanTake(b: Board, l: Layout, n: nat, s: State, m: Place, d: Side)
    requires Inv(b, l, s) && l.Has(m) && l.Has(Neighbour(m, d))
    requires Progress(s.rank[m]) <= Progress(s.rank[Neighbour(m, d)])
    requires !s.rank[m].phase.Ready? && s.rank[m].phase.Sides? == OnSides(d)
    requires Queue(s.chan, m, Neighbour(m, d)) != []
    ensures Enabled(l, n, s, Event(Neighbour(m, d), Receive(Opposite(d))))
  {
    hide Board.Cell, HaloOk, Edge, RankOk;
    var to := Neighbour(m, d);
    assert Neighbour(to, Opposite(d)) == m && OnSides(Opposite(d)) == OnSides(d);
    assert ChannelOk(b, l, s, m, d);
    MessageIsThere(b, l, n, s, to, Opposite(d));
  }

  lemma SlowestCanStep(b: Board, l: Layout, n: nat, strict: bool, s: State, m: Place)
    requires Inv(b, l, s) && Bounded(n, s) && l.Has(m)
    requires forall a :: a in s.rank ==> Progress(s.rank[m]) <= Progress(s.rank[a])
    requires !(s.rank[m].phase.Ready? && s.rank[m].k == n)
    ensures exists e :: CanStep(l, n, strict, s, e)
  {
    hide Board.Cell, HaloOk, Edge, ChannelOk;
    var r := s.rank[m];
    assert RankOk(b, l, m, r);
    if r.phase.Ready? {
      assert CanStep(l, n, strict, s, Event(m, PostSides));
    } else if !AllIn(l, m, r.phase.got, r.phase.Sides?) {
      var d: Side :| OnSides(d) == r.phase.Sides? && l.Has(Neighbour(m, d)) && d !in r.phase.got;
      MessageIsThere(b, l, n, s, m, d);
      assert CanStep(l, n, strict, s, Event(m, Receive(d)));
    } else if !Taken(l, s, m, r.phase.Sides?) {
      var d: Side :| OnSides(d) == r.phase.Sides? && l.Has(Neighbour(m, d)) && Queue(s.chan, m, Neighbour(m, d)) != [];
      ReceiverCanTake(b, l, n, s, m, d);
      assert CanStep(l, n, strict, s, Event(Neighbour(m, d), Receive(Opposite(d))));
    } else {
      assert CanStep(l, n, strict, s, Event(m, if r.phase.Sides? then PostEnds else Advance));
    }
  }

  /** A run that cannot be continued has taken every rank through all its iterations: no interleaving
      deadlocks, even if no message is ever buffered and every MPI_Waitall waits for its sends to be received. */
  lemma StuckMeansDone(b: Board, l: Layout, n: nat, strict: bool, s: State, run: seq<Event>)
    requires l.Fits(b) && Initial(b, l, s) && Executes(l, n, s, run)
    requires forall e :: !CanStep(l, n, strict, Final(l, n, s, run), e)
    ensures Finished(l, n, Final(l, n, s, run))
  {
    hide Board.Cell, RankOk, ChannelOk, Enabled, CanStep, Executes, Final, Started, Apply;
    InitialInv(b, l, s);
    RunInv(b, l, n, s, run);
    RunBounded(l, n, s, run);
    var s' := Final(l, n, s, run);
    assert l.Has(Place(0, 0));
    var m := Slowest(s'.rank, s'.rank.Keys);
    if !(s'.rank[m].phase.Ready? && s'.rank[m].k == n) {
      SlowestCanStep(b, l, n, strict, s', m);
    }
  }

  // ----- every run ends -----

  /** The steps a rank has made: seven an iteration if it has four neighbours. */
  function StepsMade(r: RankState): nat
  {
    7 * r.k + if r.phase.Ready? then 0 else if r.phase.Sides? then 1 + |r.phase.got| else 4 + |r.phase.got|
  }

  lemma GotIsSmall(b: Board, l: Layout, a: Place, r: RankState)
    requires l.Has(a) && RankOk(b, l, a, r) && !r.phase.Ready?
    ensures |r.phase.got| <= 2
  {
    hide Board.Cell, IsTile, OffBoardDead, HaloOk;
    var two: set<Side> := if r.phase.Sides? then {Left, Right} else {Above, Below};
    assert r.phase.got <= two;
    Counting.SubsetSize(r.phase.got, two);
  }

  lemma StepMakesOne(b: Board, l: Layout, n: nat, s: State, e: Event, a: Place)
    requires Inv(b, l, s) && Enabled(l, n, s, e) && a in s.rank
    ensures a in Apply(l, n, s, e).rank
    ensures StepsMade(s.rank[a]) + (if a == e.at then 1 else 0) <= StepsMade(Apply(l, n, s, e).rank[a])
  {
    hide Board.Cell, IsTile, OffBoardDead, HaloOk, ChannelOk, Incoming, Outgoing, Sweep, Queue, RankOk;
    if a == e.at && !s.rank[a].phase.Ready? {
      GotIsSmall(b, l, a, s.rank[a]);
    }
  }

  function Places(run: seq<Event>): (p: seq<Place>)
    ensures |p| == |run|
  {
    seq(|run|, i requires 0 <= i < |run| => run[i].at)
  }

  lemma {:induction false} EventsAt(b: Board, l: Layout, n: nat, s: State, run: seq<Event>, a: Place)
    requires Inv(b, l, s) && Executes(l, n, s, run) && a in s.rank
    ensures a in Final(l, n, s, run).rank
    ensures StepsMade(s.rank[a]) + multiset(Places(run))[a] <= StepsMade(Final(l, n, s, run).rank[a])
    decreases |run|
  {
    hide Inv, Apply, Enabled, StepsMade;
    if run != [] {
      StepInv(b, l, n, s, run[0]);
      StepMakesOne(b, l, n, s, run[0], a);
      EventsAt(b, l, n, Apply(l, n, s, run[0]), run[1..], a);
      assert Places(run) == [run[0].at] + Places(run[1..]);
    }
  }

  lemma {:induction false} EventsAreAtRanks(b: Board, l: Layout, n: nat, s: State, run: seq<Event>)
    requires Inv(b, l, s) && Executes(l, n, s, run)
    ensures forall a :: a in Places(run) ==> l.Has(a)
    decreases |run|
  {
    hide Inv, Apply;
    if run != [] {
      StepInv(b, l, n, s, run[0]);
      EventsAreAtRanks(b, l, n, Apply(l, n, s, run[0]), run[1..]);
      assert Places(run) == [run[0].at] + Places(run[1..]);
    }
  }

  /** No run goes on for ever: at most seven steps a rank and iteration. */
  lemma RunLength(b: Board, l: Layout, n: nat, s: State, run: seq<Event>)
    requires l.Fits(b) && Initial(b, l, s) && Executes(l, n, s, run)
    ensures |run| <= 7 * n * |s.rank|
  {
    hide Board.Cell, Executes, Final, Started, RankOk, ChannelOk, Places;
    InitialInv(b, l, s);
    RunInv(b, l, n, s, run);
    RunBounded(l, n, s, run);
    EventsAreAtRanks(b, l, n, s, run);
    var s' := Final(l, n, s, run);
    forall a
      ensures multiset(Places(run))[a] <= 7 * n
      ensures a in multiset(Places(run)) ==> a in s.rank.Keys
    {
      assert a in multiset(Places(run)) <==> a in Places(run);
      if a in s.rank {
        EventsAt(b, l, n, s, run, a);
        RankSteps(b, l, n, s', a);
      }
    }
    Counting.MultisetSize(multiset(Places(run)), s.rank.Keys, 7 * n);
  }

  lemma RankSteps(b: Board, l: Layout, n: nat, s: State, a: Place)
    requires Inv(b, l, s) && Bounded(n, s) && a in s.rank
    ensures StepsMade(s.rank[a]) <= 7 * n
  {
    hide Board.Cell, IsTile, OffBoardDead, HaloOk, ChannelOk, RankOk;
    if !s.rank[a].phase.Ready? {
      GotIsSmall(b, l, a, s.rank[a]);
    }
  }

  ghost predicate Finished(l: Layout, n: nat, s: State)
  {
    forall a :: l.Has(a) ==> a in s.rank && s.rank[a].phase.Ready? && s.rank[a].k == n
  }

  /** The tile at `a` has the value v where it stands for board cell (gi, gj). */
  ghost predicate Shows(l: Layout, s: State, a: Place, gi: int, gj: int, v: int)
  {
    && l.Has(a) && a in s.rank && Sized(s.rank[a].matrix, l.LRows(a), l.LCols(a))
    && var i, j := gi - l.BoardRow(a, 0), gj - l.BoardCol(a, 0);
    && 1 <= i <= l.LRows(a) && 1 <= j <= l.LCols(a)
    && s.rank[a].matrix[i][j] == v
  }

  /** The tiles of a finished run put together are generation n. */
  lemma FinishedIsGeneration(b: Board, l: Layout, n: nat, s: State, run: seq<Event>, a: Place, gi: int, gj: int)
    requires l.Fits(b) && Initial(b, l, s) && Executes(l, n, s, run)
    requires Finished(l, n, Final(l, n, s, run)) && Owns(l, a, gi, gj)
    ensures Shows(l, Final(l, n, s, run), a, gi, gj, b.Cell(n, gi, gj))
  {
    hide Board.Cell, Enabled, Executes, Final, Initial, Queue, Edge;
    EveryReachableState(b, l, n, s, run);
    var s' := Final(l, n, s, run);
    assert IsTile(b, l, a, s'.rank[a].k, s'.rank[a].matrix);
    assert s'.rank[a].k == n;
  }
}
