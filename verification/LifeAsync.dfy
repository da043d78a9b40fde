/** The asynchronous Life program computes the sequential game, in every interleaving. */
module LifeAsync {
  import opened LifeBoard
  import opened LifeGrid
  import opened LifePt2pt

  lemma HaloIn(b: Board, l: Layout, a: Place, r: RankState, d: Side)
    requires l.Fits(b) && l.Has(a) && RankOk(b, l, a, r) && !r.phase.Ready?
    requires (OnSides(d) && r.phase.Ends?) || AllIn(l, a, r.phase.got, OnSides(d))
    ensures HaloOk(b, l, a, r.k, r.matrix, d)
  {
    hide Board.Cell, OffBoardDead, HaloOk;
    if !l.Has(Neighbour(a, d)) {
      NoNeighbourHalo(b, l, a, r.k, r.matrix, d);
    }
  }

  /** The stepping rank stays correct. */
  lemma StepRankOk(b: Board, l: Layout, n: nat, s: State, e: Event)
    requires Inv(b, l, s) && Enabled(l, n, s, e)
    ensures RankOk(b, l, e.at, Apply(l, n, s, e).rank[e.at])
  {
    hide Board.Cell, IsTile, OffBoardDead, HaloOk, Edge, Incoming, Outgoing, Sweep;
    var a, r := e.at, s.rank[e.at];
    assert RankOk(b, l, a, r);
    match e.action
    case PostSides =>
    case PostEnds =>
      HaloIn(b, l, a, r, Left);
      HaloIn(b, l, a, r, Right);
    case Receive(d) => ReceiveRankOk(b, l, n, s, a, d);
    case Advance =>
      forall d ensures HaloOk(b, l, a, r.k, r.matrix, d) {
        HaloIn(b, l, a, r, d);
      }
      BothPhasesPad(b, l, a, r.k, r.matrix);
      SweepAdvances(b, l, a, r.k, r.matrix, r.temp);
  }

  lemma ReceiveRankOk(b: Board, l: Layout, n: nat, s: State, a: Place, d: Side)
    requires Inv(b, l, s) && Enabled(l, n, s, Event(a, Receive(d)))
    ensures RankOk(b, l, a, Apply(l, n, s, Event(a, Receive(d))).rank[a])
  {
    hide Board.Cell, IsTile, OffBoardDead, HaloOk, Edge, Incoming, Outgoing, Sweep;
    var r, from := s.rank[a], Neighbour(a, d);
    assert RankOk(b, l, a, r);
    assert Neighbour(from, Opposite(d)) == a && Opposite(Opposite(d)) == d;
    assert ChannelOk(b, l, s, from, Opposite(d));
    var c := Queue(s.chan, from, a)[0];
    assert c == Edge(b, l, from, Opposite(d), r.k);
    IncomingFillsHalo(b, l, a, r.k, r.matrix, d, c);
    var r' := Apply(l, n, s, Event(a, Receive(d))).rank[a];
    forall f | f != d && HaloOk(b, l, a, r.k, r.matrix, f) && (OnSides(d) ==> OnSides(f))
      ensures HaloOk(b, l, a, r.k, r'.matrix, f)
    {
      IncomingKeepsHalo(b, l, a, r.k, r.matrix, d, c, f);
    }
  }

  /** What a posting step adds to each channel. */
  lemma PostQueues(l: Layout, n: nat, s: State, e: Event, c: Place, d: Side)
    requires Enabled(l, n, s, e) && (e.action.PostSides? || e.action.PostEnds?)
    ensures Queue(Apply(l, n, s, e).chan, c, Neighbour(c, d))
         == Queue(s.chan, c, Neighbour(c, d))
            + if c == e.at && OnSides(d) == e.action.PostSides? && l.Has(Neighbour(c, d))
              then [Outgoing(l, c, s.rank[c].matrix, d)] else []
  {
  }

  /** Posting adds one to the messages sent on the channels posted to, and to nothing else. */
  lemma PostCounts(b: Board, l: Layout, n: nat, s: State, e: Event, c: Place, d: Side)
    requires Enabled(l, n, s, e) && (e.action.PostSides? || e.action.PostEnds?)
    requires RankOk(b, l, e.at, s.rank[e.at])
    requires l.Has(c) && c in s.rank && Neighbour(c, d) in s.rank
    ensures var s', to := Apply(l, n, s, e), Neighbour(c, d);
            && c in s'.rank && to in s'.rank
            && Got(s'.rank[to], Opposite(d)) == Got(s.rank[to], Opposite(d))
            && Sent(s'.rank[c], d) == Sent(s.rank[c], d)
               + if c == e.at && OnSides(d) == e.action.PostSides? then 1 else 0
  {
    hide Board.Cell, IsTile, OffBoardDead, HaloOk, Send;
    assert Neighbour(Neighbour(c, d), Opposite(d)) == c && OnSides(Opposite(d)) == OnSides(d);
  }

  lemma PostSendsEdge(b: Board, l: Layout, n: nat, s: State, e: Event, d: Side)
    requires l.Fits(b) && Enabled(l, n, s, e) && (e.action.PostSides? || e.action.PostEnds?)
    requires RankOk(b, l, e.at, s.rank[e.at]) && OnSides(d) == e.action.PostSides?
    ensures Outgoing(l, e.at, s.rank[e.at].matrix, d) == Edge(b, l, e.at, d, Sent(s.rank[e.at], d))
  {
    hide Board.Cell, OffBoardDead, HaloOk, Edge, Outgoing, Send;
    var r := s.rank[e.at];
    if e.action.PostEnds? {
      HaloIn(b, l, e.at, r, Left);
      HaloIn(b, l, e.at, r, Right);
    }
    OutgoingIsEdge(b, l, e.at, r.k, r.matrix, d);
  }

  lemma PostChannelOk(b: Board, l: Layout, n: nat, s: State, e: Event, c: Place, d: Side)
    requires l.Fits(b) && Enabled(l, n, s, e) && (e.action.PostSides? || e.action.PostEnds?)
    requires RankOk(b, l, e.at, s.rank[e.at])
    requires l.Has(c) && l.Has(Neighbour(c, d)) && l.LRows(c) >= 1 && l.LCols(c) >= 1
    requires c in s.rank && Neighbour(c, d) in s.rank && ChannelOk(b, l, s, c, d)
    ensures ChannelOk(b, l, Apply(l, n, s, e), c, d)
  {
    hide Board.Cell, IsTile, OffBoardDead, HaloOk, Edge, Outgoing, Send, Queue, Sent, Got, RankOk;
    PostQueues(l, n, s, e, c, d);
    PostCounts(b, l, n, s, e, c, d);
    if c == e.at && OnSides(d) == e.action.PostSides? {
      PostSendsEdge(b, l, n, s, e, d);
    }
  }

  lemma ReceiveCounts(b: Board, l: Layout, n: nat, s: State, a: Place, f: Side, c: Place, d: Side)
    requires Enabled(l, n, s, Event(a, Receive(f)))
    requires c in s.rank && Neighbour(c, d) in s.rank
    ensures var s', to := Apply(l, n, s, Event(a, Receive(f))), Neighbour(c, d);
            var here := c == Neighbour(a, f) && to == a;
            && c in s'.rank && to in s'.rank
            && Sent(s'.rank[c], d) == Sent(s.rank[c], d)
            && Got(s'.rank[to], Opposite(d)) == Got(s.rank[to], Opposite(d)) + (if here then 1 else 0)
            && Queue(s'.chan, c, to) == (if here then Queue(s.chan, c, to)[1..] else Queue(s.chan, c, to))
  {
    hide Board.Cell, Incoming;
    if c == Neighbour(a, f) && Neighbour(c, d) == a {
      assert d == Opposite(f) && Opposite(d) == f;
    }
  }

  lemma ReceiveChannelOk(b: Board, l: Layout, n: nat, s: State, a: Place, f: Side, c: Place, d: Side)
    requires Inv(b, l, s) && Enabled(l, n, s, Event(a, Receive(f)))
    requires l.Has(c) && l.Has(Neighbour(c, d))
    ensures ChannelOk(b, l, Apply(l, n, s, Event(a, Receive(f))), c, d)
  {
    hide Board.Cell, IsTile, OffBoardDead, HaloOk, Edge, Incoming, Queue, Sent, Got, RankOk;
    assert ChannelOk(b, l, s, c, d);
    ReceiveCounts(b, l, n, s, a, f, c, d);
  }

  lemma AdvanceCounts(b: Board, l: Layout, n: nat, s: State, a: Place, c: Place, d: Side)
    requires Enabled(l, n, s, Event(a, Advance))
    requires l.Has(c) && c in s.rank && Neighbour(c, d) in s.rank
    ensures var s', to := Apply(l, n, s, Event(a, Advance)), Neighbour(c, d);
            && c in s'.rank && to in s'.rank
            && Sent(s'.rank[c], d) == Sent(s.rank[c], d)
            && Got(s'.rank[to], Opposite(d)) == Got(s.rank[to], Opposite(d))
  {
    hide Board.Cell, Sweep;
    assert Neighbour(Neighbour(c, d), Opposite(d)) == c && OnSides(Opposite(d)) == OnSides(d);
  }

  lemma AdvanceChannelOk(b: Board, l: Layout, n: nat, s: State, a: Place, c: Place, d: Side)
    requires Inv(b, l, s) && Enabled(l, n, s, Event(a, Advance))
    requires l.Has(c) && l.Has(Neighbour(c, d))
    ensures ChannelOk(b, l, Apply(l, n, s, Event(a, Advance)), c, d)
  {
    hide Board.Cell, IsTile, OffBoardDead, HaloOk, Edge, Sweep, Queue, Sent, Got, RankOk;
    assert ChannelOk(b, l, s, c, d);
    AdvanceCounts(b, l, n, s, a, c, d);
  }

  /** Every step of every rank keeps the invariant. */
  lemma StepInv(b: Board, l: Layout, n: nat, s: State, e: Event)
    requires Inv(b, l, s) && Enabled(l, n, s, e)
    ensures Inv(b, l, Apply(l, n, s, e))
  {
    hide Board.Cell, IsTile, OffBoardDead, HaloOk, Edge, Incoming, Outgoing, Sweep;
    var s' := Apply(l, n, s, e);
    forall a | l.Has(a) ensures RankOk(b, l, a, s'.rank[a]) {
      if a == e.at {
        StepRankOk(b, l, n, s, e);
      } else {
        assert RankOk(b, l, a, s.rank[a]);
      }
    }
    forall c, d | l.Has(c) && l.Has(Neighbour(c, d)) ensures ChannelOk(b, l, s', c, d) {
      match e.action
      case Receive(f) => ReceiveChannelOk(b, l, n, s, e.at, f, c, d);
      case Advance => AdvanceChannelOk(b, l, n, s, e.at, c, d);
      case _ => PostChannelOk(b, l, n, s, e, c, d);
    }
  }

  lemma {:induction false} RunInv(b: Board, l: Layout, n: nat, s: State, run: seq<Event>)
    requires Inv(b, l, s) && Executes(l, n, s, run)
    ensures Inv(b, l, Final(l, n, s, run))
    decreases |run|
  {
    if run != [] {
      StepInv(b, l, n, s, run[0]);
      RunInv(b, l, n, Apply(l, n, s, run[0]), run[1..]);
    }
  }
}
