/** Every interleaving of the ranks of pneo_pscw.c is the synchronous network. */
module PneoRun {
  import opened Arith
  import opened Pneo
  import Counting

  /** Slot `j` of rank `d` has received the spike of round k. */
  predicate Arrived(s: Rank, k: nat, j: nat)
    requires j < |s.inarray|
  {
    s.round > k || (s.round == k && !s.phase.Compute? && s.inarray[j] == 1)
  }

  ghost predicate RankOk(net: Net, s: State, r: nat)
    requires net.Valid() && |s.rank| == net.n && r < net.n
  {
    var me := s.rank[r];
    && me.state == (match me.phase
                    case Compute => net.Carried(me.round, r)
                    case Complete => net.Carried(me.round + 1, r)
                    case Wait => net.Carried(me.round + 1, r)
                    case _ => net.Level(me.round, r))
    && |me.inarray| == |InRanks(net.conns, r)|
    && forall j :: 0 <= j < |me.inarray| ==> SlotOk(net, s, r, j)
  }

  /** Between a compute and the next wait a slot is 1 only if its source's spike of this round has come;
      at a compute it is exactly the source's spike of the round before. */
  ghost predicate SlotOk(net: Net, s: State, r: nat, j: nat)
    requires net.Valid() && |s.rank| == net.n && r < net.n && j < |s.rank[r].inarray| == |InRanks(net.conns, r)|
  {
    var me, source := s.rank[r], InRanks(net.conns, r)[j];
    && (me.inarray[j] == 0 || me.inarray[j] == 1)
    && source < net.n
    && if me.phase.Compute? then
         me.inarray[j] == (if me.round > 0 && net.Fires(me.round - 1, source) then 1 else 0)
       else
         me.inarray[j] == 1 ==> net.Fires(me.round, source) && Issued(s.rank[source], me.round)
  }

  ghost predicate Shape(net: Net, s: State)
  {
    && net.Valid() && |s.rank| == net.n
    && forall r :: 0 <= r < net.n ==> |s.rank[r].inarray| == |InRanks(net.conns, r)|
  }

  /** Exactly the spikes issued and not arrived are in flight. */
  ghost predicate FlyingOk(net: Net, s: State, p: Put)
    requires Shape(net, s)
  {
    p in s.flying <==>
      && Connection(p.source, p.dest) in net.conns && p.source < net.n && p.dest < net.n
      && p.slot == Disp(net.conns, p.source, p.dest) && p.slot < |InRanks(net.conns, p.dest)|
      && net.Fires(p.round, p.source) && Issued(s.rank[p.source], p.round)
      && !Arrived(s.rank[p.dest], p.round, p.slot)
  }

  /** Nobody passes the wait of a round before its sources have completed it. */
  ghost predicate PairOk(s: State, c: Connection)
  {
    c.source < |s.rank| && c.dest < |s.rank| && s.rank[c.dest].round > 0
    ==> Completed(s.rank[c.source], s.rank[c.dest].round - 1)
  }

  ghost predicate Inv(net: Net, s: State)
  {
    && Shape(net, s)
    && (forall r :: 0 <= r < net.n ==> RankOk(net, s, r))
    && (forall p :: FlyingOk(net, s, p))
    && (forall c :: c in net.conns ==> PairOk(s, c))
  }

  lemma InitInv(net: Net)
    requires net.Valid()
    ensures Inv(net, Init(net))
  {
    hide Net.Level, Net.Fires, Disp;
    var s := Init(net);
    forall r | 0 <= r < net.n ensures RankOk(net, s, r) {
      forall j | 0 <= j < |InRanks(net.conns, r)| ensures SlotOk(net, s, r, j) {
        SlotsCover(net.conns, net.n, r, j);
      }
    }
  }

  lemma {:induction false} SumIsSpikes(net: Net, k: nat, a: seq<int>, sources: seq<nat>)
    requires net.n >= 1 && |a| == |sources|
    requires forall j :: 0 <= j < |a| ==> a[j] == if net.Fires(k, sources[j]) then 1 else 0
    ensures Sum(a) == net.Spikes(k, sources)
  {
    hide Net.Level, Net.Fires;
    if a != [] {
      SumIsSpikes(net, k, a[1..], sources[1..]);
    }
  }

  lemma {:induction false} SumOfZeros(a: seq<int>)
    requires forall j :: 0 <= j < |a| ==> a[j] == 0
    ensures Sum(a) == 0
  {
    if a != [] {
      SumOfZeros(a[1..]);
    }
  }

  /** The compute of round k reaches the level of the synchronous network. */
  lemma ComputeLevel(net: Net, s: State, r: nat)
    requires Inv(net, s) && r < net.n && s.rank[r].phase.Compute?
    ensures s.rank[r].state + Sum(s.rank[r].inarray) + 1 == net.Level(s.rank[r].round, r)
  {
    assert RankOk(net, s, r);
    var me := s.rank[r];
    forall j | 0 <= j < |me.inarray|
      ensures me.inarray[j] == if me.round > 0 && net.Fires(me.round - 1, InRanks(net.conns, r)[j]) then 1 else 0
    {
      assert SlotOk(net, s, r, j);
    }
    if me.round == 0 {
      SumOfZeros(me.inarray);
    } else {
      SumIsSpikes(net, me.round - 1, me.inarray, InRanks(net.conns, r));
    }
  }

  // ----- steps -----

  /** The parts of the invariant a step at `r` cannot disturb: the other ranks, as long as whatever was
      issued or completed stays so. */
  lemma OtherRanksOk(net: Net, s: State, s': State, q: nat)
    requires Inv(net, s) && Shape(net, s') && q < net.n && s'.rank[q] == s.rank[q]
    requires forall x, k :: 0 <= x < net.n && Issued(s.rank[x], k) ==> Issued(s'.rank[x], k)
    ensures RankOk(net, s', q)
  {
    hide Net.Level, Net.Fires, InRanks, Disp, FlyingOk, Puts;
    assert RankOk(net, s, q);
    forall j | 0 <= j < |s.rank[q].inarray| ensures SlotOk(net, s', q, j) {
      assert SlotOk(net, s, q, j);
    }
  }

  lemma PairsOk(net: Net, s: State, s': State, c: Connection)
    requires PairOk(s, c) && |s'.rank| == |s.rank|
    requires forall x, k :: 0 <= x < |s.rank| && Completed(s.rank[x], k) ==> Completed(s'.rank[x], k)
    requires c.dest < |s.rank| ==> s'.rank[c.dest].round == s.rank[c.dest].round
    ensures PairOk(s', c)
  {
  }

  lemma ComputeInv(net: Net, strict: bool, s: State, r: nat)
    requires Inv(net, s) && Enabled(net, strict, s, Step(r)) && s.rank[r].phase.Compute?
    ensures Inv(net, Apply(net, strict, s, Step(r)))
  {
    hide Net.Level, Net.Fires, InRanks, Disp, Puts, Sum;
    var s' := Apply(net, strict, s, Step(r));
    assert Shape(net, s');
    assert RankOk(net, s, r);
    ComputeLevel(net, s, r);
    forall q | 0 <= q < net.n ensures RankOk(net, s', q) {
      if q == r {
        forall j | 0 <= j < |s'.rank[r].inarray| ensures SlotOk(net, s', r, j) {
          assert SlotOk(net, s, r, j);
        }
      } else {
        OtherRanksOk(net, s, s', q);
      }
    }
    forall p ensures FlyingOk(net, s', p) {
      assert FlyingOk(net, s, p);
    }
    forall c | c in net.conns ensures PairOk(s', c) {
      PairsOk(net, s, s', c);
    }
  }

  /** Post, start and complete touch neither the windows nor the puts. */
  lemma EpochCallInv(net: Net, strict: bool, s: State, r: nat)
    requires Inv(net, s) && Enabled(net, strict, s, Step(r))
    requires s.rank[r].phase.Post? || s.rank[r].phase.Start? || s.rank[r].phase.Complete?
    ensures Inv(net, Apply(net, strict, s, Step(r)))
  {
    hide Net.Level, Net.Fires, InRanks, Disp, Puts, Sum;
    var s' := Apply(net, strict, s, Step(r));
    assert Shape(net, s');
    assert RankOk(net, s, r);
    forall q | 0 <= q < net.n ensures RankOk(net, s', q) {
      if q == r {
        forall j | 0 <= j < |s'.rank[r].inarray| ensures SlotOk(net, s', r, j) {
          assert SlotOk(net, s, r, j);
        }
      } else {
        OtherRanksOk(net, s, s', q);
      }
    }
    forall p ensures FlyingOk(net, s', p) {
      assert FlyingOk(net, s, p);
    }
    forall c | c in net.conns ensures PairOk(s', c) {
      PairsOk(net, s, s', c);
    }
  }

  /** A spike about to be issued cannot have arrived. */
  lemma NotArrivedYet(net: Net, s: State, r: nat, c: Connection)
    requires Inv(net, s) && r < net.n && s.rank[r].phase.Output?
    requires c in net.conns && c.source == r
    ensures c.dest < net.n && Disp(net.conns, r, c.dest) < |InRanks(net.conns, c.dest)|
    ensures !Arrived(s.rank[c.dest], s.rank[r].round, Disp(net.conns, r, c.dest))
  {
    hide Net.Level, Net.Fires, FlyingOk, Puts, Sum;
    SlotsAgree(net.conns, r, c.dest);
    assert PairOk(s, c);
    assert RankOk(net, s, c.dest);
    assert SlotOk(net, s, c.dest, Disp(net.conns, r, c.dest));
  }

  lemma OutputFlying(net: Net, strict: bool, s: State, r: nat, p: Put)
    requires Inv(net, s) && Enabled(net, strict, s, Step(r)) && s.rank[r].phase.Output?
    requires Shape(net, Apply(net, strict, s, Step(r)))
    ensures FlyingOk(net, Apply(net, strict, s, Step(r)), p)
  {
    hide Net.Level, InRanks, Disp, Sum, RankOk, PairOk;
    var s' := Apply(net, strict, s, Step(r));
    var k := s.rank[r].round;
    assert FlyingOk(net, s, p);
    FiresIffLevel(net, s, r);
    if p.source == r && p.round == k {
      assert p in s'.flying <==> net.Fires(k, r) && p in Puts(net, r, k) by {
        assert p !in s.flying;
      }
      if Connection(r, p.dest) in net.conns {
        NotArrivedYet(net, s, r, Connection(r, p.dest));
        assert p in Puts(net, r, k) <==> p.slot == Disp(net.conns, r, p.dest);
      }
    }
  }

  lemma FiresIffLevel(net: Net, s: State, r: nat)
    requires Inv(net, s) && r < net.n && s.rank[r].phase.Output?
    ensures s.rank[r].state > 4 <==> net.Fires(s.rank[r].round, r)
    ensures net.Carried(s.rank[r].round + 1, r) == if s.rank[r].state > 4 then 0 else s.rank[r].state
  {
    assert RankOk(net, s, r);
  }

  lemma OutputInv(net: Net, strict: bool, s: State, r: nat)
    requires Inv(net, s) && Enabled(net, strict, s, Step(r)) && s.rank[r].phase.Output?
    ensures Inv(net, Apply(net, strict, s, Step(r)))
  {
    hide Net.Level, Net.Fires, Net.Carried, InRanks, Disp, Puts, Sum, FlyingOk;
    var s' := Apply(net, strict, s, Step(r));
    assert Shape(net, s');
    assert RankOk(net, s, r);
    FiresIffLevel(net, s, r);
    forall q | 0 <= q < net.n ensures RankOk(net, s', q) {
      if q == r {
        forall j | 0 <= j < |s'.rank[r].inarray| ensures SlotOk(net, s', r, j) {
          assert SlotOk(net, s, r, j);
        }
      } else {
        OtherRanksOk(net, s, s', q);
      }
    }
    forall p ensures FlyingOk(net, s', p) {
      OutputFlying(net, strict, s, r, p);
    }
    forall c | c in net.conns ensures PairOk(s', c) {
      PairsOk(net, s, s', c);
    }
  }

  /** When the wait returns, every slot is exactly what its source did in this round. */
  lemma WaitSlots(net: Net, strict: bool, s: State, r: nat, j: nat)
    requires Inv(net, s) && Enabled(net, strict, s, Step(r)) && s.rank[r].phase.Wait?
    requires j < |s.rank[r].inarray|
    ensures |InRanks(net.conns, r)| == |s.rank[r].inarray|
    ensures s.rank[r].inarray[j] == if net.Fires(s.rank[r].round, InRanks(net.conns, r)[j]) then 1 else 0
  {
    hide Net.Level, Net.Fires, InRanks, Disp, Puts, Sum, PairOk;
    assert RankOk(net, s, r);
    assert SlotOk(net, s, r, j);
    SlotsCover(net.conns, net.n, r, j);
    var source := InRanks(net.conns, r)[j];
    var p := Put(source, r, j, s.rank[r].round);
    assert Connection(source, r) in net.conns;
    assert FlyingOk(net, s, p);
  }

  lemma WaitInv(net: Net, strict: bool, s: State, r: nat)
    requires Inv(net, s) && Enabled(net, strict, s, Step(r)) && s.rank[r].phase.Wait?
    ensures Inv(net, Apply(net, strict, s, Step(r)))
  {
    hide Net.Level, Net.Fires, InRanks, Disp, Puts, Sum;
    var s' := Apply(net, strict, s, Step(r));
    assert Shape(net, s');
    assert RankOk(net, s, r);
    forall q | 0 <= q < net.n ensures RankOk(net, s', q) {
      if q == r {
        forall j | 0 <= j < |s'.rank[r].inarray| ensures SlotOk(net, s', r, j) {
          assert SlotOk(net, s, r, j);
          WaitSlots(net, strict, s, r, j);
        }
      } else {
        OtherRanksOk(net, s, s', q);
      }
    }
    forall p ensures FlyingOk(net, s', p) {
      assert FlyingOk(net, s, p);
      if p.dest == r && p.round == s.rank[r].round {
        assert p !in s.flying;
      }
    }
    forall c | c in net.conns ensures PairOk(s', c) {
      assert PairOk(s, c);
    }
  }

  lemma LandInv(net: Net, strict: bool, s: State, p: Put)
    requires Inv(net, s) && Enabled(net, strict, s, Land(p))
    ensures Inv(net, Apply(net, strict, s, Land(p)))
  {
    hide Net.Level, Net.Fires, InRanks, Disp, Puts, Sum;
    var s' := Apply(net, strict, s, Land(p));
    assert Shape(net, s');
    assert FlyingOk(net, s, p);
    SlotsAgree(net.conns, p.source, p.dest);
    forall q | 0 <= q < net.n ensures RankOk(net, s', q) {
      assert RankOk(net, s, q);
      forall j | 0 <= j < |s'.rank[q].inarray| ensures SlotOk(net, s', q, j) {
        assert SlotOk(net, s, q, j);
      }
    }
    forall o ensures FlyingOk(net, s', o) {
      assert FlyingOk(net, s, o);
      if Connection(o.source, o.dest) in net.conns && o.slot == Disp(net.conns, o.source, o.dest) {
        SlotsAgree(net.conns, o.source, o.dest);
      }
    }
    forall c | c in net.conns ensures PairOk(s', c) {
      PairsOk(net, s, s', c);
    }
  }

  lemma StepInv(net: Net, strict: bool, s: State, e: Event)
    requires Inv(net, s) && Enabled(net, strict, s, e)
    ensures Inv(net, Apply(net, strict, s, e))
  {
    hide Inv, Apply;
    match e
    case Land(p) => LandInv(net, strict, s, p);
    case Step(r) =>
      match s.rank[r].phase
      case Compute => ComputeInv(net, strict, s, r);
      case Output => OutputInv(net, strict, s, r);
      case Wait => WaitInv(net, strict, s, r);
      case _ => EpochCallInv(net, strict, s, r);
  }

  lemma {:induction false} RunInv(net: Net, strict: bool, s: State, run: seq<Event>)
    requires Inv(net, s) && Executes(net, strict, s, run)
    ensures Inv(net, Final(net, strict, s, run))
    decreases |run|
  {
    hide Inv, Apply, Enabled;
    if run != [] {
      StepInv(net, strict, s, run[0]);
      RunInv(net, strict, Apply(net, strict, s, run[0]), run[1..]);
    }
  }

  /** The run as an observer of each rank's printed state and window sees it. */
  ghost predicate Synchronous(net: Net, s: State)
    requires net.n >= 1
  {
    && |s.rank| == net.n
    && (forall r :: 0 <= r < net.n && (s.rank[r].phase.Post? || s.rank[r].phase.Start? || s.rank[r].phase.Output?) ==>
          s.rank[r].state == net.Level(s.rank[r].round, r))
    && (forall r :: 0 <= r < net.n && s.rank[r].phase.Compute? ==>
          && s.rank[r].state == net.Carried(s.rank[r].round, r)
          && |s.rank[r].inarray| == |InRanks(net.conns, r)|
          && forall j :: 0 <= j < |s.rank[r].inarray| ==>
               s.rank[r].inarray[j]
               == (if s.rank[r].round > 0 && net.Fires(s.rank[r].round - 1, InRanks(net.conns, r)[j]) then 1 else 0))
  }

  lemma InvSynchronous(net: Net, s: State)
    requires Inv(net, s)
    ensures Synchronous(net, s)
  {
    hide Net.Level, Net.Fires, Net.Carried, FlyingOk, PairOk, InRanks;
    forall r | 0 <= r < net.n && (s.rank[r].phase.Post? || s.rank[r].phase.Start? || s.rank[r].phase.Output?)
      ensures s.rank[r].state == net.Level(s.rank[r].round, r)
    {
      assert RankOk(net, s, r);
    }
    forall r | 0 <= r < net.n && s.rank[r].phase.Compute?
      ensures s.rank[r].state == net.Carried(s.rank[r].round, r)
      ensures forall j :: 0 <= j < |s.rank[r].inarray| ==>
                s.rank[r].inarray[j]
                == (if s.rank[r].round > 0 && net.Fires(s.rank[r].round - 1, InRanks(net.conns, r)[j]) then 1 else 0)
    {
      assert RankOk(net, s, r);
      forall j | 0 <= j < |s.rank[r].inarray|
        ensures s.rank[r].inarray[j]
                == (if s.rank[r].round > 0 && net.Fires(s.rank[r].round - 1, InRanks(net.conns, r)[j]) then 1 else 0)
      {
        assert SlotOk(net, s, r, j);
      }
    }
  }

  /** In every reachable state of every interleaving, whether or not start waits for the posts: a rank
      that has computed round k has the level of the synchronous network, and a rank about to compute
      finds in every slot exactly what that slot's source did in the round before. */
  lemma EveryRunIsSynchronous(net: Net, strict: bool, run: seq<Event>)
    requires net.Valid() && Executes(net, strict, Init(net), run)
    ensures Synchronous(net, Final(net, strict, Init(net), run))
  {
    hide Executes, Final, Inv, Init, Synchronous;
    InitInv(net);
    RunInv(net, strict, Init(net), run);
    InvSynchronous(net, Final(net, strict, Init(net), run));
  }

  // ----- no deadlock -----

  ghost predicate Bounded(net: Net, s: State)
  {
    forall r :: 0 <= r < |s.rank| ==>
      s.rank[r].round <= net.steps && (s.rank[r].phase.Compute? || s.rank[r].round < net.steps)
  }

  lemma {:induction false} RunBounded(net: Net, strict: bool, s: State, run: seq<Event>)
    requires Bounded(net, s) && Executes(net, strict, s, run)
    ensures Bounded(net, Final(net, strict, s, run))
    decreases |run|
  {
    if run != [] {
      RunBounded(net, strict, Apply(net, strict, s, run[0]), run[1..]);
    }
  }

  function Progress(s: Rank): nat
  {
    6 * s.round + match s.phase
                  case Compute => 0 case Post => 1 case Start => 2 case Output => 3 case Complete => 4 case Wait => 5
  }

  lemma {:induction false} Slowest(ranks: seq<Rank>) returns (m: nat)
    requires ranks != []
    ensures m < |ranks| && forall r :: 0 <= r < |ranks| ==> Progress(ranks[m]) <= Progress(ranks[r])
  {
    m := 0;
    if |ranks| > 1 {
      var m' := Slowest(ranks[1..]);
      assert forall r :: 1 <= r < |ranks| ==> ranks[r] == ranks[1..][r - 1];
      if Progress(ranks[m' + 1]) < Progress(ranks[0]) {
        m := m' + 1;
      }
    }
  }

  lemma SlowestCanStep(net: Net, strict: bool, s: State, m: nat)
    requires Inv(net, s) && Bounded(net, s) && m < net.n
    requires forall r :: 0 <= r < net.n ==> Progress(s.rank[m]) <= Progress(s.rank[r])
    requires !(s.rank[m].phase.Compute? && s.rank[m].round == net.steps)
    ensures exists e :: Enabled(net, strict, s, e)
  {
    hide Net.Level, Net.Fires, Net.Carried, InRanks, Disp, PairOk;
    var me := s.rank[m];
    if me.phase.Wait? && exists p :: p in s.flying && p.dest == m && p.round == me.round {
      var p :| p in s.flying && p.dest == m && p.round == me.round;
      assert FlyingOk(net, s, p);
      assert Enabled(net, strict, s, Land(p));
    } else if me.phase.Complete? && exists p :: p in s.flying && p.source == m && p.round == me.round {
      var p :| p in s.flying && p.source == m && p.round == me.round;
      assert FlyingOk(net, s, p);
      assert Progress(me) <= Progress(s.rank[p.dest]);
      assert Enabled(net, strict, s, Land(p));
    } else {
      assert Enabled(net, strict, s, Step(m));
    }
  }

  /** A run that cannot be continued has taken every rank through all its rounds, however far the library
      lets start and complete run ahead of their targets. */
  lemma StuckMeansDone(net: Net, strict: bool, run: seq<Event>)
    requires net.Valid() && Executes(net, strict, Init(net), run)
    requires forall e :: !Enabled(net, true, Final(net, strict, Init(net), run), e)
    ensures var s := Final(net, strict, Init(net), run);
            && |s.rank| == net.n
            && forall r :: 0 <= r < net.n ==>
                 s.rank[r].phase.Compute? && s.rank[r].round == net.steps && s.rank[r].state == net.Carried(net.steps, r)
  {
    hide Net.Level, Net.Fires, Net.Carried, Executes, Final, Apply, Enabled, FlyingOk, PairOk, SlotOk;
    InitInv(net);
    RunInv(net, strict, Init(net), run);
    RunBounded(net, strict, Init(net), run);
    var s := Final(net, strict, Init(net), run);
    var m := Slowest(s.rank);
    if !(s.rank[m].phase.Compute? && s.rank[m].round == net.steps) {
      SlowestCanStep(net, true, s, m);
      assert false;
    }
    forall r | 0 <= r < net.n ensures s.rank[r].phase.Compute? && s.rank[r].round == net.steps {
      assert Progress(s.rank[m]) <= Progress(s.rank[r]);
    }
    forall r | 0 <= r < net.n ensures s.rank[r].state == net.Carried(net.steps, r) {
      assert RankOk(net, s, r);
    }
  }

  // ----- every run ends -----

  /** What a rank has done: its own steps, and one more for every connection it could have put to. */
  function Done(conns: nat, s: Rank): int
  {
    (6 + conns) * s.round + match s.phase
                            case Compute => 0 case Post => 1 case Start => 2 case Output => 3
                            case Complete => 4 + conns case Wait => 5 + conns
  }

  function TotalDone(conns: nat, ranks: seq<Rank>): int
  {
    if ranks == [] then 0 else Done(conns, ranks[0]) + TotalDone(conns, ranks[1..])
  }

  lemma {:induction false} TotalUpdate(conns: nat, ranks: seq<Rank>, r: nat, x: Rank)
    requires r < |ranks|
    ensures TotalDone(conns, ranks[r := x]) + Done(conns, ranks[r]) == TotalDone(conns, ranks) + Done(conns, x)
  {
    hide Done;
    if r == 0 {
      assert ranks[r := x][1..] == ranks[1..];
    } else {
      assert ranks[r := x][1..] == ranks[1..][r - 1 := x];
      TotalUpdate(conns, ranks[1..], r - 1, x);
    }
  }

  lemma {:induction false} TotalBound(conns: nat, ranks: seq<Rank>, each: int)
    requires forall r :: 0 <= r < |ranks| ==> Done(conns, ranks[r]) <= each
    ensures TotalDone(conns, ranks) <= each * |ranks|
  {
    hide Done;
    if ranks != [] {
      TotalBound(conns, ranks[1..], each);
      assert each * |ranks| == each * (|ranks| - 1) + each;
    }
  }

  function PutsOf(all: seq<Connection>, conns: seq<Connection>, r: nat, round: nat): set<Put>
  {
    set c | c in conns && c.source == r :: Put(r, c.dest, Disp(all, r, c.dest), round)
  }

  lemma {:induction false} PutsSize(all: seq<Connection>, conns: seq<Connection>, r: nat, round: nat)
    ensures |PutsOf(all, conns, r, round)| <= |conns|
  {
    hide Disp;
    if conns == [] {
      assert PutsOf(all, conns, r, round) == {};
    } else {
      PutsSize(all, conns[1..], r, round);
      var h := {Put(r, conns[0].dest, Disp(all, r, conns[0].dest), round)};
      Counting.SubsetSize(PutsOf(all, conns, r, round), PutsOf(all, conns[1..], r, round) + h);
    }
  }

  lemma FlyingGrowth(net: Net, strict: bool, s: State, r: nat)
    requires Enabled(net, strict, s, Step(r))
    ensures var t := Apply(net, strict, s, Step(r));
            if s.rank[r].phase.Output? then |t.flying| <= |s.flying| + |net.conns| else t.flying == s.flying
  {
    PutsSize(net.conns, net.conns, r, s.rank[r].round);
    assert Puts(net, r, s.rank[r].round) == PutsOf(net.conns, net.conns, r, s.rank[r].round);
    hide PutsOf, Puts, Disp;
  }

  /** The rank an event changes, and by how much. */
  lemma StepChanges(net: Net, strict: bool, s: State, e: Event)
    requires Enabled(net, strict, s, e)
    ensures var t, c := Apply(net, strict, s, e), |net.conns|;
            var r := if e.Step? then e.r else e.p.dest;
            && r < |s.rank| && |t.rank| == |s.rank| && t.rank == s.rank[r := t.rank[r]]
            && Done(c, t.rank[r]) == Done(c, s.rank[r]) + (if e.Land? then 0 else if s.rank[r].phase.Output? then c + 1 else 1)
  {
    hide TotalDone, Disp, Puts, InRanks, Sum;
    match e
    case Step(r) =>
      Distribute(6 + |net.conns|, s.rank[r].round, 1);
      assert r < |s.rank|;
    case Land(p) =>
      assert p.dest < |s.rank|;
  }

  lemma StepDone(net: Net, strict: bool, s: State, e: Event)
    requires Enabled(net, strict, s, e)
    ensures var t, c := Apply(net, strict, s, e), |net.conns|;
            TotalDone(c, s.rank) - |s.flying| + 1 <= TotalDone(c, t.rank) - |t.flying|
  {
    StepChanges(net, strict, s, e);
    var t, c := Apply(net, strict, s, e), |net.conns|;
    match e
    case Step(r) =>
      FlyingGrowth(net, strict, s, r);
      hide *;
      TotalUpdate(c, s.rank, r, t.rank[r]);
    case Land(p) =>
      assert t.flying == s.flying - {p} && p in s.flying;
      hide *;
      TotalUpdate(c, s.rank, p.dest, t.rank[p.dest]);
  }

  lemma {:induction false} RunDone(net: Net, strict: bool, s: State, run: seq<Event>)
    requires Executes(net, strict, s, run)
    ensures var f, c := Final(net, strict, s, run), |net.conns|;
            |run| + TotalDone(c, s.rank) - |s.flying| <= TotalDone(c, f.rank) - |f.flying|
    decreases |run|
  {
    hide Apply, Enabled, TotalDone;
    if run != [] {
      StepDone(net, strict, s, run[0]);
      RunDone(net, strict, Apply(net, strict, s, run[0]), run[1..]);
    }
  }

  lemma {:induction false} NothingDone(net: Net, n: nat, ranks: seq<Rank>)
    requires net.n >= 1 && |ranks| == n && forall r :: 0 <= r < n ==> ranks[r].round == 0 && ranks[r].phase.Compute?
    ensures TotalDone(|net.conns|, ranks) == 0
  {
    if n > 0 {
      NothingDone(net, n - 1, ranks[1..]);
    }
  }

  /** No run goes on for ever: a round takes a rank six steps, and at most one arrival for each connection. */
  lemma RunLength(net: Net, strict: bool, run: seq<Event>)
    requires net.Valid() && Executes(net, strict, Init(net), run)
    ensures |run| <= (6 + |net.conns|) * net.steps * net.n
  {
    hide Executes, Final, Enabled, Apply, TotalDone, Net.Level, Net.Fires, Net.Carried;
    RunDone(net, strict, Init(net), run);
    NothingDone(net, net.n, Init(net).rank);
    InitInv(net);
    RunInv(net, strict, Init(net), run);
    RunBounded(net, strict, Init(net), run);
    var f := Final(net, strict, Init(net), run);
    forall r | 0 <= r < |f.rank|
      ensures Done(|net.conns|, f.rank[r]) <= (6 + |net.conns|) * net.steps
    {
      DoneBound(net, f.rank[r]);
    }
    TotalBound(|net.conns|, f.rank, (6 + |net.conns|) * net.steps);
  }

  lemma DoneBound(net: Net, s: Rank)
    requires s.round <= net.steps && (s.phase.Compute? || s.round < net.steps)
    ensures Done(|net.conns|, s) <= (6 + |net.conns|) * net.steps
  {
    var w := 6 + |net.conns|;
    if s.round < net.steps {
      MulLe(w, s.round + 1, net.steps);
      assert w * (s.round + 1) == w * s.round + w;
    }
  }
}
