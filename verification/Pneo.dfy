/** pneo_pscw.c: one neuron per rank, spikes delivered by one-sided puts under post/start/complete/wait. */
module Pneo {

  datatype Connection = Connection(source: nat, dest: nat)

  datatype OutConnection = OutConnection(dest: nat, disp: nat)

  /** A legal connection file for n ranks: no rank out of range, no pair listed twice (a group may not
      name a rank twice). */
  predicate Legal(conns: seq<Connection>, n: nat)
  {
    && (forall i :: 0 <= i < |conns| ==> conns[i].source < n && conns[i].dest < n)
    && (forall i, j :: 0 <= i < j < |conns| ==> conns[i] != conns[j])
  }

  // ----- the two index computations -----

  /** The sources of `me`, in file order: slot j of its window belongs to InRanks(..)[j]. */
  function InRanks(conns: seq<Connection>, me: nat): seq<nat>
  {
    if conns == [] then []
    else (if conns[0].dest == me then [conns[0].source] else []) + InRanks(conns[1..], me)
  }

  /** The displacement a source computes for a destination: how many connections into the destination
      come before the source's own. */
  function Disp(conns: seq<Connection>, source: nat, dest: nat): nat
  {
    if conns == [] || conns[0] == Connection(source, dest) then 0
    else (if conns[0].dest == dest then 1 else 0) + Disp(conns[1..], source, dest)
  }

  /** The slot the source computes is the slot where the destination has recorded that source. */
  lemma {:induction false} SlotsAgree(conns: seq<Connection>, source: nat, dest: nat)
    requires Connection(source, dest) in conns
    ensures Disp(conns, source, dest) < |InRanks(conns, dest)|
    ensures InRanks(conns, dest)[Disp(conns, source, dest)] == source
  {
    if conns[0] != Connection(source, dest) {
      assert Connection(source, dest) in conns[1..];
      SlotsAgree(conns[1..], source, dest);
    }
  }

  lemma {:induction false} InRanksSound(conns: seq<Connection>, dest: nat, j: nat)
    requires j < |InRanks(conns, dest)|
    ensures Connection(InRanks(conns, dest)[j], dest) in conns
  {
    if conns[0].dest == dest && j == 0 {
    } else {
      InRanksSound(conns[1..], dest, if conns[0].dest == dest then j - 1 else j);
    }
  }

  /** And every slot is some source's: with no pair listed twice, the slots of a window and the
      connections into its rank correspond one to one. */
  lemma {:induction false} SlotsCover(conns: seq<Connection>, n: nat, dest: nat, j: nat)
    requires Legal(conns, n) && j < |InRanks(conns, dest)|
    ensures Connection(InRanks(conns, dest)[j], dest) in conns
    ensures Disp(conns, InRanks(conns, dest)[j], dest) == j
  {
    InRanksSound(conns, dest, j);
    var source := InRanks(conns, dest)[j];
    if conns[0].dest == dest && j == 0 {
    } else {
      var j' := if conns[0].dest == dest then j - 1 else j;
      assert Legal(conns[1..], n);
      SlotsCover(conns[1..], n, dest, j');
      assert conns[0] != Connection(source, dest);
    }
  }

  // ----- the synchronous network -----

  datatype Net = Net(conns: seq<Connection>, n: nat, steps: nat)
  {
    predicate Valid()
    {
      n >= 1 && Legal(conns, n)
    }

    /** The state of a neuron after the compute of round k. */
    function Level(k: nat, r: nat): int
      requires n >= 1
      decreases k, 0, 0
    {
      if k == 0 then (r + 5) % n + 1
      else (if Fires(k - 1, r) then 0 else Level(k - 1, r)) + Spikes(k - 1, InRanks(conns, r)) + 1
    }

    predicate Fires(k: nat, r: nat)
      requires n >= 1
      decreases k, 1, 0
    {
      Level(k, r) > 4
    }

    /** How many of `sources` fire in round k. */
    function Spikes(k: nat, sources: seq<nat>): nat
      requires n >= 1
      decreases k, 2, |sources|
    {
      if sources == [] then 0 else (if Fires(k, sources[0]) then 1 else 0) + Spikes(k, sources[1..])
    }

    /** What a neuron carries into the compute of round k. */
    function Carried(k: nat, r: nat): int
      requires n >= 1
    {
      if k == 0 then (r + 5) % n else if Fires(k - 1, r) then 0 else Level(k - 1, r)
    }
  }

  lemma {:induction false} InRanksSnoc(conns: seq<Connection>, c: Connection, me: nat)
    ensures InRanks(conns + [c], me) == InRanks(conns, me) + if c.dest == me then [c.source] else []
  {
    if conns == [] {
      assert [c][1..] == [];
    } else {
      var head := if conns[0].dest == me then [conns[0].source] else [];
      assert (conns + [c])[0] == conns[0] && (conns + [c])[1..] == conns[1..] + [c];
      InRanksSnoc(conns[1..], c, me);
      assert InRanks(conns + [c], me) == head + InRanks(conns[1..] + [c], me);
    }
  }

  lemma {:induction false} SpikesSnoc(net: Net, k: nat, sources: seq<nat>, x: nat)
    requires net.n >= 1
    ensures net.Spikes(k, sources + [x]) == net.Spikes(k, sources) + if net.Fires(k, x) then 1 else 0
  {
    if sources == [] {
      assert [x][1..] == [] && sources + [x] == [x];
    } else {
      assert (sources + [x])[0] == sources[0] && (sources + [x])[1..] == sources[1..] + [x];
      SpikesSnoc(net, k, sources[1..], x);
    }
  }

  /** The connections among the first m that bring rank r a spike in round k. */
  ghost function FiringInto(net: Net, k: nat, r: nat, m: nat): set<nat>
    requires net.n >= 1 && m <= |net.conns|
  {
    set i | 0 <= i < m && net.conns[i].dest == r && net.Level(k, net.conns[i].source) > 4
  }

  lemma {:induction false} SpikesCount(net: Net, k: nat, r: nat, m: nat)
    requires net.n >= 1 && m <= |net.conns|
    ensures net.Spikes(k, InRanks(net.conns[..m], r)) == |FiringInto(net, k, r, m)|
  {
    if m == 0 {
      assert FiringInto(net, k, r, 0) == {};
    } else {
      var c := net.conns[m - 1];
      SpikesCount(net, k, r, m - 1);
      assert net.conns[..m] == net.conns[..m - 1] + [c];
      InRanksSnoc(net.conns[..m - 1], c, r);
      SpikesSnoc(net, k, InRanks(net.conns[..m - 1], r), c.source);
      assert net.Fires(k, c.source) <==> net.Level(k, c.source) > 4;
      FiringStep(net, k, r, m);
      hide *;
      assert InRanks(net.conns[..m - 1], r) + [] == InRanks(net.conns[..m - 1], r);
    }
  }

  lemma FiringStep(net: Net, k: nat, r: nat, m: nat)
    requires net.n >= 1 && 1 <= m <= |net.conns|
    ensures |FiringInto(net, k, r, m)| == |FiringInto(net, k, r, m - 1)|
              + if net.conns[m - 1].dest == r && net.Level(k, net.conns[m - 1].source) > 4 then 1 else 0
  {
    hide Net.Level, Net.Fires, Net.Spikes;
    var before, now := FiringInto(net, k, r, m - 1), FiringInto(net, k, r, m);
    if net.conns[m - 1].dest == r && net.Level(k, net.conns[m - 1].source) > 4 {
      assert now == before + {m - 1};
    } else {
      assert now == before;
    }
  }

  /** The rule of the network: a neuron above 4 starts afresh, any other keeps its level; then it grows by one
      and by the number of connections whose source was above 4. */
  lemma NeuronRule(net: Net, k: nat, r: nat)
    requires net.n >= 1
    ensures net.Level(0, r) == (r + 5) % net.n + 1
    ensures net.Level(k + 1, r)
         == (if net.Level(k, r) > 4 then 0 else net.Level(k, r)) + |FiringInto(net, k, r, |net.conns|)| + 1
  {
    SpikesCount(net, k, r, |net.conns|);
    assert net.conns[..|net.conns|] == net.conns;
  }

  // ----- the ranks -----

  datatype Phase = Compute | Post | Start | Output | Complete | Wait

  datatype Rank = Rank(round: nat, phase: Phase, state: int, inarray: seq<int>)

  /** A put issued in `round` and not yet in the target window. */
  datatype Put = Put(source: nat, dest: nat, slot: nat, round: nat)

  datatype State = State(rank: seq<Rank>, flying: set<Put>)

  datatype Event = Step(r: nat) | Land(p: Put)

  function Sum(a: seq<int>): int
  {
    if a == [] then 0 else a[0] + Sum(a[1..])
  }

  ghost function Ones(a: seq<int>): set<int>
  {
    set j | 0 <= j < |a| && a[j] == 1
  }

  lemma SumSnoc(a: seq<int>, x: int)
    ensures Sum(a + [x]) == Sum(a) + x
  {
    if a != [] {
      assert (a + [x])[0] == a[0] && (a + [x])[1..] == a[1..] + [x];
      SumSnoc(a[1..], x);
    } else {
      assert [x][1..] == [] && a + [x] == [x];
    }
  }

  /** Of a window with a one for each spike, the sum is the number of spikes. */
  lemma {:induction false} SumCountsOnes(a: seq<int>)
    requires forall j :: 0 <= j < |a| ==> a[j] == 0 || a[j] == 1
    ensures Sum(a) == |Ones(a)|
  {
    if a == [] {
      assert Ones(a) == {};
    } else {
      var n := |a| - 1;
      SumCountsOnes(a[..n]);
      assert a == a[..n] + [a[n]];
      SumSnoc(a[..n], a[n]);
      assert Ones(a) == Ones(a[..n]) + if a[n] == 1 then {n} else {};
    }
  }

  /** The round-k exposure epoch of a rank is open or has been. */
  predicate Posted(s: Rank, k: nat)
  {
    s.round > k || (s.round == k && !s.phase.Compute? && !s.phase.Post?)
  }

  /** The rank has issued its puts of round k. */
  predicate Issued(s: Rank, k: nat)
  {
    s.round > k || (s.round == k && (s.phase.Complete? || s.phase.Wait?))
  }

  predicate Completed(s: Rank, k: nat)
  {
    s.round > k || (s.round == k && s.phase.Wait?)
  }

  function Puts(net: Net, r: nat, round: nat): set<Put>
  {
    set c | c in net.conns && c.source == r :: Put(r, c.dest, Disp(net.conns, r, c.dest), round)
  }

  /** MPI-3.1, section 11.5.2.  MPI_Win_start may or may not wait for the targets' posts, and
      MPI_Win_complete for the posts and the arrival of its puts (`strict`); a put reaches the target window only inside the matching exposure epoch; MPI_Win_wait returns
      when every origin has called complete and all its puts have arrived. */
  predicate Enabled(net: Net, strict: bool, s: State, e: Event)
  {
    match e
    case Step(r) =>
      && r < |s.rank|
      && var me := s.rank[r];
      (match me.phase
       case Compute => me.round < net.steps
       case Start =>
         strict ==> forall c :: c in net.conns && c.source == r && c.dest < |s.rank| ==> Posted(s.rank[c.dest], me.round)
       case Complete =>
         strict ==>
           && (forall c :: c in net.conns && c.source == r && c.dest < |s.rank| ==> Posted(s.rank[c.dest], me.round))
           && (forall p :: p in s.flying ==> p.source != r || p.round != me.round)
       case Wait =>
         && (forall c :: c in net.conns && c.dest == r && c.source < |s.rank| ==> Completed(s.rank[c.source], me.round))
         && (forall p :: p in s.flying ==> p.dest != r || p.round != me.round)
       case _ => true)
    case Land(p) =>
      && p in s.flying && p.dest < |s.rank| && p.slot < |s.rank[p.dest].inarray|
      && s.rank[p.dest].round == p.round && Posted(s.rank[p.dest], p.round)
  }

  function Apply(net: Net, strict: bool, s: State, e: Event): State
    requires Enabled(net, strict, s, e)
  {
    match e
    case Step(r) =>
      var me := s.rank[r];
      (match me.phase
       case Compute =>
         s.(rank := s.rank[r := Rank(me.round, Post, me.state + Sum(me.inarray) + 1, seq(|me.inarray|, _ => 0))])
       case Post => s.(rank := s.rank[r := me.(phase := Start)])
       case Start => s.(rank := s.rank[r := me.(phase := Output)])
       case Output =>
         if me.state > 4 then
           State(s.rank[r := me.(phase := Complete, state := 0)], s.flying + Puts(net, r, me.round))
         else
           s.(rank := s.rank[r := me.(phase := Complete)])
       case Complete => s.(rank := s.rank[r := me.(phase := Wait)])
       case Wait => s.(rank := s.rank[r := me.(phase := Compute, round := me.round + 1)]))
    case Land(p) =>
      var to := s.rank[p.dest];
      State(s.rank[p.dest := to.(inarray := to.inarray[p.slot := 1])], s.flying - {p})
  }

  function InitRank(net: Net, r: nat): Rank
    requires net.n >= 1
  {
    Rank(0, Compute, (r + 5) % net.n, seq(|InRanks(net.conns, r)|, _ => 0))
  }

  function Init(net: Net): State
    requires net.n >= 1
  {
    State(seq(net.n, r requires 0 <= r => InitRank(net, r)), {})
  }

  predicate Executes(net: Net, strict: bool, s: State, run: seq<Event>)
    decreases |run|
  {
    run == [] || (Enabled(net, strict, s, run[0]) && Executes(net, strict, Apply(net, strict, s, run[0]), run[1..]))
  }

  function Final(net: Net, strict: bool, s: State, run: seq<Event>): State
    requires Executes(net, strict, s, run)
    decreases |run|
  {
    if run == [] then s else Final(net, strict, Apply(net, strict, s, run[0]), run[1..])
  }
}
