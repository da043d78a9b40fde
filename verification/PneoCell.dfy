/** The globals of one pneo process and the loops that fill and change them. */
module PneoCell {
  import opened Pneo

  function OutConns(conns: seq<Connection>, all: seq<Connection>, me: nat): seq<OutConnection>
  {
    if conns == [] then []
    else (if conns[0].source == me then [OutConnection(conns[0].dest, Disp(all, me, conns[0].dest))] else [])
         + OutConns(conns[1..], all, me)
  }

  lemma {:induction false} OutConnsSnoc(conns: seq<Connection>, c: Connection, all: seq<Connection>, me: nat)
    ensures OutConns(conns + [c], all, me)
         == OutConns(conns, all, me) + if c.source == me then [OutConnection(c.dest, Disp(all, me, c.dest))] else []
  {
    if conns == [] {
      assert [c][1..] == [];
    } else {
      var head := if conns[0].source == me then [OutConnection(conns[0].dest, Disp(all, me, conns[0].dest))] else [];
      assert (conns + [c])[0] == conns[0] && (conns + [c])[1..] == conns[1..] + [c];
      OutConnsSnoc(conns[1..], c, all, me);
      assert OutConns(conns + [c], all, me) == head + OutConns(conns[1..] + [c], all, me);
    }
  }

  /** The inner loop of init_state: count the connections into `dest` before our own. */
  method FindDisp(conns: seq<Connection>, me: nat, dest: nat) returns (dispcnt: nat)
    ensures dispcnt == Disp(conns, me, dest)
  {
    dispcnt := 0;
    var n := 0;
    while n < |conns|
      invariant 0 <= n <= |conns|
      invariant Disp(conns, me, dest) == dispcnt + Disp(conns[n..], me, dest)
    {
      if conns[n].dest == dest {
        if conns[n].source == me {
          break;
        } else {
          dispcnt := dispcnt + 1;
        }
      }
      n := n + 1;
    }
  }

  class Cell {
    const conns: seq<Connection>
    const myrank: nat
    var inarray: array<int>
    var inranks: seq<nat>
    var outarray: seq<OutConnection>
    var state: int

    /** The window belongs to the sources the file names for this rank. */
    ghost predicate Valid()
      reads this
    {
      && inranks == InRanks(conns, myrank)
      && outarray == OutConns(conns, conns, myrank)
      && inarray.Length == |inranks|
    }

    /** The globals are those of the machine's rank s. */
    ghost predicate Shows(s: Rank)
      reads this, inarray
    {
      state == s.state && inarray[..] == s.inarray
    }

    /** init_state: the rank as the machine of module Pneo starts it. */
    constructor (conns: seq<Connection>, myrank: nat, numprocs: nat)
      requires numprocs >= 1
      ensures Valid() && fresh(inarray) && this.conns == conns && this.myrank == myrank
      ensures state == (myrank + 5) % numprocs
      ensures forall j :: 0 <= j < inarray.Length ==> inarray[j] == 0
      ensures forall net: Net :: net.conns == conns && net.n == numprocs ==> Shows(InitRank(net, myrank))
    {
      this.conns, this.myrank := conns, myrank;
      var ins, outs := [], [];
      var i := 0;
      while i < |conns|
        invariant 0 <= i <= |conns|
        invariant ins == InRanks(conns[..i], myrank)
        invariant outs == OutConns(conns[..i], conns, myrank)
      {
        assert conns[..i + 1] == conns[..i] + [conns[i]];
        InRanksSnoc(conns[..i], conns[i], myrank);
        OutConnsSnoc(conns[..i], conns[i], conns, myrank);
        if conns[i].dest == myrank {
          ins := ins + [conns[i].source];
        }
        if conns[i].source == myrank {
          var disp := FindDisp(conns, myrank, conns[i].dest);
          outs := outs + [OutConnection(conns[i].dest, disp)];
        }
        i := i + 1;
      }
      assert conns[..i] == conns;
      inranks, outarray := ins, outs;
      inarray := new int[|ins|](_ => 0);
      state := (myrank + 5) % numprocs;
    }

    /** compute_state: the machine's step out of Compute. */
    method ComputeState()
      requires Valid()
      modifies this`state, inarray
      ensures Valid()
      ensures state == old(state) + Sum(old(inarray[..])) + 1
      ensures (forall j :: 0 <= j < inarray.Length ==> old(inarray[j]) == 0 || old(inarray[j]) == 1) ==>
                state == old(state) + |set j | 0 <= j < inarray.Length && old(inarray[j]) == 1| + 1
      ensures inarray[..] == seq(|old(inarray[..])|, _ => 0)
      ensures forall net: Net, strict: bool, s: State ::
                Enabled(net, strict, s, Step(myrank)) && s.rank[myrank].phase.Compute? && old(Shows(s.rank[myrank]))
                ==> Shows(Apply(net, strict, s, Step(myrank)).rank[myrank])
    {
      var numIncoming := 0;
      var i := 0;
      ghost var a := inarray[..];
      while i < inarray.Length
        modifies {}
        invariant 0 <= i <= inarray.Length
        invariant Sum(a) == numIncoming + Sum(a[i..])
      {
        numIncoming := numIncoming + inarray[i];
        i := i + 1;
      }
      state := state + numIncoming + 1;
      ghost var spikes := set j | 0 <= j < inarray.Length && old(inarray[j]) == 1;
      if forall j :: 0 <= j < |a| ==> a[j] == 0 || a[j] == 1 {
        SumCountsOnes(a);
        assert spikes == Ones(a);
      }
      i := 0;
      while i < inarray.Length
        modifies inarray
        invariant 0 <= i <= inarray.Length
        invariant forall j :: 0 <= j < i ==> inarray[j] == 0
      {
        inarray[i] := 0;
        i := i + 1;
      }
    }

    /** output_spikes and reset_state, if ready_to_fire: the machine's step out of Output, and the puts it adds. */
    method Fire(round: nat) returns (puts: set<Put>)
      requires Valid()
      modifies this`state
      ensures Valid()
      ensures state == if old(state) > 4 then 0 else old(state)
      ensures puts == if old(state) > 4 then set c | c in conns && c.source == myrank :: Put(myrank, c.dest, Disp(conns, myrank, c.dest), round)
                      else {}
      ensures forall net: Net, strict: bool, s: State ::
                net.conns == conns && Enabled(net, strict, s, Step(myrank)) && s.rank[myrank].phase.Output?
                && round == s.rank[myrank].round && old(Shows(s.rank[myrank]))
                ==> var t := Apply(net, strict, s, Step(myrank));
                    Shows(t.rank[myrank]) && t.flying == s.flying + puts
    {
      puts := {};
      if state > 4 {
        var i := 0;
        while i < |outarray|
          modifies {}
          invariant 0 <= i <= |outarray|
          invariant puts == set o | o in outarray[..i] :: Put(myrank, o.dest, o.disp, round)
        {
          assert outarray[..i + 1] == outarray[..i] + [outarray[i]];
          puts := puts + {Put(myrank, outarray[i].dest, outarray[i].disp, round)};
          i := i + 1;
        }
        assert outarray[..i] == outarray;
        OutConnsSet(conns, conns, myrank, round);
        state := 0;
      }
    }
  }

  lemma {:induction false} OutConnsSet(conns: seq<Connection>, all: seq<Connection>, me: nat, round: nat)
    ensures (set o | o in OutConns(conns, all, me) :: Put(me, o.dest, o.disp, round))
         == (set c | c in conns && c.source == me :: Put(me, c.dest, Disp(all, me, c.dest), round))
  {
    if conns != [] {
      OutConnsSet(conns[1..], all, me, round);
      var a := set c | c in conns && c.source == me :: Put(me, c.dest, Disp(all, me, c.dest), round);
      var b := set c | c in conns[1..] && c.source == me :: Put(me, c.dest, Disp(all, me, c.dest), round);
      var h := if conns[0].source == me then {Put(me, conns[0].dest, Disp(all, me, conns[0].dest), round)} else {};
      assert a == h + b;
      var x := set o | o in OutConns(conns, all, me) :: Put(me, o.dest, o.disp, round);
      var y := set o | o in OutConns(conns[1..], all, me) :: Put(me, o.dest, o.disp, round);
      assert x == h + y;
    }
  }
}
