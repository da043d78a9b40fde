/** What one step of a phase does, and when a task stops, told from the events alone. */
module IorSteps {
  import opened Arith
  import opened IorOffsets
  import opened IorCheck
  import opened IorPhase
  import opened IorPhaseProofs

  /** After an access a task goes on unless the deadline has passed, the iteration limit is reached or its
      array is at its end. */
  lemma AccessMoves(c: Config, ph: Phase, s: State, r: nat, expired: bool)
    requires Fits(c, ph) && |s.tasks| == c.test.tasks && Enabled(c, s, Access(r, expired))
    ensures var k := s.tasks[r].k + 1;
            Apply(c, ph, s, Access(r, expired)).tasks
            == s.tasks[r := if expired || k == ph.wear || k == c.test.PerTask() then Wait(k) else Loop(k)]
  {
    hide Transfer, Test.PerTask, Config.Valid;
  }

  /** The k-th access in the hands of task r is that of the task `off[r]` further on, on its file and at its
      offset.  A write puts rank, stamp and offset there and touches nothing else; a check counts the words that
      are not what that write would have put there, or fails if there is nothing of that size. */
  lemma TransferTouches(c: Config, ph: Phase, s: State, r: nat, k: nat)
    requires Fits(c, ph) && r < c.test.tasks && k < c.test.PerTask()
    ensures var t, p := Transfer(c, ph, s, r, k), (r + ph.off[r]) % c.test.tasks;
            var offset := Offset(c.test, p, k);
            var key, words := (if c.test.filePerProc then p else 0, offset), c.test.t / 8;
            && 0 <= offset && p < c.test.tasks && t.tasks == s.tasks && t.most == s.most
            && (ph.op == Write ==>
                  && t.errors == s.errors && t.failed == s.failed
                  && t.disk.Keys == s.disk.Keys + {key} && |t.disk[key]| == words
                  && (forall other :: other in s.disk && other != key ==> t.disk[other] == s.disk[other])
                  && (forall i :: 0 <= i < words && i % 2 == 0 ==> t.disk[key][i] == p * 0x1_0000_0000 + c.stamp)
                  && (forall i :: 0 <= i < words && i % 2 == 1 ==>
                        t.disk[key][i] == ((if c.store then offset else 0) + 8 * i) % 0x1_0000_0000_0000_0000))
            && (ph.op == Check ==>
                  && t.disk == s.disk
                  && (t.failed <==> s.failed || key !in s.disk || |s.disk[key]| != words)
                  && t.errors == s.errors + if key !in s.disk || |s.disk[key]| != words then 0
                                            else |Wrong(s.disk[key], Block(c, p, k))|)
  {
    var p := (r + ph.off[r]) % c.test.tasks;
    OffsetInRange(c, p, k);
    hide Offset, Test.PerTask, Config.Valid;
    var key := (if c.test.filePerProc then p else 0, Offset(c.test, p, k));
    if ph.op == Check && key in s.disk && |s.disk[key]| == c.test.t / 8 {
      MismatchesCount(Block(c, p, k), s.disk[key]);
    }
  }

  /** The words at which two buffers of one size differ. */
  ghost function Wrong(a: seq<nat>, b: seq<nat>): set<nat>
    requires |a| == |b|
  {
    set i | 0 <= i < |a| && a[i] != b[i]
  }

  lemma {:induction false} MismatchesCount(good: seq<nat>, test: seq<nat>)
    requires |good| == |test|
    ensures Mismatches(good, test) == |Wrong(test, good)|
  {
    if good == [] {
      assert Wrong(test, good) == {};
    } else {
      var n := |good| - 1;
      MismatchesCount(good[..n], test[..n]);
      assert Wrong(test, good) == Wrong(test[..n], good[..n]) + if good[n] != test[n] then {n} else {};
    }
  }

  // ----- when a task stops -----

  /** Of each access of task r, in order, whether the deadline had passed after it. */
  function Flags(run: seq<Event>, r: nat): seq<bool>
  {
    if run == [] then []
    else (if run[0].Access? && run[0].r == r then [run[0].expired] else []) + Flags(run[1..], r)
  }

  lemma {:induction false} PastReduction(c: Config, ph: Phase, s: State, run: seq<Event>, r: nat)
    requires Fits(c, ph) && Executes(c, ph, s, run) && r < c.test.tasks && s.tasks[r].Wear?
    ensures Final(c, ph, s, run).tasks[r].Wear?
    decreases |run|
  {
    if run != [] {
      StepKeeps(c, ph, s, run[0], r);
      hide Apply, Enabled;
      PastReduction(c, ph, Apply(c, ph, s, run[0]), run[1..], r);
    }
  }

  /** An event that is no access of task r leaves it where it is, or takes it through or past the reduction. */
  lemma StepKeeps(c: Config, ph: Phase, s: State, e: Event, r: nat)
    requires Fits(c, ph) && |s.tasks| == c.test.tasks && Enabled(c, s, e) && r < c.test.tasks
    ensures var t := Apply(c, ph, s, e);
            && |t.tasks| == c.test.tasks
            && (s.tasks[r].Wear? ==> t.tasks[r].Wear?)
            && (!t.tasks[r].Wear? && !(e.Access? && e.r == r) ==> t.tasks[r] == s.tasks[r])
  {
    hide Config.Valid, AfterAccess;
    match e
    case Access(q, _) => TransferKeepsTasks(c, ph, s, q, s.tasks[q].k); hide Transfer;
    case Reduce =>
    case Extra(q) => TransferKeepsTasks(c, ph, s, q, s.tasks[q].k); hide Transfer;
  }

  ghost predicate Stops(c: Config, ph: Phase, f: seq<bool>, from: nat, i: nat)
    requires c.test.t > 0 && i < |f|
  {
    f[i] || from + i + 1 == ph.wear || from + i + 1 == c.test.PerTask()
  }

  /** A task at s that is at t after accesses with these flags. */
  ghost predicate StopsRight(c: Config, ph: Phase, s: Task, t: Task, f: seq<bool>)
    requires c.test.t > 0
  {
    && !s.Wear? && !t.Wear? && t.k == s.k + |f|
    && (s.Wait? ==> f == [] && t.Wait?)
    && (forall i :: 0 <= i < |f| ==> (Stops(c, ph, f, s.k, i) <==> t.Wait? && i == |f| - 1))
    && (f == [] ==> t == s)
  }

  /** One access more in front. */
  lemma StopsOneMore(c: Config, ph: Phase, k: nat, expired: bool, t: Task, g: seq<bool>)
    requires c.test.t > 0
    requires StopsRight(c, ph, if expired || k + 1 == ph.wear || k + 1 == c.test.PerTask() then Wait(k + 1) else Loop(k + 1), t, g)
    ensures StopsRight(c, ph, Loop(k), t, [expired] + g)
  {
    hide Test.PerTask;
    var f := [expired] + g;
    forall i | 0 <= i < |f| ensures Stops(c, ph, f, k, i) <==> t.Wait? && i == |f| - 1 {
      if i > 0 {
        assert Stops(c, ph, g, k + 1, i - 1) <==> Stops(c, ph, f, k, i);
      }
    }
  }

  lemma {:induction false} StopsFrom(c: Config, ph: Phase, s: State, run: seq<Event>, r: nat)
    requires Fits(c, ph) && Executes(c, ph, s, run) && r < c.test.tasks && !Final(c, ph, s, run).tasks[r].Wear?
    ensures StopsRight(c, ph, s.tasks[r], Final(c, ph, s, run).tasks[r], Flags(run, r))
    decreases |run|
  {
    hide Apply, Enabled, StopsRight;
    if run == [] {
      NoFlags(c, ph, s.tasks[r]);
    } else {
      var s1 := Apply(c, ph, s, run[0]);
      StepKeeps(c, ph, s, run[0], r);
      if s1.tasks[r].Wear? {
        PastReduction(c, ph, s1, run[1..], r);
      }
      StopsFrom(c, ph, s1, run[1..], r);
      var t, g := Final(c, ph, s, run).tasks[r], Flags(run[1..], r);
      if run[0].Access? && run[0].r == r {
        AccessMoves(c, ph, s, r, run[0].expired);
        AccessFrom(c, s, r, run[0].expired);
        StopsOneMore(c, ph, s.tasks[r].k, run[0].expired, t, g);
      } else {
        StaysUnder(c, ph, s1.tasks[r], t, g);
        assert [] + g == g;
      }
    }
  }

  lemma NoFlags(c: Config, ph: Phase, t: Task)
    requires c.test.t > 0 && !t.Wear?
    ensures StopsRight(c, ph, t, t, [])
  {
  }

  lemma AccessFrom(c: Config, s: State, r: nat, expired: bool)
    requires Enabled(c, s, Access(r, expired))
    ensures r < |s.tasks| && s.tasks[r] == Loop(s.tasks[r].k)
  {
  }

  lemma StaysUnder(c: Config, ph: Phase, s: Task, t: Task, f: seq<bool>)
    requires c.test.t > 0 && StopsRight(c, ph, s, t, f)
    ensures !s.Wear?
  {
  }

  /** Task t has made one access for each flag; no flag before the last is set, nor has the iteration limit or the
      end of the array been reached before; and t waits if and only if one of these is so after the last. */
  ghost predicate StoppedInTime(c: Config, ph: Phase, t: Task, f: seq<bool>)
    requires c.test.t > 0
  {
    && t.k == |f|
    && (forall i :: 0 <= i < |f| - 1 ==> !f[i] && i + 1 != ph.wear && i + 1 != c.test.PerTask())
    && (t.Wait? <==> f != [] && (f[|f| - 1] || |f| == ph.wear || |f| == c.test.PerTask()))
  }

  lemma StopsMeans(c: Config, ph: Phase, t: Task, f: seq<bool>)
    requires c.test.t > 0 && StopsRight(c, ph, Loop(0), t, f)
    ensures StoppedInTime(c, ph, t, f)
  {
    hide Test.PerTask;
    forall i | 0 <= i < |f| - 1
      ensures !f[i] && i + 1 != ph.wear && i + 1 != c.test.PerTask()
    {
      assert !Stops(c, ph, f, 0, i);
    }
    if f != [] {
      assert Stops(c, ph, f, 0, |f| - 1) <==> t.Wait?;
    }
  }

  lemma InitLoop(c: Config, ph: Phase, disk: Disk, r: nat)
    requires Fits(c, ph) && r < c.test.tasks && c.test.t > 0 && c.test.PerTask() > 0
    ensures |Init(c, disk).tasks| == c.test.tasks && Init(c, disk).tasks[r] == Loop(0)
  {
  }

  lemma Positive(c: Config)
    requires c.Valid()
    ensures c.test.t > 0 && c.test.tasks > 0
  {
  }

  /** When a task stops: in every run, as long as the tasks have not met in the reduction, each has stopped at the
      first access after which the deadline had passed, the iteration limit was reached or its array at its end,
      and at no other. */
  lemma StopsAtDeadline(c: Config, ph: Phase, disk: Disk, run: seq<Event>, r: nat)
    requires Fits(c, ph) && Executes(c, ph, Init(c, disk), run) && r < c.test.tasks && c.test.PerTask() > 0
    requires !Final(c, ph, Init(c, disk), run).tasks[r].Wear?
    ensures c.test.t > 0 && StoppedInTime(c, ph, Final(c, ph, Init(c, disk), run).tasks[r], Flags(run, r))
  {
    Positive(c);
    hide *;
    StopsFrom(c, ph, Init(c, disk), run, r);
    InitLoop(c, ph, disk, r);
    StopsMeans(c, ph, Final(c, ph, Init(c, disk), run).tasks[r], Flags(run, r));
  }
}
