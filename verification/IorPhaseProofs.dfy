/** Stonewalled write, then check: for every interleaving and every firing of the deadline. */
module IorPhaseProofs {
  import opened Arith
  import opened IorOffsets
  import opened IorCheck
  import opened IorPhase

  // ----- every task ends with the same count -----

  ghost predicate TaskOk(c: Config, limit: int, most: nat, t: Task)
  {
    match t
    case Loop(k) => k < limit
    case Wait(k) => k <= limit && (!c.deadline ==> k == limit) && (limit > 0 ==> k > 0)
    case Wear(k) => k <= most <= limit && (!c.deadline ==> k == limit) && (limit > 0 ==> k > 0)
  }

  /** Tasks leave the reduction together. */
  ghost predicate Counts(c: Config, ph: Phase, s: State)
    requires c.Valid()
  {
    && |s.tasks| == c.test.tasks
    && (forall r :: 0 <= r < |s.tasks| ==> TaskOk(c, Limit(c, ph.wear), s.most, s.tasks[r]))
    && ((forall r :: 0 <= r < |s.tasks| ==> s.tasks[r].Wear?) || (forall r :: 0 <= r < |s.tasks| ==> !s.tasks[r].Wear?))
  }

  lemma InitCounts(c: Config, ph: Phase, disk: Disk)
    requires Fits(c, ph)
    ensures Counts(c, ph, Init(c, disk))
  {
  }

  lemma TransferKeepsTasks(c: Config, ph: Phase, s: State, r: nat, k: nat)
    requires Fits(c, ph) && r < c.test.tasks
    ensures Transfer(c, ph, s, r, k).tasks == s.tasks && Transfer(c, ph, s, r, k).most == s.most
    ensures ph.op == Check ==> Transfer(c, ph, s, r, k).disk == s.disk
    ensures ph.op == Write ==> Transfer(c, ph, s, r, k)
                               == s.(disk := s.disk[KeyOf(c, Pretend(c, ph, r), k) := Block(c, Pretend(c, ph, r), k)])
  {
  }

  lemma StepCounts(c: Config, ph: Phase, s: State, e: Event)
    requires Fits(c, ph) && Counts(c, ph, s) && Enabled(c, s, e)
    ensures Counts(c, ph, Apply(c, ph, s, e))
  {
    hide Transfer, Offset, Test.FileSize, Test.PerTask;
    match e
    case Access(r, _) => TransferKeepsTasks(c, ph, s, r, s.tasks[r].k);
    case Reduce =>
    case Extra(r) => TransferKeepsTasks(c, ph, s, r, s.tasks[r].k);
  }

  /** A phase never gets stuck: until every task is done, some task can move. */
  lemma NeverStuck(c: Config, ph: Phase, s: State) returns (e: Event)
    requires Fits(c, ph) && Counts(c, ph, s) && !Done(s)
    ensures Enabled(c, s, e)
  {
    if r :| 0 <= r < |s.tasks| && s.tasks[r].Loop? {
      e := Access(r, false);
    } else if forall r :: 0 <= r < |s.tasks| ==> s.tasks[r].Wait? {
      e := Reduce;
    } else {
      var r :| 0 <= r < |s.tasks| && s.tasks[r] != Wear(s.most);
      assert TaskOk(c, Limit(c, ph.wear), s.most, s.tasks[r]);
      e := Extra(r);
    }
  }

  lemma {:induction false} RunCounts(c: Config, ph: Phase, s: State, run: seq<Event>)
    requires Fits(c, ph) && Counts(c, ph, s) && Executes(c, ph, s, run)
    ensures Counts(c, ph, Final(c, ph, s, run))
    decreases |run|
  {
    hide Counts, Apply, Enabled;
    if run != [] {
      StepCounts(c, ph, s, run[0]);
      RunCounts(c, ph, Apply(c, ph, s, run[0]), run[1..]);
    }
  }

  // ----- what a write phase leaves on disk -----

  /** Task and access are determined by the place they access. */
  lemma KeysDistinct(c: Config, r: nat, k: nat, q: nat, l: nat)
    requires c.Valid() && r < c.test.tasks && q < c.test.tasks && k < c.test.PerTask() && l < c.test.PerTask()
    requires KeyOf(c, r, k) == KeyOf(c, q, l)
    ensures r == q && k == l
  {
    OffsetIsTransfer(c.test, r, k);
    OffsetIsTransfer(c.test, q, l);
    ScaleInjective(c.test.t, TransferOf(c.test, r, k), TransferOf(c.test, q, l));
    if !c.test.filePerProc {
      TransferInverts(c.test, r, k);
      TransferInverts(c.test, q, l);
    }
  }

  /** Exactly the accesses made so far are on disk; every other place is as before. */
  ghost predicate Written(c: Config, count: nat -> nat, oldDisk: Disk, disk: Disk)
    requires c.Valid()
  {
    && (forall r, k :: 0 <= r < c.test.tasks && 0 <= k < count(r) ==>
          KeyOf(c, r, k) in disk && disk[KeyOf(c, r, k)] == Block(c, r, k))
    && (forall key :: key in oldDisk ==> key in disk)
    && (forall key :: key in disk ==>
          (key in oldDisk && disk[key] == oldDisk[key])
          || exists r, k :: 0 <= r < c.test.tasks && 0 <= k < count(r) && key == KeyOf(c, r, k))
  }

  function CountOf(s: State): nat -> nat
  {
    (r: nat) => if r < |s.tasks| then s.tasks[r].k else 0
  }

  /** A write phase uses no rank offset. */
  ghost predicate PlainWrite(c: Config, ph: Phase)
  {
    Fits(c, ph) && ph.op == Write && forall r :: 0 <= r < c.test.tasks ==> ph.off[r] == 0
  }

  lemma WrittenOne(c: Config, count: nat -> nat, next: nat -> nat, oldDisk: Disk, disk: Disk, r: nat)
    requires c.Valid() && r < c.test.tasks && Written(c, count, oldDisk, disk)
    requires forall q :: 0 <= q < c.test.tasks ==> 0 <= count(q) <= c.test.PerTask()
    requires count(r) < c.test.PerTask()
    requires forall q :: 0 <= q < c.test.tasks ==> next(q) == if q == r then count(r) + 1 else count(q)
    ensures Written(c, next, oldDisk, disk[KeyOf(c, r, count(r)) := Block(c, r, count(r))])
  {
    hide KeyOf, Block, Config.Valid, Test.PerTask;
    var key := KeyOf(c, r, count(r));
    var d := disk[key := Block(c, r, count(r))];
    forall q, k | 0 <= q < c.test.tasks && 0 <= k < next(q)
      ensures KeyOf(c, q, k) in d && d[KeyOf(c, q, k)] == Block(c, q, k)
    {
      if KeyOf(c, q, k) == key {
        KeysDistinct(c, q, k, r, count(r));
      }
    }
    forall x | x in d
      ensures (x in oldDisk && d[x] == oldDisk[x])
        || exists q, k :: 0 <= q < c.test.tasks && 0 <= k < next(q) && x == KeyOf(c, q, k)
    {
      if x == key {
        assert 0 <= count(r) < next(r);
      } else if !(x in oldDisk && disk[x] == oldDisk[x]) {
        var q, k :| 0 <= q < c.test.tasks && 0 <= k < count(q) && x == KeyOf(c, q, k);
        assert k < next(q);
      }
    }
  }

  predicate Moves(s: State, r: nat)
    requires r < |s.tasks|
  {
    s.tasks[r].Loop? || (s.tasks[r].Wear? && s.tasks[r].k < s.most)
  }

  lemma CountsBound(c: Config, ph: Phase, s: State)
    requires c.Valid() && Counts(c, ph, s)
    ensures forall r :: 0 <= r < c.test.tasks ==> 0 <= CountOf(s)(r) <= c.test.PerTask()
    ensures forall r :: 0 <= r < c.test.tasks && Moves(s, r) ==> CountOf(s)(r) < c.test.PerTask()
  {
    forall r | 0 <= r < c.test.tasks
      ensures 0 <= CountOf(s)(r) <= c.test.PerTask()
      ensures Moves(s, r) ==> CountOf(s)(r) < c.test.PerTask()
    {
      assert TaskOk(c, Limit(c, ph.wear), s.most, s.tasks[r]);
    }
  }

  lemma StepWritten(c: Config, ph: Phase, oldDisk: Disk, s: State, e: Event)
    requires PlainWrite(c, ph) && Counts(c, ph, s) && Enabled(c, s, e)
    requires Written(c, CountOf(s), oldDisk, s.disk)
    ensures Written(c, CountOf(Apply(c, ph, s, e)), oldDisk, Apply(c, ph, s, e).disk)
  {
    CountsBound(c, ph, s);
    StepCount(c, ph, s, e);
    hide Apply, Transfer, KeyOf, Block, Written, Config.Valid, Test.PerTask, Counts, CountOf;
    var t := Apply(c, ph, s, e);
    if e.Reduce? {
      SameWritten(c, CountOf(s), CountOf(t), oldDisk, s.disk);
    } else {
      PretendPlain(c, ph, e.r);
      TransferKeepsTasks(c, ph, s, e.r, s.tasks[e.r].k);
      WrittenOne(c, CountOf(s), CountOf(t), oldDisk, s.disk, e.r);
    }
  }

  lemma PretendPlain(c: Config, ph: Phase, r: nat)
    requires PlainWrite(c, ph) && r < c.test.tasks
    ensures Pretend(c, ph, r) == r
  {
  }

  /** A step moves one task by one access, or none. */
  lemma StepCount(c: Config, ph: Phase, s: State, e: Event)
    requires Fits(c, ph) && |s.tasks| == c.test.tasks && Enabled(c, s, e)
    ensures var t := Apply(c, ph, s, e);
            if e.Reduce? then
              && t.disk == s.disk && t.errors == s.errors && t.failed == s.failed
              && (forall q :: 0 <= q < c.test.tasks ==> CountOf(t)(q) == CountOf(s)(q))
            else
              var u := Transfer(c, ph, s, e.r, s.tasks[e.r].k);
              && e.r < c.test.tasks && Moves(s, e.r) && s.tasks[e.r].k == CountOf(s)(e.r)
              && t.disk == u.disk && t.errors == u.errors && t.failed == u.failed
              && (forall q :: 0 <= q < c.test.tasks ==>
                    CountOf(t)(q) == if q == e.r then CountOf(s)(q) + 1 else CountOf(s)(q))
  {
    hide Transfer, KeyOf, Block, Config.Valid, Test.PerTask, Most;
  }

  lemma SameWritten(c: Config, count: nat -> nat, next: nat -> nat, oldDisk: Disk, disk: Disk)
    requires c.Valid() && Written(c, count, oldDisk, disk)
    requires forall q :: 0 <= q < c.test.tasks ==> next(q) == count(q)
    ensures Written(c, next, oldDisk, disk)
  {
    hide KeyOf, Block, Config.Valid;
    forall x | x in disk && !(x in oldDisk && disk[x] == oldDisk[x])
      ensures exists q, k :: 0 <= q < c.test.tasks && 0 <= k < next(q) && x == KeyOf(c, q, k)
    {
      var q, k :| 0 <= q < c.test.tasks && 0 <= k < count(q) && x == KeyOf(c, q, k);
      assert k < next(q);
    }
  }

  lemma {:induction false} RunWritten(c: Config, ph: Phase, oldDisk: Disk, s: State, run: seq<Event>)
    requires PlainWrite(c, ph) && Counts(c, ph, s) && Executes(c, ph, s, run)
    requires Written(c, CountOf(s), oldDisk, s.disk)
    ensures Written(c, CountOf(Final(c, ph, s, run)), oldDisk, Final(c, ph, s, run).disk)
    decreases |run|
  {
    hide Counts, Apply, Enabled, Written, CountOf;
    if run != [] {
      StepWritten(c, ph, oldDisk, s, run[0]);
      StepCounts(c, ph, s, run[0]);
      RunWritten(c, ph, oldDisk, Apply(c, ph, s, run[0]), run[1..]);
    }
  }

  /** The write phase: whenever the deadline fires for whichever tasks, all tasks end with one count, and on disk
      are exactly the first so many accesses of every task. */
  lemma WritePhase(c: Config, ph: Phase, oldDisk: Disk, run: seq<Event>)
    requires PlainWrite(c, ph) && Executes(c, ph, Init(c, oldDisk), run)
    requires Done(Final(c, ph, Init(c, oldDisk), run))
    ensures var s := Final(c, ph, Init(c, oldDisk), run);
            && s.most <= Limit(c, ph.wear)
            && (!c.deadline ==> s.most == Limit(c, ph.wear))
            && (c.test.PerTask() > 0 ==> s.most > 0)
            && Written(c, r => s.most, oldDisk, s.disk)
  {
    hide Apply, Enabled, Written, Executes, Final;
    InitCounts(c, ph, oldDisk);
    var s0 := Init(c, oldDisk);
    InitWritten(c, oldDisk);
    RunCounts(c, ph, s0, run);
    RunWritten(c, ph, oldDisk, s0, run);
    var s := Final(c, ph, s0, run);
    assert c.test.tasks > 0;
    assert TaskOk(c, Limit(c, ph.wear), s.most, s.tasks[0]);
    SameWritten(c, CountOf(s), r => s.most, oldDisk, s.disk);
  }

  lemma InitWritten(c: Config, disk: Disk)
    requires c.Valid()
    ensures Written(c, CountOf(Init(c, disk)), disk, disk)
  {
    hide KeyOf, Block, Config.Valid;
    assert forall r :: 0 <= r < c.test.tasks ==> CountOf(Init(c, disk))(r) == 0;
  }

  // ----- what a check phase finds -----

  /** The access k of task r is on disk with the right size and contents. */
  ghost predicate Intact(c: Config, disk: Disk, r: nat, k: nat)
    requires c.Valid()
  {
    KeyOf(c, r, k) in disk && disk[KeyOf(c, r, k)] == Block(c, r, k)
  }

  /** There is something to read at the place of access k of task r. */
  ghost predicate Readable(c: Config, disk: Disk, r: nat, k: nat)
    requires c.Valid()
  {
    KeyOf(c, r, k) in disk && |disk[KeyOf(c, r, k)]| == |Block(c, r, k)|
  }

  ghost predicate AllReadable(c: Config, ph: Phase, count: nat -> nat, disk: Disk)
    requires Fits(c, ph)
  {
    forall r, k :: 0 <= r < c.test.tasks && 0 <= k < count(r) ==> Readable(c, disk, Pretend(c, ph, r), k)
  }

  /** Whatever could be read was as it should be. */
  ghost predicate NoneWrong(c: Config, ph: Phase, count: nat -> nat, disk: Disk)
    requires Fits(c, ph)
  {
    forall r, k :: 0 <= r < c.test.tasks && 0 <= k < count(r) ==>
      Readable(c, disk, Pretend(c, ph, r), k) ==> Intact(c, disk, Pretend(c, ph, r), k)
  }

  /** The verdict so far is exact: a failure if and only if some transfer could not be read, and an error if and
      only if one that could be read was not intact. */
  ghost predicate Verdict(c: Config, ph: Phase, s: State, disk: Disk)
    requires Fits(c, ph)
  {
    && s.disk == disk
    && (!s.failed <==> AllReadable(c, ph, CountOf(s), disk))
    && (s.errors == 0 <==> NoneWrong(c, ph, CountOf(s), disk))
  }

  lemma TransferVerdict(c: Config, ph: Phase, s: State, r: nat, k: nat)
    requires Fits(c, ph) && ph.op == Check && r < c.test.tasks
    ensures var t, p := Transfer(c, ph, s, r, k), Pretend(c, ph, r);
            && t.disk == s.disk
            && (!t.failed <==> !s.failed && Readable(c, s.disk, p, k))
            && (t.errors == 0 <==> s.errors == 0 && (Readable(c, s.disk, p, k) ==> Intact(c, s.disk, p, k)))
  {
    hide KeyOf, Block, Pretend, Config.Valid;
    var p := Pretend(c, ph, r);
    if Readable(c, s.disk, p, k) {
      NoMismatch(Block(c, p, k), s.disk[KeyOf(c, p, k)]);
    }
  }

  lemma OneMore(c: Config, ph: Phase, count: nat -> nat, next: nat -> nat, disk: Disk, r: nat)
    requires Fits(c, ph) && r < c.test.tasks
    requires forall q :: 0 <= q < c.test.tasks ==> next(q) == if q == r then count(r) + 1 else count(q)
    ensures NoneWrong(c, ph, next, disk) <==>
              NoneWrong(c, ph, count, disk)
              && (Readable(c, disk, Pretend(c, ph, r), count(r)) ==> Intact(c, disk, Pretend(c, ph, r), count(r)))
    ensures AllReadable(c, ph, next, disk) <==>
              AllReadable(c, ph, count, disk) && Readable(c, disk, Pretend(c, ph, r), count(r))
  {
    hide Intact, Readable, Pretend, Config.Valid;
    assert next(r) == count(r) + 1;
    if NoneWrong(c, ph, next, disk) {
      forall q, k | 0 <= q < c.test.tasks && 0 <= k < count(q) && Readable(c, disk, Pretend(c, ph, q), k)
        ensures Intact(c, disk, Pretend(c, ph, q), k)
      {
        assert k < next(q);
      }
    }
    if AllReadable(c, ph, next, disk) {
      forall q, k | 0 <= q < c.test.tasks && 0 <= k < count(q)
        ensures Readable(c, disk, Pretend(c, ph, q), k)
      {
        assert k < next(q);
      }
      assert Readable(c, disk, Pretend(c, ph, r), count(r));
    }
  }

  lemma SameAll(c: Config, ph: Phase, count: nat -> nat, next: nat -> nat, disk: Disk)
    requires Fits(c, ph)
    requires forall q :: 0 <= q < c.test.tasks ==> next(q) == count(q)
    ensures NoneWrong(c, ph, next, disk) <==> NoneWrong(c, ph, count, disk)
    ensures AllReadable(c, ph, next, disk) <==> AllReadable(c, ph, count, disk)
  {
    hide Intact, Readable, Pretend, Config.Valid;
  }

  lemma StepVerdict(c: Config, ph: Phase, disk: Disk, s: State, e: Event)
    requires Fits(c, ph) && ph.op == Check && Counts(c, ph, s) && Enabled(c, s, e) && Verdict(c, ph, s, disk)
    ensures Verdict(c, ph, Apply(c, ph, s, e), disk)
  {
    StepCount(c, ph, s, e);
    hide Apply, Transfer, Intact, Readable, Pretend, Config.Valid, NoneWrong, AllReadable, CountOf, Counts;
    var t := Apply(c, ph, s, e);
    if e.Reduce? {
      SameAll(c, ph, CountOf(s), CountOf(t), disk);
    } else {
      TransferVerdict(c, ph, s, e.r, s.tasks[e.r].k);
      OneMore(c, ph, CountOf(s), CountOf(t), disk, e.r);
    }
  }

  lemma {:induction false} RunVerdict(c: Config, ph: Phase, disk: Disk, s: State, run: seq<Event>)
    requires Fits(c, ph) && ph.op == Check && Counts(c, ph, s) && Executes(c, ph, s, run) && Verdict(c, ph, s, disk)
    ensures Verdict(c, ph, Final(c, ph, s, run), disk)
    decreases |run|
  {
    hide Counts, Apply, Enabled, Verdict;
    if run != [] {
      StepVerdict(c, ph, disk, s, run[0]);
      StepCounts(c, ph, s, run[0]);
      RunVerdict(c, ph, disk, Apply(c, ph, s, run[0]), run[1..]);
    }
  }

  lemma InitVerdict(c: Config, ph: Phase, disk: Disk)
    requires Fits(c, ph)
    ensures Verdict(c, ph, Init(c, disk), disk)
  {
    hide Intact, Readable, Pretend, Config.Valid;
    assert forall r :: 0 <= r < c.test.tasks ==> CountOf(Init(c, disk))(r) == 0;
  }

  /** The iteration limit carried into the phases after a write that ended with `most` accesses. */
  function WearAfter(c: Config, wear: nat, most: nat): nat
  {
    if c.deadline then most else wear
  }

  lemma LimitAfter(c: Config, wear: nat, most: nat)
    requires c.Valid() && most <= Limit(c, wear) && (!c.deadline ==> most == Limit(c, wear))
    requires c.test.PerTask() > 0 ==> most > 0
    ensures Limit(c, WearAfter(c, wear, most)) == most
  {
    hide Test.PerTask;
  }

  /** At every point of any check phase after a stonewalled write, whatever the rank offsets and whenever the
      deadline fires again: only written transfers were accessed, no transfer failed, and no error is counted. */
  lemma CheckFindsNoError(c: Config, ph: Phase, wear: nat, most: nat, oldDisk: Disk, disk: Disk, run: seq<Event>)
    requires Fits(c, ph) && ph.op == Check && ph.wear == WearAfter(c, wear, most)
    requires most <= Limit(c, wear) && (!c.deadline ==> most == Limit(c, wear)) && (c.test.PerTask() > 0 ==> most > 0)
    requires Written(c, r => most, oldDisk, disk)
    requires Executes(c, ph, Init(c, disk), run)
    ensures var s := Final(c, ph, Init(c, disk), run);
            && !s.failed && s.errors == 0 && s.disk == disk
            && (forall r :: 0 <= r < c.test.tasks ==> CountOf(s)(r) <= most)
  {
    hide Apply, Enabled, Executes, Final, KeyOf, Block, Test.PerTask, Limit, WearAfter;
    LimitAfter(c, wear, most);
    InitCounts(c, ph, disk);
    InitVerdict(c, ph, disk);
    RunCounts(c, ph, Init(c, disk), run);
    RunVerdict(c, ph, disk, Init(c, disk), run);
    var s := Final(c, ph, Init(c, disk), run);
    forall r | 0 <= r < c.test.tasks
      ensures CountOf(s)(r) <= most
    {
      assert TaskOk(c, most, s.most, s.tasks[r]);
    }
    assert c.test.tasks > 0;
    forall r, k | 0 <= r < c.test.tasks && 0 <= k < CountOf(s)(r)
      ensures Intact(c, disk, Pretend(c, ph, r), k)
    {
      assert 0 <= Pretend(c, ph, r) < c.test.tasks && k < most;
    }
  }

  /** A finished check phase is exact on any disk.  It reports a failed transfer if and only if one of the
      transfers it made could not be read, an error if and only if one that could be read was not intact, and
      so neither if and only if all were intact. */
  lemma CheckIsExact(c: Config, ph: Phase, disk: Disk, run: seq<Event>)
    requires Fits(c, ph) && ph.op == Check && Executes(c, ph, Init(c, disk), run)
    requires Done(Final(c, ph, Init(c, disk), run))
    ensures var s := Final(c, ph, Init(c, disk), run);
            && s.most <= Limit(c, ph.wear)
            && (s.failed <==>
                exists r, k :: 0 <= r < c.test.tasks && 0 <= k < s.most && !Readable(c, disk, Pretend(c, ph, r), k))
            && (s.errors >= 1 <==>
                exists r, k :: 0 <= r < c.test.tasks && 0 <= k < s.most
                               && Readable(c, disk, Pretend(c, ph, r), k) && !Intact(c, disk, Pretend(c, ph, r), k))
            && (!s.failed && s.errors == 0 <==>
                forall r, k :: 0 <= r < c.test.tasks && 0 <= k < s.most ==> Intact(c, disk, Pretend(c, ph, r), k))
  {
    hide Apply, Enabled, Executes, Final, Intact, Readable, Test.PerTask, Limit, Pretend;
    InitCounts(c, ph, disk);
    InitVerdict(c, ph, disk);
    RunCounts(c, ph, Init(c, disk), run);
    RunVerdict(c, ph, disk, Init(c, disk), run);
    var s := Final(c, ph, Init(c, disk), run);
    assert c.test.tasks > 0;
    assert TaskOk(c, Limit(c, ph.wear), s.most, s.tasks[0]);
    SameAll(c, ph, CountOf(s), r => s.most, disk);
    forall r, k | 0 <= r < c.test.tasks && Intact(c, disk, Pretend(c, ph, r), k)
      ensures Readable(c, disk, Pretend(c, ph, r), k)
    {
      IntactReadable(c, disk, Pretend(c, ph, r), k);
    }
  }

  lemma IntactReadable(c: Config, disk: Disk, p: nat, k: nat)
    requires c.Valid() && Intact(c, disk, p, k)
    ensures Readable(c, disk, p, k)
  {
  }

  /** In particular: a transfer that holds another rank's block, or one of a run with another time stamp, is
      counted as an error. */
  lemma ForeignBlockFound(c: Config, ph: Phase, disk: Disk, run: seq<Event>, r: nat, k: nat, q: nat, o: nat, stamp: UInt32)
    requires Fits(c, ph) && ph.op == Check && Executes(c, ph, Init(c, disk), run)
    requires Done(Final(c, ph, Init(c, disk), run))
    requires r < c.test.tasks && k < Final(c, ph, Init(c, disk), run).most
    requires c.test.t >= 8 && (q != Pretend(c, ph, r) || stamp != c.stamp)
    requires KeyOf(c, Pretend(c, ph, r), k) in disk
    requires disk[KeyOf(c, Pretend(c, ph, r), k)] == Pattern(c.test.t / 8, o, q, stamp)
    ensures Final(c, ph, Init(c, disk), run).errors >= 1
  {
    hide Executes, Final, Done, Init, KeyOf, Config.Valid;
    CheckIsExact(c, ph, disk, run);
    ForeignBlock(c, Pretend(c, ph, r), k, q, o, stamp);
    assert !Intact(c, disk, Pretend(c, ph, r), k) && Readable(c, disk, Pretend(c, ph, r), k);
  }

  lemma ForeignBlock(c: Config, p: nat, k: nat, q: nat, o: nat, stamp: UInt32)
    requires c.Valid() && c.test.t >= 8 && (p != q || stamp != c.stamp)
    ensures Block(c, p, k) != Pattern(c.test.t / 8, o, q, stamp)
  {
    var at := if c.store && Offset(c.test, p, k) > 0 then Offset(c.test, p, k) else 0;
    hide Config.Valid, Offset;
    WordsDiffer(0, p, c.stamp, 0, q, stamp, 0);
    assert Block(c, p, k)[0] == Word(at, p, c.stamp, 0) == Word(0, p, c.stamp, 0);
    assert Pattern(c.test.t / 8, o, q, stamp)[0] == Word(o, q, stamp, 0) == Word(0, q, stamp, 0);
  }

  // ----- what a check cannot tell apart -----

  /** Two accesses whose data the comparison tells apart: rank words differ, or offset words do. */
  predicate Distinguishes(c: Config, r: nat, k: nat, q: nat, l: nat)
    requires c.Valid()
  {
    || (c.test.t >= 8 && r != q)
    || (c.store && c.test.t >= 16 && Offset(c.test, r, k) != Offset(c.test, q, l))
  }

  lemma OffsetInRange(c: Config, r: nat, k: nat)
    requires c.Valid() && r < c.test.tasks && k < c.test.PerTask()
    ensures 0 <= Offset(c.test, r, k) < WORD
  {
    OffsetIsTransfer(c.test, r, k);
    WholeFile(c.test);
    var x := TransferOf(c.test, r, k);
    MulLe(c.test.t, 0, x);
    DigitBelow(c.test.t, x, 0, c.test.InFile());
    hide TransferOf, Offset;
  }

  /** The data of two accesses is the same exactly when the ranks agree, or no word holds the rank, and the
      offsets agree, or no word holds the offset. */
  lemma BlocksDiffer(c: Config, r: nat, k: nat, q: nat, l: nat)
    requires c.Valid() && r < c.test.tasks && q < c.test.tasks && k < c.test.PerTask() && l < c.test.PerTask()
    ensures Block(c, r, k) != Block(c, q, l) <==> Distinguishes(c, r, k, q, l)
  {
    OffsetInRange(c, r, k);
    OffsetInRange(c, q, l);
    hide Offset, Config.Valid, Mismatches, Pattern;
    MismatchCount(c.test.t / 8, if c.store then Offset(c.test, r, k) else 0, r, c.stamp,
                  if c.store then Offset(c.test, q, l) else 0, q, c.stamp);
    NoMismatch(Block(c, r, k), Block(c, q, l));
  }

  /** A check phase that reads the data of another access where one of its own should be, all else being
      intact, misses it exactly when the comparison cannot tell the two apart. */
  lemma DisplacedBlockMissed(c: Config, ph: Phase, disk: Disk, run: seq<Event>, r: nat, k: nat, q: nat, l: nat)
    requires Fits(c, ph) && ph.op == Check && Executes(c, ph, Init(c, disk), run)
    requires Done(Final(c, ph, Init(c, disk), run))
    requires r < c.test.tasks && k < Final(c, ph, Init(c, disk), run).most
    requires q < c.test.tasks && l < c.test.PerTask()
    requires var p := Pretend(c, ph, r);
             && KeyOf(c, p, k) in disk && disk[KeyOf(c, p, k)] == Block(c, q, l)
             && forall x, y :: 0 <= x < c.test.tasks && 0 <= y < Final(c, ph, Init(c, disk), run).most ==>
                  (Pretend(c, ph, x), y) == (p, k) || Intact(c, disk, Pretend(c, ph, x), y)
    ensures var s := Final(c, ph, Init(c, disk), run);
            !s.failed && (s.errors == 0 <==> !Distinguishes(c, Pretend(c, ph, r), k, q, l))
  {
    hide Executes, Final, Done, Init, KeyOf, Block, Config.Valid, Distinguishes, Test.PerTask, Limit;
    CheckIsExact(c, ph, disk, run);
    var s := Final(c, ph, Init(c, disk), run);
    PretendIsTask(c, ph, r);
    LimitBound(c, ph.wear);
    BlocksDiffer(c, Pretend(c, ph, r), k, q, l);
    SameSize(c, Pretend(c, ph, r), k, q, l);
    forall x, y | 0 <= x < c.test.tasks && 0 <= y < s.most
      ensures Readable(c, disk, Pretend(c, ph, x), y)
    {
      if (Pretend(c, ph, x), y) != (Pretend(c, ph, r), k) {
        IntactReadable(c, disk, Pretend(c, ph, x), y);
      }
    }
    if Distinguishes(c, Pretend(c, ph, r), k, q, l) {
      assert !Intact(c, disk, Pretend(c, ph, r), k);
    } else {
      assert Intact(c, disk, Pretend(c, ph, r), k);
    }
  }

  lemma PretendIsTask(c: Config, ph: Phase, r: nat)
    requires Fits(c, ph) && r < c.test.tasks
    ensures Pretend(c, ph, r) < c.test.tasks
  {
  }

  lemma LimitBound(c: Config, wear: nat)
    requires c.Valid()
    ensures Limit(c, wear) <= c.test.PerTask()
  {
    hide Test.PerTask;
  }

  lemma SameSize(c: Config, p: nat, k: nat, q: nat, l: nat)
    requires c.Valid()
    ensures |Block(c, p, k)| == |Block(c, q, l)|
  {
  }

  /** Two ways to be missed: no stored offsets, or a transfer of a single word, which has no room for one. */
  lemma MissedInputs()
    ensures var c := Config(Test(16, 16, 2, 1, false), false, 0, false);
            c.Valid() && Offset(c.test, 0, 0) != Offset(c.test, 0, 1) && Block(c, 0, 0) == Block(c, 0, 1)
    ensures var c := Config(Test(8, 8, 2, 1, false), true, 0, false);
            c.Valid() && Offset(c.test, 0, 0) != Offset(c.test, 0, 1) && Block(c, 0, 0) == Block(c, 0, 1)
  {
    var c := Config(Test(16, 16, 2, 1, false), false, 0, false);
    assert Offset(c.test, 0, 0) == 0 && Offset(c.test, 0, 1) == 16;
    BlocksDiffer(c, 0, 0, 0, 1);
    var d := Config(Test(8, 8, 2, 1, false), true, 0, false);
    assert Offset(d.test, 0, 0) == 0 && Offset(d.test, 0, 1) == 8;
    BlocksDiffer(d, 0, 0, 0, 1);
  }

  // ----- every phase ends -----

  function Total(tasks: seq<Task>): nat
  {
    if tasks == [] then 0 else tasks[0].k + Total(tasks[1..])
  }

  lemma {:induction false} TotalUpdate(tasks: seq<Task>, r: nat, t: Task)
    requires r < |tasks|
    ensures Total(tasks[r := t]) + tasks[r].k == Total(tasks) + t.k
  {
    if r == 0 {
      assert tasks[r := t][1..] == tasks[1..];
    } else {
      assert tasks[r := t][1..] == tasks[1..][r - 1 := t];
      TotalUpdate(tasks[1..], r - 1, t);
    }
  }

  lemma {:induction false} TotalSame(a: seq<Task>, b: seq<Task>)
    requires |a| == |b| && forall r :: 0 <= r < |a| ==> a[r].k == b[r].k
    ensures Total(a) == Total(b)
  {
    if a != [] {
      TotalSame(a[1..], b[1..]);
    }
  }

  lemma {:induction false} TotalBound(tasks: seq<Task>, most: nat)
    requires forall r :: 0 <= r < |tasks| ==> tasks[r].k <= most
    ensures Total(tasks) <= most * |tasks|
  {
    if tasks != [] {
      TotalBound(tasks[1..], most);
      assert most * |tasks| == most * (|tasks| - 1) + most;
    }
  }

  lemma StepTotal(c: Config, ph: Phase, s: State, e: Event)
    requires Fits(c, ph) && Counts(c, ph, s) && Enabled(c, s, e)
    ensures var t := Apply(c, ph, s, e);
            && (e.Reduce? ==> !s.tasks[0].Wear? && t.tasks[0].Wear? && Total(t.tasks) == Total(s.tasks))
            && (!e.Reduce? ==> Total(t.tasks) == Total(s.tasks) + 1 && t.tasks[0].Wear? == s.tasks[0].Wear?)
  {
    assert c.test.tasks > 0 && c.test.t > 0;
    hide Transfer, Most, Config.Valid, Test.PerTask;
    match e
    case Access(r, expired) =>
      TotalUpdate(s.tasks, r, AfterAccess(c, ph, s.tasks[r].k + 1, expired));
    case Reduce =>
      TotalSame(s.tasks, Apply(c, ph, s, e).tasks);
    case Extra(r) =>
      TotalUpdate(s.tasks, r, Wear(s.tasks[r].k + 1));
  }

  lemma {:induction false} RunTotal(c: Config, ph: Phase, s: State, run: seq<Event>)
    requires Fits(c, ph) && Counts(c, ph, s) && Executes(c, ph, s, run)
    ensures c.test.tasks > 0
    ensures |run| + Total(s.tasks) <= Total(Final(c, ph, s, run).tasks) + if s.tasks[0].Wear? then 0 else 1
    decreases |run|
  {
    hide Apply, Enabled, Total;
    assert c.test.tasks > 0;
    if run != [] {
      StepTotal(c, ph, s, run[0]);
      StepCounts(c, ph, s, run[0]);
      RunTotal(c, ph, Apply(c, ph, s, run[0]), run[1..]);
    }
  }

  /** No phase runs on for ever, and one that cannot go on is over for every task. */
  lemma PhaseEnds(c: Config, ph: Phase, disk: Disk, run: seq<Event>)
    requires Fits(c, ph) && Executes(c, ph, Init(c, disk), run)
    ensures |run| <= c.test.PerTask() * c.test.tasks + 1
    ensures (forall e :: !Enabled(c, Final(c, ph, Init(c, disk), run), e)) ==> Done(Final(c, ph, Init(c, disk), run))
  {
    hide Apply, Enabled, Executes, Final, Init, Total, Test.PerTask;
    InitCounts(c, ph, disk);
    RunCounts(c, ph, Init(c, disk), run);
    RunTotal(c, ph, Init(c, disk), run);
    var s := Final(c, ph, Init(c, disk), run);
    CountsBound(c, ph, s);
    assert forall r :: 0 <= r < |s.tasks| ==> s.tasks[r].k == CountOf(s)(r);
    TotalBound(s.tasks, c.test.PerTask());
    if !Done(s) {
      var e := NeverStuck(c, ph, s);
    }
  }

  /** How many events a phase can still have. */
  function EventsLeft(c: Config, s: State): int
    requires c.test.t > 0
  {
    c.test.PerTask() * |s.tasks| - Total(s.tasks)
    + if s.tasks != [] && s.tasks[0].Wear? then 0 else 1
  }

  lemma SomeLeft(c: Config, ph: Phase, s: State)
    requires Fits(c, ph) && Counts(c, ph, s)
    ensures EventsLeft(c, s) >= 0
  {
    hide Test.PerTask;
    CountsBound(c, ph, s);
    assert forall r :: 0 <= r < |s.tasks| ==> s.tasks[r].k == CountOf(s)(r);
    TotalBound(s.tasks, c.test.PerTask());
  }

  /** From every reachable state there is a way to the end: the deadline need never fire again. */
  lemma {:induction false} CanFinish(c: Config, ph: Phase, s: State) returns (run: seq<Event>)
    requires Fits(c, ph) && Counts(c, ph, s)
    ensures Executes(c, ph, s, run) && Done(Final(c, ph, s, run))
    decreases EventsLeft(c, s)
  {
    if Done(s) {
      run := [];
    } else {
      var e := NeverStuck(c, ph, s);
      var t := Apply(c, ph, s, e);
      StepCounts(c, ph, s, e);
      StepTotal(c, ph, s, e);
      SomeLeft(c, ph, t);
      hide Apply, Enabled, Counts, Done, Total, Test.PerTask;
      assert EventsLeft(c, t) < EventsLeft(c, s);
      var rest := CanFinish(c, ph, t);
      run := [e] + rest;
      assert run[1..] == rest;
    }
  }
}
