/** One write, check or read-check phase of ior.c over all tasks, with a stonewalling deadline that may fire for
    any task at any time and the wear-out that evens the tasks' counts. */
module IorPhase {
  import opened IorOffsets
  import opened IorCheck

  /** store is storeFileOffset, deadline whether a stonewalling deadline is set. */
  datatype Config = Config(test: Test, store: bool, stamp: UInt32, deadline: bool)
  {
    ghost predicate Valid()
    {
      test.Valid() && test.PerBlock() > 0 && 0 <= test.PerTask() && test.FileSize() < WORD
    }
  }

  /** A place in the test files: which file, and the byte offset. */
  type Key = (nat, int)
  type Disk = map<Key, seq<nat>>

  /** The place and the contents of access k made in the name of task r. */
  function KeyOf(c: Config, r: nat, k: nat): Key
    requires c.Valid()
  {
    (if c.test.filePerProc then r else 0, Offset(c.test, r, k))
  }

  function Block(c: Config, r: nat, k: nat): seq<nat>
    requires c.Valid()
  {
    Pattern(c.test.t / 8, if c.store && Offset(c.test, r, k) > 0 then Offset(c.test, r, k) else 0, r, c.stamp)
  }

  datatype Op = Write | Check

  /** off[r] is the rank offset of task r, wear the stonewalling iteration limit (0 for none). */
  datatype Phase = Phase(op: Op, off: seq<nat>, wear: nat)

  /** A task in the access loop, waiting in the reduction, or past it; with its pair count. */
  datatype Task = Loop(k: nat) | Wait(k: nat) | Wear(k: nat)

  /** most is the result of the reduction once it happened; errors and failed add up over all tasks. */
  datatype State = State(tasks: seq<Task>, most: nat, disk: Disk, errors: nat, failed: bool)

  datatype Event = Access(r: nat, expired: bool) | Reduce | Extra(r: nat)

  function Pretend(c: Config, ph: Phase, r: nat): nat
    requires c.test.tasks > 0 && r < |ph.off|
  {
    (r + ph.off[r]) % c.test.tasks
  }

  ghost predicate Fits(c: Config, ph: Phase) { c.Valid() && |ph.off| == c.test.tasks }

  function Init(c: Config, disk: Disk): State
    requires c.Valid()
  {
    State(seq(c.test.tasks, _ => if c.test.PerTask() == 0 then Wait(0) else Loop(0)), 0, disk, 0, false)
  }

  /** WriteOrReadSingle: a write stores the pattern, a check compares it; a check of a place never written is a
      failed transfer. */
  function Transfer(c: Config, ph: Phase, s: State, r: nat, k: nat): State
    requires Fits(c, ph) && r < c.test.tasks
  {
    var p := Pretend(c, ph, r);
    var key, block := KeyOf(c, p, k), Block(c, p, k);
    if ph.op == Write then s.(disk := s.disk[key := block])
    else if key !in s.disk then s.(failed := true)
    else if |s.disk[key]| != |block| then s.(failed := true)
    else s.(errors := s.errors + Mismatches(block, s.disk[key]))
  }

  function Most(tasks: seq<Task>): (m: nat)
    ensures forall r :: 0 <= r < |tasks| ==> tasks[r].k <= m
    ensures tasks != [] ==> exists r :: 0 <= r < |tasks| && tasks[r].k == m
  {
    if tasks == [] then 0
    else
      var n := |tasks| - 1;
      var m := Most(tasks[..n]);
      assert forall r :: 0 <= r < n ==> tasks[..n][r] == tasks[r];
      if tasks[n].k > m || n == 0 then tasks[n].k else m
  }

  /** Where a task stands after its k-th access: the deadline, the limit or the end mark stops it. */
  function AfterAccess(c: Config, ph: Phase, k: nat, expired: bool): Task
    requires c.test.t > 0
  {
    if expired || (ph.wear != 0 && k == ph.wear) || k == c.test.PerTask() then Wait(k) else Loop(k)
  }

  ghost predicate Enabled(c: Config, s: State, e: Event)
  {
    match e
    case Access(r, expired) => r < |s.tasks| && s.tasks[r].Loop? && (expired ==> c.deadline)
    case Reduce => forall r :: 0 <= r < |s.tasks| ==> s.tasks[r].Wait?
    case Extra(r) => r < |s.tasks| && s.tasks[r].Wear? && s.tasks[r].k < s.most
  }

  function Apply(c: Config, ph: Phase, s: State, e: Event): State
    requires Fits(c, ph) && |s.tasks| == c.test.tasks && Enabled(c, s, e)
  {
    match e
    case Access(r, expired) =>
      var k := s.tasks[r].k;
      var t := Transfer(c, ph, s, r, k);
      t.(tasks := s.tasks[r := AfterAccess(c, ph, k + 1, expired)])
    case Reduce =>
      s.(most := Most(s.tasks), tasks := seq(|s.tasks|, r requires 0 <= r < |s.tasks| => Wear(s.tasks[r].k)))
    case Extra(r) =>
      var k := s.tasks[r].k;
      var t := Transfer(c, ph, s, r, k);
      t.(tasks := s.tasks[r := Wear(k + 1)])
  }

  ghost predicate Executes(c: Config, ph: Phase, s: State, run: seq<Event>)
    requires Fits(c, ph)
    decreases |run|
  {
    |s.tasks| == c.test.tasks &&
    (run != [] ==> Enabled(c, s, run[0]) && Executes(c, ph, Apply(c, ph, s, run[0]), run[1..]))
  }

  ghost function Final(c: Config, ph: Phase, s: State, run: seq<Event>): (f: State)
    requires Fits(c, ph) && Executes(c, ph, s, run)
    ensures |f.tasks| == c.test.tasks
    decreases |run|
  {
    if run == [] then s else Final(c, ph, Apply(c, ph, s, run[0]), run[1..])
  }

  /** The phase is over: every task left WriteOrRead. */
  ghost predicate Done(s: State)
  {
    forall r :: 0 <= r < |s.tasks| ==> s.tasks[r] == Wear(s.most)
  }

  /** The most accesses a task can make under an iteration limit. */
  function Limit(c: Config, wear: nat): int
    requires c.test.t > 0
  {
    if wear != 0 && wear <= c.test.PerTask() then wear else c.test.PerTask()
  }
}
