/** Bounded bypass and freedom from deadlock of mpimutex.c, over every interleaving. */
module MutexFairness {
  import opened Mutex
  import opened MutexSafety

  /** The rank the token is at or on its way to. */
  ghost function Target(s: State, t: Token): nat
    requires Inv(s, t) && t != NoToken
  {
    match t
    case InFlight(d) => d
    case At(r) =>
      match s.pc[r]
      case Scanning(copy) => (assert RankOk(s, t, r); NextRank(Expand(copy, r), r))
      case Notifying(next) => next
      case _ => r
  }

  lemma TargetInRange(s: State, t: Token)
    requires Inv(s, t) && t != NoToken
    ensures Target(s, t) < |s.pc|
  {
    if t.At? {
      assert RankOk(s, t, t.rank);
      if s.pc[t.rank].Scanning? {
        ExpandAnySet(s.pc[t.rank].scanCopy, t.rank);
        NextRankIsNearest(Expand(s.pc[t.rank].scanCopy, t.rank), t.rank);
      }
    }
  }

  /** How far the token still has to travel round the ring to reach `q`. */
  ghost function Distance(s: State, t: Token, q: nat): nat
    requires Inv(s, t) && q < |s.pc| && s.waitlist[q]
  {
    TargetInRange(s, t);
    RingDistance(|s.pc|, Target(s, t), q)
  }

  /** Does the step bring a rank other than `q` into the critical section? */
  predicate EntersOther(s: State, e: Event, q: nat)
    requires Enabled(s, e)
  {
    e.rank != q && !s.pc[e.rank].Critical? && Apply(s, e).pc[e.rank].Critical?
  }

  /** How many other ranks can still enter before `q`. */
  ghost function Ahead(s: State, t: Token, q: nat): nat
    requires Inv(s, t) && q < |s.pc| && s.waitlist[q]
  {
    var d := Distance(s, t, q);
    if d == 0 then 0 else if t.At? && s.pc[t.rank].Critical? then d - 1 else d
  }

  lemma UnlockEpochDistance(s: State, t: Token, r: nat, q: nat)
    requires Inv(s, t) && Enabled(s, Event(r, UnlockEpoch))
    requires q < |s.pc| && q != r && s.waitlist[q]
    ensures var e := Event(r, UnlockEpoch);
            && Inv(Apply(s, e), Pass(s, t, e))
            && Distance(Apply(s, e), Pass(s, t, e), q) < Distance(s, t, q)
  {
    var e := Event(r, UnlockEpoch);
    var w := s.waitlist[r := false];
    StepInv(s, t, e);
    assert RankOk(s, t, r);
    assert w[q];
    ExpandOthers(s.waitlist, r);
    NextRankIsNearest(w, r);
  }

  /** While `q`'s byte stays set no step moves the token away from it, every unlock brings it nearer, and
      every entry of another rank uses up one of the places ahead. */
  lemma StepDistance(s: State, t: Token, e: Event, q: nat)
    requires Inv(s, t) && Enabled(s, e) && q < |s.pc|
    requires s.waitlist[q] && Apply(s, e).waitlist[q]
    ensures var s', t' := Apply(s, e), Pass(s, t, e);
            && Inv(s', t')
            && Distance(s', t', q) + (if e.action == UnlockEpoch then 1 else 0) <= Distance(s, t, q)
            && Ahead(s', t', q) + (if EntersOther(s, e, q) then 1 else 0) <= Ahead(s, t, q)
  {
    StepInv(s, t, e);
    TargetInRange(s, t);
    assert RankOk(s, t, e.rank);
    if e.action == UnlockEpoch {
      UnlockEpochDistance(s, t, e.rank, q);
    } else if e.action == UnlockScan && t == At(e.rank) {
      assert Target(Apply(s, e), t) == Target(s, t);
    }
  }

  /** `q`'s byte is set in every state the run passes through. */
  predicate StaysSet(s: State, run: seq<Event>, q: nat)
    requires Executes(s, run)
    decreases |run|
  {
    && q < |s.waitlist| && s.waitlist[q]
    && (run == [] || StaysSet(Apply(s, run[0]), run[1..], q))
  }

  function UnlockEpochs(run: seq<Event>): nat
  {
    if run == [] then 0 else (if run[0].action == UnlockEpoch then 1 else 0) + UnlockEpochs(run[1..])
  }

  function EntriesOfOthers(s: State, run: seq<Event>, q: nat): nat
    requires Executes(s, run)
    decreases |run|
  {
    if run == [] then 0
    else (if EntersOther(s, run[0], q) then 1 else 0) + EntriesOfOthers(Apply(s, run[0]), run[1..], q)
  }

  lemma {:induction false} RunDistance(s: State, t: Token, run: seq<Event>, q: nat)
    requires Inv(s, t) && Executes(s, run) && StaysSet(s, run, q)
    ensures var s', t' := Final(s, run), PassAll(s, t, run);
            && Inv(s', t') && q < |s'.pc| && s'.waitlist[q]
            && UnlockEpochs(run) + Distance(s', t', q) <= Distance(s, t, q)
            && EntriesOfOthers(s, run, q) + Ahead(s', t', q) <= Ahead(s, t, q)
    decreases |run|
  {
    if run != [] {
      StepDistance(s, t, run[0], q);
      RunDistance(Apply(s, run[0]), Pass(s, t, run[0]), run[1..], q);
    }
  }

  /** Take any reachable state in which `q` has its byte set, and run on for as long as it stays set.
      At most n - 1 hand-offs happen, at most n - 1 times does another rank enter, and if n - 1
      hand-offs do happen the token has been handed to `q`. */
  lemma BoundedBypass(n: nat, before: seq<Event>, run: seq<Event>, q: nat)
    requires Executes(Init(n), before)
    requires Executes(Final(Init(n), before), run) && StaysSet(Final(Init(n), before), run, q)
    ensures UnlockEpochs(run) <= n - 1
    ensures EntriesOfOthers(Final(Init(n), before), run, q) <= n - 1
    ensures var s, t := Final(Init(n), before), PassAll(Init(n), NoToken, before);
            var s', t' := Final(s, run), PassAll(s, t, run);
            && Inv(s', t') && t' != NoToken
            && (UnlockEpochs(run) == n - 1 ==> Target(s', t') == q)
  {
    InitInv(n);
    RunInv(Init(n), NoToken, before);
    var s, t := Final(Init(n), before), PassAll(Init(n), NoToken, before);
    RunDistance(s, t, run, q);
    TargetInRange(s, t);
    var s', t' := Final(s, run), PassAll(s, t, run);
    RunInv(s, t, run);
    TargetInRange(s', t');
  }

  // ----- no deadlock -----

  /** How many steps a rank can still take without calling Lock again. */
  function StepsLeft(p: PC): nat
  {
    match p
    case Idle => 0
    case Notifying(_) => 1
    case Scanning(_) => 2
    case Critical => 3
    case Waiting => 4
    case Checking(_) => 5
  }

  function Work(pc: seq<PC>): nat
  {
    if pc == [] then 0 else StepsLeft(pc[0]) + Work(pc[1..])
  }

  lemma {:induction false} WorkUpdate(pc: seq<PC>, r: nat, p: PC)
    requires r < |pc|
    ensures Work(pc[r := p]) + StepsLeft(pc[r]) == Work(pc) + StepsLeft(p)
  {
    if r == 0 {
      assert pc[r := p][1..] == pc[1..];
    } else {
      assert pc[r := p][1..] == pc[1..][r - 1 := p];
      WorkUpdate(pc[1..], r - 1, p);
    }
  }

  function LockCalls(run: seq<Event>): nat
  {
    if run == [] then 0 else (if run[0].action == LockEpoch then 1 else 0) + LockCalls(run[1..])
  }

  lemma {:induction false} RunLength(s: State, run: seq<Event>)
    requires Executes(s, run)
    ensures |run| + Work(Final(s, run).pc) <= Work(s.pc) + 6 * LockCalls(run)
    decreases |run|
  {
    if run != [] {
      var s' := Apply(s, run[0]);
      WorkUpdate(s.pc, run[0].rank, s'.pc[run[0].rank]);
      RunLength(s', run[1..]);
    }
  }

  lemma {:induction false} NoWork(n: nat)
    ensures Work(seq(n, _ => Idle)) == 0
  {
    if n > 0 {
      assert seq(n, _ => Idle)[1..] == seq(n - 1, _ => Idle);
      NoWork(n - 1);
    }
  }

  /** The token never gets stuck.  The rank that has it, or that a message carries it to, is inside a call and
      can take its next step; or its send has to wait for the receiver, and then the receiver, which has its
      byte set and has not looked at its copy yet, can. */
  lemma TokenCanMove(s: State, t: Token, strict: bool)
    requires Inv(s, t) && t != NoToken
    ensures exists e: Event :: e.action != LockEpoch && CanStep(s, strict, e)
                        && (e.rank == (if t.At? then t.rank else t.dest)
                            || (t.At? && s.pc[t.rank] == Notifying(e.rank) && e.action == LockCheck))
  {
    var r := if t.At? then t.rank else t.dest;
    assert RankOk(s, t, r);
    if s.pc[r].Notifying? && s.pc[s.pc[r].next].Checking? {
      assert CanStep(s, strict, Event(s.pc[r].next, LockCheck));
    } else {
      var a := match s.pc[r]
               case Checking(_) => LockCheck
               case Waiting => Receive
               case Critical => UnlockEpoch
               case Scanning(_) => UnlockScan
               case _ => Send;
      assert CanStep(s, strict, Event(r, a));
    }
  }

  /** If no call in progress can take a step, no call is in progress: nobody is left in the receive. */
  lemma StuckOnlyWhenIdle(s: State, t: Token, strict: bool)
    requires Inv(s, t)
    requires forall e: Event :: e.action != LockEpoch ==> !CanStep(s, strict, e)
    ensures s == Init(|s.pc|)
  {
    if t != NoToken {
      TokenCanMove(s, t, strict);
      assert false;
    }
    forall r | 0 <= r < |s.pc| ensures s.pc[r] == Idle && !s.waitlist[r] {
      assert RankOk(s, t, r);
      var scan := Event(r, UnlockScan);
      assert !CanStep(s, strict, scan);
    }
    assert s.pc == Init(|s.pc|).pc && s.waitlist == Init(|s.pc|).waitlist;
  }

  /** No interleaving with k Lock calls is longer than 6k steps, and one that cannot be prolonged without
      another Lock call has returned every call and put everything back as it was at the start, even if no
      send is ever buffered. */
  lemma EveryCallCompletes(n: nat, run: seq<Event>, strict: bool)
    requires Executes(Init(n), run)
    ensures |run| <= 6 * LockCalls(run)
    ensures (forall e: Event :: e.action != LockEpoch ==> !CanStep(Final(Init(n), run), strict, e))
            ==> Final(Init(n), run) == Init(n)
  {
    RunLength(Init(n), run);
    NoWork(n);
    InitInv(n);
    RunInv(Init(n), NoToken, run);
    if forall e: Event :: e.action != LockEpoch ==> !CanStep(Final(Init(n), run), strict, e) {
      StuckOnlyWhenIdle(Final(Init(n), run), PassAll(Init(n), NoToken, run), strict);
    }
  }
}
