/** The distributed mutex of mpimutex.c.

    The home rank owns one byte per rank.  Inside an exclusive-lock epoch a rank fetches the bytes of
    all the others and stores its own; such an epoch is one atomic step here (MPI-3.1, section 11.5.3).
    Everything else a rank does is a separate step, and the steps of the ranks interleave arbitrarily.
    A byte is modelled by the test the program makes on it: `true` for non-zero.
 */
module Mutex {

  /** Where a rank is in its Lock or Unlock call.  A copy has one entry per OTHER rank. */
  datatype PC =
    | Idle                              // outside both calls, not holding the lock
    | Checking(checkCopy: seq<bool>)    // Lock: epoch done, copy not inspected yet
    | Waiting                           // Lock: blocked in the receive
    | Critical                          // Lock has returned
    | Scanning(scanCopy: seq<bool>)     // Unlock: epoch done, copy not inspected yet
    | Notifying(next: nat)              // Unlock: about to send the wake-up

  /** `wakeups` holds the destinations of the WAKEUP messages sent and not yet received. */
  datatype State = State(waitlist: seq<bool>, pc: seq<PC>, wakeups: multiset<nat>)

  datatype Action = LockEpoch | LockCheck | Receive | UnlockEpoch | UnlockScan | Send

  datatype Event = Event(rank: nat, action: Action)

  // ----- the two index spaces -----

  /** The bytes the indexed datatype selects: all but the rank's own. */
  function Others(w: seq<bool>, me: nat): seq<bool>
    requires me < |w|
  {
    w[..me] + w[me + 1..]
  }

  /** A copy put back into rank numbering, with the rank's own byte clear. */
  function Expand(copy: seq<bool>, me: nat): seq<bool>
    requires me <= |copy|
  {
    copy[..me] + [false] + copy[me..]
  }

  predicate AnySet(w: seq<bool>)
  {
    exists k :: 0 <= k < |w| && w[k]
  }

  /** The first set position of `w` in `[lo, hi)`, or `hi`. */
  function FirstSet(w: seq<bool>, lo: nat, hi: nat): (k: nat)
    requires lo <= hi <= |w|
    ensures lo <= k <= hi
    ensures k < hi ==> w[k]
    ensures forall j :: lo <= j < k ==> !w[j]
    decreases hi - lo
  {
    if lo == hi || w[lo] then lo else FirstSet(w, lo + 1, hi)
  }

  /** The rank an unlocking rank wakes, given everybody's bytes. */
  function NextRank(w: seq<bool>, me: nat): nat
    requires me < |w|
  {
    var k := FirstSet(w, me + 1, |w|);
    if k < |w| then k else FirstSet(w, 0, me)
  }

  /** How many places `b` is after `a` when the ranks stand in a ring. */
  function RingDistance(n: nat, a: nat, b: nat): nat
    requires a < n && b < n
  {
    if a <= b then b - a else b + n - a
  }

  /** The rank chosen is the waiting rank nearest after the unlocker on the ring; it is never the unlocker. */
  lemma NextRankIsNearest(w: seq<bool>, me: nat)
    requires me < |w| && !w[me] && AnySet(w)
    ensures var next := NextRank(w, me);
            && next < |w| && next != me && w[next]
            && forall q :: 0 <= q < |w| && w[q] ==> RingDistance(|w|, me, next) <= RingDistance(|w|, me, q)
  {
    var k := FirstSet(w, me + 1, |w|);
    var m := FirstSet(w, 0, me);
  }

  // ----- steps -----

  predicate Enabled(s: State, e: Event)
  {
    && e.rank < |s.pc| == |s.waitlist|
    && var p := s.pc[e.rank];
       match e.action
       case LockEpoch => p.Idle?
       case LockCheck => p.Checking?
       case Receive => p.Waiting? && e.rank in s.wakeups
       case UnlockEpoch => p.Critical?
       case UnlockScan => p.Scanning? && |p.scanCopy| == |s.pc| - 1
       case Send => p.Notifying?
  }

  /** Enabled says what MPI may let happen, and so admits every run; this says what it has to let happen.
      MPI_Send may block until the receiver stands in its MPI_Recv (`strict`; MPI-3.1, section 3.4). */
  predicate CanStep(s: State, strict: bool, e: Event)
  {
    && Enabled(s, e)
    && (strict && e.action == Send ==> var next := s.pc[e.rank].next; next < |s.pc| && s.pc[next].Waiting?)
  }

  function Apply(s: State, e: Event): State
    requires Enabled(s, e)
  {
    var r := e.rank;
    match e.action
    case LockEpoch =>
      s.(waitlist := s.waitlist[r := true], pc := s.pc[r := Checking(Others(s.waitlist, r))])
    case LockCheck =>
      s.(pc := s.pc[r := if AnySet(s.pc[r].checkCopy) then Waiting else Critical])
    case Receive =>
      s.(pc := s.pc[r := Critical], wakeups := s.wakeups - multiset{r})
    case UnlockEpoch =>
      s.(waitlist := s.waitlist[r := false], pc := s.pc[r := Scanning(Others(s.waitlist, r))])
    case UnlockScan =>
      var copy := s.pc[r].scanCopy;
      s.(pc := s.pc[r := if AnySet(copy) then Notifying(NextRank(Expand(copy, r), r)) else Idle])
    case Send =>
      s.(pc := s.pc[r := Idle], wakeups := s.wakeups + multiset{s.pc[r].next})
  }

  function Init(n: nat): State
  {
    State(seq(n, _ => false), seq(n, _ => Idle), multiset{})
  }

  /** `run` is a possible interleaving from `s`. */
  predicate Executes(s: State, run: seq<Event>)
    decreases |run|
  {
    run == [] || (Enabled(s, run[0]) && Executes(Apply(s, run[0]), run[1..]))
  }

  function Final(s: State, run: seq<Event>): State
    requires Executes(s, run)
    decreases |run|
  {
    if run == [] then s else Final(Apply(s, run[0]), run[1..])
  }

  // ----- the token -----

  /** The rank may enter, is inside, or owes somebody a wake-up. */
  predicate HoldsToken(p: PC)
  {
    match p
    case Checking(copy) => !AnySet(copy)
    case Critical => true
    case Scanning(copy) => AnySet(copy)
    case Notifying(_) => true
    case _ => false
  }

  /** The rank has its byte set and relies on a wake-up. */
  predicate Queued(p: PC)
  {
    p.Waiting? || (p.Checking? && AnySet(p.checkCopy))
  }

  /** Where the token is: with a rank, inside a message, or nowhere. */
  datatype Token = NoToken | At(rank: nat) | InFlight(dest: nat)

  /** What rank `r` looks like when the token is `t`. */
  ghost predicate RankOk(s: State, t: Token, r: nat)
    requires r < |s.pc| == |s.waitlist|
  {
    && (s.waitlist[r] <==> s.pc[r].Checking? || s.pc[r].Waiting? || s.pc[r].Critical?)
    && (t == At(r) <==> HoldsToken(s.pc[r]))
    && match s.pc[r]
       case Checking(copy) => |copy| == |s.pc| - 1
       case Scanning(copy) =>
         && |copy| == |s.pc| - 1
         && forall q :: 0 <= q < |s.pc| && Expand(copy, r)[q] ==> Queued(s.pc[q])
       case Notifying(next) => next < |s.pc| && Queued(s.pc[next])
       case _ => true
  }

  ghost predicate TokenOk(s: State, t: Token)
  {
    match t
    case NoToken => s.wakeups == multiset{} && !AnySet(s.waitlist)
    case At(r) => r < |s.pc| && s.wakeups == multiset{}
    case InFlight(d) => d < |s.pc| && s.wakeups == multiset{d} && Queued(s.pc[d])
  }

  /** The inductive invariant. */
  ghost predicate Inv(s: State, t: Token)
  {
    && |s.pc| == |s.waitlist|
    && TokenOk(s, t)
    && forall r :: 0 <= r < |s.pc| ==> RankOk(s, t, r)
  }

  /** How a step moves the token. */
  function Pass(s: State, t: Token, e: Event): Token
    requires Enabled(s, e)
  {
    match e.action
    case LockEpoch => if AnySet(s.waitlist) then t else At(e.rank)
    case Receive => At(e.rank)
    case UnlockEpoch => if AnySet(s.waitlist[e.rank := false]) then At(e.rank) else NoToken
    case Send => InFlight(s.pc[e.rank].next)
    case _ => t
  }

  function PassAll(s: State, t: Token, run: seq<Event>): Token
    requires Executes(s, run)
    decreases |run|
  {
    if run == [] then t else PassAll(Apply(s, run[0]), Pass(s, t, run[0]), run[1..])
  }

  lemma ExpandOthers(w: seq<bool>, me: nat)
    requires me < |w|
    ensures |Others(w, me)| == |w| - 1
    ensures Expand(Others(w, me), me) == w[me := false]
    ensures AnySet(Others(w, me)) <==> AnySet(w[me := false])
  {
    var o := Others(w, me);
    assert Expand(o, me) == w[me := false];
    ExpandAnySet(o, me);
  }

  lemma ExpandAnySet(copy: seq<bool>, me: nat)
    requires me <= |copy|
    ensures AnySet(copy) <==> AnySet(Expand(copy, me))
  {
    var w := Expand(copy, me);
    if k :| 0 <= k < |copy| && copy[k] {
      assert w[if k < me then k else k + 1];
    }
    if k :| 0 <= k < |w| && w[k] {
      assert copy[if k < me then k else k - 1];
    }
  }
}
