/** Mutual exclusion and the token of mpimutex.c, over every interleaving. */
module MutexSafety {
  import opened Mutex

  lemma InitInv(n: nat)
    ensures Inv(Init(n), NoToken)
  {
  }

  /** Some rank's byte vouches for the token. */
  lemma TokenMeansSet(s: State, t: Token)
    requires Inv(s, t) && t != NoToken
    ensures AnySet(s.waitlist)
  {
    if t.InFlight? {
      assert RankOk(s, t, t.dest);
    } else {
      assert RankOk(s, t, t.rank);
      if s.pc[t.rank].Scanning? {
        ExpandAnySet(s.pc[t.rank].scanCopy, t.rank);
        var q :| 0 <= q < |s.pc| && Expand(s.pc[t.rank].scanCopy, t.rank)[q];
        assert RankOk(s, t, q);
      } else if s.pc[t.rank].Notifying? {
        assert RankOk(s, t, s.pc[t.rank].next);
      }
    }
  }

  /** A rank that is not stepping keeps its part of the invariant if the waiters stay waiters and the
      token does not come or go at that rank. */
  lemma OtherRankOk(s: State, t: Token, s': State, t': Token, q: nat)
    requires Inv(s, t) && |s'.pc| == |s'.waitlist| == |s.pc| && q < |s.pc|
    requires s'.pc[q] == s.pc[q] && s'.waitlist[q] == s.waitlist[q]
    requires (t == At(q)) == (t' == At(q))
    requires s.pc[q].Scanning? || s.pc[q].Notifying? ==>
               forall k :: 0 <= k < |s.pc| && Queued(s.pc[k]) ==> Queued(s'.pc[k])
    ensures RankOk(s', t', q)
  {
    assert RankOk(s, t, q);
  }

  lemma LockEpochInv(s: State, t: Token, r: nat)
    requires Inv(s, t) && Enabled(s, Event(r, LockEpoch))
    ensures var e := Event(r, LockEpoch); Inv(Apply(s, e), Pass(s, t, e))
  {
    var e := Event(r, LockEpoch);
    var s', t' := Apply(s, e), Pass(s, t, e);
    assert RankOk(s, t, r);
    assert s.waitlist[r := false] == s.waitlist;
    ExpandOthers(s.waitlist, r);
    if !AnySet(s.waitlist) && t != NoToken {
      TokenMeansSet(s, t);
    }
    forall q | 0 <= q < |s.pc| ensures RankOk(s', t', q) {
      if q != r {
        OtherRankOk(s, t, s', t', q);
      }
    }
  }

  lemma LockCheckInv(s: State, t: Token, r: nat)
    requires Inv(s, t) && Enabled(s, Event(r, LockCheck))
    ensures var e := Event(r, LockCheck); Inv(Apply(s, e), Pass(s, t, e))
  {
    var s' := Apply(s, Event(r, LockCheck));
    assert RankOk(s, t, r);
    forall q | 0 <= q < |s.pc| ensures RankOk(s', t, q) {
      if q != r {
        OtherRankOk(s, t, s', t, q);
      }
    }
  }

  lemma ReceiveInv(s: State, t: Token, r: nat)
    requires Inv(s, t) && Enabled(s, Event(r, Receive))
    ensures var e := Event(r, Receive); Inv(Apply(s, e), Pass(s, t, e))
  {
    var s' := Apply(s, Event(r, Receive));
    assert RankOk(s, t, r);
    assert t == InFlight(r);
    forall q | 0 <= q < |s.pc| ensures RankOk(s', At(r), q) {
      assert RankOk(s, t, q);
      if s.pc[q].Scanning? {
        ExpandAnySet(s.pc[q].scanCopy, q);
      }
    }
  }

  lemma UnlockEpochInv(s: State, t: Token, r: nat)
    requires Inv(s, t) && Enabled(s, Event(r, UnlockEpoch))
    ensures var e := Event(r, UnlockEpoch); Inv(Apply(s, e), Pass(s, t, e))
  {
    var e := Event(r, UnlockEpoch);
    var s', t' := Apply(s, e), Pass(s, t, e);
    assert RankOk(s, t, r);
    assert t == At(r);
    ExpandOthers(s.waitlist, r);
    forall q | 0 <= q < |s.pc| && s'.waitlist[q] ensures Queued(s'.pc[q]) {
      assert RankOk(s, t, q);
    }
    forall q | 0 <= q < |s.pc| ensures RankOk(s', t', q) {
      if q != r {
        assert RankOk(s, t, q);
        OtherRankOk(s, t, s', t', q);
      }
    }
  }

  lemma UnlockScanInv(s: State, t: Token, r: nat)
    requires Inv(s, t) && Enabled(s, Event(r, UnlockScan))
    ensures var e := Event(r, UnlockScan); Inv(Apply(s, e), Pass(s, t, e))
  {
    var s' := Apply(s, Event(r, UnlockScan));
    var copy := s.pc[r].scanCopy;
    assert RankOk(s, t, r);
    ExpandAnySet(copy, r);
    if AnySet(copy) {
      NextRankIsNearest(Expand(copy, r), r);
    }
    forall q | 0 <= q < |s.pc| ensures RankOk(s', t, q) {
      if q != r {
        OtherRankOk(s, t, s', t, q);
      }
    }
  }

  lemma SendInv(s: State, t: Token, r: nat)
    requires Inv(s, t) && Enabled(s, Event(r, Send))
    ensures var e := Event(r, Send); Inv(Apply(s, e), Pass(s, t, e))
  {
    var e := Event(r, Send);
    var s', t' := Apply(s, e), Pass(s, t, e);
    assert RankOk(s, t, r);
    forall q | 0 <= q < |s.pc| ensures RankOk(s', t', q) {
      if q != r {
        OtherRankOk(s, t, s', t', q);
      }
    }
  }

  /** Every step of every rank keeps the invariant. */
  lemma StepInv(s: State, t: Token, e: Event)
    requires Inv(s, t) && Enabled(s, e)
    ensures Inv(Apply(s, e), Pass(s, t, e))
  {
    match e.action
    case LockEpoch => LockEpochInv(s, t, e.rank);
    case LockCheck => LockCheckInv(s, t, e.rank);
    case Receive => ReceiveInv(s, t, e.rank);
    case UnlockEpoch => UnlockEpochInv(s, t, e.rank);
    case UnlockScan => UnlockScanInv(s, t, e.rank);
    case Send => SendInv(s, t, e.rank);
  }

  lemma {:induction false} RunInv(s: State, t: Token, run: seq<Event>)
    requires Inv(s, t) && Executes(s, run)
    ensures Inv(Final(s, run), PassAll(s, t, run))
    ensures |Final(s, run).pc| == |s.pc|
    decreases |run|
  {
    if run != [] {
      StepInv(s, t, run[0]);
      RunInv(Apply(s, run[0]), Pass(s, t, run[0]), run[1..]);
    }
  }

  /** In every reachable state at most one rank is between Lock's return and Unlock's epoch. */
  lemma MutualExclusion(n: nat, run: seq<Event>, r: nat, q: nat)
    requires Executes(Init(n), run) && r < n && q < n
    ensures var s := Final(Init(n), run);
            |s.pc| == n && (s.pc[r].Critical? && s.pc[q].Critical? ==> r == q)
  {
    InitInv(n);
    RunInv(Init(n), NoToken, run);
    var s, t := Final(Init(n), run), PassAll(Init(n), NoToken, run);
    assert RankOk(s, t, r) && RankOk(s, t, q);
  }

  /** Ranks holding the token, plus messages carrying it. */
  ghost function Tokens(s: State): nat
  {
    |set r | 0 <= r < |s.pc| && HoldsToken(s.pc[r])| + |s.wakeups|
  }

  /** In every reachable state there is one token if some byte is set, and none otherwise. */
  lemma OneTokenIffWaitlistNonEmpty(n: nat, run: seq<Event>)
    requires Executes(Init(n), run)
    ensures var s := Final(Init(n), run); Tokens(s) == if AnySet(s.waitlist) then 1 else 0
  {
    InitInv(n);
    RunInv(Init(n), NoToken, run);
    TokenCount(Final(Init(n), run), PassAll(Init(n), NoToken, run));
  }

  lemma TokenCount(s: State, t: Token)
    requires Inv(s, t)
    ensures Tokens(s) == if AnySet(s.waitlist) then 1 else 0
  {
    var holders := set r | 0 <= r < |s.pc| && HoldsToken(s.pc[r]);
    forall r | 0 <= r < |s.pc| ensures r in holders <==> t == At(r) {
      assert RankOk(s, t, r);
    }
    assert holders == if t.At? then {t.rank} else {};
    if t != NoToken {
      TokenMeansSet(s, t);
    }
  }

  /** A wake-up is only ever in flight, or about to be sent, to another rank that has set its byte, has
      seen somebody else's, and has not been served: it is in the receive or on its way there. */
  lemma WakeupsReachWaiters(n: nat, run: seq<Event>)
    requires Executes(Init(n), run)
    ensures var s := Final(Init(n), run);
            && |s.pc| == |s.waitlist| == n
            && (forall d :: d in s.wakeups ==> s.wakeups[d] == 1 && d < n && s.waitlist[d] && Queued(s.pc[d]))
            && (forall r :: 0 <= r < n && s.pc[r].Notifying? ==>
                  var d := s.pc[r].next; d < n && d != r && s.waitlist[d] && Queued(s.pc[d]))
  {
    InitInv(n);
    RunInv(Init(n), NoToken, run);
    var s, t := Final(Init(n), run), PassAll(Init(n), NoToken, run);
    forall d | d in s.wakeups ensures s.wakeups[d] == 1 && d < n && s.waitlist[d] {
      assert RankOk(s, t, d);
    }
    forall r | 0 <= r < n && s.pc[r].Notifying?
      ensures var d := s.pc[r].next; d < n && d != r && s.waitlist[d] && Queued(s.pc[d])
    {
      assert RankOk(s, t, r);
      assert RankOk(s, t, s.pc[r].next);
    }
  }
}
