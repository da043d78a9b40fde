/** mpimutex.c as it runs: the home rank's byte array, each rank's place in its call, and the steps that
    change them in place.  Every step is proved to be the step of the same name of module Mutex. */
module MutexWorld {
  import opened Mutex

  class World {
    const waitlist: array<bool>
    const pc: array<PC>
    var wakeups: multiset<nat>

    ghost predicate Valid()
      reads this, waitlist, pc
    {
      waitlist.Length == pc.Length
    }

    ghost function Value(): State
      reads this, waitlist, pc
    {
      State(waitlist[..], pc[..], wakeups)
    }

    /** MPIMUTEX_Create on all ranks: the home rank clears the bytes. */
    constructor (nprocs: nat)
      ensures Valid() && fresh(waitlist) && fresh(pc)
      ensures Value() == Init(nprocs)
    {
      waitlist := new bool[nprocs](_ => false);
      pc := new PC[nprocs](_ => Idle);
      wakeups := multiset{};
      new;
      assert waitlist[..] == Init(nprocs).waitlist;
      assert pc[..] == Init(nprocs).pc;
    }

    /** The exclusive-lock epoch both calls open with: get the others' bytes, put one's own. */
    method Epoch(me: nat, val: bool) returns (copy: seq<bool>)
      requires Valid() && me < waitlist.Length
      modifies waitlist
      ensures copy == Others(old(waitlist[..]), me)
      ensures waitlist[..] == old(waitlist[..])[me := val]
    {
      copy := waitlist[..me] + waitlist[me + 1..];
      waitlist[me] := val;
    }

    method LockEpochStep(me: nat)
      requires Valid() && Enabled(Value(), Event(me, LockEpoch))
      modifies this, waitlist, pc
      ensures Valid() && Value() == Apply(old(Value()), Event(me, LockEpoch))
    {
      var copy := Epoch(me, true);
      pc[me] := Checking(copy);
    }

    method LockCheckStep(me: nat)
      requires Valid() && Enabled(Value(), Event(me, LockCheck))
      modifies this, pc
      ensures Valid() && Value() == Apply(old(Value()), Event(me, LockCheck))
    {
      var held := AnyoneElse(pc[me].checkCopy);
      pc[me] := if held then Waiting else Critical;
    }

    method ReceiveStep(me: nat)
      requires Valid() && Enabled(Value(), Event(me, Receive))
      modifies this, pc
      ensures Valid() && Value() == Apply(old(Value()), Event(me, Receive))
    {
      wakeups := wakeups - multiset{me};
      pc[me] := Critical;
    }

    method UnlockEpochStep(me: nat)
      requires Valid() && Enabled(Value(), Event(me, UnlockEpoch))
      modifies this, waitlist, pc
      ensures Valid() && Value() == Apply(old(Value()), Event(me, UnlockEpoch))
    {
      var copy := Epoch(me, false);
      pc[me] := Scanning(copy);
    }

    method UnlockScanStep(me: nat)
      requires Valid() && Enabled(Value(), Event(me, UnlockScan))
      modifies this, pc
      ensures Valid() && Value() == Apply(old(Value()), Event(me, UnlockScan))
    {
      var copy := pc[me].scanCopy;
      var waiting := AnyoneElse(copy);
      if waiting {
        var nextrank := FindNext(copy, me);
        pc[me] := Notifying(nextrank);
      } else {
        pc[me] := Idle;
      }
    }

    method SendStep(me: nat)
      requires Valid() && Enabled(Value(), Event(me, Send))
      modifies this, pc
      ensures Valid() && Value() == Apply(old(Value()), Event(me, Send))
    {
      wakeups := wakeups + multiset{pc[me].next};
      pc[me] := Idle;
    }
  }

  /** The loop both calls use to see whether any other byte is set. */
  method AnyoneElse(copy: seq<bool>) returns (found: bool)
    ensures found <==> AnySet(copy)
  {
    var i := 0;
    while i < |copy| && !copy[i]
      invariant 0 <= i <= |copy|
      invariant forall k :: 0 <= k < i ==> !copy[k]
    {
      i := i + 1;
    }
    found := i < |copy|;
  }

  /** The two scans of Unlock over the COMPRESSED copy, with their index correction.  The result is, in
      rank numbering, the nearest waiting rank after `me` on the ring, and never `me` itself. */
  method FindNext(copy: seq<bool>, me: nat) returns (nextrank: nat)
    requires me <= |copy| && AnySet(copy)
    ensures nextrank == NextRank(Expand(copy, me), me)
    ensures nextrank <= |copy| && nextrank != me && Expand(copy, me)[nextrank]
    ensures forall q :: 0 <= q <= |copy| && Expand(copy, me)[q] ==>
              RingDistance(|copy| + 1, me, nextrank) <= RingDistance(|copy| + 1, me, q)
  {
    ghost var w := Expand(copy, me);
    ghost var above, below := FirstSet(w, me + 1, |w|), FirstSet(w, 0, me);
    ExpandAnySet(copy, me);
    NextRankIsNearest(w, me);
    nextrank := me;
    while nextrank < |copy| && !copy[nextrank]
      invariant me <= nextrank <= |copy|
      invariant forall k :: me < k <= nextrank ==> !w[k]
    {
      assert !w[nextrank + 1];
      nextrank := nextrank + 1;
    }
    if nextrank < |copy| {
      nextrank := nextrank + 1;
      assert w[nextrank];
      assert above == nextrank;
    } else {
      nextrank := 0;
      while nextrank < me && !copy[nextrank]
        invariant 0 <= nextrank <= me
        invariant forall k :: 0 <= k < nextrank ==> !w[k]
      {
        nextrank := nextrank + 1;
      }
      assert nextrank != me;
      assert w[nextrank];
      assert below == nextrank;
      assert above == |w|;
    }
  }
}
