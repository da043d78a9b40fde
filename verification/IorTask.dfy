/** One task's part of a phase, as ior.c runs it: the offset array, the buffers, the access loop and the wear-out
    loop. */
module IorTask {
  import opened Arith
  import opened IorOffsets
  import opened IorCheck
  import opened IorPhase

  /** The state after the accesses from `from` up to `upto` of task r, in order. */
  function Accesses(c: Config, ph: Phase, s: State, r: nat, from: nat, upto: nat): State
    requires Fits(c, ph) && r < c.test.tasks && from <= upto
    decreases upto
  {
    if from == upto then s else Transfer(c, ph, Accesses(c, ph, s, r, from, upto - 1), r, upto - 1)
  }

  class Task {
    const c: Config
    const ph: Phase
    const rank: nat
    const buffer: array<nat>
    const readCheckBuffer: array<nat>
    const checkBuffer: array<nat>
    var disk: Disk
    var offset: int
    var transferCount: nat
    var errors: nat
    var failed: bool

    ghost predicate Valid()
      reads this, buffer, readCheckBuffer, checkBuffer
    {
      && Fits(c, ph) && rank < c.test.tasks
      && buffer.Length == readCheckBuffer.Length == checkBuffer.Length == c.test.t / 8
      && buffer != readCheckBuffer && buffer != checkBuffer && readCheckBuffer != checkBuffer
      // without stored offsets the pattern is filled in once, before the phase
      && (!c.store ==>
            && buffer[..] == Pattern(c.test.t / 8, 0, Pretend(c, ph, rank), c.stamp)
            && readCheckBuffer[..] == Pattern(c.test.t / 8, 0, Pretend(c, ph, rank), c.stamp))
    }

    /** The task's view of the shared state. */
    ghost function View(): State
      reads this
    {
      State([], 0, disk, errors, failed)
    }

    constructor (c: Config, ph: Phase, rank: nat, disk: Disk)
      requires Fits(c, ph) && rank < c.test.tasks
      ensures Valid() && this.c == c && this.ph == ph && this.rank == rank
      ensures View() == State([], 0, disk, 0, false)
      ensures fresh(buffer) && fresh(readCheckBuffer) && fresh(checkBuffer)
    {
      this.c, this.ph, this.rank, this.disk := c, ph, rank, disk;
      offset, transferCount, errors, failed := 0, 0, 0, false;
      buffer := new nat[c.test.t / 8];
      readCheckBuffer := new nat[c.test.t / 8];
      checkBuffer := new nat[c.test.t / 8];
      new;
      FillBuffer(buffer, c.test.t, 0, Pretend(c, ph, rank), c.stamp);
      FillBuffer(readCheckBuffer, c.test.t, 0, Pretend(c, ph, rank), c.stamp);
    }

    /** WriteOrReadSingle for writes and checks. */
    method WriteOrReadSingle(pairCnt: nat, offsetArray: array<int>)
      requires Valid() && pairCnt < c.test.PerTask() && pairCnt < offsetArray.Length
      requires offsetArray[pairCnt] == Offset(c.test, Pretend(c, ph, rank), pairCnt)
      requires offsetArray[pairCnt] >= 0
      modifies this, buffer, readCheckBuffer, checkBuffer
      ensures Valid() && View() == Transfer(c, ph, old(View()), rank, pairCnt)
    {
      hide Pattern, Mismatches, Offset, Test.PerTask;
      var pretend := Pretend(c, ph, rank);
      offset := offsetArray[pairCnt];
      var file := if c.test.filePerProc then pretend else 0;
      if ph.op == Write {
        if c.store {
          FillBuffer(buffer, c.test.t, offset, pretend, c.stamp);
        }
        disk := disk[(file, offset) := buffer[..]];
      } else {
        if c.store {
          FillBuffer(readCheckBuffer, c.test.t, offset, pretend, c.stamp);
        }
        if (file, offset) in disk && |disk[(file, offset)]| == checkBuffer.Length {
          Receive(disk[(file, offset)]);
          transferCount := transferCount + 1;
          var e, _, _ := CompareBuffers(readCheckBuffer, checkBuffer, c.test.t);
          errors := errors + e;
        } else {
          failed := true;
        }
      }
    }

    /** The backend's read into the check buffer. */
    method Receive(data: seq<nat>)
      requires |data| == checkBuffer.Length
      modifies checkBuffer
      ensures checkBuffer[..] == data
    {
      for i := 0 to checkBuffer.Length
        invariant checkBuffer[..i] == data[..i]
      {
        checkBuffer[i] := data[i];
      }
    }

    /** The offset array of this task. */
    ghost predicate IsOffsetArray(offsets: seq<int>)
    {
      && Fits(c, ph) && rank < c.test.tasks
      && |offsets| == c.test.PerTask() + 1 && offsets[c.test.PerTask()] == -1
      && forall k :: 0 <= k < c.test.PerTask() ==> offsets[k] == Offset(c.test, Pretend(c, ph, rank), k) && offsets[k] >= 0
    }

    /** Whether the loop ends after access k. */
    predicate Ends(expired: set<nat>, k: nat)
    {
      k in expired || k == ph.wear
    }

    /** The loop over the offsets. */
    method AccessLoop(expired: set<nat>, offsetArray: array<int>) returns (pairCnt: nat)
      requires Valid() && IsOffsetArray(offsetArray[..])
      modifies this, buffer, readCheckBuffer, checkBuffer
      ensures Valid() && pairCnt < offsetArray.Length && offsetArray[..] == old(offsetArray[..])
      ensures View() == Accesses(c, ph, old(View()), rank, 0, pairCnt)
      ensures if offsetArray.Length == 1 then pairCnt == 0
              else pairCnt > 0 && (Ends(expired, pairCnt) || pairCnt == offsetArray.Length - 1)
      ensures forall k :: 0 < k < pairCnt ==> !Ends(expired, k)
    {
      hide Transfer, Offset, Test.FileSize, Test.PerTask, Pattern;
      ghost var offsets := offsetArray[..];
      var hitStonewall := false;
      pairCnt := 0;
      while offsetArray[pairCnt] != -1 && !hitStonewall
        invariant Valid() && 0 <= pairCnt < offsetArray.Length && offsetArray[..] == offsets
        invariant hitStonewall <==> pairCnt > 0 && Ends(expired, pairCnt)
        invariant forall k :: 0 < k < pairCnt ==> !Ends(expired, k)
        invariant View() == Accesses(c, ph, old(View()), rank, 0, pairCnt)
        decreases offsetArray.Length - pairCnt, if hitStonewall then 0 else 1
      {
        assert offsetArray[pairCnt] == offsets[pairCnt];
        WriteOrReadSingle(pairCnt, offsetArray);
        pairCnt := pairCnt + 1;
        hitStonewall := pairCnt in expired || (ph.wear != 0 && pairCnt == ph.wear);
      }
      assert offsetArray[pairCnt] == offsets[pairCnt];
    }

    /** WriteOrRead with sequential offsets and wear-out.  After the accesses in `expired` the deadline has
        passed; others is the largest count any other task brings to the reduction.  The task stops at the first
        access after which the deadline has passed or the iteration limit is reached, at the latest at its last. */
    method WriteOrRead(expired: set<nat>, others: nat) returns (own: nat, pairCnt: nat)
      requires Valid() && others <= c.test.PerTask()
      requires expired != {} ==> c.deadline
      modifies this, buffer, readCheckBuffer, checkBuffer
      ensures Valid()
      ensures c.test.PerTask() > 0 ==> own > 0 && (own in expired || own == ph.wear || own == c.test.PerTask())
      ensures forall k :: 0 < k < own ==> k !in expired && k != ph.wear && k != c.test.PerTask()
      ensures c.test.PerTask() > 0 ==> AfterAccess(c, ph, own, own in expired) == IorPhase.Task.Wait(own)
      ensures forall k :: 0 < k < own ==> AfterAccess(c, ph, k, k in expired) == IorPhase.Task.Loop(k)
      ensures own <= c.test.PerTask() && pairCnt == if own < others then others else own
      ensures View() == Accesses(c, ph, old(View()), rank, 0, pairCnt)
    {
      var offsetArray := GetOffsetArraySequential(c.test, Pretend(c, ph, rank));
      OffsetsNonNegative();
      hide Transfer, Offset, Test.FileSize, Test.PerTask, Pattern;
      ghost var offsets := offsetArray[..];
      own := AccessLoop(expired, offsetArray);
      forall k | 0 < k < own ensures k !in expired && k != ph.wear && k != c.test.PerTask() {
        assert !Ends(expired, k);
      }
      pairCnt := own;
      var most := if own < others then others else own; // MPI_Allreduce
      while pairCnt < most
        invariant Valid() && own <= pairCnt <= most && offsetArray[..] == offsets
        invariant View() == Accesses(c, ph, old(View()), rank, 0, pairCnt)
      {
        assert offsetArray[pairCnt] == offsets[pairCnt];
        WriteOrReadSingle(pairCnt, offsetArray);
        pairCnt := pairCnt + 1;
      }
    }

    lemma OffsetsNonNegative()
      requires Valid()
      ensures forall k: nat :: k < c.test.PerTask() ==> Offset(c.test, Pretend(c, ph, rank), k) >= 0
    {
      forall k: nat | k < c.test.PerTask()
        ensures Offset(c.test, Pretend(c, ph, rank), k) >= 0
      {
        OffsetIsTransfer(c.test, Pretend(c, ph, rank), k);
        MulLe(c.test.t, 0, TransferOf(c.test, Pretend(c, ph, rank), k));
      }
    }
  }
}
