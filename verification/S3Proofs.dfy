/** Part numbers, list positions and file offsets agree, and when. */
module S3Proofs {
  import opened Arith
  import opened IorOffsets
  import opened S3Upload

  lemma PerTaskSize(test: Test)
    requires test.Valid()
    ensures test.PerBlock() > 0 && 0 <= test.PerTask()
    ensures test.s > 0 ==> test.PerTask() > 0
  {
    BlockSize(test);
    MulLe(test.PerBlock(), 0, test.s);
    if test.s > 0 {
      MulLe(test.PerBlock(), 1, test.s);
    }
  }

  /** The place at which the completion list has the k-th write of a rank is the number that write was uploaded
      under; and the list names every write exactly once. */
  lemma PartIsListPosition(test: Test, rank: nat, k: nat, x: nat)
    requires test.Valid() && !test.filePerProc && test.s > 0
    requires rank < test.tasks && k < test.PerTask() && x < test.PerTask() * test.tasks
    ensures test.PerTask() > 0
    ensures 0 <= PartNumber(test, rank, k) < test.PerTask() * test.tasks
    ensures ListedRank(Segmented(test), test.tasks, test.PerTask(), x) == rank
            && ListedWrite(Segmented(test), test.tasks, test.PerTask(), x) == k
            <==> x == PartNumber(test, rank, k)
  {
    PerTaskSize(test);
    var p, n := test.PerTask(), test.tasks;
    if Segmented(test) {
      assert p == test.PerBlock();
      assert p * rank == rank * p;
      Digits(p, rank, k);
      DigitBelow(p, rank, k, n);
      DivMod(p, x);
    } else {
      assert n * k == k * n && p * n == n * p;
      Digits(n, k, rank);
      DigitBelow(n, k, rank, p);
      DivMod(n, x);
    }
  }

  /** When the offsets of the file are in part order. */
  predicate InOrder(test: Test)
  {
    test.filePerProc || test.s <= 1 || test.b == test.t || test.tasks == 1
  }

  /** In these cases the part number is the file offset divided by the transfer size. */
  lemma PartIsOffset(test: Test, rank: nat, k: nat)
    requires test.Valid() && InOrder(test) && rank < test.tasks && k < test.PerTask()
    ensures test.PerBlock() > 0 && Offset(test, rank, k) == test.t * PartNumber(test, rank, k)
  {
    PerTaskSize(test);
    OffsetIsTransfer(test, rank, k);
    hide Offset;
    var p := test.PerBlock();
    DivMod(p, k);
    if !test.filePerProc {
      assert rank * p == p * rank && k * test.tasks == test.tasks * k;
      if test.s == 1 {
        OneSegment(p, test.tasks, rank, k);
      } else if test.b == test.t {
        UnitBlock(test);
        assert test.s > 0;
      } else {
        assert rank == 0;
      }
    }
  }

  lemma OneSegment(p: nat, n: nat, rank: nat, k: nat)
    requires 0 < p && k < p
    ensures p * (n * (k / p) + rank) + k % p == p * rank + k
  {
    assert k / p == 0 && k % p == k;
    assert n * 0 == 0;
  }

  lemma UnitBlock(test: Test)
    requires test.Valid() && test.b == test.t
    ensures test.PerBlock() == 1
  {
  }

  /** In every other case the numbers are out of order: the write of rank 1 that opens the file's second block is
      uploaded as part 1, but belongs at a later place. */
  lemma OutOfOrder(test: Test)
    requires test.Valid() && !InOrder(test)
    ensures test.PerBlock() > 0 && 1 < test.tasks && 0 < test.PerTask()
    ensures PartNumber(test, 1, 0) == 1 && Offset(test, 1, 0) == test.b > test.t
  {
    PerTaskSize(test);
    BlockSize(test);
    var p := test.PerBlock();
    assert p != 1;
    MulLe(test.t, 2, p);
    assert p * test.t == test.t * p;
    assert 0 / p == 0 && 0 % p == 0;
    assert 0 * test.tasks * test.b == 0;
  }

  /** Exactly when the part number of every write is its place in the file. */
  lemma PartsInFileOrderIff(test: Test)
    requires test.Valid()
    ensures test.PerBlock() > 0
    ensures (forall rank: nat, k: nat :: rank < test.tasks && k < test.PerTask() ==>
               Offset(test, rank, k) == test.t * PartNumber(test, rank, k))
            <==> InOrder(test)
  {
    PerTaskSize(test);
    hide Offset, PartNumber;
    if InOrder(test) {
      forall rank: nat, k: nat | rank < test.tasks && k < test.PerTask()
        ensures Offset(test, rank, k) == test.t * PartNumber(test, rank, k)
      {
        PartIsOffset(test, rank, k);
      }
    } else {
      OutOfOrder(test);
      assert Offset(test, 1, 0) != test.t * PartNumber(test, 1, 0);
    }
  }

  /** The object the server makes of the listed parts: one after the other. */
  function Assembled<T>(parts: seq<seq<T>>): seq<T>
  {
    if parts == [] then [] else Assembled(parts[..|parts| - 1]) + parts[|parts| - 1]
  }

  lemma {:induction false} AssembledAt<T>(parts: seq<seq<T>>, t: nat, x: nat)
    requires forall y :: 0 <= y < |parts| ==> |parts[y]| == t
    requires x < |parts|
    ensures |Assembled(parts)| == t * |parts| && 0 <= t * x && t * x + t <= t * |parts|
    ensures Assembled(parts)[t * x..t * x + t] == parts[x]
    decreases |parts|
  {
    var n := |parts| - 1;
    NextPart(t, n, x);
    AssembledLength(parts[..n], t);
    var front := Assembled(parts[..n]);
    assert Assembled(parts) == front + parts[n];
    if x < n {
      AssembledAt(parts[..n], t, x);
      FrontSlice(front, parts[n], t * x, t * x + t);
    } else {
      BackSlice(front, parts[n]);
    }
  }

  lemma NextPart(t: nat, n: nat, x: nat)
    requires x <= n
    ensures t * (n + 1) == t * n + t && 0 <= t * x && t * x + t <= t * (n + 1)
  {
    MulLe(t, 0, x);
    MulLe(t, x + 1, n + 1);
    assert t * (x + 1) == t * x + t;
  }

  lemma FrontSlice<T>(a: seq<T>, b: seq<T>, lo: nat, hi: nat)
    requires lo <= hi <= |a|
    ensures (a + b)[lo..hi] == a[lo..hi]
  {
  }

  lemma BackSlice<T>(a: seq<T>, b: seq<T>)
    ensures (a + b)[|a|..|a| + |b|] == b
  {
  }

  lemma {:induction false} AssembledLength<T>(parts: seq<seq<T>>, t: nat)
    requires forall y :: 0 <= y < |parts| ==> |parts[y]| == t
    ensures |Assembled(parts)| == t * |parts|
  {
    if parts != [] {
      var n := |parts| - 1;
      assert t * |parts| == t * n + t;
      AssembledLength(parts[..n], t);
    }
  }

  /** The completed object holds every write at the offset the benchmark meant it for.  data(r, k) is what rank r
      uploads as its k-th part, and part x of the completion list is the write listed at place x. */
  lemma ObjectIsFile(test: Test, data: (nat, nat) -> seq<int>, parts: seq<seq<int>>, rank: nat, k: nat)
    requires test.Valid() && !test.filePerProc && test.s > 0 && InOrder(test)
    requires forall r, l :: |data(r, l)| == test.t
    requires test.PerTask() > 0 && |parts| == test.PerTask() * test.tasks
    requires forall x :: 0 <= x < |parts| ==>
               var r := ListedRank(Segmented(test), test.tasks, test.PerTask(), x);
               var l := ListedWrite(Segmented(test), test.tasks, test.PerTask(), x);
               r >= 0 && l >= 0 && parts[x] == data(r, l)
    requires rank < test.tasks && k < test.PerTask()
    ensures test.PerBlock() > 0
    ensures var o := Offset(test, rank, k);
            && 0 <= o && o + test.t <= |Assembled(parts)|
            && Assembled(parts)[o..o + test.t] == data(rank, k)
    ensures |Assembled(parts)| == test.FileSize()
  {
    hide Offset, PartNumber, ListedRank, ListedWrite, Test.PerTask, Test.FileSize;
    PerTaskSize(test);
    PartIsOffset(test, rank, k);
    PartIsListPosition(test, rank, k, 0) by { assert |parts| > 0 by { MulLe(test.PerTask(), 1, test.tasks); } }
    var x := PartNumber(test, rank, k);
    PartIsListPosition(test, rank, k, x);
    AssembledAt(parts, test.t, x);
    WholeFile(test);
  }

  lemma {:induction false} AssembledMembers<T>(parts: seq<seq<T>>, r: nat)
    requires r < |parts|
    ensures forall x :: x in parts[r] ==> x in Assembled(parts)
    ensures forall x :: x in Assembled(parts) ==> exists q :: 0 <= q < |parts| && x in parts[q]
    decreases |parts|
  {
    var n := |parts| - 1;
    if n > 0 {
      AssembledMembers(parts[..n], if r < n then r else 0);
      assert forall q :: 0 <= q < n ==> parts[..n][q] == parts[q];
      assert forall x :: x in Assembled(parts) ==> x in Assembled(parts[..n]) || x in parts[n];
    } else {
      assert parts[..0] == [] && Assembled(parts) == [] + parts[0];
    }
  }

  /** The tags that each rank appended, one write after the other, gathered at rank 0, one rank after the other:
      tag k of rank r is where the list looks for it. */
  lemma GatheredTag(tags: seq<seq<string>>, perRank: nat, vec: string, r: nat, k: nat)
    requires forall q :: 0 <= q < |tags| ==> |tags[q]| == perRank
    requires forall q :: 0 <= q < |tags| ==> forall tag :: tag in tags[q] ==> |tag| == ETAG_SIZE
    requires vec == Assembled(Assembled(tags)) && r < |tags| && k < perRank
    ensures 0 <= ETAG_SIZE * (perRank * r + k) && ETAG_SIZE * (perRank * r + k) + ETAG_SIZE <= |vec|
    ensures EtagAt(vec, perRank, r, k) == tags[r][k]
    ensures |vec| == ETAG_SIZE * (perRank * |tags|)
  {
    var all := Assembled(tags);
    AssembledAt(tags, perRank, r);
    AssembledMembers(tags, r);
    assert all[perRank * r..perRank * r + perRank][k] == all[perRank * r + k];
    forall y | 0 <= y < |all| ensures |all[y]| == ETAG_SIZE {
      assert all[y] in all;
    }
    hide Assembled;
    AssembledAt(all, ETAG_SIZE, perRank * r + k);
  }

  /** Under the number a write was uploaded with, the completion list names the tag the server gave that write. */
  lemma ListedTag(test: Test, tags: seq<seq<string>>, vec: string, xml: seq<(nat, string)>, rank: nat, k: nat)
    requires test.Valid() && !test.filePerProc && test.s > 0 && test.PerTask() > 0
    requires |tags| == test.tasks && forall q :: 0 <= q < |tags| ==> |tags[q]| == test.PerTask()
    requires forall q :: 0 <= q < |tags| ==> forall tag :: tag in tags[q] ==> |tag| == ETAG_SIZE
    requires vec == Assembled(Assembled(tags)) && |vec| == ETAG_SIZE * (test.PerTask() * test.tasks)
    requires |xml| == test.PerTask() * test.tasks
    requires forall x :: 0 <= x < |xml| ==> Entry(vec, Segmented(test), test.tasks, test.PerTask(), x, xml[x])
    requires rank < test.tasks && k < test.PerTask()
    ensures var x := if test.s == 1 then rank * (test.b / test.t) + k else k * test.tasks + rank;
            0 <= x < |xml| && xml[x] == (x, tags[rank][k])
  {
    hide Assembled, EtagAt, ListedRank, ListedWrite, Test.PerTask;
    var x := PartNumber(test, rank, k);
    PartIsListPosition(test, rank, k, 0) by { assert |xml| > 0 by { MulLe(test.PerTask(), 1, test.tasks); } }
    PartIsListPosition(test, rank, k, x);
    GatheredTag(tags, test.PerTask(), vec, rank, k);
    assert Entry(vec, Segmented(test), test.tasks, test.PerTask(), x, xml[x]);
  }
}
