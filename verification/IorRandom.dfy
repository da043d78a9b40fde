/** GetOffsetArrayRandom of ior.c: a shared pseudo-random stream deals the transfers of a file to the tasks. */
module IorRandom {
  import opened Arith
  import opened IorOffsets

  /** The random() generator: any function from seed and number of earlier draws. */
  type Stream = (int, nat) -> nat

  class Rng {
    const gen: Stream
    var seed: int
    var drawn: nat

    constructor (gen: Stream, seed: int)
      ensures this.gen == gen && this.seed == seed && drawn == 0
    {
      this.gen := gen;
      this.seed := seed;
      drawn := 0;
    }

    method Srandom(s: int)
      modifies this
      ensures seed == s && drawn == 0
    {
      seed := s;
      drawn := 0;
    }

    method Random() returns (v: nat)
      modifies this
      ensures v == gen(old(seed), old(drawn)) && seed == old(seed) && drawn == old(drawn) + 1
    {
      v := gen(seed, drawn);
      drawn := drawn + 1;
    }
  }

  /** The seed kept in the test parameters between the write and the check of it. */
  class Params {
    var randomSeed: int
  }

  /** The task the stream gives transfer x to. */
  function OwnerAt(gen: Stream, seed: int, test: Test, x: nat): (r: int)
    requires test.tasks > 0
    ensures 0 <= r < test.tasks
  {
    gen(seed, x) % test.tasks
  }

  /** The offsets among the first n transfers that go to task r, in file order. */
  function Share(gen: Stream, seed: int, test: Test, r: nat, n: nat): seq<int>
    requires test.tasks > 0
  {
    if n == 0 then []
    else Share(gen, seed, test, r, n - 1) + if OwnerAt(gen, seed, test, n - 1) == r then [test.t * (n - 1)] else []
  }

  /** All offsets of the first n transfers. */
  function Offsets(test: Test, n: nat): seq<int>
  {
    seq(n, x => test.t * x)
  }

  function Filled(gen: Stream, seed: int, test: Test, r: nat): seq<int>
    requires test.t > 0 && test.tasks > 0 && test.InFile() >= 0
  {
    if test.filePerProc then Offsets(test, test.InFile()) else Share(gen, seed, test, r, test.InFile())
  }

  function Swap(b: seq<int>, v: nat, i: nat): (s: seq<int>)
    requires v < |b| && i < |b|
    ensures |s| == |b|
  {
    b[v := b[i]][i := b[v]]
  }

  /** a after the first i swaps; the swaps draw from the stream at position `at` on. */
  function Shuffled(gen: Stream, seed: int, at: nat, a: seq<int>, i: nat): (s: seq<int>)
    requires i <= |a|
    ensures |s| == |a|
  {
    if i == 0 then a
    else
      var b := Shuffled(gen, seed, at, a, i - 1);
      var v := gen(seed, at + i - 1) % |a|;
      Swap(b, v, i - 1)
  }

  /** The array without its end marker. */
  function RandomOffsets(gen: Stream, seed: int, test: Test, r: nat): seq<int>
    requires test.t > 0 && test.tasks > 0 && test.InFile() >= 0
  {
    var a := Filled(gen, seed, test, r);
    Shuffled(gen, seed, if test.filePerProc then 0 else test.InFile(), a, |a|)
  }

  /** The byte loops run once per transfer. */
  lemma StepBelow(t: nat, x: nat, n: nat)
    requires t > 0
    ensures t * x < t * n <==> x < n
    ensures t * (x + 1) == t * x + t && 0 <= t * x
  {
    MulLe(t, 0, x);
    if x < n {
      DigitBelow(t, x, 0, n);
    } else {
      MulLe(t, n, x);
    }
  }

  lemma {:induction false} ShareGrows(gen: Stream, seed: int, test: Test, r: nat, m: nat, n: nat)
    requires test.tasks > 0 && m <= n
    ensures |Share(gen, seed, test, r, m)| <= |Share(gen, seed, test, r, n)|
    ensures Share(gen, seed, test, r, m) <= Share(gen, seed, test, r, n)
  {
    if m < n {
      ShareGrows(gen, seed, test, r, m, n - 1);
    }
  }

  /** The transfers among the first n that the stream gives to task r. */
  function Drawn(gen: Stream, seed: int, test: Test, r: nat, n: nat): set<nat>
    requires test.tasks > 0
  {
    set x: nat | x < n && gen(seed, x) % test.tasks == r
  }

  lemma {:induction false} ShareCount(gen: Stream, seed: int, test: Test, r: nat, n: nat)
    requires test.tasks > 0
    ensures |Share(gen, seed, test, r, n)| == |Drawn(gen, seed, test, r, n)|
  {
    if n == 0 {
      assert Drawn(gen, seed, test, r, 0) == {};
    } else {
      ShareCount(gen, seed, test, r, n - 1);
      assert Drawn(gen, seed, test, r, n)
          == Drawn(gen, seed, test, r, n - 1) + if gen(seed, n - 1) % test.tasks == r then {n - 1} else {};
    }
  }

  /** GetOffsetArrayRandom.  Writes and reads draw a fresh seed and keep it; checks use the kept one.  resync is
      the value SeedRandGen broadcasts at the end. */
  method GetOffsetArrayRandom(test: Test, rng: Rng, params: Params, pretendRank: nat, check: bool, resync: int)
    returns (a: array<int>)
    requires test.Valid()
    modifies rng, params
    ensures test.InFile() >= 0
    ensures params.randomSeed == if check then old(params.randomSeed) else rng.gen(old(rng.seed), old(rng.drawn))
    ensures fresh(a) && a[..] == RandomOffsets(rng.gen, params.randomSeed, test, pretendRank) + [-1]
    ensures !test.filePerProc ==> forall o: nat :: o < test.FileSize() && o % test.t == 0 ==>
              (o in a[..] <==> rng.gen(params.randomSeed, o / test.t) % test.tasks == pretendRank)
    ensures rng.seed == resync && rng.drawn == 0
  {
    assert test.t > 0 && test.tasks > 0;
    hide Test.Valid, Test.InFile, Test.FileSize, Shuffled, Share;
    WholeFile(test);
    var seed := params.randomSeed;
    if !check {
      seed := rng.Random();
      params.randomSeed := seed;
    }
    rng.Srandom(seed);
    var offsets := CountOffsets(test, rng, pretendRank);
    ghost var share := Filled(rng.gen, seed, test, pretendRank);
    a := new int[offsets + 1];
    a[offsets] := -1;
    if test.filePerProc {
      FillOffsets(test, a, offsets);
    } else {
      rng.Srandom(seed);
      DealOffsets(test, rng, pretendRank, a);
    }
    ShuffleInPlace(rng, a, offsets);
    rng.Srandom(resync);
    assert a[..] == a[..offsets] + [a[offsets]];
    if !test.filePerProc {
      DealtOffsets(rng.gen, params.randomSeed, test, pretendRank, a[..]);
    }
  }

  /** With one file per task: every offset of it. */
  method FillOffsets(test: Test, a: array<int>, offsets: nat)
    requires offsets < a.Length
    modifies a
    ensures a[..offsets] == Offsets(test, offsets) && a[offsets..] == old(a[offsets..])
  {
    for i := 0 to offsets
      invariant forall k :: 0 <= k < i ==> a[k] == test.t * k
      invariant forall k :: offsets <= k < a.Length ==> a[k] == old(a[k])
    {
      a[i] := i * test.t;
    }
  }

  /** Pass 1: how many transfers this task gets. */
  method CountOffsets(test: Test, rng: Rng, pretendRank: nat) returns (offsets: nat)
    requires test.Valid() && rng.drawn == 0 && test.InFile() >= 0
    modifies rng
    ensures rng.seed == old(rng.seed) && rng.drawn == if test.filePerProc then 0 else test.InFile()
    ensures offsets == |Filled(rng.gen, rng.seed, test, pretendRank)|
    ensures offsets == if test.filePerProc then test.InFile()
                       else |set x: nat | x < test.InFile() && rng.gen(rng.seed, x) % test.tasks == pretendRank|
  {
    assert test.t > 0 && test.tasks > 0;
    WholeFile(test);
    hide Test.Valid, Test.InFile, Test.FileSize;
    var fileSize := test.FileSize();
    offsets := 0;
    ghost var x := 0;
    var i := 0;
    while i < fileSize
      invariant 0 <= x <= test.InFile() && i == test.t * x && i >= 0
      invariant rng.seed == old(rng.seed) && rng.drawn == if test.filePerProc then 0 else x
      invariant offsets == if test.filePerProc then x else |Share(rng.gen, rng.seed, test, pretendRank, x)|
      decreases fileSize - i
    {
      StepBelow(test.t, x, test.InFile());
      if !test.filePerProc {
        var v := rng.Random();
        if v % test.tasks == pretendRank {
          offsets := offsets + 1;
        }
      } else {
        offsets := offsets + 1;
      }
      i := i + test.t;
      x := x + 1;
    }
    StepBelow(test.t, x, test.InFile());
    ShareCount(rng.gen, rng.seed, test, pretendRank, test.InFile());
    assert (set y: nat | y < test.InFile() && rng.gen(rng.seed, y) % test.tasks == pretendRank)
        == Drawn(rng.gen, rng.seed, test, pretendRank, test.InFile());
  }

  /** Pass 2: the same draws again, now storing the offsets; they fill exactly the slots pass 1 counted. */
  method DealOffsets(test: Test, rng: Rng, pretendRank: nat, a: array<int>)
    requires test.Valid() && rng.drawn == 0 && test.InFile() >= 0 && !test.filePerProc
    requires a.Length == |Share(rng.gen, rng.seed, test, pretendRank, test.InFile())| + 1
    modifies rng, a
    ensures rng.seed == old(rng.seed) && rng.drawn == test.InFile()
    ensures a[..a.Length - 1] == Share(rng.gen, rng.seed, test, pretendRank, test.InFile())
    ensures a[a.Length - 1] == old(a[a.Length - 1])
  {
    assert test.t > 0 && test.tasks > 0;
    WholeFile(test);
    hide Test.Valid, Test.InFile, Test.FileSize;
    var fileSize := test.FileSize();
    var offsetCnt := 0;
    ghost var x := 0;
    var i := 0;
    while i < fileSize
      invariant 0 <= x <= test.InFile() && i == test.t * x && i >= 0
      invariant rng.seed == old(rng.seed) && rng.drawn == x
      invariant 0 <= offsetCnt == |Share(rng.gen, rng.seed, test, pretendRank, x)| < a.Length
      invariant a[..offsetCnt] == Share(rng.gen, rng.seed, test, pretendRank, x)
      invariant a[a.Length - 1] == old(a[a.Length - 1])
      decreases fileSize - i
    {
      StepBelow(test.t, x, test.InFile());
      ShareGrows(rng.gen, rng.seed, test, pretendRank, x + 1, test.InFile());
      var v := rng.Random();
      if v % test.tasks == pretendRank {
        a[offsetCnt] := i;
        offsetCnt := offsetCnt + 1;
      }
      i := i + test.t;
      x := x + 1;
    }
    StepBelow(test.t, x, test.InFile());
  }

  /** The reordering loop: every slot is swapped with a drawn one. */
  method ShuffleInPlace(rng: Rng, a: array<int>, offsets: nat)
    requires offsets < a.Length
    modifies rng, a
    ensures rng.seed == old(rng.seed)
    ensures a[..offsets] == Shuffled(rng.gen, rng.seed, old(rng.drawn), old(a[..offsets]), offsets)
    ensures a[offsets..] == old(a[offsets..])
  {
    ghost var was := a[..offsets];
    for i := 0 to offsets
      invariant rng.seed == old(rng.seed) && rng.drawn == old(rng.drawn) + i
      invariant a[..offsets] == Shuffled(rng.gen, rng.seed, old(rng.drawn), was, i)
      invariant a[offsets..] == old(a[offsets..])
    {
      ghost var b := a[..offsets];
      var draw := rng.Random();
      var value := draw % offsets;
      var tmp := a[value];
      a[value] := a[i];
      a[i] := tmp;
      assert a[..offsets] == b[value := b[i]][i := b[value]];
    }
  }

  /** A write followed by its check: whatever happened to the generator in between, the check accesses the same
      offsets in the same order.  Another task's data may be checked only in files of their own, since random
      offsets in a shared file are refused together with task reordering. */
  method WriteThenCheck(test: Test, rng: Rng, params: Params, writeRank: nat, checkRank: nat, resync: int, between: int)
    returns (written: array<int>, checked: array<int>)
    requires test.Valid()
    requires checkRank == writeRank || test.filePerProc
    modifies rng, params
    ensures written[..] == checked[..]
  {
    written := GetOffsetArrayRandom(test, rng, params, writeRank, false, resync);
    if test.filePerProc {
      OwnFileInFull(rng.gen, params.randomSeed, test, writeRank, checkRank);
    }
    hide *;
    rng.Srandom(between);
    checked := GetOffsetArrayRandom(test, rng, params, checkRank, true, resync);
  }

  // ----- what the arrays of all tasks hold -----

  /** The swaps keep every offset. */
  lemma {:induction false} ShuffleIsPermutation(gen: Stream, seed: int, at: nat, a: seq<int>, i: nat)
    requires i <= |a|
    ensures multiset(Shuffled(gen, seed, at, a, i)) == multiset(a)
  {
    hide *;
    if i == 0 {
      ShuffledNone(gen, seed, at, a);
    } else {
      ShuffleIsPermutation(gen, seed, at, a, i - 1);
      var v := ShuffledStep(gen, seed, at, a, i);
      SwapIsPermutation(Shuffled(gen, seed, at, a, i - 1), v, i - 1);
    }
  }

  lemma ShuffledNone(gen: Stream, seed: int, at: nat, a: seq<int>)
    ensures Shuffled(gen, seed, at, a, 0) == a
  {
  }

  lemma ShuffledStep(gen: Stream, seed: int, at: nat, a: seq<int>, i: nat) returns (v: nat)
    requires 0 < i <= |a|
    ensures v < |a| && Shuffled(gen, seed, at, a, i) == Swap(Shuffled(gen, seed, at, a, i - 1), v, i - 1)
  {
    v := gen(seed, at + i - 1) % |a|;
  }

  lemma SwapIsPermutation(b: seq<int>, v: nat, i: nat)
    requires v < |b| && i < |b|
    ensures multiset(Swap(b, v, i)) == multiset(b)
  {
  }

  /** The transfers the first `ranks` tasks get together, out of the first n. */
  function Dealt(gen: Stream, seed: int, test: Test, ranks: nat, n: nat): multiset<int>
    requires test.tasks > 0
  {
    if ranks == 0 then multiset{}
    else Dealt(gen, seed, test, ranks - 1, n) + multiset(Share(gen, seed, test, ranks - 1, n))
  }

  lemma {:induction false} DealtNone(gen: Stream, seed: int, test: Test, ranks: nat)
    requires test.tasks > 0
    ensures Dealt(gen, seed, test, ranks, 0) == multiset{}
  {
    if ranks > 0 {
      DealtNone(gen, seed, test, ranks - 1);
    }
  }

  lemma {:induction false} DealtOne(gen: Stream, seed: int, test: Test, ranks: nat, n: nat)
    requires test.tasks > 0
    ensures Dealt(gen, seed, test, ranks, n + 1) == Dealt(gen, seed, test, ranks, n)
              + if OwnerAt(gen, seed, test, n) < ranks then multiset{test.t * n} else multiset{}
  {
    hide OwnerAt, Share;
    if ranks > 0 {
      DealtOne(gen, seed, test, ranks - 1, n);
      ShareStep(gen, seed, test, ranks - 1, n);
    }
  }

  lemma ShareStep(gen: Stream, seed: int, test: Test, r: nat, n: nat)
    requires test.tasks > 0
    ensures multiset(Share(gen, seed, test, r, n + 1)) == multiset(Share(gen, seed, test, r, n))
              + if OwnerAt(gen, seed, test, n) == r then multiset{test.t * n} else multiset{}
  {
    hide OwnerAt;
  }

  lemma OffsetsStep(test: Test, n: nat)
    ensures multiset(Offsets(test, n + 1)) == multiset(Offsets(test, n)) + multiset{test.t * n}
  {
    assert Offsets(test, n + 1) == Offsets(test, n) + [test.t * n];
  }

  /** Conservation: dealt to all tasks, every transfer of the file goes out exactly once. */
  lemma {:induction false} DealtIsAll(gen: Stream, seed: int, test: Test, n: nat)
    requires test.tasks > 0
    ensures Dealt(gen, seed, test, test.tasks, n) == multiset(Offsets(test, n))
  {
    hide *;
    if n == 0 {
      DealtNone(gen, seed, test, test.tasks);
      OffsetsNone(test);
    } else {
      DealtIsAll(gen, seed, test, n - 1);
      DealtOne(gen, seed, test, test.tasks, n - 1);
      OffsetsStep(test, n - 1);
    }
  }

  lemma OffsetsNone(test: Test)
    ensures multiset(Offsets(test, 0)) == multiset{}
  {
    assert Offsets(test, 0) == [];
  }

  /** The arrays of the first `ranks` tasks together. */
  function ArraysOf(gen: Stream, seed: int, test: Test, ranks: nat): multiset<int>
    requires test.Valid() && test.InFile() >= 0
  {
    if ranks == 0 then multiset{}
    else ArraysOf(gen, seed, test, ranks - 1) + multiset(RandomOffsets(gen, seed, test, ranks - 1))
  }

  /** The arrays of all tasks on a shared file, taken together, are the transfers of the file, each once. */
  lemma RandomPartition(gen: Stream, seed: int, test: Test)
    requires test.Valid() && !test.filePerProc
    ensures test.InFile() >= 0
    ensures ArraysOf(gen, seed, test, test.tasks) == multiset(Offsets(test, test.InFile()))
    ensures forall o :: multiset(Offsets(test, test.InFile()))[o] <= 1
  {
    WholeFile(test);
    ArraysAreShares(gen, seed, test, test.tasks);
    DealtIsAll(gen, seed, test, test.InFile());
    forall o
      ensures multiset(Offsets(test, test.InFile()))[o] <= 1
    {
      OffsetOnce(test, test.InFile(), o);
    }
  }

  lemma {:induction false} ArraysAreShares(gen: Stream, seed: int, test: Test, ranks: nat)
    requires test.Valid() && !test.filePerProc && test.InFile() >= 0
    ensures ArraysOf(gen, seed, test, ranks) == Dealt(gen, seed, test, ranks, test.InFile())
  {
    hide Share, Shuffled, Test.InFile;
    if ranks > 0 {
      ArraysAreShares(gen, seed, test, ranks - 1);
      var a := Share(gen, seed, test, ranks - 1, test.InFile());
      ShuffleIsPermutation(gen, seed, test.InFile(), a, |a|);
    }
  }

  lemma {:induction false} OffsetOnce(test: Test, n: nat, o: int)
    requires test.t > 0
    ensures multiset(Offsets(test, n))[o] <= 1
    ensures o in Offsets(test, n) ==> o < test.t * n
  {
    if n > 0 {
      OffsetOnce(test, n - 1, o);
      StepBelow(test.t, n - 1, n);
      assert Offsets(test, n) == Offsets(test, n - 1) + [test.t * (n - 1)];
    }
  }

  lemma {:induction false} ShareMembers(gen: Stream, seed: int, test: Test, r: nat, n: nat, x: nat)
    requires test.t > 0 && test.tasks > 0
    ensures test.t * x in Share(gen, seed, test, r, n) <==> x < n && OwnerAt(gen, seed, test, x) == r
  {
    hide OwnerAt;
    if n > 0 {
      ShareMembers(gen, seed, test, r, n - 1, x);
      ScaleInjective(test.t, x, n - 1);
    }
  }

  /** A task accesses exactly the transfers the stream gives it: no two tasks share one. */
  lemma OnlyOwnerAccesses(gen: Stream, seed: int, test: Test, r: nat, x: nat)
    requires test.Valid() && !test.filePerProc
    ensures test.InFile() >= 0
    ensures test.t * x in RandomOffsets(gen, seed, test, r)
            <==> x < test.InFile() && gen(seed, x) % test.tasks == r
  {
    WholeFile(test);
    assert OwnerAt(gen, seed, test, x) == gen(seed, x) % test.tasks;
    hide Share, Shuffled, Test.InFile, OwnerAt;
    var a := Share(gen, seed, test, r, test.InFile());
    ShuffleIsPermutation(gen, seed, test.InFile(), a, |a|);
    ShareMembers(gen, seed, test, r, test.InFile(), x);
    assert test.t * x in RandomOffsets(gen, seed, test, r) <==> test.t * x in multiset(RandomOffsets(gen, seed, test, r));
    assert test.t * x in a <==> test.t * x in multiset(a);
  }

  /** The same for a multiple of the transfer size. */
  lemma OwnerOfOffset(gen: Stream, seed: int, test: Test, r: nat, o: nat)
    requires test.Valid() && !test.filePerProc && o < test.FileSize() && o % test.t == 0
    ensures test.InFile() >= 0
    ensures o in RandomOffsets(gen, seed, test, r) <==> gen(seed, o / test.t) % test.tasks == r
  {
    WholeFile(test);
    DivMod(test.t, o);
    var x := o / test.t;
    StepBelow(test.t, x, test.InFile());
    OnlyOwnerAccesses(gen, seed, test, r, x);
  }

  lemma DealtOffsets(gen: Stream, seed: int, test: Test, r: nat, a: seq<int>)
    requires test.Valid() && test.InFile() >= 0 && !test.filePerProc && a == RandomOffsets(gen, seed, test, r) + [-1]
    ensures forall o: nat :: o < test.FileSize() && o % test.t == 0 ==>
              (o in a <==> gen(seed, o / test.t) % test.tasks == r)
  {
    hide RandomOffsets, Test.FileSize, Test.InFile;
    forall o: nat | o < test.FileSize() && o % test.t == 0
      ensures o in a <==> gen(seed, o / test.t) % test.tasks == r
    {
      OwnerOfOffset(gen, seed, test, r, o);
    }
  }

  /** With one file per task every task accesses all of its file, in the same order as every other task. */
  lemma OwnFileInFull(gen: Stream, seed: int, test: Test, r: nat, q: nat)
    requires test.Valid() && test.filePerProc
    ensures test.InFile() >= 0
    ensures multiset(RandomOffsets(gen, seed, test, r)) == multiset(Offsets(test, test.InFile()))
    ensures RandomOffsets(gen, seed, test, r) == RandomOffsets(gen, seed, test, q)
  {
    WholeFile(test);
    var a := Offsets(test, test.InFile());
    ShuffleIsPermutation(gen, seed, 0, a, |a|);
  }

  // ----- the order of the accesses -----

  /** Multiples of t below `size`, in ascending order. */
  ghost predicate Ascending(s: seq<int>, t: nat, size: int)
    requires t > 0
  {
    && (forall i, j :: 0 <= i < j < |s| ==> s[i] < s[j])
    && (forall i :: 0 <= i < |s| ==> 0 <= s[i] < size && s[i] % t == 0)
  }

  lemma AscendingSnoc(s: seq<int>, t: nat, o: nat)
    requires t > 0 && Ascending(s, t, o) && o % t == 0
    ensures Ascending(s, t, o + t) && Ascending(s + [o], t, o + t)
  {
  }

  lemma {:induction false} ShareAscends(gen: Stream, seed: int, test: Test, r: nat, n: nat)
    requires test.t > 0 && test.tasks > 0
    ensures Ascending(Share(gen, seed, test, r, n), test.t, test.t * n)
  {
    if n > 0 {
      ShareAscends(gen, seed, test, r, n - 1);
      StepBelow(test.t, n - 1, n);
      Digits(test.t, n - 1, 0);
      hide OwnerAt, Ascending;
      AscendingSnoc(Share(gen, seed, test, r, n - 1), test.t, test.t * (n - 1));
      assert Share(gen, seed, test, r, n - 1) + [] == Share(gen, seed, test, r, n - 1);
    }
  }

  lemma {:induction false} OffsetsAscend(test: Test, n: nat)
    requires test.t > 0
    ensures Ascending(Offsets(test, n), test.t, test.t * n)
  {
    if n > 0 {
      OffsetsAscend(test, n - 1);
      StepBelow(test.t, n - 1, n);
      Digits(test.t, n - 1, 0);
      hide Ascending;
      AscendingSnoc(Offsets(test, n - 1), test.t, test.t * (n - 1));
      assert Offsets(test, n) == Offsets(test, n - 1) + [test.t * (n - 1)];
    }
  }

  /** The array after the first i exchanges. */
  function Stage(gen: Stream, seed: int, test: Test, r: nat, i: nat): (s: seq<int>)
    requires test.t > 0 && test.tasks > 0 && test.InFile() >= 0
    requires i <= |Filled(gen, seed, test, r)|
  {
    Shuffled(gen, seed, if test.filePerProc then 0 else test.InFile(), Filled(gen, seed, test, r), i)
  }

  /** The order of the accesses.  They start out ascending; then, for i from 0 on, place i is exchanged with the
      place drawn for it.  The draws follow those that dealt the transfers of a shared file, and are the first of
      the stream otherwise. */
  lemma RandomOrder(gen: Stream, seed: int, test: Test, r: nat, i: nat)
    requires test.Valid() && test.InFile() >= 0 && i < |RandomOffsets(gen, seed, test, r)|
    ensures var n := |RandomOffsets(gen, seed, test, r)|;
            && n == |Filled(gen, seed, test, r)| && Stage(gen, seed, test, r, n) == RandomOffsets(gen, seed, test, r)
    ensures var n, start := |RandomOffsets(gen, seed, test, r)|, Stage(gen, seed, test, r, 0);
            && |start| == n && Ascending(start, test.t, test.FileSize()) && multiset(start) == multiset(RandomOffsets(gen, seed, test, r))
            && (test.filePerProc ==> n == test.InFile())
    ensures var n := |RandomOffsets(gen, seed, test, r)|;
            var v := gen(seed, (if test.filePerProc then 0 else test.InFile()) + i) % n;
            var before, after := Stage(gen, seed, test, r, i), Stage(gen, seed, test, r, i + 1);
            && v < n && |before| == n && |after| == n && after[v] == before[i] && after[i] == before[v]
            && forall k :: 0 <= k < n && k != v && k != i ==> after[k] == before[k]
  {
    assert test.t > 0 && test.tasks > 0;
    WholeFile(test);
    hide Test.Valid, Test.InFile, Test.FileSize, Share, Shuffled, Ascending;
    var a := Filled(gen, seed, test, r);
    var at := if test.filePerProc then 0 else test.InFile();
    ShuffleIsPermutation(gen, seed, at, a, |a|);
    ShuffledNone(gen, seed, at, a);
    ShareAscends(gen, seed, test, r, test.InFile());
    OffsetsAscend(test, test.InFile());
    ShuffledExchanges(gen, seed, at, a, i);
  }

  lemma ShuffledExchanges(gen: Stream, seed: int, at: nat, a: seq<int>, i: nat)
    requires i < |a|
    ensures var b, s, v := Shuffled(gen, seed, at, a, i), Shuffled(gen, seed, at, a, i + 1), gen(seed, at + i) % |a|;
            && v < |a| && s[v] == b[i] && s[i] == b[v]
            && forall k :: 0 <= k < |a| && k != v && k != i ==> s[k] == b[k]
  {
  }
}
