/** The offset arrays of ior.c: which bytes of the test file each task accesses, and in what order. */
module IorOffsets {
  import opened Arith

  /** The parameters of a test: b bytes per block, t per transfer, s segments. */
  datatype Test = Test(b: nat, t: nat, s: nat, tasks: nat, filePerProc: bool)
  {
    ghost predicate Valid() { t > 0 && b > 0 && tasks > 0 && b % t == 0 }

    // transfers per block, and per task
    function PerBlock(): nat requires t > 0 { b / t }
    function PerTask(): int requires t > 0 { PerBlock() * s }

    /** The size of one file, and its number of transfers. */
    function FileSize(): int { if filePerProc then b * s else b * s * tasks }
    function InFile(): int requires t > 0 { if filePerProc then PerTask() else PerTask() * tasks }
  }

  /** The k-th access of task r, counted through its blocks. */
  function Offset(test: Test, r: nat, k: nat): int
    requires test.t > 0 && test.PerBlock() > 0
  {
    var i, j := k / test.PerBlock(), k % test.PerBlock();
    j * test.t + if test.filePerProc then i * test.b else i * test.tasks * test.b + r * test.b
  }

  /** GetOffsetArraySequential. */
  method GetOffsetArraySequential(test: Test, pretendRank: nat) returns (a: array<int>)
    requires test.Valid()
    ensures fresh(a) && test.PerBlock() > 0 && a.Length == test.PerTask() + 1 && a[test.PerTask()] == -1
    ensures forall k :: 0 <= k < test.PerTask() ==> a[k] == Offset(test, pretendRank, k)
  {
    BlockSize(test);
    var perBlock := test.PerBlock();
    var offsets := test.PerTask();
    a := new int[offsets + 1];
    a[offsets] := -1;
    var k, i := 0, 0;
    while i < test.s
      invariant 0 <= i <= test.s && k == perBlock * i
      invariant a[offsets] == -1
      invariant forall l :: 0 <= l < k ==> a[l] == Offset(test, pretendRank, l)
    {
      var j := 0;
      DigitBelow(perBlock, i, 0, test.s);
      while j < perBlock
        invariant 0 <= j <= perBlock && k == perBlock * i + j
        invariant a[offsets] == -1
        invariant forall l :: 0 <= l < k ==> a[l] == Offset(test, pretendRank, l)
      {
        Digits(perBlock, i, j);
        a[k] := j * test.t;
        if test.filePerProc {
          a[k] := a[k] + i * test.b;
        } else {
          a[k] := a[k] + (i * test.tasks * test.b + pretendRank * test.b);
        }
        k, j := k + 1, j + 1;
      }
      assert perBlock * (i + 1) == perBlock * i + perBlock;
      i := i + 1;
    }
  }

  lemma BlockSize(test: Test)
    requires test.Valid()
    ensures test.PerBlock() > 0 && test.b == test.PerBlock() * test.t
  {
    var q := test.PerBlock();
    assert test.b == test.t * q + test.b % test.t;
    assert q == 0 ==> test.t * q == 0;
  }

  // ----- sequential offsets are a bijection -----

  /** An access named by its place in the file: the transfer with index x belongs to task
      x / PerBlock % tasks, in segment x / PerBlock / tasks. */
  function TransferOf(test: Test, r: nat, k: nat): int
    requires test.t > 0 && test.PerBlock() > 0
  {
    var p := test.PerBlock();
    if test.filePerProc then k else p * (test.tasks * (k / p) + r) + k % p
  }

  function OwnerOf(test: Test, x: int): int
    requires test.Valid() && test.PerBlock() > 0
  {
    x / test.PerBlock() % test.tasks
  }

  function AccessOf(test: Test, x: int): int
    requires test.Valid() && test.PerBlock() > 0
  {
    var p := test.PerBlock();
    if test.filePerProc then x else p * (x / p / test.tasks) + x % p
  }

  /** Every access starts at a multiple of the transfer size, below the end of the file. */
  lemma OffsetIsTransfer(test: Test, r: nat, k: nat)
    requires test.Valid() && test.PerBlock() > 0 && r < test.tasks && k < test.PerTask()
    ensures Offset(test, r, k) == test.t * TransferOf(test, r, k)
    ensures 0 <= TransferOf(test, r, k) < test.InFile()
  {
    BlockSize(test);
    var p := test.PerBlock();
    var i, j := k / p, k % p;
    assert k == p * i + j;
    if test.filePerProc {
      SplitFile(i, p, test.t, j);
    } else {
      Gather(i, test.tasks, r, p, test.t, j);
      DigitAbove(p, i, j, test.s);
      DigitBelow(test.tasks, i, r, test.s);
      DigitBelow(p, test.tasks * i + r, j, test.tasks * test.s);
      Commute3(p, test.tasks, test.s);
    }
  }

  /** Where an access lies.  In a file of its own, the k-th transfer; in a shared file, the k-th transfer of the
      task's blocks, of which there is one in every segment, in the order of the ranks. */
  lemma PlaceInFile(test: Test, r: nat, k: nat)
    requires test.Valid() && test.PerBlock() > 0 && r < test.tasks && k < test.PerTask()
    ensures test.filePerProc ==> Offset(test, r, k) == test.t * k
    ensures !test.filePerProc ==>
      && Offset(test, r, k) / test.b % test.tasks == r
      && Offset(test, r, k) / test.b / test.tasks == k / (test.b / test.t)
      && Offset(test, r, k) % test.b == k % (test.b / test.t) * test.t
  {
    BlockSize(test);
    var p, n := test.PerBlock(), test.tasks;
    var i, j := k / p, k % p;
    DivMod(p, k);
    if test.filePerProc {
      SplitFile(i, p, test.t, j);
    } else {
      InBlock(test.b, n, i, r, j, test.t, p);
      hide *;
      Digits(n, i, r);
    }
  }

  lemma InBlock(b: nat, n: nat, i: nat, r: nat, j: nat, t: nat, p: nat)
    requires t > 0 && b == p * t && j < p && r < n
    ensures b > 0 && 0 <= n * i
    ensures (j * t + (i * n * b + r * b)) / b == n * i + r && (j * t + (i * n * b + r * b)) % b == j * t
  {
    BelowBlock(j, p, t);
    MulLe(n, 0, i);
    BlockPlace(b, n, i, r);
    var x, m := n * i + r, j * t;
    assert j * t + (i * n * b + r * b) == b * x + m;
    hide *;
    Digits(b, x, m);
  }

  lemma BelowBlock(j: nat, p: nat, t: nat)
    requires t > 0 && j < p
    ensures 0 <= j * t < p * t
  {
    assert t * j == j * t && t * p == p * t;
    DigitBelow(t, j, 0, p);
  }

  lemma BlockPlace(b: nat, n: nat, i: nat, r: nat)
    ensures i * n * b + r * b == b * (n * i + r)
  {
    assert i * n * b + r * b == (i * n + r) * b;
    assert i * n == n * i;
  }

  lemma SplitFile(i: nat, p: nat, t: nat, j: nat)
    ensures j * t + i * (p * t) == t * (p * i + j)
  {
  }

  lemma Gather(i: nat, n: nat, r: nat, p: nat, t: nat, j: nat)
    ensures j * t + (i * n * (p * t) + r * (p * t)) == t * (p * (n * i + r) + j)
  {
    assert i * n * (p * t) + r * (p * t) == (n * i + r) * (p * t) == t * (p * (n * i + r));
  }

  lemma Commute3(p: nat, n: nat, s: nat)
    ensures p * (n * s) == p * s * n
  {
  }

  /** In a shared file each transfer is the access of exactly one task, at exactly one place in its array:
      owner and access number invert the offset formula. */
  lemma SequentialBijection(test: Test, r: nat, k: nat, x: nat)
    requires test.Valid() && test.PerBlock() > 0 && !test.filePerProc
    requires r < test.tasks && k < test.PerTask() && x < test.InFile()
    ensures 0 <= OwnerOf(test, x) < test.tasks && 0 <= AccessOf(test, x) < test.PerTask()
    ensures Offset(test, r, k) == test.t * x <==> (r == OwnerOf(test, x) && k == AccessOf(test, x))
  {
    hide TransferOf, OwnerOf, AccessOf, Offset;
    OffsetIsTransfer(test, r, k);
    ScaleInjective(test.t, TransferOf(test, r, k), x);
    TransferInverts(test, r, k);
    TransferOfAccess(test, x);
  }

  lemma TransferInverts(test: Test, r: nat, k: nat)
    requires test.Valid() && test.PerBlock() > 0 && !test.filePerProc && r < test.tasks
    ensures OwnerOf(test, TransferOf(test, r, k)) == r && AccessOf(test, TransferOf(test, r, k)) == k
  {
    var p := test.PerBlock();
    var i, j := k / p, k % p;
    Digits(test.tasks, i, r);
    Digits(p, test.tasks * i + r, j);
    assert k == p * i + j;
  }

  lemma TransferOfAccess(test: Test, x: nat)
    requires test.Valid() && test.PerBlock() > 0 && !test.filePerProc && x < test.InFile()
    ensures 0 <= OwnerOf(test, x) < test.tasks && 0 <= AccessOf(test, x) < test.PerTask()
    ensures TransferOf(test, OwnerOf(test, x), AccessOf(test, x)) == x
  {
    Redigit(test.PerBlock(), test.tasks, test.s, x);
  }

  lemma Redigit(p: nat, n: nat, s: nat, x: nat)
    requires p > 0 && n > 0 && x < p * s * n
    ensures var i, r, j := x / p / n, x / p % n, x % p;
            && 0 <= r < n && 0 <= p * i + j < p * s
            && (p * i + j) / p == i && (p * i + j) % p == j && p * (n * i + r) + j == x
  {
    var q, j := x / p, x % p;
    DivMod(p, x);
    var i, r := q / n, q % n;
    DivMod(n, q);
    Same(p, q, n * i + r);
    RedigitBelow(p, n, s, q, i, r, j);
    Digits(p, i, j);
  }

  lemma RedigitBelow(p: nat, n: nat, s: nat, q: nat, i: nat, r: nat, j: nat)
    requires r < n && j < p && q == n * i + r && p * q + j < p * s * n
    ensures 0 <= p * i + j < p * s
  {
    Commute3(p, n, s);
    DigitAbove(p, q, j, n * s);
    DigitAbove(n, i, r, s);
    DigitBelow(p, i, j, s);
  }

  /** A file is its transfers. */
  lemma WholeFile(test: Test)
    requires test.Valid()
    ensures test.FileSize() == test.t * test.InFile() && test.InFile() >= 0
  {
    BlockSize(test);
    var p := test.PerBlock();
    MulLe(p, 0, test.s);
    MulLe(p * test.s, 0, test.tasks);
    assert p * test.t * test.s == test.t * (p * test.s);
    assert test.t * (p * test.s) * test.tasks == test.t * (p * test.s * test.tasks);
  }
}
