/** The MPI-IO file view of aiori-MPIIO.c and the seek formula that goes with it. */
module IorView {
  import opened Arith
  import opened IorOffsets

  /** The subarray file type: global size, local size and start, in transfers. */
  datatype View = View(globalSize: nat, localSize: nat, start: nat)

  /** MPIIO_Open: the view of a task on its file. */
  function ViewOf(test: Test, pretendRank: nat): View
    requires test.Valid() && test.PerBlock() > 0
    requires 0 <= test.PerBlock() * test.tasks && 0 <= test.PerBlock() * pretendRank
  {
    if test.filePerProc then View(test.PerBlock(), test.PerBlock(), 0)
    else View(test.PerBlock() * test.tasks, test.PerBlock(), test.PerBlock() * pretendRank)
  }

  /** What MPI makes of position v in a view: the view's local part is taken from every tile of the global
      size, one tile after the other. */
  function Absolute(view: View, v: nat): int
    requires view.localSize > 0
  {
    view.globalSize * (v / view.localSize) + view.start + v % view.localSize
  }

  /** Division as C does it, towards zero. */
  function CDiv(a: int, b: nat): int
    requires b > 0
  {
    if a >= 0 then a / b else -(-a / b)
  }

  /** SeekOffset: the position in the view for an absolute byte offset. */
  function Seek(test: Test, pretendRank: nat, offset: nat): int
    requires test.Valid() && test.b * test.tasks > 0
  {
    if test.filePerProc then offset / test.t
    else
      test.b / test.t * (offset / (test.b * test.tasks))
      + CDiv(offset % (test.b * test.tasks) - pretendRank * test.b, test.t)
  }

  lemma Sizes(test: Test, r: nat)
    requires test.Valid()
    ensures test.PerBlock() > 0 && test.b * test.tasks > 0
    ensures 0 <= test.PerBlock() * test.tasks && 0 <= test.PerBlock() * r
  {
    BlockSize(test);
    MulLe(test.b, 1, test.tasks);
    MulLe(test.PerBlock(), 0, test.tasks);
    MulLe(test.PerBlock(), 0, r);
  }

  /** For every access of a task, the position SeekOffset finds is the access number itself, and the view maps it
      back to the absolute offset of the access. */
  lemma SeekInvertsView(test: Test, r: nat, k: nat)
    requires test.Valid() && r < test.tasks && k < test.PerTask()
    ensures test.PerBlock() > 0 && test.b * test.tasks > 0
    ensures 0 <= test.PerBlock() * test.tasks && 0 <= test.PerBlock() * r && 0 <= Offset(test, r, k)
    ensures Seek(test, r, Offset(test, r, k)) == k
    ensures test.t * Absolute(ViewOf(test, r), k) == Offset(test, r, k)
  {
    Sizes(test, r);
    OffsetIsTransfer(test, r, k);
    MulLe(test.t, 0, TransferOf(test, r, k));
    ViewIsTransfer(test, r, k);
    if test.filePerProc {
      hide Offset;
      Digits(test.t, TransferOf(test, r, k), 0);
    } else {
      BlockSize(test);
      var p := test.PerBlock();
      var i, j := k / p, k % p;
      DivMod(p, k);
      SeekShared(test, r, i, j);
    }
  }

  lemma ViewIsTransfer(test: Test, r: nat, k: nat)
    requires test.Valid() && test.PerBlock() > 0
    requires 0 <= test.PerBlock() * test.tasks && 0 <= test.PerBlock() * r
    ensures Absolute(ViewOf(test, r), k) == TransferOf(test, r, k)
  {
    var p := test.PerBlock();
    DivMod(p, k);
    Tile(p, test.tasks, r, k / p);
  }

  lemma Tile(p: nat, n: nat, r: nat, i: nat)
    ensures p * n * i + p * r == p * (n * i + r)
  {
  }

  /** The two digits SeekOffset splits an offset into: the segment, and the transfer within the own block. */
  lemma SeekShared(test: Test, r: nat, i: nat, j: nat)
    requires test.Valid() && !test.filePerProc && r < test.tasks && test.PerBlock() > 0 && j < test.PerBlock()
    requires test.b * test.tasks > 0
    ensures var o := j * test.t + (i * test.tasks * test.b + r * test.b);
            o >= 0 && Seek(test, r, o) == test.PerBlock() * i + j
  {
    BlockSize(test);
    var b, n, t, p := test.b, test.tasks, test.t, test.PerBlock();
    var w := b * n;
    var inside := r * b + j * t;
    InsideSegment(b, n, t, p, r, j);
    assert i * n * b == w * i by { Reorder(i, n, b); }
    Digits(w, i, inside);
    assert inside - r * b == j * t;
    assert j * t == t * j;
    Digits(t, j, 0);
  }

  lemma Reorder(i: nat, n: nat, b: nat)
    ensures i * n * b == b * n * i
  {
  }

  lemma InsideSegment(b: nat, n: nat, t: nat, p: nat, r: nat, j: nat)
    requires b == p * t && r < n && j < p && t > 0
    ensures 0 <= r * b + j * t < b * n && 0 <= r * b && 0 <= j * t
  {
    DigitBelow(t, j, 0, p);
    assert t * p == p * t && t * j == j * t;
    DigitBelow(b, r, j * t, n);
    assert b * r == r * b;
  }

  /** The views of the tasks are disjoint and cover the shared file: each transfer is seen by exactly one task,
      at exactly one position. */
  lemma ViewsPartition(test: Test, r: nat, v: nat, x: nat)
    requires test.Valid() && !test.filePerProc && r < test.tasks && v < test.PerTask() && x < test.InFile()
    ensures test.PerBlock() > 0 && 0 <= test.PerBlock() * test.tasks && 0 <= test.PerBlock() * r
    ensures 0 <= OwnerOf(test, x) < test.tasks && 0 <= AccessOf(test, x) < test.PerTask()
    ensures Absolute(ViewOf(test, r), v) == x <==> r == OwnerOf(test, x) && v == AccessOf(test, x)
  {
    hide Absolute, ViewOf, OwnerOf, AccessOf, TransferOf;
    Sizes(test, r);
    ViewIsTransfer(test, r, v);
    TransferInverts(test, r, v);
    TransferOfAccess(test, x);
  }

  /** No position of a task's view is an access of another task, so no seek can reach one. */
  lemma ViewHidesOthers(test: Test, r: nat, q: nat, k: nat, v: nat)
    requires test.Valid() && !test.filePerProc && r < test.tasks && q < test.tasks && r != q && k < test.PerTask()
    ensures test.PerBlock() > 0 && 0 <= test.PerBlock() * test.tasks && 0 <= test.PerBlock() * r
    ensures test.t * Absolute(ViewOf(test, r), v) != Offset(test, q, k)
  {
    hide Absolute, ViewOf, OwnerOf, AccessOf, TransferOf, Offset;
    Sizes(test, r);
    ViewIsTransfer(test, r, v);
    OffsetIsTransfer(test, q, k);
    ScaleInjective(test.t, TransferOf(test, r, v), TransferOf(test, q, k)) by {
      NonNegative(test, r, v);
    }
    TransferInverts(test, r, v);
    TransferInverts(test, q, k);
  }

  lemma NonNegative(test: Test, r: nat, v: nat)
    requires test.Valid() && test.PerBlock() > 0
    ensures TransferOf(test, r, v) >= 0
  {
    var p := test.PerBlock();
    if !test.filePerProc {
      MulLe(test.tasks, 0, v / p);
      MulLe(p, 0, test.tasks * (v / p) + r);
    }
  }
}
