/** Multi-part upload in aiori-S3.c: the part numbers the ranks use and the list that completes the upload. */
module S3Upload {
  import opened Arith
  import opened IorOffsets

  const ETAG_SIZE: nat := 32

  /** The transfers a rank writes; with one segment the file is called segmented, else strided. */
  predicate Segmented(test: Test) { test.s == 1 }

  /** The part number of the k-th write of a rank. */
  function PartNumber(test: Test, rank: nat, k: nat): int
    requires test.t > 0
  {
    if test.filePerProc then k
    else if Segmented(test) then rank * test.PerBlock() + k
    else k * test.tasks + rank
  }

  /** Parts of one object: in a shared file no two writes of the job have the same number. */
  lemma PartNumbersDistinct(test: Test, rank: nat, k: nat, q: nat, l: nat)
    requires test.t > 0 && !test.filePerProc && rank < test.tasks && q < test.tasks
    requires k < test.PerTask() && l < test.PerTask()
    ensures PartNumber(test, rank, k) == PartNumber(test, q, l) <==> rank == q && k == l
  {
    if PartNumber(test, rank, k) == PartNumber(test, q, l) {
      if Segmented(test) {
        var p := test.PerBlock();
        assert p * rank == rank * p && p * q == q * p;
        DigitsUnique(p, rank, q, k, l);
      } else {
        assert test.tasks * k == k * test.tasks && test.tasks * l == l * test.tasks;
        DigitsUnique(test.tasks, k, l, rank, q);
      }
    }
  }

  /** The k-th entity tag of a rank in the gathered tag data, one rank's tags after the other. */
  function EtagAt(vec: string, perRank: nat, rank: nat, k: nat): string
    requires 0 <= ETAG_SIZE * (perRank * rank + k) && ETAG_SIZE * (perRank * rank + k) + ETAG_SIZE <= |vec|
  {
    vec[ETAG_SIZE * (perRank * rank + k)..ETAG_SIZE * (perRank * rank + k) + ETAG_SIZE]
  }

  /** One rank's upload state. */
  class Upload {
    var partNumber: nat
    var etags: string

    constructor ()
      ensures partNumber == 0 && etags == ""
    {
      partNumber, etags := 0, "";
    }

    /** s3_MPU_reset. */
    method Reset()
      modifies this
      ensures partNumber == 0 && etags == ""
    {
      partNumber, etags := 0, "";
    }

    /** S3_Xfer_internal for a write: the number of the part, which no other write of a shared file has, and the
        server's tag kept for later. */
    method Xfer(test: Test, rank: nat, etag: string) returns (part: int)
      requires test.t > 0 && |etag| == ETAG_SIZE
      modifies this
      ensures part == PartNumber(test, rank, old(partNumber))
      ensures !test.filePerProc && rank < test.tasks && old(partNumber) < test.PerTask() ==>
                forall q: nat, l: nat :: q < test.tasks && l < test.PerTask() && (q, l) != (rank, old(partNumber)) ==>
                  PartNumber(test, q, l) != part
      ensures partNumber == old(partNumber) + 1 && etags == old(etags) + etag
    {
      if !test.filePerProc {
        if test.s == 1 {
          var partsPerRank := test.b / test.t;
          part := rank * partsPerRank + partNumber;
        } else {
          part := partNumber * test.tasks + rank;
        }
      } else {
        part := partNumber;
      }
      if !test.filePerProc && rank < test.tasks && partNumber < test.PerTask() {
        forall q: nat, l: nat | q < test.tasks && l < test.PerTask() && (q, l) != (rank, partNumber)
          ensures PartNumber(test, q, l) != part
        {
          PartNumbersDistinct(test, rank, partNumber, q, l);
        }
      }
      partNumber := partNumber + 1;
      etags := etags + etag;
    }
  }

  /** Whose write stands at place x of the completion list. */
  function ListedRank(segmented: bool, tasks: nat, perRank: nat, x: nat): int
    requires tasks > 0 && perRank > 0
  {
    if segmented then x / perRank else x % tasks
  }

  function ListedWrite(segmented: bool, tasks: nat, perRank: nat, x: nat): int
    requires tasks > 0 && perRank > 0
  {
    if segmented then x % perRank else x / tasks
  }

  /** Places, ranks and writes fit the gathered data. */
  lemma ListedFits(segmented: bool, tasks: nat, perRank: nat, x: nat)
    requires tasks > 0 && perRank > 0 && x < perRank * tasks
    ensures 0 <= ListedRank(segmented, tasks, perRank, x) < tasks
    ensures 0 <= ListedWrite(segmented, tasks, perRank, x) < perRank
  {
    if segmented {
      DivMod(perRank, x);
      DigitAbove(perRank, x / perRank, x % perRank, tasks);
    } else {
      DivMod(tasks, x);
      assert perRank * tasks == tasks * perRank;
      DigitAbove(tasks, x / tasks, x % tasks, perRank);
    }
  }

  lemma TagFits(perRank: nat, tasks: nat, rank: nat, k: nat)
    requires rank < tasks && k < perRank
    ensures 0 <= perRank * rank + k < perRank * tasks
    ensures 0 <= ETAG_SIZE * (perRank * rank + k)
    ensures ETAG_SIZE * (perRank * rank + k) + ETAG_SIZE <= ETAG_SIZE * (perRank * tasks)
  {
    DigitBelow(perRank, rank, k, tasks);
  }

  ghost predicate Entry(vec: string, segmented: bool, tasks: nat, perRank: nat, x: nat, part: (nat, string))
    requires tasks > 0 && perRank > 0 && x < perRank * tasks && |vec| == ETAG_SIZE * (perRank * tasks)
  {
    ListedFits(segmented, tasks, perRank, x);
    var r, k := ListedRank(segmented, tasks, perRank, x), ListedWrite(segmented, tasks, perRank, x);
    TagFits(perRank, tasks, r, k);
    part == (x, EtagAt(vec, perRank, r, k))
  }

  /** Where the tag pointer stands in round j of the inner loop, and the part counter there. */
  function PointerAt(segmented: bool, perRank: nat, i: nat, j: nat): int
  {
    if segmented then i * (ETAG_SIZE * perRank) + j * ETAG_SIZE else i * ETAG_SIZE + j * (ETAG_SIZE * perRank)
  }

  function PlaceAt(segmented: bool, tasks: nat, perRank: nat, i: nat, j: nat): int
  {
    (if segmented then perRank else tasks) * i + j
  }

  /** S3_Close_internal at rank 0 for a shared file: the nested loops over the gathered tags. */
  method ListParts(segmented: bool, tasks: nat, etagsPerRank: nat, etagVec: string) returns (xml: seq<(nat, string)>)
    requires tasks > 0 && etagsPerRank > 0 && |etagVec| == ETAG_SIZE * (etagsPerRank * tasks)
    ensures |xml| == etagsPerRank * tasks
    ensures forall x :: 0 <= x < |xml| ==> Entry(etagVec, segmented, tasks, etagsPerRank, x, xml[x])
  {
    hide Entry, PointerAt, PlaceAt;
    var etagDataSize := ETAG_SIZE * etagsPerRank;
    var iMax, jMax, startMultiplier, stride;
    if segmented {
      iMax, jMax, startMultiplier, stride := tasks, etagsPerRank, etagDataSize, ETAG_SIZE;
    } else {
      iMax, jMax, startMultiplier, stride := etagsPerRank, tasks, ETAG_SIZE, etagDataSize;
    }
    xml := [];
    var part: nat := 0;
    RowBounds(segmented, tasks, etagsPerRank, 0);
    for i := 0 to iMax
      invariant part == |xml| == PlaceAt(segmented, tasks, etagsPerRank, i, 0) <= etagsPerRank * tasks
      invariant forall x :: 0 <= x < |xml| ==> Entry(etagVec, segmented, tasks, etagsPerRank, x, xml[x])
    {
      var etagPtr := i * startMultiplier;
      RowBounds(segmented, tasks, etagsPerRank, i);
      for j := 0 to jMax
        invariant part == |xml| == PlaceAt(segmented, tasks, etagsPerRank, i, j) <= etagsPerRank * tasks
        invariant etagPtr == PointerAt(segmented, etagsPerRank, i, j)
        invariant forall x :: 0 <= x < |xml| ==> Entry(etagVec, segmented, tasks, etagsPerRank, x, xml[x])
      {
        PointerOnTag(etagVec, segmented, tasks, etagsPerRank, i, j);
        PointerStep(segmented, tasks, etagsPerRank, i, j);
        var etag := etagVec[etagPtr..etagPtr + ETAG_SIZE];
        xml := xml + [(part, etag)];
        etagPtr := etagPtr + stride;
        part := part + 1;
      }
    }
  }

  lemma RowBounds(segmented: bool, tasks: nat, perRank: nat, i: nat)
    ensures PlaceAt(segmented, tasks, perRank, 0, 0) == 0 <= perRank * tasks
    ensures PointerAt(segmented, perRank, i, 0) == i * if segmented then ETAG_SIZE * perRank else ETAG_SIZE
    ensures PlaceAt(segmented, tasks, perRank, i, if segmented then perRank else tasks)
            == PlaceAt(segmented, tasks, perRank, i + 1, 0)
    ensures PlaceAt(segmented, tasks, perRank, if segmented then tasks else perRank, 0) == perRank * tasks
  {
    MulLe(perRank, 0, tasks);
    assert 0 * (ETAG_SIZE * perRank) == 0;
    assert perRank * (i + 1) == perRank * i + perRank && tasks * (i + 1) == tasks * i + tasks;
    assert tasks * perRank == perRank * tasks && perRank * 0 == 0 == tasks * 0;
  }

  lemma PointerStep(segmented: bool, tasks: nat, perRank: nat, i: nat, j: nat)
    ensures PointerAt(segmented, perRank, i, j + 1)
            == PointerAt(segmented, perRank, i, j) + if segmented then ETAG_SIZE else ETAG_SIZE * perRank
    ensures PlaceAt(segmented, tasks, perRank, i, j + 1) == PlaceAt(segmented, tasks, perRank, i, j) + 1
  {
    assert (j + 1) * (ETAG_SIZE * perRank) == j * (ETAG_SIZE * perRank) + ETAG_SIZE * perRank;
  }

  /** The walking pointer stands on the tag of the listed write. */
  lemma PointerOnTag(vec: string, segmented: bool, tasks: nat, perRank: nat, i: nat, j: nat)
    requires tasks > 0 && perRank > 0 && |vec| == ETAG_SIZE * (perRank * tasks)
    requires if segmented then i < tasks && j < perRank else i < perRank && j < tasks
    ensures var ptr, x := PointerAt(segmented, perRank, i, j), PlaceAt(segmented, tasks, perRank, i, j);
            && 0 <= ptr && ptr + ETAG_SIZE <= |vec| && 0 <= x < perRank * tasks
            && Entry(vec, segmented, tasks, perRank, x, (x, vec[ptr..ptr + ETAG_SIZE]))
  {
    var r, k := if segmented then i else j, if segmented then j else i;
    TagFits(perRank, tasks, r, k);
    Linear(perRank, r, k);
    PlaceDigits(segmented, tasks, perRank, i, j);
    hide PlaceAt, ListedRank, ListedWrite;
  }

  lemma PlaceDigits(segmented: bool, tasks: nat, perRank: nat, i: nat, j: nat)
    requires tasks > 0 && perRank > 0
    requires if segmented then i < tasks && j < perRank else i < perRank && j < tasks
    ensures var x := PlaceAt(segmented, tasks, perRank, i, j);
            && 0 <= x < perRank * tasks
            && ListedRank(segmented, tasks, perRank, x) == (if segmented then i else j)
            && ListedWrite(segmented, tasks, perRank, x) == if segmented then j else i
  {
    if segmented {
      DigitBelow(perRank, i, j, tasks);
      Digits(perRank, i, j);
    } else {
      DigitBelow(tasks, i, j, perRank);
      assert tasks * perRank == perRank * tasks;
      Digits(tasks, i, j);
    }
  }

  lemma Linear(perRank: nat, r: nat, k: nat)
    ensures ETAG_SIZE * (perRank * r + k) == r * (ETAG_SIZE * perRank) + k * ETAG_SIZE
  {
  }
}
