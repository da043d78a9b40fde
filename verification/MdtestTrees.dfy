/** Several tasks making or removing their own directory trees at once: whatever the interleaving, each tree fares
    as if its task were alone. */
module MdtestTrees {
  import opened MdtestTree
  import opened MdtestFs

  /** The operations in the order they happen, each with the tree it belongs to. */
  function OpsOf(order: seq<(nat, Op)>): (ops: seq<Op>)
  {
    if order == [] then [] else [order[0].1] + OpsOf(order[1..])
  }

  /** Those of one tree. */
  function Project(order: seq<(nat, Op)>, t: nat): seq<Op>
  {
    if order == [] then []
    else (if order[0].0 == t then [order[0].1] else []) + Project(order[1..], t)
  }

  /** An interleaving of create_remove_directory_tree for trees 0 .. trees - 1. */
  ghost predicate IsInterleaving(create: bool, b: nat, depth: nat, trees: nat, order: seq<(nat, Op)>)
    requires b >= 1
  {
    && (forall e :: e in order ==> e.0 < trees)
    && (forall t: nat :: t < trees ==> Project(order, t) == BranchOps(create, b, depth, t, 0, 0))
  }

  /** Is the path inside tree t? */
  predicate Inside(p: Path, t: nat)
  {
    |p| > 0 && p[0] == Dir(t, 0)
  }

  /** The part of the file system in tree t, and the test directory. */
  function Part(fs: Files, t: nat): Files
  {
    Files(set p | p in fs.dirs && (p == [] || Inside(p, t)), set p | p in fs.files && Inside(p, t))
  }

  /** A directory operation in tree t. */
  predicate Local(e: (nat, Op))
  {
    (e.1.Mkdir? || e.1.Rmdir?) && Inside(e.1.path, e.0)
  }

  lemma OpIsLocal(fs: Files, e: (nat, Op))
    requires Local(e)
    ensures Succeeds(fs, e.1) <==> Succeeds(Part(fs, e.0), e.1)
    ensures Part(Do(fs, e.1), e.0) == Do(Part(fs, e.0), e.1)
    ensures forall t :: t != e.0 ==> Part(Do(fs, e.1), t) == Part(fs, t)
  {
    var p := e.1.path;
    if e.1.Mkdir? {
      assert ParentPath(p) == [] || Inside(ParentPath(p), e.0);
    } else {
      forall q: Path | |q| > 0 && ParentPath(q) == p ensures Inside(q, e.0) {
        assert q[0] == ParentPath(q)[0];
      }
    }
  }

  /** What lies in none of the trees. */
  ghost predicate SameElsewhere(fs: Files, fs1: Files, trees: nat)
  {
    forall p: Path :: (forall t: nat :: t < trees ==> !Inside(p, t)) ==>
      (p in fs.dirs <==> p in fs1.dirs) && (p in fs.files <==> p in fs1.files)
  }

  /** Independence: the whole interleaving succeeds if each tree's operations do on its part, and each part
      ends as its own operations leave it. */
  lemma {:induction false} TreesIndependent(fs: Files, order: seq<(nat, Op)>, trees: nat)
    requires forall i :: 0 <= i < |order| ==> Local(order[i]) && order[i].0 < trees
    requires forall t: nat :: t < trees ==> AllSucceed(Part(fs, t), Project(order, t))
    ensures AllSucceed(fs, OpsOf(order))
    ensures forall t: nat :: t < trees ==> Part(Run(fs, OpsOf(order)), t) == Run(Part(fs, t), Project(order, t))
    ensures SameElsewhere(fs, Run(fs, OpsOf(order)), trees)
    decreases |order|
  {
    hide Part, Local, Succeeds, Do, Inside;
    if order != [] {
      var e, rest := order[0], order[1..];
      assert Local(order[0]);
      OpIsLocal(fs, e);
      var fs1 := Do(fs, e.1);
      assert Project(order, e.0) == [e.1] + Project(rest, e.0);
      RunFirst(Part(fs, e.0), e.1, Project(rest, e.0));
      assert Succeeds(fs, e.1);
      forall t: nat | t < trees
        ensures AllSucceed(Part(fs1, t), Project(rest, t))
        ensures Run(Part(fs1, t), Project(rest, t)) == Run(Part(fs, t), Project(order, t))
      {
        if t != e.0 {
          assert Project(order, t) == Project(rest, t);
        }
      }
      TreesIndependent(fs1, rest, trees);
      assert OpsOf(order)[1..] == OpsOf(rest);
      DoElsewhere(fs, e, trees);
    }
  }

  lemma RunFirst(fs: Files, op: Op, rest: seq<Op>)
    ensures AllSucceed(fs, [op] + rest) <==> Succeeds(fs, op) && AllSucceed(Do(fs, op), rest)
    ensures Run(fs, [op] + rest) == Run(Do(fs, op), rest)
  {
    assert ([op] + rest)[1..] == rest;
  }

  lemma DoElsewhere(fs: Files, e: (nat, Op), trees: nat)
    requires Local(e) && e.0 < trees
    ensures SameElsewhere(fs, Do(fs, e.1), trees)
  {
  }

  lemma {:induction false} BranchLocal(create: bool, b: nat, depth: nat, t: nat, level: nat, c: nat)
    requires b >= 1
    ensures forall op :: op in BranchOps(create, b, depth, t, level, c) ==> Local((t, op))
    decreases depth + 1 - level, 0
  {
    if level <= depth {
      ChildrenLocal(create, b, depth, t, level + 1, b * c + 1, b);
    }
  }

  lemma {:induction false} ChildrenLocal(create: bool, b: nat, depth: nat, t: nat, level: nat, first: nat, n: nat)
    requires b >= 1
    ensures forall op :: op in ChildrenOps(create, b, depth, t, level, first, n) ==> Local((t, op))
    decreases depth + 1 - level, n + 1
  {
    if n > 0 {
      BranchLocal(create, b, depth, t, level, first);
      ChildrenLocal(create, b, depth, t, level, first + 1, n - 1);
    }
  }

  lemma {:induction false} InProjection(order: seq<(nat, Op)>, e: (nat, Op))
    requires e in order
    ensures e.1 in Project(order, e.0)
  {
    if order[0] != e {
      InProjection(order[1..], e);
    }
  }

  lemma InterleavingLocal(create: bool, b: nat, depth: nat, trees: nat, order: seq<(nat, Op)>)
    requires b >= 1 && IsInterleaving(create, b, depth, trees, order)
    ensures forall i :: 0 <= i < |order| ==> Local(order[i]) && order[i].0 < trees
  {
    hide BranchOps, Local;
    forall i | 0 <= i < |order| ensures Local(order[i]) && order[i].0 < trees {
      var e := order[i];
      InProjection(order, e);
      BranchLocal(create, b, depth, e.0, 0, 0);
      assert (e.0, e.1) == e;
    }
  }

  /** The directories of trees 0 .. trees - 1. */
  function AllPaths(b: nat, depth: nat, trees: nat): set<Path>
    requires b >= 1
  {
    set t: nat, x | t < trees && x in Branch(b, depth, 0, 0) :: DirPath(b, t, x)
  }

  lemma AllPathsIn(b: nat, depth: nat, trees: nat, p: Path)
    requires b >= 1
    ensures p in AllPaths(b, depth, trees) <==> exists t: nat :: t < trees && p in Paths(b, t, Branch(b, depth, 0, 0))
    ensures forall t: nat :: p in Paths(b, t, Branch(b, depth, 0, 0)) ==> Inside(p, t)
  {
    hide Branch, Chain;
    if p in AllPaths(b, depth, trees) {
      var t: nat, x :| t < trees && x in Branch(b, depth, 0, 0) && DirPath(b, t, x) == p;
      assert p in Paths(b, t, Branch(b, depth, 0, 0));
    }
    if t: nat :| t < trees && p in Paths(b, t, Branch(b, depth, 0, 0)) {
      var x :| x in Branch(b, depth, 0, 0) && DirPath(b, t, x) == p;
      assert p in AllPaths(b, depth, trees);
    }
  }

  /** No tree has been put into the test directory yet. */
  ghost predicate Untouched(fs: Files, trees: nat)
  {
    && [] in fs.dirs && fs.dirs !! fs.files
    && forall p, t: nat :: IsEntry(fs, p) && t < trees ==> !Inside(p, t)
  }

  lemma MakeOne(b: nat, depth: nat, t: nat, fs: Files)
    requires b >= 1 && [] in fs.dirs && forall p :: IsEntry(fs, p) ==> !Inside(p, t)
    ensures AllSucceed(Part(fs, t), BranchOps(true, b, depth, t, 0, 0))
    ensures Run(Part(fs, t), BranchOps(true, b, depth, t, 0, 0)) == Files({[]} + Paths(b, t, Branch(b, depth, 0, 0)), {})
  {
    hide Branch, Level, Run, AllSucceed, BranchOps, Chain;
    assert Part(fs, t) == Files({[]}, {});
    assert Level(b, 0) == 0 by { RootIsTop(b); }
    RootShape(b, t);
    MakeBranch(Part(fs, t), b, depth, t, 0, 0);
  }

  lemma RootIsTop(b: nat)
    requires b >= 1
    ensures Level(b, 0) == 0
  {
  }

  lemma RootShape(b: nat, t: nat)
    requires b >= 1
    ensures DirPath(b, t, 0) == [Dir(t, 0)] && ParentPath(DirPath(b, t, 0)) == []
  {
  }

  lemma RemoveOne(b: nat, depth: nat, t: nat, fs: Files)
    requires b >= 1 && [] in fs.dirs
    requires forall p :: Inside(p, t) ==> (p in fs.dirs <==> p in Paths(b, t, Branch(b, depth, 0, 0))) && p !in fs.files
    ensures AllSucceed(Part(fs, t), BranchOps(false, b, depth, t, 0, 0))
    ensures Run(Part(fs, t), BranchOps(false, b, depth, t, 0, 0)) == Files({[]}, {})
  {
    hide Branch, Level, Run, AllSucceed, BranchOps, Chain;
    var ids := Branch(b, depth, 0, 0);
    AllInside(b, t, ids);
    var here := Part(fs, t);
    assert here == Files({[]} + Paths(b, t, ids), {});
    RootIsTop(b);
    forall p, x | IsEntry(here, p) && x in ids && |p| > 0 && ParentPath(p) == DirPath(b, t, x)
      ensures p in Paths(b, t, ids) {}
    RemoveBranch(here, b, depth, t, 0, 0);
  }

  lemma AllInside(b: nat, t: nat, ids: seq<nat>)
    requires b >= 1
    ensures forall p :: p in Paths(b, t, ids) ==> Inside(p, t)
  {
    hide Chain;
  }

  /** All trees made at once: nothing fails, and exactly their directories are added. */
  lemma MakeTrees(b: nat, depth: nat, trees: nat, fs: Files, order: seq<(nat, Op)>)
    requires b >= 1 && Untouched(fs, trees) && IsInterleaving(true, b, depth, trees, order)
    ensures AllSucceed(fs, OpsOf(order))
    ensures Run(fs, OpsOf(order)) == fs.(dirs := fs.dirs + AllPaths(b, depth, trees))
  {
    hide BranchOps, Branch, Run, AllSucceed, Chain, Local, Project, OpsOf, Paths, AllPaths;
    InterleavingLocal(true, b, depth, trees, order);
    forall t: nat | t < trees
      ensures AllSucceed(Part(fs, t), Project(order, t))
      ensures Run(Part(fs, t), Project(order, t)) == Files({[]} + Paths(b, t, Branch(b, depth, 0, 0)), {})
    {
      MakeOne(b, depth, t, fs);
    }
    TreesIndependent(fs, order, trees);
    TreesMade(b, depth, trees, fs, Run(fs, OpsOf(order)));
  }

  /** Putting the parts together. */
  lemma TreesMade(b: nat, depth: nat, trees: nat, fs: Files, fs1: Files)
    requires b >= 1 && Untouched(fs, trees) && SameElsewhere(fs, fs1, trees)
    requires forall t: nat :: t < trees ==> Part(fs1, t) == Files({[]} + Paths(b, t, Branch(b, depth, 0, 0)), {})
    ensures fs1 == fs.(dirs := fs.dirs + AllPaths(b, depth, trees))
  {
    hide Branch, Chain, Paths, AllPaths;
    forall p: Path
      ensures p in fs1.dirs <==> p in fs.dirs || p in AllPaths(b, depth, trees)
      ensures p in fs1.files <==> p in fs.files
    {
      AllPathsIn(b, depth, trees, p);
      if t: nat :| t < trees && Inside(p, t) {
        assert p in fs1.dirs <==> p in Part(fs1, t).dirs;
        assert p in fs1.files <==> p in Part(fs1, t).files;
        assert !IsEntry(fs, p);
        assert p in Part(fs1, t).dirs <==> p in Paths(b, t, Branch(b, depth, 0, 0));
        OneTree(b, depth, trees, p, t);
      }
    }
  }

  lemma OneTree(b: nat, depth: nat, trees: nat, p: Path, t: nat)
    requires b >= 1 && t < trees && Inside(p, t)
    ensures p in AllPaths(b, depth, trees) <==> p in Paths(b, t, Branch(b, depth, 0, 0))
  {
    hide Branch, Chain, Paths, AllPaths;
    AllPathsIn(b, depth, trees, p);
    if p in AllPaths(b, depth, trees) {
      var u: nat :| u < trees && p in Paths(b, u, Branch(b, depth, 0, 0));
      assert Inside(p, u) && u == t;
    }
  }

  /** All trees removed at once, when nothing else is left in them: nothing fails, and they are gone. */
  lemma RemoveTrees(b: nat, depth: nat, trees: nat, fs: Files, order: seq<(nat, Op)>)
    requires b >= 1 && Untouched(fs, trees) && IsInterleaving(false, b, depth, trees, order)
    ensures var fs1 := fs.(dirs := fs.dirs + AllPaths(b, depth, trees));
            AllSucceed(fs1, OpsOf(order)) && Run(fs1, OpsOf(order)) == fs
  {
    hide BranchOps, Branch, Run, AllSucceed, Chain, Local, Project, OpsOf, Paths, AllPaths;
    InterleavingLocal(false, b, depth, trees, order);
    var fs1 := fs.(dirs := fs.dirs + AllPaths(b, depth, trees));
    forall t: nat | t < trees
      ensures AllSucceed(Part(fs1, t), Project(order, t))
      ensures Run(Part(fs1, t), Project(order, t)) == Files({[]}, {})
    {
      OnlyTreeLeft(b, depth, trees, fs, t);
      RemoveOne(b, depth, t, fs1);
    }
    TreesIndependent(fs1, order, trees);
    TreesGone(b, depth, trees, fs, Run(fs1, OpsOf(order)));
  }

  lemma OnlyTreeLeft(b: nat, depth: nat, trees: nat, fs: Files, t: nat)
    requires b >= 1 && Untouched(fs, trees) && t < trees
    ensures var fs1 := fs.(dirs := fs.dirs + AllPaths(b, depth, trees));
            forall p :: Inside(p, t) ==> (p in fs1.dirs <==> p in Paths(b, t, Branch(b, depth, 0, 0))) && p !in fs1.files
  {
    hide Branch, Chain, Paths, AllPaths;
    forall p: Path | Inside(p, t)
      ensures p in fs.dirs + AllPaths(b, depth, trees) <==> p in Paths(b, t, Branch(b, depth, 0, 0))
      ensures p !in fs.files
    {
      AllPathsIn(b, depth, trees, p);
      assert !IsEntry(fs, p);
    }
  }

  lemma TreesGone(b: nat, depth: nat, trees: nat, fs: Files, fs2: Files)
    requires b >= 1 && Untouched(fs, trees)
    requires SameElsewhere(fs.(dirs := fs.dirs + AllPaths(b, depth, trees)), fs2, trees)
    requires forall t: nat :: t < trees ==> Part(fs2, t) == Files({[]}, {})
    ensures fs2 == fs
  {
    hide Branch, Chain, Paths, AllPaths;
    forall p: Path
      ensures p in fs2.dirs <==> p in fs.dirs
      ensures p in fs2.files <==> p in fs.files
    {
      AllPathsIn(b, depth, trees, p);
      if t: nat :| t < trees && Inside(p, t) {
        assert p in fs2.dirs <==> p in Part(fs2, t).dirs;
        assert p in fs2.files <==> p in Part(fs2, t).files;
        assert !IsEntry(fs, p);
      }
    }
  }
}
