/** The file system as mdtest.c uses it, and the operations of its phases as sequences. */
module MdtestFs {
  import opened MdtestTree

  datatype Files = Files(dirs: set<Path>, files: set<Path>)

  datatype Op = Mkdir(path: Path) | Rmdir(path: Path) | Create(path: Path) | Delete(path: Path) | Stat(path: Path)

  function ParentPath(p: Path): Path
    requires |p| > 0
  {
    p[..|p| - 1]
  }

  predicate IsEntry(fs: Files, p: Path)
  {
    p in fs.dirs || p in fs.files
  }

  predicate Childless(fs: Files, p: Path)
  {
    && (forall q :: q in fs.dirs && |q| > 0 ==> ParentPath(q) != p)
    && (forall q :: q in fs.files && |q| > 0 ==> ParentPath(q) != p)
  }

  predicate Succeeds(fs: Files, op: Op)
  {
    match op
    case Mkdir(p) => |p| > 0 && ParentPath(p) in fs.dirs && !IsEntry(fs, p)
    case Rmdir(p) => p in fs.dirs && Childless(fs, p)
    case Create(p) => |p| > 0 && ParentPath(p) in fs.dirs && p !in fs.dirs
    case Delete(p) => p in fs.files
    case Stat(p) => IsEntry(fs, p)
  }

  function Do(fs: Files, op: Op): Files
  {
    if !Succeeds(fs, op) then fs
    else match op
         case Mkdir(p) => fs.(dirs := fs.dirs + {p})
         case Rmdir(p) => fs.(dirs := fs.dirs - {p})
         case Create(p) => fs.(files := fs.files + {p})
         case Delete(p) => fs.(files := fs.files - {p})
         case Stat(_) => fs
  }

  function Run(fs: Files, ops: seq<Op>): Files
    decreases |ops|
  {
    if ops == [] then fs else Run(Do(fs, ops[0]), ops[1..])
  }

  predicate AllSucceed(fs: Files, ops: seq<Op>)
    decreases |ops|
  {
    ops == [] || (Succeeds(fs, ops[0]) && AllSucceed(Do(fs, ops[0]), ops[1..]))
  }

  lemma {:induction false} RunConcat(fs: Files, a: seq<Op>, b: seq<Op>)
    ensures Run(fs, a + b) == Run(Run(fs, a), b)
    ensures AllSucceed(fs, a + b) <==> AllSucceed(fs, a) && AllSucceed(Run(fs, a), b)
    decreases |a|
  {
    if a == [] {
      assert a + b == b;
    } else {
      assert (a + b)[0] == a[0] && (a + b)[1..] == a[1..] + b;
      RunConcat(Do(fs, a[0]), a[1..], b);
    }
  }

  lemma RunNothing(fs: Files)
    ensures Run(fs, []) == fs && AllSucceed(fs, [])
  {
  }

  lemma RunOne(fs: Files, op: Op)
    ensures Run(fs, [op]) == Do(fs, op)
    ensures AllSucceed(fs, [op]) <==> Succeeds(fs, op)
  {
  }

  /** What it means that all operations succeed: whenever one is made, its parent directory is there and its own
      name free, or the thing it removes or looks up is there, with nothing left inside; and it changes that one
      name. */
  lemma {:induction false} EachIsReal(fs: Files, ops: seq<Op>, i: nat)
    requires AllSucceed(fs, ops) && i < |ops|
    ensures var p, now, next := ops[i].path, Run(fs, ops[..i]), Run(fs, ops[..i + 1]);
            match ops[i]
            case Mkdir(_) => |p| > 0 && p[..|p| - 1] in now.dirs && p !in now.dirs && p !in now.files
                             && next.dirs == now.dirs + {p} && next.files == now.files
            case Create(_) => |p| > 0 && p[..|p| - 1] in now.dirs && p !in now.dirs
                              && next.dirs == now.dirs && next.files == now.files + {p}
            case Rmdir(_) => p in now.dirs
                             && (forall q :: (q in now.dirs || q in now.files) && |q| > 0 ==> q[..|q| - 1] != p)
                             && next.dirs == now.dirs - {p} && next.files == now.files
            case Delete(_) => p in now.files && next.dirs == now.dirs && next.files == now.files - {p}
            case Stat(_) => (p in now.dirs || p in now.files) && next == now
  {
    var a, c := ops[..i], ops[i + 1..];
    assert ops == a + ([ops[i]] + c) && ops[..i + 1] == a + [ops[i]];
    RunConcat(fs, a, [ops[i]] + c);
    RunConcat(Run(fs, a), [ops[i]], c);
    RunConcat(fs, a, [ops[i]]);
    RunOne(Run(fs, a), ops[i]);
    hide Run, AllSucceed;
    IsReal(Run(fs, a), ops[i]);
  }

  lemma IsReal(now: Files, op: Op)
    requires Succeeds(now, op)
    ensures var p, next := op.path, Do(now, op);
            match op
            case Mkdir(_) => |p| > 0 && p[..|p| - 1] in now.dirs && p !in now.dirs && p !in now.files
                             && next.dirs == now.dirs + {p} && next.files == now.files
            case Create(_) => |p| > 0 && p[..|p| - 1] in now.dirs && p !in now.dirs
                              && next.dirs == now.dirs && next.files == now.files + {p}
            case Rmdir(_) => p in now.dirs
                             && (forall q :: (q in now.dirs || q in now.files) && |q| > 0 ==> q[..|q| - 1] != p)
                             && next.dirs == now.dirs - {p} && next.files == now.files
            case Delete(_) => p in now.files && next.dirs == now.dirs && next.files == now.files - {p}
            case Stat(_) => (p in now.dirs || p in now.files) && next == now
  {
    if op.Rmdir? {
      forall q | (q in now.dirs || q in now.files) && |q| > 0 ensures q[..|q| - 1] != op.path {
        assert ParentPath(q) != op.path;
      }
    }
  }

  // ----- the directory tree -----

  /** create_remove_directory_tree: parents before children when creating, after them when removing. */
  function BranchOps(create: bool, b: nat, depth: nat, tree: nat, level: nat, c: nat): seq<Op>
    requires b >= 1
    decreases depth + 1 - level, 0
  {
    if level > depth then []
    else
      var below := ChildrenOps(create, b, depth, tree, level + 1, b * c + 1, b);
      if create then [Mkdir(DirPath(b, tree, c))] + below else below + [Rmdir(DirPath(b, tree, c))]
  }

  function ChildrenOps(create: bool, b: nat, depth: nat, tree: nat, level: nat, first: nat, n: nat): seq<Op>
    requires b >= 1
    decreases depth + 1 - level, n + 1
  {
    if n == 0 then []
    else BranchOps(create, b, depth, tree, level, first) + ChildrenOps(create, b, depth, tree, level, first + 1, n - 1)
  }

  function Paths(b: nat, tree: nat, ids: seq<nat>): set<Path>
    requires b >= 1
  {
    set x | x in ids :: DirPath(b, tree, x)
  }

  lemma BranchSplits(b: nat, depth: nat, level: nat, c: nat)
    requires level <= depth
    ensures var kids := Children(b, depth, level + 1, b * c + 1, b);
            && Branch(b, depth, level, c) == [c] + kids
            && forall x :: x in Branch(b, depth, level, c) <==> x == c || x in kids
  {
  }

  lemma BranchMember(b: nat, depth: nat, level: nat, c: nat, x: nat)
    requires b >= 1 && Level(b, c) == level
    ensures x in Branch(b, depth, level, c) <==> level <= Level(b, x) <= depth && AncestorAt(b, x, level) == c
  {
    BranchCount(b, depth, level, c, x);
  }

  lemma ChildrenMember(b: nat, depth: nat, level: nat, first: nat, n: nat, x: nat)
    requires b >= 1 && forall c :: first <= c < first + n ==> Level(b, c) == level
    ensures x in Children(b, depth, level, first, n)
       <==> level <= Level(b, x) <= depth && first <= AncestorAt(b, x, level) < first + n
  {
    ChildrenCount(b, depth, level, first, n, x);
  }

  lemma PathsConcat(b: nat, tree: nat, s: seq<nat>, t: seq<nat>)
    requires b >= 1
    ensures Paths(b, tree, s + t) == Paths(b, tree, s) + Paths(b, tree, t)
  {
  }

  /** Directories of one sibling's branch are not in the branches of the others. */
  lemma SiblingsApart(b: nat, depth: nat, tree: nat, level: nat, first: nat, n: nat, p: Path)
    requires b >= 1 && forall c :: first <= c < first + n ==> Level(b, c) == level
    requires n >= 1
    ensures !(p in Paths(b, tree, Branch(b, depth, level, first))
              && p in Paths(b, tree, Children(b, depth, level, first + 1, n - 1)))
  {
    if p in Paths(b, tree, Branch(b, depth, level, first)) && p in Paths(b, tree, Children(b, depth, level, first + 1, n - 1)) {
      var x :| x in Branch(b, depth, level, first) && DirPath(b, tree, x) == p;
      var y :| y in Children(b, depth, level, first + 1, n - 1) && DirPath(b, tree, y) == p;
      DirPathInjective(b, tree, x, y);
      BranchMember(b, depth, level, first, x);
      ChildrenMember(b, depth, level, first + 1, n - 1, y);
    }
  }

  ghost predicate Absent(fs: Files, ps: set<Path>)
  {
    forall p :: p in ps ==> !IsEntry(fs, p)
  }

  lemma {:induction false} MakeBranch(fs: Files, b: nat, depth: nat, tree: nat, level: nat, c: nat)
    requires b >= 1 && Level(b, c) == level
    requires ParentPath(DirPath(b, tree, c)) in fs.dirs
    requires Absent(fs, Paths(b, tree, Branch(b, depth, level, c)))
    ensures AllSucceed(fs, BranchOps(true, b, depth, tree, level, c))
    ensures Run(fs, BranchOps(true, b, depth, tree, level, c))
         == fs.(dirs := fs.dirs + Paths(b, tree, Branch(b, depth, level, c)))
    decreases depth + 1 - level, 0
  {
    hide Level, AncestorAt, Chain, DirPath, Parent, Children, ChildrenOps, Branch, Run, AllSucceed;
    if level <= depth {
      var p := DirPath(b, tree, c);
      var kids := Children(b, depth, level + 1, b * c + 1, b);
      BranchSplits(b, depth, level, c);
      PathsConcat(b, tree, [c], kids);
      assert Paths(b, tree, [c]) == {p};
      var fs1 := Do(fs, Mkdir(p));
      DirPathShape(b, tree, c);
      ChildLevels(b, c, level);
      forall q | q in Paths(b, tree, kids) ensures !IsEntry(fs1, q) {
        NotBelowItself(b, depth, tree, level, c);
      }
      MakeChildren(fs1, b, depth, tree, level + 1, c, b * c + 1, b);
      RunConcat(fs, [Mkdir(p)], ChildrenOps(true, b, depth, tree, level + 1, b * c + 1, b));
      RunOne(fs, Mkdir(p));
    } else {
      RunNothing(fs);
      BranchBelow(b, depth, level, c);
    }
  }

  lemma BranchBelow(b: nat, depth: nat, level: nat, c: nat)
    requires level > depth
    ensures Branch(b, depth, level, c) == []
  {
  }

  lemma NotBelowItself(b: nat, depth: nat, tree: nat, level: nat, c: nat)
    requires b >= 1 && Level(b, c) == level <= depth
    ensures DirPath(b, tree, c) !in Paths(b, tree, Children(b, depth, level + 1, b * c + 1, b))
  {
    var kids := Children(b, depth, level + 1, b * c + 1, b);
    if DirPath(b, tree, c) in Paths(b, tree, kids) {
      var x :| x in kids && DirPath(b, tree, x) == DirPath(b, tree, c);
      DirPathInjective(b, tree, x, c);
      ChildLevels(b, c, level);
      ChildrenMember(b, depth, level + 1, b * c + 1, b, x);
    }
  }

  lemma {:induction false} MakeChildren(fs: Files, b: nat, depth: nat, tree: nat, level: nat, c: nat, first: nat, n: nat)
    requires b >= 1 && level >= 1 && Level(b, c) == level - 1
    requires b * c + 1 <= first && first + n <= b * c + b + 1
    requires DirPath(b, tree, c) in fs.dirs
    requires Absent(fs, Paths(b, tree, Children(b, depth, level, first, n)))
    ensures AllSucceed(fs, ChildrenOps(true, b, depth, tree, level, first, n))
    ensures Run(fs, ChildrenOps(true, b, depth, tree, level, first, n))
         == fs.(dirs := fs.dirs + Paths(b, tree, Children(b, depth, level, first, n)))
    decreases depth + 1 - level, n + 1
  {
    if n > 0 {
      ChildLevels(b, c, level - 1);
      ChildrenOf(b, c, first);
      DirPathShape(b, tree, first);
      var here, rest := Branch(b, depth, level, first), Children(b, depth, level, first + 1, n - 1);
      PathsConcat(b, tree, here, rest);
      MakeBranch(fs, b, depth, tree, level, first);
      var fs1 := Run(fs, BranchOps(true, b, depth, tree, level, first));
      forall p | p in Paths(b, tree, rest) ensures !IsEntry(fs1, p) {
        SiblingsApart(b, depth, tree, level, first, n, p);
      }
      MakeChildren(fs1, b, depth, tree, level, c, first + 1, n - 1);
      RunConcat(fs, BranchOps(true, b, depth, tree, level, first), ChildrenOps(true, b, depth, tree, level, first + 1, n - 1));
    } else {
      assert Paths(b, tree, []) == {};
    }
  }

  /** Nothing lies in the directories `ids` but directories of `ids`. */
  ghost predicate OnlyTree(fs: Files, b: nat, tree: nat, ids: seq<nat>)
    requires b >= 1
  {
    forall p, x :: IsEntry(fs, p) && x in ids && |p| > 0 && ParentPath(p) == DirPath(b, tree, x) ==> p in Paths(b, tree, ids)
  }

  lemma ChildPath(b: nat, tree: nat, x: nat, y: nat)
    requires b >= 1 && ParentPath(DirPath(b, tree, y)) == DirPath(b, tree, x)
    ensures y > 0 && Parent(b, y) == x && Level(b, y) == Level(b, x) + 1
  {
    DirPathShape(b, tree, y);
    DirPathShape(b, tree, x);
    if y > 0 {
      assert DirPath(b, tree, y)[..Level(b, y)] == DirPath(b, tree, Parent(b, y));
      DirPathInjective(b, tree, Parent(b, y), x);
    }
  }

  lemma {:induction false} RemoveBranch(fs: Files, b: nat, depth: nat, tree: nat, level: nat, c: nat)
    requires b >= 1 && Level(b, c) == level
    requires fs.dirs !! fs.files && Paths(b, tree, Branch(b, depth, level, c)) <= fs.dirs
    requires OnlyTree(fs, b, tree, Branch(b, depth, level, c))
    ensures AllSucceed(fs, BranchOps(false, b, depth, tree, level, c))
    ensures Run(fs, BranchOps(false, b, depth, tree, level, c))
         == fs.(dirs := fs.dirs - Paths(b, tree, Branch(b, depth, level, c)))
    decreases depth + 1 - level, 0
  {
    hide Level, AncestorAt, Chain, DirPath, Parent, Children, ChildrenOps, Run, AllSucceed, OnlyTree;
    if level <= depth {
      var p := DirPath(b, tree, c);
      var kids := Children(b, depth, level + 1, b * c + 1, b);
      PathsConcat(b, tree, [c], kids);
      assert Paths(b, tree, [c]) == {p};
      ChildLevels(b, c, level);
      NarrowToChildren(fs, b, depth, tree, level, c);
      RemoveChildren(fs, b, depth, tree, level + 1, c, b * c + 1, b);
      var below := ChildrenOps(false, b, depth, tree, level + 1, b * c + 1, b);
      var fs1 := Run(fs, below);
      forall q | IsEntry(fs, q) && |q| > 0 && ParentPath(q) == p ensures q in Paths(b, tree, kids) {
        KidsGone(fs, b, depth, tree, level, c, q);
      }
      assert Childless(fs1, p) by { hide Paths; }
      NotBelowItself(b, depth, tree, level, c);
      RunConcat(fs, below, [Rmdir(p)]);
      RunOne(fs1, Rmdir(p));
    } else {
      RunNothing(fs);
      assert Paths(b, tree, []) == {};
    }
  }

  /** Whatever lies in c's directory is a directory of the branches below c. */
  lemma KidsGone(fs: Files, b: nat, depth: nat, tree: nat, level: nat, c: nat, q: Path)
    requires b >= 1 && Level(b, c) == level <= depth
    requires OnlyTree(fs, b, tree, Branch(b, depth, level, c))
    requires IsEntry(fs, q) && |q| > 0 && ParentPath(q) == DirPath(b, tree, c)
    ensures q in Paths(b, tree, Children(b, depth, level + 1, b * c + 1, b))
  {
    hide Level, AncestorAt, Chain, DirPath, Parent, Children, Branch;
    BranchSplits(b, depth, level, c);
    assert c in Branch(b, depth, level, c);
    assert q in Paths(b, tree, Branch(b, depth, level, c));
    var y :| y in Branch(b, depth, level, c) && DirPath(b, tree, y) == q;
    ChildPath(b, tree, c, y);
  }

  lemma NarrowToChildren(fs: Files, b: nat, depth: nat, tree: nat, level: nat, c: nat)
    requires b >= 1 && Level(b, c) == level <= depth
    requires OnlyTree(fs, b, tree, Branch(b, depth, level, c))
    ensures OnlyTree(fs, b, tree, Children(b, depth, level + 1, b * c + 1, b))
  {
    var ids, kids := Branch(b, depth, level, c), Children(b, depth, level + 1, b * c + 1, b);
    ChildLevels(b, c, level);
    forall p, x | IsEntry(fs, p) && x in kids && |p| > 0 && ParentPath(p) == DirPath(b, tree, x)
      ensures p in Paths(b, tree, kids)
    {
      assert x in ids;
      var y :| y in ids && DirPath(b, tree, y) == p;
      ChildPath(b, tree, x, y);
      ChildrenMember(b, depth, level + 1, b * c + 1, b, x);
      assert y in [c] + kids;
    }
  }

  lemma NarrowSiblings(fs: Files, b: nat, depth: nat, tree: nat, level: nat, first: nat, n: nat)
    requires b >= 1 && n >= 1 && forall c :: first <= c < first + n ==> Level(b, c) == level
    requires OnlyTree(fs, b, tree, Children(b, depth, level, first, n))
    ensures OnlyTree(fs, b, tree, Branch(b, depth, level, first))
    ensures OnlyTree(fs, b, tree, Children(b, depth, level, first + 1, n - 1))
  {
    var ids := Children(b, depth, level, first, n);
    var here, rest := Branch(b, depth, level, first), Children(b, depth, level, first + 1, n - 1);
    forall p, x | IsEntry(fs, p) && |p| > 0 && ParentPath(p) == DirPath(b, tree, x)
      ensures x in here ==> p in Paths(b, tree, here)
      ensures x in rest ==> p in Paths(b, tree, rest)
    {
      if x in here || x in rest {
        assert x in ids;
        var y :| y in ids && DirPath(b, tree, y) == p;
        ChildPath(b, tree, x, y);
        BranchMember(b, depth, level, first, x);
        BranchMember(b, depth, level, first, y);
        ChildrenMember(b, depth, level, first + 1, n - 1, x);
        ChildrenMember(b, depth, level, first + 1, n - 1, y);
        ChildrenMember(b, depth, level, first, n, y);
      }
    }
  }

  lemma {:induction false} RemoveChildren(fs: Files, b: nat, depth: nat, tree: nat, level: nat, c: nat, first: nat, n: nat)
    requires b >= 1 && level >= 1 && Level(b, c) == level - 1
    requires b * c + 1 <= first && first + n <= b * c + b + 1
    requires fs.dirs !! fs.files && Paths(b, tree, Children(b, depth, level, first, n)) <= fs.dirs
    requires OnlyTree(fs, b, tree, Children(b, depth, level, first, n))
    ensures AllSucceed(fs, ChildrenOps(false, b, depth, tree, level, first, n))
    ensures Run(fs, ChildrenOps(false, b, depth, tree, level, first, n))
         == fs.(dirs := fs.dirs - Paths(b, tree, Children(b, depth, level, first, n)))
    decreases depth + 1 - level, n + 1
  {
    if n > 0 {
      ChildLevels(b, c, level - 1);
      var here, rest := Branch(b, depth, level, first), Children(b, depth, level, first + 1, n - 1);
      PathsConcat(b, tree, here, rest);
      NarrowSiblings(fs, b, depth, tree, level, first, n);
      RemoveBranch(fs, b, depth, tree, level, first);
      var fs1 := Run(fs, BranchOps(false, b, depth, tree, level, first));
      forall p | p in Paths(b, tree, rest) ensures p in fs1.dirs {
        SiblingsApart(b, depth, tree, level, first, n, p);
      }
      RemoveChildren(fs1, b, depth, tree, level, c, first + 1, n - 1);
      RunConcat(fs, BranchOps(false, b, depth, tree, level, first), ChildrenOps(false, b, depth, tree, level, first + 1, n - 1));
    } else {
      assert Paths(b, tree, []) == {};
    }
  }
}
