/** The numbered directory tree of mdtest.c.  Directory 0 is the root of the tree and the children of
    directory c are b*c + 1 .. b*c + b. */
module MdtestTree {
  import opened Arith

  function Parent(b: nat, x: nat): nat
    requires b >= 1 && x >= 1
  {
    (x - 1) / b
  }

  /** Depth of a directory below the root. */
  function Level(b: nat, x: nat): nat
    requires b >= 1
  {
    if x == 0 then 0 else
    ParentSmaller(b, x);
    1 + Level(b, Parent(b, x))
  }

  lemma ParentSmaller(b: nat, x: nat)
    requires b >= 1 && x >= 1
    ensures Parent(b, x) < x
  {
    DivMod(b, x - 1);
    MulGe(b, Parent(b, x));
  }

  /** The children of c, and nothing else, have c as parent. */
  lemma ChildrenOf(b: nat, c: nat, x: nat)
    requires b >= 1 && x >= 1
    ensures Parent(b, x) == c <==> b * c + 1 <= x <= b * c + b
  {
    var q := Parent(b, x);
    DivMod(b, x - 1);
    if q < c {
      MulLe(b, q + 1, c);
      assert b * (q + 1) == b * q + b;
    } else if c < q {
      MulLe(b, c + 1, q);
      assert b * (c + 1) == b * c + b;
    }
  }

  /** The ancestor of x at level `l`, or x itself if it lies higher. */
  function AncestorAt(b: nat, x: nat, l: nat): nat
    requires b >= 1
  {
    if Level(b, x) <= l then x else
    ParentSmaller(b, x);
    AncestorAt(b, Parent(b, x), l)
  }

  lemma {:induction false} AncestorLevel(b: nat, x: nat, l: nat)
    requires b >= 1 && l <= Level(b, x)
    ensures Level(b, AncestorAt(b, x, l)) == l
  {
    if Level(b, x) > l {
      ParentSmaller(b, x);
      AncestorLevel(b, Parent(b, x), l);
    }
  }

  lemma {:induction false} AncestorParent(b: nat, x: nat, l: nat)
    requires b >= 1 && l < Level(b, x)
    ensures AncestorAt(b, x, l + 1) >= 1
    ensures AncestorAt(b, x, l) == Parent(b, AncestorAt(b, x, l + 1))
  {
    ParentSmaller(b, x);
    if Level(b, x) > l + 1 {
      AncestorParent(b, Parent(b, x), l);
    }
  }

  // ----- the recursion -----

  /** The directories the recursion visits from directory c of level `level` down, in its order. */
  function Branch(b: nat, depth: nat, level: nat, c: nat): seq<nat>
    decreases depth + 1 - level, 0
  {
    if level > depth then [] else [c] + Children(b, depth, level + 1, b * c + 1, b)
  }

  /** The same for n siblings starting at `first`. */
  function Children(b: nat, depth: nat, level: nat, first: nat, n: nat): seq<nat>
    decreases depth + 1 - level, n + 1
  {
    if n == 0 then [] else Branch(b, depth, level, first) + Children(b, depth, level, first + 1, n - 1)
  }

  /** Directory x is visited exactly once below directory c if c is its ancestor, and otherwise never. */
  lemma {:induction false} BranchCount(b: nat, depth: nat, level: nat, c: nat, x: nat)
    requires b >= 1 && Level(b, c) == level
    ensures multiset(Branch(b, depth, level, c))[x]
         == if level <= Level(b, x) <= depth && AncestorAt(b, x, level) == c then 1 else 0
    decreases depth + 1 - level, 0
  {
    if level <= depth {
      var rest := Children(b, depth, level + 1, b * c + 1, b);
      assert multiset(Branch(b, depth, level, c)) == multiset{c} + multiset(rest);
      ChildrenCount(b, depth, level + 1, b * c + 1, b, x) by { ChildLevels(b, c, level); }
      if level < Level(b, x) {
        AncestorParent(b, x, level);
        ChildrenOf(b, c, AncestorAt(b, x, level + 1));
      }
    }
  }

  lemma ChildLevels(b: nat, c: nat, level: nat)
    requires b >= 1 && Level(b, c) == level
    ensures forall x :: b * c + 1 <= x <= b * c + b ==> Level(b, x) == level + 1
  {
    forall x | b * c + 1 <= x <= b * c + b ensures Level(b, x) == level + 1 {
      ChildrenOf(b, c, x);
    }
  }

  lemma {:induction false} ChildrenCount(b: nat, depth: nat, level: nat, first: nat, n: nat, x: nat)
    requires b >= 1 && forall c :: first <= c < first + n ==> Level(b, c) == level
    ensures multiset(Children(b, depth, level, first, n))[x]
         == if level <= Level(b, x) <= depth && first <= AncestorAt(b, x, level) < first + n then 1 else 0
    decreases depth + 1 - level, n + 1
  {
    if n > 0 {
      BranchCount(b, depth, level, first, x);
      ChildrenCount(b, depth, level, first + 1, n - 1, x);
      assert multiset(Children(b, depth, level, first, n))
          == multiset(Branch(b, depth, level, first)) + multiset(Children(b, depth, level, first + 1, n - 1));
    }
  }

  // ----- how many there are -----

  function Pow(b: nat, e: nat): (p: nat)
    ensures b >= 1 ==> p >= 1
  {
    if e == 0 then 1 else b * Pow(b, e - 1)
  }

  /** Number of directories in a tree of the given depth, level by level. */
  function Dirs(b: nat, depth: nat): nat
  {
    if depth == 0 then 1 else 1 + b * Dirs(b, depth - 1)
  }

  /** The numbers of the directories down to a level are exactly the first Dirs(level) ones. */
  lemma {:induction false} LevelBound(b: nat, d: nat, x: nat)
    requires b >= 1
    ensures Level(b, x) <= d <==> x < Dirs(b, d)
    decreases d
  {
    if x > 0 && d > 0 {
      var q, n := Parent(b, x), Dirs(b, d - 1);
      LevelBound(b, d - 1, q);
      DivMod(b, x - 1);
      if q < n {
        MulLe(b, q + 1, n);
        assert b * (q + 1) == b * q + b;
      } else {
        MulLe(b, n, q);
      }
    }
  }

  /** The last level of the tree has b^depth directories. */
  lemma {:induction false} DirsLastLevel(b: nat, depth: nat)
    ensures Dirs(b, depth) == (if depth == 0 then 0 else Dirs(b, depth - 1)) + Pow(b, depth)
  {
    if depth > 0 {
      DirsLastLevel(b, depth - 1);
      if depth > 1 {
        assert b * (Dirs(b, depth - 2) + Pow(b, depth - 1)) == b * Dirs(b, depth - 2) + b * Pow(b, depth - 1);
      }
    }
  }

  lemma {:induction false} DirsClosedForm(b: nat, depth: nat)
    requires b >= 1
    ensures Dirs(b, depth) * (b - 1) + 1 == Pow(b, depth + 1)
  {
    if depth > 0 {
      DirsClosedForm(b, depth - 1);
      var n := Dirs(b, depth - 1);
      assert b * (n * (b - 1) + 1) == (b * n) * (b - 1) + b;
      assert (1 + b * n) * (b - 1) == (b - 1) + (b * n) * (b - 1);
    }
  }

  /** num_dirs_in_tree, as mdtest_run computes it, with exact integer powers. */
  function NumDirsInTree(b: nat, depth: nat): nat
    requires b >= 1
  {
    if depth == 0 then 1
    else if b == 1 then depth + 1
    else (Pow(b, depth + 1) - 1) / (b - 1)
  }

  lemma {:induction false} DirsOfChain(depth: nat)
    ensures Dirs(1, depth) == depth + 1
  {
    if depth > 0 {
      DirsOfChain(depth - 1);
    }
  }

  lemma NumDirsCounts(b: nat, depth: nat)
    requires b >= 1
    ensures NumDirsInTree(b, depth) == Dirs(b, depth)
  {
    DirsClosedForm(b, depth);
    DirsOfChain(depth);
    if b > 1 {
      DivExact(Dirs(b, depth), b - 1);
    }
  }

  /** The recursion visits each of the directories 0 .. num_dirs_in_tree - 1 once, and no other. */
  lemma DirsVisitedOnce(b: nat, depth: nat, x: nat)
    requires b >= 1
    ensures multiset(Branch(b, depth, 0, 0))[x] == if x < NumDirsInTree(b, depth) then 1 else 0
  {
    BranchCount(b, depth, 0, 0, x);
    LevelBound(b, depth, x);
    NumDirsCounts(b, depth);
    AncestorLevel(b, x, 0);
    assert Level(b, AncestorAt(b, x, 0)) == 0;
  }

  // ----- paths -----

  /** A path component: a directory of some task's tree, or a numbered item of some task. */
  datatype Name = Dir(tree: nat, num: nat) | Item(owner: nat, id: nat)

  /** A path relative to the test directory.  The program also writes doubled and trailing slashes, which
      name the same path. */
  type Path = seq<Name>

  /** The path of directory x below the root of its tree. */
  function Chain(b: nat, tree: nat, x: nat): Path
    requires b >= 1
  {
    if x == 0 then [] else
    ParentSmaller(b, x);
    Chain(b, tree, Parent(b, x)) + [Dir(tree, x)]
  }

  function DirPath(b: nat, tree: nat, x: nat): Path
    requires b >= 1
  {
    [Dir(tree, 0)] + Chain(b, tree, x)
  }

  lemma {:induction false} DirPathShape(b: nat, tree: nat, x: nat)
    requires b >= 1
    ensures |DirPath(b, tree, x)| == Level(b, x) + 1
    ensures DirPath(b, tree, x)[Level(b, x)] == Dir(tree, x)
    ensures x > 0 ==> DirPath(b, tree, x) == DirPath(b, tree, Parent(b, x)) + [Dir(tree, x)]
  {
    if x > 0 {
      ParentSmaller(b, x);
      DirPathShape(b, tree, Parent(b, x));
    }
  }

  lemma DirPathInjective(b: nat, tree: nat, x: nat, y: nat)
    requires b >= 1 && DirPath(b, tree, x) == DirPath(b, tree, y)
    ensures x == y
  {
    DirPathShape(b, tree, x);
    DirPathShape(b, tree, y);
  }
}
