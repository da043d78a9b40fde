/** mdtest.c as it runs: the recursions over a mutable file system, the path climb of the stat phase, the
    shuffle, and the set-up of the counts. */
module MdtestRun {
  import opened Arith
  import opened MdtestTree
  import opened MdtestFs
  import opened MdtestTrees
  import opened MdtestCycle
  import Counting

  /** One task's operations on the items `ids`, in order. */
  function TaskOps(cfg: Config, create: bool, dirs: bool, tree: nat, owner: nat, ids: seq<nat>): seq<Op>
    requires cfg.Valid()
  {
    if ids == [] then []
    else [OneOp(create, dirs, ItemPath(cfg, tree, owner, ids[0]))] + TaskOps(cfg, create, dirs, tree, owner, ids[1..])
  }

  function OneOp(create: bool, dirs: bool, p: Path): Op
  {
    if create then (if dirs then Mkdir(p) else Create(p)) else if dirs then Rmdir(p) else Delete(p)
  }

  lemma {:induction false} TaskOpsConcat(cfg: Config, create: bool, dirs: bool, tree: nat, owner: nat, s: seq<nat>, t: seq<nat>)
    requires cfg.Valid()
    ensures TaskOps(cfg, create, dirs, tree, owner, s + t)
         == TaskOps(cfg, create, dirs, tree, owner, s) + TaskOps(cfg, create, dirs, tree, owner, t)
  {
    if s == [] {
      assert s + t == t;
    } else {
      assert (s + t)[0] == s[0] && (s + t)[1..] == s[1..] + t;
      TaskOpsConcat(cfg, create, dirs, tree, owner, s[1..], t);
    }
  }

  class Task {
    const cfg: Config
    const tree: nat
    var fs: Files
    var failures: nat

    constructor (cfg: Config, tree: nat, fs: Files)
      ensures this.cfg == cfg && this.tree == tree && this.fs == fs && failures == 0
    {
      this.cfg, this.tree, this.fs, failures := cfg, tree, fs, 0;
    }

    method Perform(op: Op)
      modifies this
      ensures fs == Do(old(fs), op)
      ensures failures == old(failures) + if Succeeds(old(fs), op) then 0 else 1
    {
      if Succeeds(fs, op) {
        fs := Do(fs, op);
      } else {
        failures := failures + 1;
      }
    }

    /** create_remove_directory_tree, called with depth 0 and directory 0, or with the first child of c. */
    method CreateRemoveDirectoryTree(create: bool, currDepth: nat, path: Path, dirNum: nat, ghost c: nat)
      requires cfg.Valid()
      requires currDepth == 0 ==> dirNum == 0 && path == []
      requires currDepth > 0 ==> path == DirPath(cfg.b, tree, c) && dirNum == cfg.b * c + 1
      modifies this
      ensures var ops := if currDepth == 0 then BranchOps(create, cfg.b, cfg.depth, tree, 0, 0)
                         else ChildrenOps(create, cfg.b, cfg.depth, tree, currDepth, dirNum, cfg.b);
              && fs == Run(old(fs), ops)
              && (AllSucceed(old(fs), ops) ==> failures == old(failures))
      decreases cfg.depth + 1 - currDepth
    {
      if currDepth == 0 {
        var dir := path + [Dir(tree, dirNum)];
        assert dir == DirPath(cfg.b, tree, 0);
        ghost var below := ChildrenOps(create, cfg.b, cfg.depth, tree, 1, cfg.b * 0 + 1, cfg.b);
        ghost var fs0 := fs;
        RunOne(fs0, Mkdir(dir));
        if create {
          Perform(Mkdir(dir));
          RunConcat(fs0, [Mkdir(dir)], below);
        }
        CreateRemoveDirectoryTree(create, currDepth + 1, dir, dirNum + 1, 0);
        if !create {
          RunOne(fs, Rmdir(dir));
          Perform(Rmdir(dir));
          RunConcat(fs0, below, [Rmdir(dir)]);
        }
      } else if currDepth <= cfg.depth {
        var currDir := dirNum;
        var i := 0;
        ghost var fs0 := fs;
        RunNothing(fs0);
        ChildrenSnocStart(create, cfg.b, cfg.depth, tree, currDepth, dirNum);
        while i < cfg.b
          invariant 0 <= i <= cfg.b && currDir == dirNum + i
          invariant fs == Run(fs0, ChildrenOps(create, cfg.b, cfg.depth, tree, currDepth, dirNum, i))
          invariant AllSucceed(fs0, ChildrenOps(create, cfg.b, cfg.depth, tree, currDepth, dirNum, i)) ==> failures == old(failures)
        {
          CreateRemoveBranch(create, currDepth, path, currDir, c);
          ChildrenSnoc(create, cfg.b, cfg.depth, tree, currDepth, dirNum, i);
          RunConcat(fs0, ChildrenOps(create, cfg.b, cfg.depth, tree, currDepth, dirNum, i),
                    BranchOps(create, cfg.b, cfg.depth, tree, currDepth, dirNum + i));
          currDir := currDir + 1;
          i := i + 1;
        }
      } else {
        RunNothing(fs);
        ChildrenTooDeep(create, cfg.b, cfg.depth, tree, currDepth, dirNum, cfg.b);
      }
    }

    /** The body of the loop over the branches. */
    method CreateRemoveBranch(create: bool, currDepth: nat, path: Path, currDir: nat, ghost c: nat)
      requires cfg.Valid() && 1 <= currDepth <= cfg.depth
      requires path == DirPath(cfg.b, tree, c) && cfg.b * c + 1 <= currDir <= cfg.b * c + cfg.b
      modifies this
      ensures var ops := BranchOps(create, cfg.b, cfg.depth, tree, currDepth, currDir);
              && fs == Run(old(fs), ops)
              && (AllSucceed(old(fs), ops) ==> failures == old(failures))
      decreases cfg.depth + 1 - currDepth, 0
    {
      hide Run, AllSucceed, Succeeds, Do, Chain;
      var tempPath := path + [Dir(tree, currDir)];
      ChildrenOf(cfg.b, c, currDir);
      DirPathShape(cfg.b, tree, currDir);
      ghost var below := ChildrenOps(create, cfg.b, cfg.depth, tree, currDepth + 1, cfg.b * currDir + 1, cfg.b);
      ghost var fs0 := fs;
      RunOne(fs0, Mkdir(tempPath));
      if create {
        Perform(Mkdir(tempPath));
        RunConcat(fs0, [Mkdir(tempPath)], below);
      }
      CreateRemoveDirectoryTree(create, currDepth + 1, tempPath, cfg.b * currDir + 1, currDir);
      if !create {
        RunOne(fs, Rmdir(tempPath));
        Perform(Rmdir(tempPath));
        RunConcat(fs0, below, [Rmdir(tempPath)]);
      }
    }

    /** create_remove_items_helper: the items of one directory. */
    method CreateRemoveItemsHelper(dirs: bool, create: bool, path: Path, owner: nat, x: nat, itemNum: nat)
      requires cfg.Valid() && path == DirPath(cfg.b, tree, x) && itemNum == x * cfg.ipd
      modifies this
      ensures var ops := TaskOps(cfg, create, dirs, tree, owner, DirItems(cfg, x));
              && fs == Run(old(fs), ops)
              && (AllSucceed(old(fs), ops) ==> failures == old(failures))
    {
      hide Run, AllSucceed, Succeeds, Do, DirPath, TaskOps;
      var i := 0;
      ghost var items, fs0 := DirItems(cfg, x), fs;
      RunNothing(fs0);
      NoTaskOps(cfg, create, dirs, tree, owner);
      assert items[..0] == [];
      while i < cfg.ipd
        invariant 0 <= i <= cfg.ipd
        invariant fs == Run(fs0, TaskOps(cfg, create, dirs, tree, owner, items[..i]))
        invariant AllSucceed(fs0, TaskOps(cfg, create, dirs, tree, owner, items[..i])) ==> failures == old(failures)
      {
        var op := OneOp(create, dirs, path + [Item(owner, itemNum + i)]);
        QuotientIs(cfg.ipd, x, itemNum + i);
        assert items[i] == itemNum + i;
        assert items[..i + 1] == items[..i] + [items[i]];
        TaskOpsConcat(cfg, create, dirs, tree, owner, items[..i], [items[i]]);
        OneTaskOp(cfg, create, dirs, tree, owner, items[i]);
        RunConcat(fs0, TaskOps(cfg, create, dirs, tree, owner, items[..i]), [op]);
        RunOne(fs, op);
        Perform(op);
        i := i + 1;
      }
      assert items[..i] == items;
    }

    /** create_remove_items, called with depth 0 and directory 0, or with the first child of c. */
    method CreateRemoveItems(currDepth: nat, dirs: bool, create: bool, path: Path, owner: nat, dirNum: nat, ghost c: nat)
      requires cfg.Valid()
      requires currDepth == 0 ==> dirNum == 0 && path == DirPath(cfg.b, tree, 0)
      requires currDepth > 0 ==> path == DirPath(cfg.b, tree, c) && dirNum == cfg.b * c + 1 && Level(cfg.b, c) == currDepth - 1
      modifies this
      ensures var ids := if currDepth == 0 then AllItems(cfg)
                         else ItemIds(cfg, Children(cfg.b, cfg.depth, currDepth, dirNum, cfg.b));
              var ops := TaskOps(cfg, create, dirs, tree, owner, ids);
              && fs == Run(old(fs), ops)
              && (AllSucceed(old(fs), ops) ==> failures == old(failures))
      decreases cfg.depth + 1 - currDepth
    {
      hide Run, AllSucceed, Succeeds, Do, Chain, TaskOps, Children, Branch, ItemIds;
      ghost var fs0 := fs;
      RunNothing(fs0);
      if currDepth == 0 {
        RootIsTop(cfg.b);
        ghost var here := if cfg.HasItems(0) then DirItems(cfg, 0) else [];
        ghost var below := ItemIds(cfg, Children(cfg.b, cfg.depth, 1, 1, cfg.b));
        NoTaskOps(cfg, create, dirs, tree, owner);
        if !cfg.leafOnly || (cfg.depth == 0 && cfg.leafOnly) {
          CreateRemoveItemsHelper(dirs, create, path, owner, 0, 0);
        }
        RunConcat(fs0, TaskOps(cfg, create, dirs, tree, owner, here), TaskOps(cfg, create, dirs, tree, owner, below));
        TaskOpsConcat(cfg, create, dirs, tree, owner, here, below);
        AllItemsSplit(cfg);
        if cfg.depth > 0 {
          CreateRemoveItems(currDepth + 1, dirs, create, path, owner, dirNum + 1, 0);
        } else {
          RunNothing(fs);
          ItemsTooDeep(cfg, 1, 1, cfg.b);
        }
      } else if currDepth <= cfg.depth {
        var currDir := dirNum;
        var i := 0;
        NoTaskOps(cfg, create, dirs, tree, owner);
        NoChildren(cfg, currDepth, dirNum);
        while i < cfg.b
          invariant 0 <= i <= cfg.b && currDir == dirNum + i
          invariant fs == Run(fs0, TaskOps(cfg, create, dirs, tree, owner, ItemIds(cfg, Children(cfg.b, cfg.depth, currDepth, dirNum, i))))
          invariant AllSucceed(fs0, TaskOps(cfg, create, dirs, tree, owner, ItemIds(cfg, Children(cfg.b, cfg.depth, currDepth, dirNum, i))))
                    ==> failures == old(failures)
        {
          ghost var before := ItemIds(cfg, Children(cfg.b, cfg.depth, currDepth, dirNum, i));
          ghost var here := ItemIds(cfg, Branch(cfg.b, cfg.depth, currDepth, currDir));
          CreateRemoveItemsBranch(currDepth, dirs, create, path, owner, currDir, c);
          ItemsSnoc(cfg, currDepth, dirNum, i);
          TaskOpsConcat(cfg, create, dirs, tree, owner, before, here);
          RunConcat(fs0, TaskOps(cfg, create, dirs, tree, owner, before), TaskOps(cfg, create, dirs, tree, owner, here));
          currDir := currDir + 1;
          i := i + 1;
        }
      } else {
        NoTaskOps(cfg, create, dirs, tree, owner);
        ItemsTooDeep(cfg, currDepth, dirNum, cfg.b);
      }
    }

    /** The body of the loop over the branches. */
    method CreateRemoveItemsBranch(currDepth: nat, dirs: bool, create: bool, path: Path, owner: nat, currDir: nat, ghost c: nat)
      requires cfg.Valid() && 1 <= currDepth <= cfg.depth
      requires path == DirPath(cfg.b, tree, c) && Level(cfg.b, c) == currDepth - 1
      requires cfg.b * c + 1 <= currDir <= cfg.b * c + cfg.b
      modifies this
      ensures var ops := TaskOps(cfg, create, dirs, tree, owner, ItemIds(cfg, Branch(cfg.b, cfg.depth, currDepth, currDir)));
              && fs == Run(old(fs), ops)
              && (AllSucceed(old(fs), ops) ==> failures == old(failures))
      decreases cfg.depth + 1 - currDepth, 0
    {
      hide Run, AllSucceed, Succeeds, Do, Chain, TaskOps, Children, Branch, ItemIds, Level;
      var tempPath := path + [Dir(tree, currDir)];
      ChildrenOf(cfg.b, c, currDir);
      DirPathShape(cfg.b, tree, currDir);
      ChildLevels(cfg.b, c, currDepth - 1);
      ghost var fs0 := fs;
      ghost var here := if cfg.HasItems(currDir) then DirItems(cfg, currDir) else [];
      ghost var below := ItemIds(cfg, Children(cfg.b, cfg.depth, currDepth + 1, cfg.b * currDir + 1, cfg.b));
      RunNothing(fs0);
      NoTaskOps(cfg, create, dirs, tree, owner);
      if !cfg.leafOnly || (cfg.leafOnly && currDepth == cfg.depth) {
        CreateRemoveItemsHelper(dirs, create, tempPath, owner, currDir, currDir * cfg.ipd);
      }
      CreateRemoveItems(currDepth + 1, dirs, create, tempPath, owner, cfg.b * currDir + 1, currDir);
      BranchItemsSplit(cfg, currDepth, currDir);
      TaskOpsConcat(cfg, create, dirs, tree, owner, here, below);
      RunConcat(fs0, TaskOps(cfg, create, dirs, tree, owner, here), TaskOps(cfg, create, dirs, tree, owner, below));
    }
  }

  lemma NoTaskOps(cfg: Config, create: bool, dirs: bool, tree: nat, owner: nat)
    requires cfg.Valid()
    ensures TaskOps(cfg, create, dirs, tree, owner, []) == []
  {
  }

  lemma OneTaskOp(cfg: Config, create: bool, dirs: bool, tree: nat, owner: nat, id: nat)
    requires cfg.Valid()
    ensures TaskOps(cfg, create, dirs, tree, owner, [id]) == [OneOp(create, dirs, ItemPath(cfg, tree, owner, id))]
  {
  }

  lemma {:induction false} ItemIdsConcat(cfg: Config, s: seq<nat>, t: seq<nat>)
    requires cfg.b >= 1
    ensures ItemIds(cfg, s + t) == ItemIds(cfg, s) + ItemIds(cfg, t)
  {
    if s == [] {
      assert s + t == t;
    } else {
      assert (s + t)[0] == s[0] && (s + t)[1..] == s[1..] + t;
      ItemIdsConcat(cfg, s[1..], t);
    }
  }

  lemma BranchItemsSplit(cfg: Config, level: nat, c: nat)
    requires cfg.b >= 1 && level <= cfg.depth
    ensures ItemIds(cfg, Branch(cfg.b, cfg.depth, level, c))
         == (if cfg.HasItems(c) then DirItems(cfg, c) else [])
            + ItemIds(cfg, Children(cfg.b, cfg.depth, level + 1, cfg.b * c + 1, cfg.b))
  {
    hide Level, Children;
    ItemIdsConcat(cfg, [c], Children(cfg.b, cfg.depth, level + 1, cfg.b * c + 1, cfg.b));
    assert [c][1..] == [];
  }

  lemma AllItemsSplit(cfg: Config)
    requires cfg.b >= 1
    ensures AllItems(cfg) == (if cfg.HasItems(0) then DirItems(cfg, 0) else []) + ItemIds(cfg, Children(cfg.b, cfg.depth, 1, 1, cfg.b))
  {
    BranchItemsSplit(cfg, 0, 0);
  }

  lemma NoChildren(cfg: Config, level: nat, first: nat)
    requires cfg.b >= 1
    ensures ItemIds(cfg, Children(cfg.b, cfg.depth, level, first, 0)) == []
  {
  }

  lemma ItemsSnoc(cfg: Config, level: nat, first: nat, n: nat)
    requires cfg.b >= 1
    ensures ItemIds(cfg, Children(cfg.b, cfg.depth, level, first, n + 1))
         == ItemIds(cfg, Children(cfg.b, cfg.depth, level, first, n)) + ItemIds(cfg, Branch(cfg.b, cfg.depth, level, first + n))
  {
    ChildIdsSnoc(cfg.b, cfg.depth, level, first, n);
    ItemIdsConcat(cfg, Children(cfg.b, cfg.depth, level, first, n), Branch(cfg.b, cfg.depth, level, first + n));
  }

  lemma {:induction false} ChildIdsSnoc(b: nat, depth: nat, level: nat, first: nat, n: nat)
    ensures Children(b, depth, level, first, n + 1)
         == Children(b, depth, level, first, n) + Branch(b, depth, level, first + n)
    decreases n
  {
    hide Branch;
    if n == 0 {
      assert Children(b, depth, level, first + 1, 0) == [];
    } else {
      var later, last := Children(b, depth, level, first + 1, n - 1), Branch(b, depth, level, first + n);
      assert Children(b, depth, level, first + 1, n) == later + last by {
        ChildIdsSnoc(b, depth, level, first + 1, n - 1);
      }
      assert Branch(b, depth, level, first) + (later + last) == (Branch(b, depth, level, first) + later) + last;
    }
  }

  lemma {:induction false} ChildIdsTooDeep(b: nat, depth: nat, level: nat, first: nat, n: nat)
    requires level > depth
    ensures Children(b, depth, level, first, n) == []
    decreases n
  {
    if n > 0 {
      ChildIdsTooDeep(b, depth, level, first + 1, n - 1);
      BranchBelow(b, depth, level, first);
    }
  }

  lemma ItemsTooDeep(cfg: Config, level: nat, first: nat, n: nat)
    requires cfg.b >= 1 && level > cfg.depth
    ensures ItemIds(cfg, Children(cfg.b, cfg.depth, level, first, n)) == []
  {
    ChildIdsTooDeep(cfg.b, cfg.depth, level, first, n);
  }

  lemma ChildrenSnocStart(create: bool, b: nat, depth: nat, tree: nat, level: nat, first: nat)
    requires b >= 1
    ensures ChildrenOps(create, b, depth, tree, level, first, 0) == []
  {
  }

  lemma {:induction false} ChildrenSnoc(create: bool, b: nat, depth: nat, tree: nat, level: nat, first: nat, n: nat)
    requires b >= 1
    ensures ChildrenOps(create, b, depth, tree, level, first, n + 1)
         == ChildrenOps(create, b, depth, tree, level, first, n) + BranchOps(create, b, depth, tree, level, first + n)
    decreases n
  {
    hide BranchOps;
    if n == 0 {
      assert ChildrenOps(create, b, depth, tree, level, first + 1, 0) == [];
    } else {
      ChildrenSnoc(create, b, depth, tree, level, first + 1, n - 1);
    }
  }

  lemma {:induction false} ChildrenTooDeep(create: bool, b: nat, depth: nat, tree: nat, level: nat, first: nat, n: nat)
    requires b >= 1 && level > depth
    ensures ChildrenOps(create, b, depth, tree, level, first, n) == []
    decreases n
  {
    if n > 0 {
      ChildrenTooDeep(create, b, depth, tree, level, first + 1, n - 1);
    }
  }

  // ----- stat -----

  /** The body of mdtest_stat's loop: rebuild the path of an item from its number by climbing from its
      directory to the root.  It is the path the recursion made. */
  method ClimbPath(cfg: Config, tree: nat, statOwner: nat, itemNum: nat) returns (item: Path)
    requires cfg.Valid()
    ensures item == ItemPath(cfg, tree, statOwner, itemNum)
  {
    item := [Item(statOwner, itemNum)];
    var parentDir := itemNum / cfg.ipd;
    ghost var x := parentDir;
    if parentDir > 0 {
      item := [Dir(tree, parentDir)] + item;
      ParentSmaller(cfg.b, parentDir);
      while parentDir > cfg.b
        invariant parentDir >= 1
        invariant Chain(cfg.b, tree, x) + [Item(statOwner, itemNum)] == Chain(cfg.b, tree, Parent(cfg.b, parentDir)) + item
        decreases parentDir
      {
        ParentSmaller(cfg.b, parentDir);
        ChildrenOf(cfg.b, 0, parentDir);
        parentDir := (parentDir - 1) / cfg.b;
        item := [Dir(tree, parentDir)] + item;
        ParentSmaller(cfg.b, parentDir);
      }
      ChildrenOf(cfg.b, 0, parentDir);
      assert Chain(cfg.b, tree, Parent(cfg.b, parentDir)) == [];
    }
    assert item == Chain(cfg.b, tree, x) + [Item(statOwner, itemNum)];
    item := [Dir(tree, 0)] + item;
    assert [Dir(tree, 0)] + (Chain(cfg.b, tree, x) + [Item(statOwner, itemNum)]) == ItemPath(cfg, tree, statOwner, itemNum);
  }

  function Range(n: nat): seq<nat>
  {
    seq(n, i requires 0 <= i => i)
  }

  function Shifted(a: seq<nat>, shift: nat): seq<nat>
  {
    seq(|a|, i requires 0 <= i < |a| => a[i] + shift)
  }

  /** mdtest_stat: the paths looked up, in order; `numbers` is randArray, or 0, 1, 2, ... */
  method Stat(cfg: Config, tree: nat, statOwner: nat, numbers: seq<nat>) returns (looked: seq<Path>)
    requires cfg.Valid() && cfg.Shift() >= 0
    ensures |looked| == |numbers|
    ensures forall i :: 0 <= i < |numbers| ==> looked[i] == ItemPath(cfg, tree, statOwner, numbers[i] + cfg.Shift())
  {
    looked := [];
    for i := 0 to |numbers|
      invariant |looked| == i
      invariant forall k :: 0 <= k < i ==> looked[k] == ItemPath(cfg, tree, statOwner, numbers[k] + cfg.Shift())
    {
      var itemNum: int := numbers[i];
      if cfg.leafOnly {
        itemNum := itemNum + cfg.ipd * (NumDirsInTree(cfg.b, cfg.depth) - Pow(cfg.b, cfg.depth));
      }
      var item := ClimbPath(cfg, tree, statOwner, itemNum);
      looked := looked + [item];
    }
  }

  /** The shuffle, whatever numbers rand() yields. */
  method Shuffle(items: nat) returns (randArray: array<nat>)
    ensures fresh(randArray) && randArray.Length == items
    ensures multiset(randArray[..]) == multiset(Range(items))
  {
    randArray := new nat[items](i requires 0 <= i => i);
    assert randArray[..] == Range(items);
    var n := items;
    while n > 1
      invariant 0 <= n <= items
      invariant multiset(randArray[..]) == multiset(Range(items))
    {
      n := n - 1;
      var k :| 0 <= k <= n;
      randArray[k], randArray[n] := randArray[n], randArray[k];
    }
  }

  lemma {:induction false} RangeCount(n: nat, x: nat)
    ensures multiset(Range(n))[x] == if x < n then 1 else 0
  {
    if n > 0 {
      RangeCount(n - 1, x);
      assert Range(n) == Range(n - 1) + [n - 1];
    }
  }

  lemma {:induction false} ShiftedCount(a: seq<nat>, shift: nat, x: nat)
    ensures multiset(Shifted(a, shift))[x] == if x >= shift then multiset(a)[x - shift] else 0
  {
    if a != [] {
      var n := |a| - 1;
      ShiftedCount(a[..n], shift, x);
      assert a == a[..n] + [a[n]];
      assert Shifted(a, shift) == Shifted(a[..n], shift) + [a[n] + shift];
    }
  }

  lemma ShiftNonNegative(cfg: Config)
    requires cfg.Valid()
    ensures cfg.Shift() >= 0
  {
    NumDirsCounts(cfg.b, cfg.depth);
    DirsLastLevel(cfg.b, cfg.depth);
  }

  /** However the item numbers are shuffled, the stat phase looks up each item that was made exactly
      once, and nothing else. */
  lemma StatLooksUpWhatWasMade(cfg: Config, numbers: seq<nat>, id: nat)
    requires cfg.Valid()
    requires multiset(numbers) == multiset(Range(cfg.ipd * cfg.ItemDirs()))
    ensures cfg.Shift() >= 0
    ensures multiset(Shifted(numbers, cfg.Shift()))[id] == multiset(AllItems(cfg))[id]
  {
    hide AllItems, Config.Shift, Config.ItemDirs, Range, Shifted;
    ShiftNonNegative(cfg);
    var items := cfg.ipd * cfg.ItemDirs();
    ShiftedCount(numbers, cfg.Shift(), id);
    if id >= cfg.Shift() {
      RangeCount(items, id - cfg.Shift());
    }
    StatRange(cfg, id);
    ItemsMadeOnce(cfg, id);
  }

  /** How many directories get items. */
  function DirsWithItems(b: nat, depth: nat, leafOnly: bool): nat
  {
    if leafOnly then Pow(b, depth) else Dirs(b, depth)
  }

  /** The directories of a tree, or those of its last level. */
  ghost function ItemDirSet(b: nat, depth: nat, leafOnly: bool): set<nat>
    requires b >= 1
  {
    set x: nat | x < Dirs(b, depth) && (leafOnly ==> Level(b, x) == depth)
  }

  lemma DirsWithItemsCount(b: nat, depth: nat, leafOnly: bool)
    requires b >= 1
    ensures DirsWithItems(b, depth, leafOnly) == |ItemDirSet(b, depth, leafOnly)|
  {
    hide Level, Dirs, Pow;
    DirsLastLevel(b, depth);
    var lo := if leafOnly then Dirs(b, depth) - Pow(b, depth) else 0;
    forall x: nat ensures x in ItemDirSet(b, depth, leafOnly) <==> lo <= x < Dirs(b, depth) {
      LevelBound(b, depth, x);
      if depth > 0 {
        LevelBound(b, depth - 1, x);
      }
    }
    Counting.IntervalSize(ItemDirSet(b, depth, leafOnly), lo, Dirs(b, depth));
  }

  /** The counts mdtest_run sets up from -I, from -n or from both.  From one of them: as many items as fit evenly
      into the directories.  From both: as many items as asked for, in as many loops over a tree as hold them
      (one with -u). */
  method SetUpCounts(b: nat, depth: nat, leafOnly: bool, unique: bool, itemsIn: nat, itemsPerDirIn: nat)
    returns (numDirs: nat, items: nat, itemsPerDir: nat, loops: nat)
    requires b >= 1
    ensures numDirs == Dirs(b, depth)
    ensures itemsIn == 0 || itemsPerDirIn == 0 ==> items == itemsPerDir * DirsWithItems(b, depth, leafOnly) && loops == 1
    ensures itemsPerDirIn > 0 ==> itemsPerDir == itemsPerDirIn
    ensures itemsPerDirIn == 0 ==> items <= itemsIn < items + DirsWithItems(b, depth, leafOnly)
    ensures itemsIn > 0 && itemsPerDirIn > 0 ==>
      && items == itemsIn
      && (if unique then loops == 1 else loops * itemsPerDir <= items < (loops + 1) * itemsPerDir)
  {
    hide Dirs, Pow;
    NumDirsCounts(b, depth);
    if depth <= 0 {
      numDirs := 1;
    } else if b == 1 {
      numDirs := depth + 1;
    } else {
      numDirs := (Pow(b, depth + 1) - 1) / (b - 1);
    }
    items, itemsPerDir, loops := itemsIn, itemsPerDirIn, 1;
    if items > 0 && itemsPerDir > 0 && !unique {
      loops := items / itemsPerDir;
      EvenPart(items, itemsPerDir);
    }
    if itemsPerDir > 0 {
      if items == 0 {
        if leafOnly {
          items := itemsPerDir * Pow(b, depth);
        } else {
          items := itemsPerDir * numDirs;
        }
      }
    } else if leafOnly {
      if b <= 1 {
        itemsPerDir := items;
        PowOfOne(depth);
      } else {
        itemsPerDir := items / Pow(b, depth);
        EvenPart(items, Pow(b, depth));
        items := itemsPerDir * Pow(b, depth);
      }
    } else {
      DirsPositive(b, depth);
      itemsPerDir := items / numDirs;
      EvenPart(items, numDirs);
      items := itemsPerDir * numDirs;
    }
  }

  lemma EvenPart(n: nat, d: nat)
    requires d >= 1
    ensures n / d * d <= n < n / d * d + d == (n / d + 1) * d
  {
    DivMod(d, n);
    Distribute(d, n / d, 1);
  }

  lemma DirsPositive(b: nat, depth: nat)
    ensures Dirs(b, depth) >= 1
  {
  }

  lemma {:induction false} PowOfOne(e: nat)
    ensures Pow(1, e) == 1
  {
    if e > 0 {
      PowOfOne(e - 1);
    }
  }
}
