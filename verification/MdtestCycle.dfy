/** The items of mdtest.c: which are made, where they are looked for, and the whole cycle. */
module MdtestCycle {
  import opened Arith
  import opened MdtestTree
  import opened MdtestFs
  import opened MdtestTrees

  /** Settings of a run: branching, depth, items per directory, -L, number of tasks, -u and the stride. */
  datatype Config = Config(b: nat, depth: nat, ipd: nat, leafOnly: bool, tasks: nat, unique: bool, nstride: nat)
  {
    predicate Valid()
    {
      b >= 1 && ipd >= 1 && tasks >= 1
    }

    /** The trees of the run, and the tree in which the items named after task o belong. */
    function Trees(): nat
    {
      if unique then tasks else 1
    }

    function Home(o: nat): nat
      requires tasks >= 1
    {
      if unique then (o + nstride) % tasks else 0
    }

    /** Does the recursion put items into directory x? */
    predicate HasItems(x: nat)
      requires b >= 1
    {
      !leafOnly || Level(b, x) == depth
    }

    /** The directories of the tree that get items. */
    function ItemDirs(): nat
      requires b >= 1
    {
      if leafOnly then Pow(b, depth) else Dirs(b, depth)
    }

    /** What mdtest_stat adds to an item number in leaf-only mode. */
    function Shift(): int
      requires b >= 1
    {
      if leafOnly then ipd * (NumDirsInTree(b, depth) - Pow(b, depth)) else 0
    }
  }

  /** Items ipd * x .. ipd * x + ipd - 1 belong to directory x. */
  function DirItems(cfg: Config, x: nat): seq<nat>
  {
    seq(cfg.ipd, i requires 0 <= i => x * cfg.ipd + i)
  }

  /** create_remove_items: the item numbers, in the order of the recursion over the directories. */
  function ItemIds(cfg: Config, dirs: seq<nat>): seq<nat>
    requires cfg.b >= 1
  {
    if dirs == [] then []
    else (if cfg.HasItems(dirs[0]) then DirItems(cfg, dirs[0]) else []) + ItemIds(cfg, dirs[1..])
  }

  function AllItems(cfg: Config): seq<nat>
    requires cfg.b >= 1
  {
    ItemIds(cfg, Branch(cfg.b, cfg.depth, 0, 0))
  }

  function ItemPath(cfg: Config, tree: nat, owner: nat, id: nat): Path
    requires cfg.Valid()
  {
    DirPath(cfg.b, tree, id / cfg.ipd) + [Item(owner, id)]
  }

  lemma DirItemsCount(cfg: Config, x: nat, id: nat)
    requires cfg.Valid()
    ensures multiset(DirItems(cfg, x))[id] == if id / cfg.ipd == x then 1 else 0
  {
    SliceCount(cfg, x, cfg.ipd, id);
    QuotientIs(cfg.ipd, x, id);
  }

  lemma {:induction false} SliceCount(cfg: Config, x: nat, n: nat, id: nat)
    ensures multiset(seq(n, i requires 0 <= i => x * cfg.ipd + i))[id]
         == if x * cfg.ipd <= id < x * cfg.ipd + n then 1 else 0
  {
    if n > 0 {
      SliceCount(cfg, x, n - 1, id);
      assert seq(n, i requires 0 <= i => x * cfg.ipd + i)
          == seq(n - 1, i requires 0 <= i => x * cfg.ipd + i) + [x * cfg.ipd + n - 1];
    }
  }

  lemma {:induction false} ItemIdsCount(cfg: Config, dirs: seq<nat>, id: nat)
    requires cfg.Valid()
    ensures multiset(ItemIds(cfg, dirs))[id]
         == if cfg.HasItems(id / cfg.ipd) then multiset(dirs)[id / cfg.ipd] else 0
  {
    hide Level, Config.HasItems, DirItems;
    if dirs != [] {
      var head := if cfg.HasItems(dirs[0]) then DirItems(cfg, dirs[0]) else [];
      ItemIdsCount(cfg, dirs[1..], id);
      DirItemsCount(cfg, dirs[0], id);
      assert multiset(ItemIds(cfg, dirs)) == multiset(head) + multiset(ItemIds(cfg, dirs[1..]));
      assert dirs == [dirs[0]] + dirs[1..];
      assert multiset(dirs) == multiset{dirs[0]} + multiset(dirs[1..]);
    }
  }

  /** Each item number of a directory that gets items is made once; no other is made. */
  lemma ItemsMadeOnce(cfg: Config, id: nat)
    requires cfg.Valid()
    ensures multiset(AllItems(cfg))[id]
         == if id / cfg.ipd < Dirs(cfg.b, cfg.depth) && (cfg.leafOnly ==> Level(cfg.b, id / cfg.ipd) == cfg.depth) then 1 else 0
  {
    hide Level, Branch, ItemIds, Dirs, NumDirsInTree;
    ItemIdsCount(cfg, Branch(cfg.b, cfg.depth, 0, 0), id);
    DirsVisitedOnce(cfg.b, cfg.depth, id / cfg.ipd);
    NumDirsCounts(cfg.b, cfg.depth);
  }

  /** The item numbers mdtest_stat runs through are the item numbers made. */
  lemma StatRange(cfg: Config, id: nat)
    requires cfg.Valid()
    ensures multiset(AllItems(cfg))[id] == 1 <==> cfg.Shift() <= id < cfg.Shift() + cfg.ipd * cfg.ItemDirs()
  {
    ItemsMadeOnce(cfg, id);
    NumDirsCounts(cfg.b, cfg.depth);
    DirsLastLevel(cfg.b, cfg.depth);
    var x, n := id / cfg.ipd, Dirs(cfg.b, cfg.depth);
    LevelBound(cfg.b, cfg.depth, x);
    if cfg.depth > 0 {
      LevelBound(cfg.b, cfg.depth - 1, x);
    }
    var low := if cfg.leafOnly then n - Pow(cfg.b, cfg.depth) else 0;
    assert cfg.Shift() == cfg.ipd * low;
    Distribute(cfg.ipd, low, cfg.ItemDirs());
    assert low + cfg.ItemDirs() == n;
    assert cfg.HasItems(x) && x < n <==> low <= x < n;
    QuotientBelow(cfg.ipd, id, low);
    QuotientBelow(cfg.ipd, id, n);
  }

  // ----- phases in which all tasks work at once -----

  /** What happens in a phase, in the order it happens: task r treats item id.  Every task treats every
      item number once; apart from that any order is possible. */
  ghost predicate IsPhase(cfg: Config, order: seq<(nat, nat)>)
    requires cfg.b >= 1
  {
    && (forall r: nat, id: nat :: (r, id) in order <==> r < cfg.tasks && id in AllItems(cfg))
    && (forall i, j :: 0 <= i < j < |order| ==> order[i] != order[j])
  }

  /** The task whose item task r treats, when names are shifted by `shift` tasks. */
  function Owner(cfg: Config, shift: nat, r: nat): nat
    requires cfg.tasks >= 1
  {
    (r + shift) % cfg.tasks
  }

  function ItemOp(cfg: Config, create: bool, dirs: bool, shift: nat, step: (nat, nat)): Op
    requires cfg.Valid()
  {
    var p := StepPath(cfg, shift, step);
    if create then (if dirs then Mkdir(p) else Create(p)) else if dirs then Rmdir(p) else Delete(p)
  }

  function PhaseOps(cfg: Config, create: bool, dirs: bool, shift: nat, order: seq<(nat, nat)>): seq<Op>
    requires cfg.Valid()
  {
    if order == [] then []
    else [ItemOp(cfg, create, dirs, shift, order[0])] + PhaseOps(cfg, create, dirs, shift, order[1..])
  }

  function StepPath(cfg: Config, shift: nat, step: (nat, nat)): Path
    requires cfg.Valid()
  {
    var o := Owner(cfg, shift, step.0);
    ItemPath(cfg, cfg.Home(o), o, step.1)
  }

  function StepPaths(cfg: Config, shift: nat, order: seq<(nat, nat)>): set<Path>
    requires cfg.Valid()
  {
    set step | step in order :: StepPath(cfg, shift, step)
  }

  lemma ItemPathInjective(cfg: Config, tree: nat, o: nat, id: nat, tree': nat, o': nat, id': nat)
    requires cfg.Valid() && ItemPath(cfg, tree, o, id) == ItemPath(cfg, tree', o', id')
    ensures o == o' && id == id'
  {
    hide DirPath;
    var p, p' := ItemPath(cfg, tree, o, id), ItemPath(cfg, tree', o', id');
    assert p[|p| - 1] == Item(o, id) && p'[|p'| - 1] == Item(o', id');
  }

  /** No two steps of a phase concern the same path. */
  lemma StepPathInjective(cfg: Config, shift: nat, s: (nat, nat), t: (nat, nat))
    requires cfg.Valid() && s.0 < cfg.tasks && t.0 < cfg.tasks
    requires StepPath(cfg, shift, s) == StepPath(cfg, shift, t)
    ensures s == t
  {
    var o, o' := Owner(cfg, shift, s.0), Owner(cfg, shift, t.0);
    ItemPathInjective(cfg, cfg.Home(o), o, s.1, cfg.Home(o'), o', t.1);
    ModShift(cfg.tasks, shift, s.0, t.0);
  }

  /** The directory a step puts its item into. */
  function StepDir(cfg: Config, shift: nat, step: (nat, nat)): Path
    requires cfg.Valid()
  {
    DirPath(cfg.b, cfg.Home(Owner(cfg, shift, step.0)), step.1 / cfg.ipd)
  }

  lemma StepParent(cfg: Config, shift: nat, s: (nat, nat))
    requires cfg.Valid()
    ensures var p := StepPath(cfg, shift, s); |p| > 0 && ParentPath(p) == StepDir(cfg, shift, s)
  {
  }

  ghost predicate CanMake(cfg: Config, fs: Files, shift: nat, order: seq<(nat, nat)>)
    requires cfg.Valid()
  {
    && (forall s :: s in order ==> s.0 < cfg.tasks && !IsEntry(fs, StepPath(cfg, shift, s)))
    && (forall s: (nat, nat) :: s in order ==> StepDir(cfg, shift, s) in fs.dirs)
  }

  /** In whatever order the tasks come, every make succeeds and all items are there afterwards. */
  lemma {:induction false} MakePhase(cfg: Config, fs: Files, dirs: bool, shift: nat, order: seq<(nat, nat)>)
    requires cfg.Valid()
    requires forall i, j :: 0 <= i < j < |order| ==> order[i] != order[j]
    requires CanMake(cfg, fs, shift, order)
    ensures AllSucceed(fs, PhaseOps(cfg, true, dirs, shift, order))
    ensures Run(fs, PhaseOps(cfg, true, dirs, shift, order))
         == if dirs then fs.(dirs := fs.dirs + StepPaths(cfg, shift, order))
            else fs.(files := fs.files + StepPaths(cfg, shift, order))
    decreases |order|
  {
    hide DirPath, Owner, ItemPath, StepPath, StepDir, ItemOp;
    if order != [] {
      var s, rest := order[0], order[1..];
      var op := ItemOp(cfg, true, dirs, shift, s);
      StepParent(cfg, shift, s);
      var p := StepPath(cfg, shift, s);
      assert op == if dirs then Mkdir(p) else Create(p) by { SameStep(cfg, true, dirs, shift, s); }
      var fs1 := Do(fs, op);
      forall t | t in rest ensures !IsEntry(fs1, StepPath(cfg, shift, t)) {
        if StepPath(cfg, shift, t) == p {
          StepPathInjective(cfg, shift, s, t);
        }
      }
      MakePhase(cfg, fs1, dirs, shift, rest);
      assert StepPaths(cfg, shift, order) == {p} + StepPaths(cfg, shift, rest);
    }
  }

  lemma SameStep(cfg: Config, create: bool, dirs: bool, shift: nat, s: (nat, nat))
    requires cfg.Valid()
    ensures ItemOp(cfg, create, dirs, shift, s).path == StepPath(cfg, shift, s)
    ensures create ==> ItemOp(cfg, create, dirs, shift, s) == if dirs then Mkdir(StepPath(cfg, shift, s)) else Create(StepPath(cfg, shift, s))
    ensures !create ==> ItemOp(cfg, create, dirs, shift, s) == if dirs then Rmdir(StepPath(cfg, shift, s)) else Delete(StepPath(cfg, shift, s))
  {
  }

  lemma ChildlessShrinks(fs: Files, fs1: Files, p: Path)
    requires fs1.dirs <= fs.dirs && fs1.files <= fs.files && Childless(fs, p)
    ensures Childless(fs1, p)
  {
  }

  /** In whatever order the tasks come, every remove succeeds and exactly the items are gone. */
  lemma {:induction false} RemovePhase(cfg: Config, fs: Files, dirs: bool, shift: nat, order: seq<(nat, nat)>)
    requires cfg.Valid()
    requires forall s :: s in order ==> s.0 < cfg.tasks
    requires forall i, j :: 0 <= i < j < |order| ==> order[i] != order[j]
    requires forall s :: s in order ==> StepPath(cfg, shift, s) in (if dirs then fs.dirs else fs.files)
    requires forall s :: s in order ==> Childless(fs, StepPath(cfg, shift, s))
    ensures AllSucceed(fs, PhaseOps(cfg, false, dirs, shift, order))
    ensures Run(fs, PhaseOps(cfg, false, dirs, shift, order))
         == if dirs then fs.(dirs := fs.dirs - StepPaths(cfg, shift, order))
            else fs.(files := fs.files - StepPaths(cfg, shift, order))
    decreases |order|
  {
    hide DirPath, Owner, ItemPath, StepPath, Childless, ItemOp;
    if order != [] {
      var s, rest := order[0], order[1..];
      var op := ItemOp(cfg, false, dirs, shift, s);
      var p := StepPath(cfg, shift, s);
      SameStep(cfg, false, dirs, shift, s);
      var fs1 := Do(fs, op);
      forall t | t in rest ensures StepPath(cfg, shift, t) != p && Childless(fs1, StepPath(cfg, shift, t)) {
        if StepPath(cfg, shift, t) == p {
          StepPathInjective(cfg, shift, s, t);
        }
        ChildlessShrinks(fs, fs1, StepPath(cfg, shift, t));
      }
      RemovePhase(cfg, fs1, dirs, shift, rest);
      assert StepPaths(cfg, shift, order) == {p} + StepPaths(cfg, shift, rest);
    }
  }

  /** Under a shift a task treats what the task so many places further on has made: the same items as its own if
      and only if the shift leads all the way round. */
  lemma ShiftTrades(cfg: Config, shift: nat, r: nat, id: nat)
    requires cfg.Valid() && r < cfg.tasks
    ensures StepPath(cfg, shift, (r, id)) == StepPath(cfg, 0, ((r + shift) % cfg.tasks, id))
    ensures StepPath(cfg, shift, (r, id)) == StepPath(cfg, 0, (r, id)) <==> shift % cfg.tasks == 0
    ensures var p := StepPath(cfg, shift, (r, id)); |p| > 0 && p[|p| - 1] == Item((r + shift) % cfg.tasks, id)
  {
    var n := cfg.tasks;
    DivMod(n, shift);
    DivMod(n, r + shift);
    RemainderIs(n, r, 0, r);
    RemainderIs(n, (r + shift) % n, 0, (r + shift) % n);
    ModAdd(shift, r, n);
    if (r + shift) % n == r {
      ModShift(n, r, shift % n, 0);
    }
    ShiftedItem(cfg, shift, (r, id));
    ShiftedItem(cfg, 0, (r, id));
    hide ItemPath;
  }

  lemma ShiftedItem(cfg: Config, shift: nat, s: (nat, nat))
    requires cfg.Valid()
    ensures var p := StepPath(cfg, shift, s); |p| > 0 && p[|p| - 1] == Item(Owner(cfg, shift, s.0), s.1)
  {
    hide DirPath, Owner;
  }

  /** Shifting the names by any number of tasks covers the same items: tasks just trade them. */
  lemma ShiftCoversAll(cfg: Config, a: nat, c: nat, o1: seq<(nat, nat)>, o2: seq<(nat, nat)>)
    requires cfg.Valid() && IsPhase(cfg, o1) && IsPhase(cfg, o2)
    ensures StepPaths(cfg, a, o1) == StepPaths(cfg, c, o2)
  {
    ShiftCovers(cfg, a, c, o1, o2);
    ShiftCovers(cfg, c, a, o2, o1);
  }

  lemma ShiftCovers(cfg: Config, a: nat, c: nat, o1: seq<(nat, nat)>, o2: seq<(nat, nat)>)
    requires cfg.Valid() && IsPhase(cfg, o1) && IsPhase(cfg, o2)
    ensures StepPaths(cfg, a, o1) <= StepPaths(cfg, c, o2)
  {
    forall p | p in StepPaths(cfg, a, o1) ensures p in StepPaths(cfg, c, o2) {
      var s :| s in o1 && StepPath(cfg, a, s) == p;
      assert (s.0, s.1) in o1;
      var r := Preimage(cfg.tasks, c, Owner(cfg, a, s.0));
      assert (r, s.1) in o2;
      assert StepPath(cfg, c, (r, s.1)) == p;
    }
  }

  lemma Preimage(n: nat, c: nat, o: nat) returns (r: nat)
    requires n >= 1 && o < n
    ensures r < n && (r + c) % n == o
  {
    var q, m := c / n, c % n;
    DivMod(n, c);
    assert n * (q + 1) == n * q + n;
    if o >= m {
      r := o - m;
      RemainderIs(n, r + c, q, o);
    } else {
      r := o + n - m;
      RemainderIs(n, r + c, q + 1, o);
    }
  }

  // ----- the whole cycle -----

  function TreeDirs(cfg: Config): set<Path>
    requires cfg.b >= 1
  {
    AllPaths(cfg.b, cfg.depth, cfg.Trees())
  }

  /** The test directory exists, and no tree has been put into it yet. */
  ghost predicate Fresh(cfg: Config, fs: Files)
  {
    Untouched(fs, cfg.Trees())
  }

  /** An order in which rank 0 (one shared tree) or all tasks at once (a tree each) go through the trees. */
  ghost predicate IsTreePhase(cfg: Config, create: bool, order: seq<(nat, Op)>)
    requires cfg.b >= 1
  {
    IsInterleaving(create, cfg.b, cfg.depth, cfg.Trees(), order)
  }

  lemma HomeIsTree(cfg: Config, shift: nat, r: nat)
    requires cfg.Valid()
    ensures Owner(cfg, shift, r) < cfg.tasks && cfg.Home(Owner(cfg, shift, r)) < cfg.Trees()
  {
  }

  lemma ItemDirInTree(cfg: Config, shift: nat, s: (nat, nat))
    requires cfg.Valid() && s.1 in AllItems(cfg)
    ensures StepDir(cfg, shift, s) in TreeDirs(cfg)
  {
    hide Level, Branch, ItemIds, Dirs, NumDirsInTree, Chain, Owner, Config.Home, Config.Trees;
    var x := s.1 / cfg.ipd;
    ItemsMadeOnce(cfg, s.1);
    DirsVisitedOnce(cfg.b, cfg.depth, x);
    NumDirsCounts(cfg.b, cfg.depth);
    HomeIsTree(cfg, shift, s.0);
    assert x in Branch(cfg.b, cfg.depth, 0, 0);
  }

  lemma ReadyToMake(cfg: Config, fs: Files, made: seq<(nat, nat)>)
    requires cfg.Valid() && Fresh(cfg, fs) && IsPhase(cfg, made)
    ensures CanMake(cfg, fs.(dirs := fs.dirs + TreeDirs(cfg)), 0, made)
  {
    hide DirPath, Branch, AllItems, Owner, TreeDirs, StepPath, StepDir, Fresh, IsEntry, Level;
    forall s | s in made
      ensures s.0 < cfg.tasks && StepDir(cfg, 0, s) in TreeDirs(cfg)
              && !IsEntry(fs.(dirs := fs.dirs + TreeDirs(cfg)), StepPath(cfg, 0, s))
    {
      assert (s.0, s.1) in made;
      ItemDirInTree(cfg, 0, s);
      ItemsAreNew(cfg, fs, s);
    }
  }

  lemma ReadyToRemove(cfg: Config, fs: Files, fs2: Files, shift: nat, made: seq<(nat, nat)>, removed: seq<(nat, nat)>)
    requires cfg.Valid() && Fresh(cfg, fs) && IsPhase(cfg, made) && IsPhase(cfg, removed)
    requires forall q :: IsEntry(fs2, q) ==> IsEntry(fs.(dirs := fs.dirs + TreeDirs(cfg)), q) || q in StepPaths(cfg, 0, made)
    ensures forall s :: s in removed ==> s.0 < cfg.tasks && StepPath(cfg, shift, s) in StepPaths(cfg, 0, made)
                                         && Childless(fs2, StepPath(cfg, shift, s))
  {
    hide DirPath, Branch, AllItems, Owner, TreeDirs, StepPath;
    ShiftCoversAll(cfg, 0, shift, made, removed);
    forall s | s in removed
      ensures s.0 < cfg.tasks && StepPath(cfg, shift, s) in StepPaths(cfg, shift, removed) && Childless(fs2, StepPath(cfg, shift, s))
    {
      assert (s.0, s.1) in removed;
      forall q | IsEntry(fs2, q) && |q| > 0 ensures ParentPath(q) != StepPath(cfg, shift, s) {
        ItemsAreLeaves(cfg, fs, made, q, shift, s);
      }
    }
  }

  /** The stat phase: every task looks up every item number, under names shifted by `shift` tasks. */
  function StatOps(cfg: Config, shift: nat, order: seq<(nat, nat)>): seq<Op>
    requires cfg.Valid()
  {
    if order == [] then [] else [Stat(StepPath(cfg, shift, order[0]))] + StatOps(cfg, shift, order[1..])
  }

  lemma {:induction false} StatPhase(cfg: Config, fs: Files, shift: nat, order: seq<(nat, nat)>)
    requires cfg.Valid() && forall s :: s in order ==> IsEntry(fs, StepPath(cfg, shift, s))
    ensures AllSucceed(fs, StatOps(cfg, shift, order)) && Run(fs, StatOps(cfg, shift, order)) == fs
    decreases |order|
  {
    hide StepPath;
    if order != [] {
      assert order[0] in order;
      StatPhase(cfg, fs, shift, order[1..]);
      assert StatOps(cfg, shift, order)[1..] == StatOps(cfg, shift, order[1..]);
    }
  }

  /** Items made by all tasks at once, looked up by all tasks at once and removed by all tasks at once, under
      names shifted by any numbers of tasks: nothing fails, every path looked up is there, and the trees are
      as empty as before. */
  lemma ItemsCycle(cfg: Config, fs: Files, dirs: bool, statShift: nat, shift: nat,
                   made: seq<(nat, nat)>, looked: seq<(nat, nat)>, removed: seq<(nat, nat)>)
    requires cfg.Valid() && Fresh(cfg, fs) && IsPhase(cfg, made) && IsPhase(cfg, looked) && IsPhase(cfg, removed)
    ensures var fs1 := fs.(dirs := fs.dirs + TreeDirs(cfg));
            var fs2 := Run(fs1, PhaseOps(cfg, true, dirs, 0, made));
            && AllSucceed(fs1, PhaseOps(cfg, true, dirs, 0, made))
            && AllSucceed(fs2, StatOps(cfg, statShift, looked)) && Run(fs2, StatOps(cfg, statShift, looked)) == fs2
            && AllSucceed(fs2, PhaseOps(cfg, false, dirs, shift, removed))
            && Run(fs2, PhaseOps(cfg, false, dirs, shift, removed)) == fs1
  {
    hide DirPath, Run, AllSucceed, Branch, AllItems, Owner, PhaseOps, StatOps, TreeDirs, StepPath, StepPaths, Childless;
    var fs1 := fs.(dirs := fs.dirs + TreeDirs(cfg));
    var items := StepPaths(cfg, 0, made);
    ReadyToMake(cfg, fs, made);
    MakePhase(cfg, fs1, dirs, 0, made);
    var fs2 := Run(fs1, PhaseOps(cfg, true, dirs, 0, made));
    ReadyToRemove(cfg, fs, fs2, statShift, made, looked);
    StatPhase(cfg, fs2, statShift, looked);
    ReadyToRemove(cfg, fs, fs2, shift, made, removed);
    RemovePhase(cfg, fs2, dirs, shift, removed);
    ShiftCoversAll(cfg, 0, shift, made, removed);
    assert items !! fs1.dirs && items !! fs1.files by {
      MadeAreNew(cfg, fs, made);
    }
    assert (fs1.dirs + items) - items == fs1.dirs && (fs1.files + items) - items == fs1.files;
  }

  lemma MadeAreNew(cfg: Config, fs: Files, made: seq<(nat, nat)>)
    requires cfg.Valid() && Fresh(cfg, fs) && IsPhase(cfg, made)
    ensures forall p :: p in StepPaths(cfg, 0, made) ==> !IsEntry(fs.(dirs := fs.dirs + TreeDirs(cfg)), p)
  {
    hide DirPath, AllItems, TreeDirs, StepPath;
    ReadyToMake(cfg, fs, made);
  }

  /** The paths of a phase: inside some tree, and ending in an item below directories only. */
  lemma StepPathShape(cfg: Config, shift: nat, s: (nat, nat))
    requires cfg.Valid()
    ensures var p := StepPath(cfg, shift, s);
            && |p| > 0 && p[|p| - 1].Item? && (forall i :: 0 <= i < |p| - 1 ==> p[i].Dir?)
            && exists t: nat :: t < cfg.Trees() && MdtestTrees.Inside(p, t)
  {
    hide Owner, Config.Home, Config.Trees, Level;
    HomeIsTree(cfg, shift, s.0);
    var t := cfg.Home(Owner(cfg, shift, s.0));
    AllDirs(cfg.b, t, s.1 / cfg.ipd);
    assert MdtestTrees.Inside(StepPath(cfg, shift, s), t);
  }

  lemma TreeDirShape(cfg: Config, p: Path)
    requires cfg.Valid() && p in TreeDirs(cfg)
    ensures |p| > 0 && forall i :: 0 <= i < |p| ==> p[i].Dir?
  {
    hide Branch, Level, Chain, Config.Trees;
    var t: nat, x :| t < cfg.Trees() && x in Branch(cfg.b, cfg.depth, 0, 0) && DirPath(cfg.b, t, x) == p;
    AllDirs(cfg.b, t, x);
  }

  /** No entry of the trees before the phase has an item's path. */
  lemma ItemsAreNew(cfg: Config, fs: Files, s: (nat, nat))
    requires cfg.Valid() && Fresh(cfg, fs)
    ensures !IsEntry(fs.(dirs := fs.dirs + TreeDirs(cfg)), StepPath(cfg, 0, s))
  {
    hide TreeDirs, StepPath;
    var p := StepPath(cfg, 0, s);
    StepPathShape(cfg, 0, s);
    if p in TreeDirs(cfg) {
      TreeDirShape(cfg, p);
    }
  }

  /** Nothing lies inside an item. */
  lemma ItemsAreLeaves(cfg: Config, fs: Files, made: seq<(nat, nat)>, q: Path, shift: nat, s: (nat, nat))
    requires cfg.Valid() && Fresh(cfg, fs) && |q| > 0
    requires IsEntry(fs.(dirs := fs.dirs + TreeDirs(cfg)), q) || q in StepPaths(cfg, 0, made)
    ensures ParentPath(q) != StepPath(cfg, shift, s)
  {
    hide TreeDirs, StepPath;
    var p := StepPath(cfg, shift, s);
    StepPathShape(cfg, shift, s);
    if ParentPath(q) == p {
      var t: nat :| t < cfg.Trees() && MdtestTrees.Inside(p, t);
      assert q[|q| - 2] == p[|p| - 1] && q[0] == p[0] && MdtestTrees.Inside(q, t);
      if q in TreeDirs(cfg) {
        TreeDirShape(cfg, q);
        assert false;
      } else if q in StepPaths(cfg, 0, made) {
        var u :| u in made && StepPath(cfg, 0, u) == q;
        StepPathShape(cfg, 0, u);
        assert false;
      }
    }
  }

  lemma {:induction false} AllDirs(b: nat, tree: nat, x: nat)
    requires b >= 1
    ensures forall i :: 0 <= i < |DirPath(b, tree, x)| ==> DirPath(b, tree, x)[i].Dir?
  {
    if x > 0 {
      ParentSmaller(b, x);
      AllDirs(b, tree, Parent(b, x));
      DirPathShape(b, tree, x);
    }
  }

  /** The orders of one iteration: how the tasks' steps of each phase came to interleave. */
  datatype Iteration = Iteration(treesMade: seq<(nat, Op)>,
                                 madeDirs: seq<(nat, nat)>, lookedDirs: seq<(nat, nat)>, removedDirs: seq<(nat, nat)>,
                                 madeFiles: seq<(nat, nat)>, lookedFiles: seq<(nat, nat)>, removedFiles: seq<(nat, nat)>,
                                 treesRemoved: seq<(nat, Op)>)
  {
    ghost predicate Possible(cfg: Config)
      requires cfg.b >= 1
    {
      && IsTreePhase(cfg, true, treesMade) && IsTreePhase(cfg, false, treesRemoved)
      && IsPhase(cfg, madeDirs) && IsPhase(cfg, lookedDirs) && IsPhase(cfg, removedDirs)
      && IsPhase(cfg, madeFiles) && IsPhase(cfg, lookedFiles) && IsPhase(cfg, removedFiles)
    }
  }

  /** One test: make, look up under names shifted by one stride, remove under names shifted by three. */
  function TestOps(cfg: Config, dirs: bool, made: seq<(nat, nat)>, looked: seq<(nat, nat)>, removed: seq<(nat, nat)>): seq<Op>
    requires cfg.Valid()
  {
    PhaseOps(cfg, true, dirs, 0, made) + StatOps(cfg, cfg.nstride, looked)
    + PhaseOps(cfg, false, dirs, 3 * cfg.nstride, removed)
  }

  lemma TestRestores(cfg: Config, fs: Files, dirs: bool, made: seq<(nat, nat)>, looked: seq<(nat, nat)>, removed: seq<(nat, nat)>)
    requires cfg.Valid() && Fresh(cfg, fs) && IsPhase(cfg, made) && IsPhase(cfg, looked) && IsPhase(cfg, removed)
    ensures var fs1 := fs.(dirs := fs.dirs + TreeDirs(cfg));
            var ops := TestOps(cfg, dirs, made, looked, removed);
            AllSucceed(fs1, ops) && Run(fs1, ops) == fs1
  {
    hide Run, AllSucceed, PhaseOps, StatOps, IsPhase, TreeDirs, Fresh;
    var fs1 := fs.(dirs := fs.dirs + TreeDirs(cfg));
    ItemsCycle(cfg, fs, dirs, cfg.nstride, 3 * cfg.nstride, made, looked, removed);
    var a, b := PhaseOps(cfg, true, dirs, 0, made), StatOps(cfg, cfg.nstride, looked);
    RunConcat(fs1, a, b);
    RunConcat(fs1, a + b, PhaseOps(cfg, false, dirs, 3 * cfg.nstride, removed));
  }

  /** The cycle with every item in its home tree: make the trees; run the directory test and then the file test
      with every task working at once; remove the trees.  No operation fails, and the file system is back where
      it started. */
  lemma CycleRestores(cfg: Config, fs: Files, it: Iteration)
    requires cfg.Valid() && Fresh(cfg, fs) && it.Possible(cfg)
    ensures var ops := OpsOf(it.treesMade)
                       + TestOps(cfg, true, it.madeDirs, it.lookedDirs, it.removedDirs)
                       + TestOps(cfg, false, it.madeFiles, it.lookedFiles, it.removedFiles)
                       + OpsOf(it.treesRemoved);
            AllSucceed(fs, ops) && Run(fs, ops) == fs
  {
    hide Run, AllSucceed, OpsOf, TestOps, IsPhase, AllPaths, IsInterleaving;
    MakeTrees(cfg.b, cfg.depth, cfg.Trees(), fs, it.treesMade);
    TestRestores(cfg, fs, true, it.madeDirs, it.lookedDirs, it.removedDirs);
    TestRestores(cfg, fs, false, it.madeFiles, it.lookedFiles, it.removedFiles);
    RemoveTrees(cfg.b, cfg.depth, cfg.Trees(), fs, it.treesRemoved);
    var a := OpsOf(it.treesMade);
    var b := a + TestOps(cfg, true, it.madeDirs, it.lookedDirs, it.removedDirs);
    var c := b + TestOps(cfg, false, it.madeFiles, it.lookedFiles, it.removedFiles);
    RunConcat(fs, a, TestOps(cfg, true, it.madeDirs, it.lookedDirs, it.removedDirs));
    RunConcat(fs, b, TestOps(cfg, false, it.madeFiles, it.lookedFiles, it.removedFiles));
    RunConcat(fs, c, OpsOf(it.treesRemoved));
  }
}
