/** The paths mdtest.c builds in each phase, with one shared tree or (-u) with a tree per task; and exactly when the
    cycle over them works. */
module MdtestUnique {
  import opened Arith
  import opened MdtestTree
  import opened MdtestFs
  import opened MdtestTrees
  import opened MdtestCycle
  import opened MdtestRun
  import Counting

  /** The path for item id in the hands of task r, in a phase whose names are shifted by m strides.  With -u the
      root of the tree is shifted by one stride more, but the directories below it are named after the task's
      own tree. */
  function CodePath(cfg: Config, m: nat, step: (nat, nat)): Path
    requires cfg.Valid() && 0 <= m * cfg.nstride
  {
    var r, id := step.0, step.1;
    var owner := Owner(cfg, m * cfg.nstride, r);
    if cfg.unique then
      [Dir((r + m * cfg.nstride + cfg.nstride) % cfg.tasks, 0)] + Chain(cfg.b, r, id / cfg.ipd) + [Item(owner, id)]
    else ItemPath(cfg, 0, owner, id)
  }

  function CodePhase(cfg: Config, create: bool, dirs: bool, m: nat, order: seq<(nat, nat)>): seq<Op>
    requires cfg.Valid() && 0 <= m * cfg.nstride
  {
    if order == [] then []
    else [OneOp(create, dirs, CodePath(cfg, m, order[0]))] + CodePhase(cfg, create, dirs, m, order[1..])
  }

  function CodeStats(cfg: Config, m: nat, order: seq<(nat, nat)>): seq<Op>
    requires cfg.Valid() && 0 <= m * cfg.nstride
  {
    if order == [] then [] else [Stat(CodePath(cfg, m, order[0]))] + CodeStats(cfg, m, order[1..])
  }

  function CodeTest(cfg: Config, dirs: bool, made: seq<(nat, nat)>, looked: seq<(nat, nat)>, removed: seq<(nat, nat)>): seq<Op>
    requires cfg.Valid()
  {
    CodePhase(cfg, true, dirs, 0, made) + CodeStats(cfg, 1, looked) + CodePhase(cfg, false, dirs, 3, removed)
  }

  /** Everything the tasks ask of the file system in one iteration. */
  function CodeCycle(cfg: Config, it: Iteration): seq<Op>
    requires cfg.Valid()
  {
    OpsOf(it.treesMade)
    + CodeTest(cfg, true, it.madeDirs, it.lookedDirs, it.removedDirs)
    + CodeTest(cfg, false, it.madeFiles, it.lookedFiles, it.removedFiles)
    + OpsOf(it.treesRemoved)
  }

  /** One shared tree, or trees without depth, or a stride that brings every task back to its own tree. */
  predicate InPlace(cfg: Config)
    requires cfg.tasks >= 1
  {
    !cfg.unique || cfg.depth == 0 || cfg.nstride % cfg.tasks == 0
  }

  lemma {:induction false} Multiples(m: nat, d: nat, n: nat)
    requires n >= 1 && d % n == 0
    ensures 0 <= m * d && (m * d) % n == 0
  {
    if m > 0 {
      Multiples(m - 1, d, n);
      assert m * d == (m - 1) * d + d;
      ModAdd((m - 1) * d, d, n);
    }
  }

  lemma BackHome(r: nat, c: nat, n: nat)
    requires r < n && c % n == 0
    ensures (r + c) % n == r
  {
    ModAdd(c, r, n);
    RemainderIs(n, r, 0, r);
  }

  /** A directory of tree `own` whose parent has number `parent`. */
  predicate IsChild(b: nat, own: nat, parent: nat, n: Name)
    requires b >= 1
  {
    n.Dir? && n.tree == own && n.num >= 1 && (n.num - 1) / b == parent
  }

  /** A path from a root (a directory numbered 0) down to directory x of tree `own`. */
  ghost predicate LeadsTo(b: nat, own: nat, x: nat, p: Path)
    requires b >= 1
  {
    && p != [] && (forall l :: 0 <= l < |p| ==> p[l].Dir?)
    && p[0].num == 0 && p[|p| - 1].num == x && (x == 0 ==> |p| == 1)
    && (forall l :: 1 <= l < |p| ==> IsChild(b, own, p[l - 1].num, p[l]))
  }

  lemma {:induction false} ChainLeads(b: nat, root: nat, own: nat, x: nat)
    requires b >= 1
    ensures LeadsTo(b, own, x, [Dir(root, 0)] + Chain(b, own, x))
  {
    if x > 0 {
      ParentSmaller(b, x);
      ChainLeads(b, root, own, Parent(b, x));
      var q := [Dir(root, 0)] + Chain(b, own, Parent(b, x));
      assert [Dir(root, 0)] + Chain(b, own, x) == q + [Dir(own, x)];
      assert IsChild(b, own, Parent(b, x), Dir(own, x));
      hide IsChild;
    }
  }

  /** The path for item id in the hands of task r, component by component: the root of a tree, the directories
      down to that of the item, each the child of the one before, and the item under the name of the task that
      many strides on. */
  lemma CodePathShape(cfg: Config, m: nat, r: nat, id: nat)
    requires cfg.Valid() && 0 <= m * cfg.nstride
    ensures var p := CodePath(cfg, m, (r, id));
            && |p| >= 2
            && p[0] == Dir(if cfg.unique then (r + m * cfg.nstride + cfg.nstride) % cfg.tasks else 0, 0)
            && LeadsTo(cfg.b, if cfg.unique then r else 0, id / cfg.ipd, p[..|p| - 1])
            && p[|p| - 1] == Item((r + m * cfg.nstride) % cfg.tasks, id)
  {
    var own, root := if cfg.unique then r else 0, if cfg.unique then (r + m * cfg.nstride + cfg.nstride) % cfg.tasks else 0;
    CodePathSplits(cfg, m, r, id);
    ChainLeads(cfg.b, root, own, id / cfg.ipd);
    var d := [Dir(root, 0)] + Chain(cfg.b, own, id / cfg.ipd);
    var p := CodePath(cfg, m, (r, id));
    hide *;
    assert p[..|p| - 1] == d;
  }

  lemma CodePathSplits(cfg: Config, m: nat, r: nat, id: nat)
    requires cfg.Valid() && 0 <= m * cfg.nstride
    ensures CodePath(cfg, m, (r, id))
         == [Dir(if cfg.unique then (r + m * cfg.nstride + cfg.nstride) % cfg.tasks else 0, 0)]
            + Chain(cfg.b, if cfg.unique then r else 0, id / cfg.ipd) + [Item((r + m * cfg.nstride) % cfg.tasks, id)]
  {
    hide Chain;
  }

  /** The last component of a path. */
  function Last(p: Path): Name
    requires p != []
  {
    p[|p| - 1]
  }

  lemma CodeItem(cfg: Config, m: nat, s: (nat, nat))
    requires cfg.Valid() && 0 <= m * cfg.nstride
    ensures var p := CodePath(cfg, m, s); p != [] && Last(p) == Item((s.0 + m * cfg.nstride) % cfg.tasks, s.1)
  {
    hide Chain;
  }

  lemma {:induction false} CodePhaseAt(cfg: Config, create: bool, dirs: bool, m: nat, order: seq<(nat, nat)>, i: nat)
    requires cfg.Valid() && 0 <= m * cfg.nstride && i < |order|
    ensures |CodePhase(cfg, create, dirs, m, order)| == |order|
    ensures CodePhase(cfg, create, dirs, m, order)[i] == OneOp(create, dirs, CodePath(cfg, m, order[i]))
    decreases |order|
  {
    hide CodePath;
    if |order| > 1 {
      CodePhaseAt(cfg, create, dirs, m, order[1..], if i > 0 then i - 1 else 0);
    }
  }

  lemma {:induction false} CodeStatsAt(cfg: Config, m: nat, order: seq<(nat, nat)>, i: nat)
    requires cfg.Valid() && 0 <= m * cfg.nstride && i < |order|
    ensures |CodeStats(cfg, m, order)| == |order|
    ensures CodeStats(cfg, m, order)[i] == Stat(CodePath(cfg, m, order[i]))
    decreases |order|
  {
    hide CodePath;
    if |order| > 1 {
      CodeStatsAt(cfg, m, order[1..], if i > 0 then i - 1 else 0);
    }
  }

  lemma CodeTestAt(cfg: Config, dirs: bool, made: seq<(nat, nat)>, looked: seq<(nat, nat)>, removed: seq<(nat, nat)>,
                   i: nat, j: nat, k: nat)
    requires cfg.Valid() && i < |made| && j < |looked| && k < |removed|
    ensures var ops := CodeTest(cfg, dirs, made, looked, removed);
            && |ops| == |made| + |looked| + |removed|
            && ops[i] == OneOp(true, dirs, CodePath(cfg, 0, made[i]))
            && ops[|made| + j] == Stat(CodePath(cfg, 1, looked[j]))
            && ops[|made| + |looked| + k] == OneOp(false, dirs, CodePath(cfg, 3, removed[k]))
  {
    CodePhaseAt(cfg, true, dirs, 0, made, i);
    CodeStatsAt(cfg, 1, looked, j);
    CodePhaseAt(cfg, false, dirs, 3, removed, k);
    var a, s, d := CodePhase(cfg, true, dirs, 0, made), CodeStats(cfg, 1, looked), CodePhase(cfg, false, dirs, 3, removed);
    assert CodeTest(cfg, dirs, made, looked, removed) == a + s + d;
    hide *;
    ConcatAt(a, s, d, i, j, k);
  }

  lemma ConcatAt(a: seq<Op>, s: seq<Op>, d: seq<Op>, i: nat, j: nat, k: nat)
    requires i < |a| && j < |s| && k < |d|
    ensures (a + s + d)[i] == a[i] && (a + s + d)[|a| + j] == s[j] && (a + s + d)[|a| + |s| + k] == d[k]
  {
  }

  lemma OneOpMeans(create: bool, dirs: bool, p: Path)
    ensures var op := OneOp(create, dirs, p);
            && op.path == p && (if create then (if dirs then op.Mkdir? else op.Create?) else if dirs then op.Rmdir? else op.Delete?)
  {
  }

  /** Who treats what in a test: a task makes its own items, looks up those of the task one stride on, and removes
      those of the task three strides on. */
  lemma WhoTreatsWhat(cfg: Config, dirs: bool, made: seq<(nat, nat)>, looked: seq<(nat, nat)>, removed: seq<(nat, nat)>,
                      i: nat, j: nat, k: nat)
    requires cfg.Valid() && i < |made| && j < |looked| && k < |removed|
    ensures var ops := CodeTest(cfg, dirs, made, looked, removed);
            && |ops| == |made| + |looked| + |removed|
            && (if dirs then ops[i].Mkdir? else ops[i].Create?) && ops[|made| + j].Stat?
            && (if dirs then ops[|made| + |looked| + k].Rmdir? else ops[|made| + |looked| + k].Delete?)
            && ops[i].path != [] && Last(ops[i].path) == Item(made[i].0 % cfg.tasks, made[i].1)
            && ops[|made| + j].path != []
            && Last(ops[|made| + j].path) == Item((looked[j].0 + cfg.nstride) % cfg.tasks, looked[j].1)
            && ops[|made| + |looked| + k].path != []
            && Last(ops[|made| + |looked| + k].path) == Item((removed[k].0 + 3 * cfg.nstride) % cfg.tasks, removed[k].1)
  {
    hide *;
    CodeTestAt(cfg, dirs, made, looked, removed, i, j, k);
    CodeItem(cfg, 0, made[i]);
    CodeItem(cfg, 1, looked[j]);
    CodeItem(cfg, 3, removed[k]);
    OneOpMeans(true, dirs, CodePath(cfg, 0, made[i]));
    OneOpMeans(false, dirs, CodePath(cfg, 3, removed[k]));
  }

  /** Where trees and stride fit together, the program's path is the item's path in its home tree. */
  lemma CodeIsStep(cfg: Config, m: nat, s: (nat, nat))
    requires cfg.Valid() && InPlace(cfg) && 0 <= m * cfg.nstride && s.0 < cfg.tasks && s.1 in AllItems(cfg)
    ensures CodePath(cfg, m, s) == StepPath(cfg, m * cfg.nstride, s)
  {
    hide Level, Dirs, Branch, ItemIds, NumDirsInTree, AllItems;
    var x := s.1 / cfg.ipd;
    ItemsMadeOnce(cfg, s.1);
    if cfg.unique {
      ModAdd(s.0 + m * cfg.nstride, cfg.nstride, cfg.tasks);
      if cfg.depth == 0 {
        OneDir(cfg.b, x);
      } else {
        Multiples(m, cfg.nstride, cfg.tasks);
        ModAdd(m * cfg.nstride, cfg.nstride, cfg.tasks);
        BackHome(s.0, m * cfg.nstride + cfg.nstride, cfg.tasks);
      }
    }
  }

  lemma OneDir(b: nat, x: nat)
    ensures x < Dirs(b, 0) ==> x == 0
  {
  }

  lemma {:induction false} CodePhaseIsPhase(cfg: Config, create: bool, dirs: bool, m: nat, order: seq<(nat, nat)>)
    requires cfg.Valid() && InPlace(cfg) && 0 <= m * cfg.nstride
    requires forall i :: 0 <= i < |order| ==> order[i].0 < cfg.tasks && order[i].1 in AllItems(cfg)
    ensures CodePhase(cfg, create, dirs, m, order) == PhaseOps(cfg, create, dirs, m * cfg.nstride, order)
  {
    hide CodePath, StepPath, AllItems, InPlace;
    if order != [] {
      CodeIsStep(cfg, m, order[0]);
      CodePhaseIsPhase(cfg, create, dirs, m, order[1..]);
    }
  }

  lemma {:induction false} CodeStatsAreStats(cfg: Config, m: nat, order: seq<(nat, nat)>)
    requires cfg.Valid() && InPlace(cfg) && 0 <= m * cfg.nstride
    requires forall i :: 0 <= i < |order| ==> order[i].0 < cfg.tasks && order[i].1 in AllItems(cfg)
    ensures CodeStats(cfg, m, order) == StatOps(cfg, m * cfg.nstride, order)
  {
    hide CodePath, StepPath, AllItems, InPlace;
    if order != [] {
      CodeIsStep(cfg, m, order[0]);
      CodeStatsAreStats(cfg, m, order[1..]);
    }
  }

  lemma PhaseSteps(cfg: Config, order: seq<(nat, nat)>)
    requires cfg.Valid() && IsPhase(cfg, order)
    ensures forall i :: 0 <= i < |order| ==> order[i].0 < cfg.tasks && order[i].1 in AllItems(cfg)
  {
    hide AllItems;
    forall i | 0 <= i < |order| ensures order[i].0 < cfg.tasks && order[i].1 in AllItems(cfg) {
      assert (order[i].0, order[i].1) in order;
    }
  }

  lemma CodeTestIsTest(cfg: Config, dirs: bool, made: seq<(nat, nat)>, looked: seq<(nat, nat)>, removed: seq<(nat, nat)>)
    requires cfg.Valid() && InPlace(cfg) && IsPhase(cfg, made) && IsPhase(cfg, looked) && IsPhase(cfg, removed)
    ensures CodeTest(cfg, dirs, made, looked, removed) == TestOps(cfg, dirs, made, looked, removed)
  {
    hide IsPhase, AllItems, CodePhase, PhaseOps, CodeStats, StatOps, InPlace;
    PhaseSteps(cfg, made);
    PhaseSteps(cfg, looked);
    PhaseSteps(cfg, removed);
    CodePhaseIsPhase(cfg, true, dirs, 0, made);
    CodeStatsAreStats(cfg, 1, looked);
    CodePhaseIsPhase(cfg, false, dirs, 3, removed);
  }

  // ----- where it does not fit -----

  /** The first directory of the last level: it gets items in either mode. */
  lemma DeepItem(cfg: Config) returns (x: nat)
    requires cfg.Valid() && cfg.depth > 0
    ensures Level(cfg.b, x) == cfg.depth && cfg.ipd * x >= 0 && cfg.ipd * x in AllItems(cfg) && cfg.ipd * x / cfg.ipd == x
  {
    x := Dirs(cfg.b, cfg.depth - 1);
    DirsLastLevel(cfg.b, cfg.depth);
    LevelBound(cfg.b, cfg.depth, x);
    LevelBound(cfg.b, cfg.depth - 1, x);
    MulLe(cfg.ipd, 0, x);
    assert x * cfg.ipd == cfg.ipd * x;
    QuotientIs(cfg.ipd, x, cfg.ipd * x);
    hide AllItems, Dirs, Level;
    ItemsMadeOnce(cfg, cfg.ipd * x);
    assert cfg.ipd * x in multiset(AllItems(cfg));
  }

  /** The directory task 0 wants for it was made by nobody. */
  lemma DeepDirMissing(cfg: Config, fs: Files, x: nat)
    requires cfg.Valid() && !InPlace(cfg) && Fresh(cfg, fs) && Level(cfg.b, x) == cfg.depth
    ensures var q := [Dir(cfg.nstride % cfg.tasks, 0)] + Chain(cfg.b, 0, x);
            q !in fs.dirs + TreeDirs(cfg) && q[|q| - 1].Dir?
  {
    hide Level, Branch, Chain;
    var k := cfg.nstride % cfg.tasks;
    var q := [Dir(k, 0)] + Chain(cfg.b, 0, x);
    DirPathShape(cfg.b, 0, x);
    assert q[|q| - 1] == DirPath(cfg.b, 0, x)[|q| - 1] == Dir(0, x);
    assert MdtestTrees.Inside(q, k);
    assert !IsEntry(fs, q);
    if q in TreeDirs(cfg) {
      var t: nat, y :| t < cfg.Trees() && y in Branch(cfg.b, cfg.depth, 0, 0) && DirPath(cfg.b, t, y) == q;
      DirPathShape(cfg.b, t, y);
      assert false;
    }
  }

  /** A phase that wants to make a directory item in a missing directory fails, in whatever order it goes. */
  lemma {:induction false} PhaseFails(cfg: Config, fs: Files, order: seq<(nat, nat)>, bad: (nat, nat))
    requires cfg.Valid() && bad in order
    requires var p := CodePath(cfg, 0, bad);
             |p| > 1 && ParentPath(p) !in fs.dirs && ParentPath(p)[|p| - 2].Dir?
    ensures !AllSucceed(fs, CodePhase(cfg, true, true, 0, order))
    decreases |order|
  {
    hide CodePath;
    var op := OneOp(true, true, CodePath(cfg, 0, order[0]));
    RunFirst(fs, op, CodePhase(cfg, true, true, 0, order[1..]));
    if order[0] != bad && Succeeds(fs, op) {
      EndsInItem(cfg, order[0]);
      assert bad in order[1..];
      PhaseFails(cfg, Do(fs, op), order[1..], bad);
    }
  }

  lemma EndsInItem(cfg: Config, s: (nat, nat))
    requires cfg.Valid()
    ensures var p := CodePath(cfg, 0, s); |p| > 0 && p[|p| - 1].Item?
  {
    hide Chain;
  }

  lemma FirstPhaseFails(cfg: Config, fs: Files, it: Iteration)
    requires cfg.Valid() && Fresh(cfg, fs) && IsPhase(cfg, it.madeDirs) && !InPlace(cfg)
    ensures !AllSucceed(fs.(dirs := fs.dirs + TreeDirs(cfg)), CodePhase(cfg, true, true, 0, it.madeDirs))
  {
    hide AllSucceed, CodePhase, AllItems, Level, CodePath, Chain, Fresh, TreeDirs;
    var x := DeepItem(cfg);
    DeepDirMissing(cfg, fs, x);
    var bad: (nat, nat) := (0, cfg.ipd * x);
    assert bad in it.madeDirs;
    BadPath(cfg, x);
    PhaseFails(cfg, fs.(dirs := fs.dirs + TreeDirs(cfg)), it.madeDirs, bad);
  }

  lemma FailsInside(fs: Files, a: seq<Op>, p: seq<Op>, rest: seq<Op>)
    requires !AllSucceed(Run(fs, a), p)
    ensures !AllSucceed(fs, a + (p + rest))
  {
    hide Run, AllSucceed;
    RunConcat(fs, a, p + rest);
    RunConcat(Run(fs, a), p, rest);
  }

  lemma CycleFails(cfg: Config, fs: Files, it: Iteration)
    requires cfg.Valid() && Fresh(cfg, fs) && it.Possible(cfg) && !InPlace(cfg)
    ensures !AllSucceed(fs, CodeCycle(cfg, it))
  {
    hide Run, AllSucceed, OpsOf, CodePhase, CodeStats, IsPhase, AllPaths, IsInterleaving, AllItems, InPlace;
    MakeTrees(cfg.b, cfg.depth, cfg.Trees(), fs, it.treesMade);
    FirstPhaseFails(cfg, fs, it);
    var p := CodePhase(cfg, true, true, 0, it.madeDirs);
    var rest := CodeStats(cfg, 1, it.lookedDirs) + CodePhase(cfg, false, true, 3, it.removedDirs)
                + CodeTest(cfg, false, it.madeFiles, it.lookedFiles, it.removedFiles) + OpsOf(it.treesRemoved);
    assert CodeCycle(cfg, it) == OpsOf(it.treesMade) + (p + rest);
    FailsInside(fs, OpsOf(it.treesMade), p, rest);
  }

  lemma BadPath(cfg: Config, x: nat)
    requires cfg.Valid() && cfg.unique && cfg.ipd * x >= 0 && cfg.ipd * x / cfg.ipd == x
    ensures var p, q := CodePath(cfg, 0, (0, cfg.ipd * x)), [Dir(cfg.nstride % cfg.tasks, 0)] + Chain(cfg.b, 0, x);
            |p| == |q| + 1 && ParentPath(p) == q
  {
    hide Chain;
  }

  /** The cycle works, whatever the interleaving of its phases, exactly if the trees and the stride fit: then
      every operation succeeds, every stat included, and the file system is back where it started; otherwise
      the first create phase already fails. */
  lemma CycleWorksIff(cfg: Config, fs: Files, it: Iteration)
    requires cfg.Valid() && Fresh(cfg, fs) && it.Possible(cfg)
    ensures AllSucceed(fs, CodeCycle(cfg, it)) && Run(fs, CodeCycle(cfg, it)) == fs <==> InPlace(cfg)
    ensures AllSucceed(fs, CodeCycle(cfg, it)) <==> InPlace(cfg)
  {
    hide Run, AllSucceed, OpsOf, TestOps, CodeTest, IsPhase, Fresh, InPlace;
    if InPlace(cfg) {
      CodeTestIsTest(cfg, true, it.madeDirs, it.lookedDirs, it.removedDirs);
      CodeTestIsTest(cfg, false, it.madeFiles, it.lookedFiles, it.removedFiles);
      CycleRestores(cfg, fs, it);
    } else {
      CycleFails(cfg, fs, it);
    }
  }

  // ----- every phase can take place -----

  /** The tasks one after the other are one possible order of a phase. */
  function Sequential(cfg: Config, tasks: nat): seq<(nat, nat)>
    requires cfg.b >= 1
  {
    if tasks == 0 then [] else Sequential(cfg, tasks - 1) + OneTask(tasks - 1, AllItems(cfg))
  }

  function OneTask(r: nat, ids: seq<nat>): seq<(nat, nat)>
  {
    seq(|ids|, i requires 0 <= i < |ids| => (r, ids[i]))
  }

  lemma {:induction false} SequentialSteps(cfg: Config, tasks: nat)
    requires cfg.Valid()
    ensures forall r: nat, id: nat :: (r, id) in Sequential(cfg, tasks) <==> r < tasks && id in AllItems(cfg)
    ensures forall i, j :: 0 <= i < j < |Sequential(cfg, tasks)| ==> Sequential(cfg, tasks)[i] != Sequential(cfg, tasks)[j]
  {
    hide AllItems;
    if tasks > 0 {
      SequentialSteps(cfg, tasks - 1);
      var ids := AllItems(cfg);
      var before, own := Sequential(cfg, tasks - 1), OneTask(tasks - 1, ids);
      forall id: nat | id in ids ensures (tasks - 1, id) in own {
        var i :| 0 <= i < |ids| && ids[i] == id;
        assert own[i] == (tasks - 1, id);
      }
      ItemsDistinct(cfg);
      forall i | 0 <= i < |before| ensures before[i].0 < tasks - 1 {
        assert (before[i].0, before[i].1) in before;
      }
    }
  }

  lemma ItemsDistinct(cfg: Config)
    requires cfg.Valid()
    ensures forall i, j :: 0 <= i < j < |AllItems(cfg)| ==> AllItems(cfg)[i] != AllItems(cfg)[j]
  {
    hide AllItems;
    var ids := AllItems(cfg);
    forall i, j | 0 <= i < j < |ids| ensures ids[i] != ids[j] {
      ItemsMadeOnce(cfg, ids[i]);
      if ids[i] == ids[j] {
        Counting.Twice(ids, i, j);
      }
    }
  }

  /** One tree after the other is one possible order of a tree phase. */
  function TreeByTree(create: bool, b: nat, depth: nat, trees: nat): seq<(nat, Op)>
    requires b >= 1
  {
    if trees == 0 then []
    else TreeByTree(create, b, depth, trees - 1) + OneTree(trees - 1, BranchOps(create, b, depth, trees - 1, 0, 0))
  }

  function OneTree(t: nat, ops: seq<Op>): seq<(nat, Op)>
  {
    if ops == [] then [] else [(t, ops[0])] + OneTree(t, ops[1..])
  }

  lemma {:induction false} ProjectOne(t: nat, ops: seq<Op>, u: nat)
    ensures Project(OneTree(t, ops), u) == if u == t then ops else []
    ensures forall e :: e in OneTree(t, ops) ==> e.0 == t
  {
    if ops != [] {
      ProjectOne(t, ops[1..], u);
      assert OneTree(t, ops)[1..] == OneTree(t, ops[1..]);
    }
  }

  lemma {:induction false} ProjectConcat(a: seq<(nat, Op)>, c: seq<(nat, Op)>, t: nat)
    ensures Project(a + c, t) == Project(a, t) + Project(c, t)
  {
    if a == [] {
      assert a + c == c;
    } else {
      assert (a + c)[0] == a[0] && (a + c)[1..] == a[1..] + c;
      ProjectConcat(a[1..], c, t);
      var head := if a[0].0 == t then [a[0].1] else [];
      assert Project(a + c, t) == head + Project(a[1..] + c, t);
      assert Project(a, t) == head + Project(a[1..], t);
      hide Project;
    }
  }

  lemma {:induction false} TreeByTreePhase(create: bool, b: nat, depth: nat, trees: nat, t: nat)
    requires b >= 1
    ensures Project(TreeByTree(create, b, depth, trees), t) == if t < trees then BranchOps(create, b, depth, t, 0, 0) else []
    ensures forall e :: e in TreeByTree(create, b, depth, trees) ==> e.0 < trees
  {
    hide BranchOps, Project, OneTree;
    if trees == 0 {
      NothingProjects(t);
    } else {
      TreeByTreePhase(create, b, depth, trees - 1, t);
      var last := OneTree(trees - 1, BranchOps(create, b, depth, trees - 1, 0, 0));
      ProjectOne(trees - 1, BranchOps(create, b, depth, trees - 1, 0, 0), t);
      ProjectConcat(TreeByTree(create, b, depth, trees - 1), last, t);
    }
  }

  lemma NothingProjects(t: nat)
    ensures Project([], t) == []
  {
  }

  /** For every configuration an iteration can take place. */
  lemma IterationPossible(cfg: Config) returns (it: Iteration)
    requires cfg.Valid()
    ensures it.Possible(cfg)
  {
    var phase := Sequential(cfg, cfg.tasks);
    SequentialSteps(cfg, cfg.tasks);
    hide Sequential, AllItems, TreeByTree, Project, BranchOps;
    assert IsPhase(cfg, phase);
    var made := TreeByTree(true, cfg.b, cfg.depth, cfg.Trees());
    var removed := TreeByTree(false, cfg.b, cfg.depth, cfg.Trees());
    TreeByTreePhase(true, cfg.b, cfg.depth, cfg.Trees(), 0);
    TreeByTreePhase(false, cfg.b, cfg.depth, cfg.Trees(), 0);
    forall t: nat | t < cfg.Trees()
      ensures Project(made, t) == BranchOps(true, cfg.b, cfg.depth, t, 0, 0)
      ensures Project(removed, t) == BranchOps(false, cfg.b, cfg.depth, t, 0, 0)
    {
      TreeByTreePhase(true, cfg.b, cfg.depth, cfg.Trees(), t);
      TreeByTreePhase(false, cfg.b, cfg.depth, cfg.Trees(), t);
    }
    it := Iteration(made, phase, phase, phase, phase, phase, phase, removed);
  }

  // ----- the numbers the stat loops run through -----

  /** The stat phase of the cycle is what the stat loops do: each task runs through its own shuffle of the item
      numbers, and the tasks' look-ups come in any order. */
  lemma StatLoopsArePhase(cfg: Config, numbers: seq<seq<nat>>, order: seq<(nat, nat)>)
    requires cfg.Valid() && |numbers| == cfg.tasks && cfg.Shift() >= 0
    requires forall r :: 0 <= r < cfg.tasks ==> multiset(numbers[r]) == multiset(Range(cfg.ipd * cfg.ItemDirs()))
    requires forall r: nat, id: nat :: multiset(order)[(r, id)]
               == if r < cfg.tasks then multiset(Shifted(numbers[r], cfg.Shift()))[id] else 0
    ensures IsPhase(cfg, order)
  {
    hide AllItems, Config.Shift, Config.ItemDirs, Range, Shifted;
    forall r: nat, id: nat
      ensures multiset(order)[(r, id)] <= 1
      ensures (r, id) in order <==> r < cfg.tasks && id in AllItems(cfg)
    {
      assert (r, id) in order <==> (r, id) in multiset(order);
      if r < cfg.tasks {
        StatLooksUpWhatWasMade(cfg, numbers[r], id);
        ItemsMadeOnce(cfg, id);
        assert id in AllItems(cfg) <==> id in multiset(AllItems(cfg));
      }
    }
    forall i, j | 0 <= i < j < |order| ensures order[i] != order[j] {
      if order[i] == order[j] {
        Counting.Twice(order, i, j);
      }
    }
  }
}
