/** The selective walk of cmd/start/directory.go and the workspace cleaning built on it
    (cmd/start/cache.go): what a new pipeline run finds of the previous ones. */
module WorkspaceCleanup {
  import opened FileTree
  import opened CacheCleanup

  const CACHE := ".ods-cache"
  const DEPENDENCIES := "deps"
  const BUILD_TASKS := "build-task"

  datatype Flags = Flags(skipDir: bool, remove: bool, enterDir: bool)

  const SKIP := Flags(true, false, false)
  const REMOVE := Flags(false, true, false)
  const ENTER := Flags(false, false, true)
  const NONE := Flags(false, false, false)

  /** Decides on an entry by its path relative to the walk's root and whether it is a directory. */
  type Decider = (Path, bool) -> Flags

  /** A directory both removed and entered: the walk then fails to read it. */
  predicate Contradicts(f: Flags) {
    !f.skipDir && f.remove && f.enterDir
  }

  /** What the walk does with one entry. */
  function Treat(t: Tree, root: nat, c: Path, decide: Decider): Verdict
    requires root <= |c|
  {
    var f := decide(c[root..], IsDir(t, c));
    if IsDir(t, c) then
      if f.skipDir then Spare else if f.remove then Clean else if f.enterDir then Enter else Spare
    else
      if f.remove then Clean else Spare
  }

  predicate WalkRemoves(t: Tree, root: nat, dir: Path, q: Path, decide: Decider)
    requires IsBelow(dir, q) && root <= |dir|
    decreases |q| - |dir|
  {
    var c := ChildToward(dir, q);
    match Treat(t, root, c, decide)
    case Clean => true
    case Spare => false
    case Enter => c != q && WalkRemoves(t, root, c, q, decide)
  }

  /** Is `q` an entry that the walk over `dir` removes itself? */
  predicate WalkCuts(t: Tree, root: nat, dir: Path, q: Path, decide: Decider)
    requires IsBelow(dir, q) && root <= |dir|
    decreases |q| - |dir|
  {
    var c := ChildToward(dir, q);
    match Treat(t, root, c, decide)
    case Clean => c == q
    case Spare => false
    case Enter => c != q && WalkCuts(t, root, c, q, decide)
  }

  /** The walk fails at such an entry: its removal fails, or the decider wants it entered afterwards. */
  predicate Halts(t: Tree, root: nat, q: Path, decide: Decider, stuck: set<Path>)
    requires root <= |q|
  {
    q in stuck || (IsDir(t, q) && Contradicts(decide(q[root..], true)))
  }

  predicate WalkFailsIn(t: Tree, root: nat, dir: Path, done: set<Path>, decide: Decider, stuck: set<Path>)
    requires root <= |dir|
  {
    exists q | q in t && IsBelow(dir, q) ::
      ChildToward(dir, q) in done && WalkCuts(t, root, dir, q, decide) && Halts(t, root, q, decide, stuck)
  }

  predicate WalkFails(t: Tree, root: nat, dir: Path, decide: Decider, stuck: set<Path>)
    requires root <= |dir|
  {
    exists q | q in t && IsBelow(dir, q) :: WalkCuts(t, root, dir, q, decide) && Halts(t, root, q, decide, stuck)
  }

  function Walked(t: Tree, root: nat, dir: Path, decide: Decider): Tree
    requires root <= |dir|
  {
    map q | q in t && !(IsBelow(dir, q) && WalkRemoves(t, root, dir, q, decide)) :: t[q]
  }

  function WalkedSoFar(t: Tree, root: nat, dir: Path, done: set<Path>, decide: Decider): Tree
    requires root <= |dir|
  {
    map q | q in t && !(IsBelow(dir, q) && ChildToward(dir, q) in done && WalkRemoves(t, root, dir, q, decide)) :: t[q]
  }

  lemma {:induction false} LocalWalk(t: Tree, t': Tree, root: nat, dir: Path, q: Path, decide: Decider)
    requires AgreeWithin(t, t', dir) && IsBelow(dir, q) && root <= |dir|
    ensures WalkRemoves(t, root, dir, q, decide) == WalkRemoves(t', root, dir, q, decide)
    ensures WalkCuts(t, root, dir, q, decide) == WalkCuts(t', root, dir, q, decide)
    decreases |q| - |dir|
  {
    var c := ChildToward(dir, q);
    assert Within(dir, c);
    if c != q {
      LocalWalk(t, t', root, c, q, decide);
    }
  }

  lemma UnwalkedEntry(t: Tree, root: nat, dir: Path, done: set<Path>, c: Path, decide: Decider)
    requires root <= |dir| && c in Children(t, dir) && c !in done
    ensures AgreeWithin(t, WalkedSoFar(t, root, dir, done, decide), c)
    ensures Treat(WalkedSoFar(t, root, dir, done, decide), root, c, decide) == Treat(t, root, c, decide)
  {
    var now := WalkedSoFar(t, root, dir, done, decide);
    forall q | Within(c, q) ensures (q in t <==> q in now) && (q in t ==> t[q] == now[q]) {
      assert ChildToward(dir, q) == c;
    }
    assert Within(c, c);
  }

  lemma NextWalk(t: Tree, root: nat, dir: Path, done: set<Path>, c: Path, decide: Decider)
    requires root <= |dir| && c in Children(t, dir) && c !in done
    ensures var now, next := WalkedSoFar(t, root, dir, done, decide), WalkedSoFar(t, root, dir, done + {c}, decide);
      match Treat(t, root, c, decide)
      case Clean => next == RemoveAll(now, c)
      case Spare => next == now
      case Enter => next == Walked(now, root, c, decide)
  {
    var now := WalkedSoFar(t, root, dir, done, decide);
    UnwalkedEntry(t, root, dir, done, c, decide);
    forall q | q in t && IsBelow(dir, q) ensures ChildToward(dir, q) == c <==> Within(c, q) {
    }
    forall q | IsBelow(c, q) ensures WalkRemoves(now, root, c, q, decide) == WalkRemoves(t, root, c, q, decide) {
      LocalWalk(t, now, root, c, q, decide);
    }
  }

  /** By its flags: removed, unless it is a directory to skip. */
  predicate IsToRemove(t: Tree, root: nat, p: Path, decide: Decider)
    requires root <= |p|
  {
    var f := decide(p[root..], IsDir(t, p));
    f.remove && (IsDir(t, p) ==> !f.skipDir)
  }

  /** By its flags: entered and nothing else. */
  predicate IsToEnter(t: Tree, root: nat, p: Path, decide: Decider)
    requires root <= |p|
  {
    IsDir(t, p) && decide(p[root..], true).enterDir &&
    !decide(p[root..], true).skipDir && !decide(p[root..], true).remove
  }

  /** An entry goes exactly if on its way down the first one that is not to be entered is removed. */
  lemma {:induction false} WalkMeaning(t: Tree, root: nat, dir: Path, q: Path, decide: Decider)
    requires IsBelow(dir, q) && root <= |dir|
    ensures WalkRemoves(t, root, dir, q, decide) <==>
      exists k | |dir| < k <= |q| ::
        && IsToRemove(t, root, q[..k], decide)
        && forall j | |dir| < j < k :: IsToEnter(t, root, q[..j], decide)
    decreases |q| - |dir|
  {
    var c := ChildToward(dir, q);
    if IsToEnter(t, root, c, decide) && c != q {
      WalkMeaning(t, root, c, q, decide);
    }
  }

  /** A directory to be removed and entered ends the walk. */
  lemma RemovedAndEntered(mtime: int)
    ensures WalkFails(map[["a"] := Dir(mtime)], 0, [], (path: Path, isDir: bool) => Flags(false, true, true), {})
  {
    var t, decide := map[["a"] := Dir(mtime)], (path: Path, isDir: bool) => Flags(false, true, true);
    assert ["a"] in t && IsBelow([], ["a"]) && WalkCuts(t, 0, [], ["a"], decide);
    assert Halts(t, 0, ["a"], decide, {});
  }

  /** An entry is one exactly if it goes and what it stands in stays. */
  lemma {:induction false} WalkCutsMeaning(t: Tree, root: nat, dir: Path, q: Path, decide: Decider)
    requires IsBelow(dir, q) && root <= |dir|
    ensures WalkCuts(t, root, dir, q, decide) <==>
      && WalkRemoves(t, root, dir, q, decide)
      && (|q| == |dir| + 1 || !WalkRemoves(t, root, dir, q[..|q| - 1], decide))
    decreases |q| - |dir|
  {
    var c := ChildToward(dir, q);
    if c != q {
      var parent := q[..|q| - 1];
      assert ChildToward(dir, parent) == c;
      WalkCutsMeaning(t, root, c, q, decide);
    }
  }

  lemma WalkCutsAreCut(t: Tree, root: nat, dir: Path, q: Path, decide: Decider)
    requires WellFormed(t) && IsDir(t, dir) && root <= |dir|
    ensures IsCut(t, Walked(t, root, dir, decide), q) <==>
      q in t && IsBelow(dir, q) && WalkCuts(t, root, dir, q, decide)
  {
    if q in t && IsBelow(dir, q) {
      WalkCutsMeaning(t, root, dir, q, decide);
      if |q| > 1 {
        AncestorsAreDirs(t, q, |q| - 1);
      }
      if |q| == |dir| + 1 {
        assert q[..|q| - 1] == dir;
      }
    }
  }

  /** Whether the next entry makes the walk fail. */
  lemma NextFails(t: Tree, root: nat, dir: Path, done: set<Path>, c: Path, decide: Decider, stuck: set<Path>)
    requires root <= |dir| && c in Children(t, dir) && c !in done
    ensures var now := WalkedSoFar(t, root, dir, done, decide);
      WalkFailsIn(t, root, dir, {c}, decide, stuck) <==>
        match Treat(t, root, c, decide)
        case Clean => Halts(t, root, c, decide, stuck)
        case Spare => false
        case Enter => WalkFails(now, root, c, decide, stuck)
  {
    var now := WalkedSoFar(t, root, dir, done, decide);
    UnwalkedEntry(t, root, dir, done, c, decide);
    forall q | IsBelow(c, q)
      ensures WalkCuts(now, root, c, q, decide) == WalkCuts(t, root, c, q, decide)
      ensures (q in t <==> q in now) && Halts(now, root, q, decide, stuck) == Halts(t, root, q, decide, stuck)
    {
      LocalWalk(t, now, root, c, q, decide);
    }
    forall q | q in t && IsBelow(dir, q) ensures ChildToward(dir, q) == c <==> Within(c, q) {
    }
  }

  lemma FailsTogether(t: Tree, root: nat, dir: Path, done: set<Path>, c: Path, decide: Decider, stuck: set<Path>)
    requires root <= |dir|
    ensures WalkFailsIn(t, root, dir, done + {c}, decide, stuck) <==>
      WalkFailsIn(t, root, dir, done, decide, stuck) || WalkFailsIn(t, root, dir, {c}, decide, stuck)
  {
  }

  lemma FailsAtLast(t: Tree, root: nat, dir: Path, decide: Decider, stuck: set<Path>)
    requires WellFormed(t) && root <= |dir|
    ensures WalkFailsIn(t, root, dir, Children(t, dir), decide, stuck) <==> WalkFails(t, root, dir, decide, stuck)
    ensures !WalkFailsIn(t, root, dir, {}, decide, stuck)
  {
    forall q | q in t && IsBelow(dir, q) ensures ChildToward(dir, q) in Children(t, dir) {
      AncestorsAreDirs(t, q, |dir| + 1);
    }
  }

  lemma WalkDone(t: Tree, root: nat, dir: Path, decide: Decider)
    requires WellFormed(t) && root <= |dir|
    ensures WalkedSoFar(t, root, dir, Children(t, dir), decide) == Walked(t, root, dir, decide)
    ensures WalkedSoFar(t, root, dir, {}, decide) == t
  {
    forall q | q in t && IsBelow(dir, q) ensures ChildToward(dir, q) in Children(t, dir) {
      AncestorsAreDirs(t, q, |dir| + 1);
    }
  }

  lemma NeverTooFar(t: Tree, root: nat, dir: Path, done: set<Path>, decide: Decider)
    requires root <= |dir|
    ensures Walked(t, root, dir, decide).Items <= WalkedSoFar(t, root, dir, done, decide).Items <= t.Items
  {
  }

  ghost predicate WalkState(t: Tree, root: nat, dir: Path, done: set<Path>, decide: Decider, bound: nat, now: Tree)
    requires root <= |dir|
  {
    WellFormed(now) && DepthBound(now, bound) && now == WalkedSoFar(t, root, dir, done, decide)
  }

  ghost predicate WalkedAtMost(t: Tree, root: nat, dir: Path, decide: Decider, now: Tree)
    requires root <= |dir|
  {
    WellFormed(now) && Walked(t, root, dir, decide).Items <= now.Items <= t.Items
  }

  /** Walks directory `dir`, removing what the decider says; a walk that ends without an error leaves
      exactly the filtered tree, one that fails has removed nothing else. */
  method DeleteDirRecursiveWithSkip(fs: FileSystem, root: nat, dir: Path, decide: Decider, stuck: set<Path>,
                                    ghost bound: nat)
    returns (ok: bool)
    requires WellFormed(fs.tree) && DepthBound(fs.tree, bound) && root <= |dir| <= bound + 1 && IsDir(fs.tree, dir)
    modifies fs
    ensures WellFormed(fs.tree) && DepthBound(fs.tree, bound)
    ensures ok ==> fs.tree == Walked(old(fs.tree), root, dir, decide)
    ensures !ok ==> WalkedAtMost(old(fs.tree), root, dir, decide, fs.tree)
    ensures ok <==> !WalkFails(old(fs.tree), root, dir, decide, stuck)
    decreases bound + 1 - |dir|, 1
  {
    ghost var t := fs.tree;
    WalkDone(t, root, dir, decide);
    var entries := fs.ReadDir(dir);
    NoneAndAllOf(entries, t, dir);
    FailsAtLast(t, root, dir, decide, stuck);
    for i := 0 to |entries|
      invariant !WalkFailsIn(t, root, dir, FirstOf(entries, i), decide, stuck)
      invariant WalkState(t, root, dir, FirstOf(entries, i), decide, bound, fs.tree)
    {
      NextOf(entries, t, dir, i);
      FailsTogether(t, root, dir, FirstOf(entries, i), entries[i], decide, stuck);
      ok := WalkEntry(fs, root, dir, entries[i], decide, stuck, bound, t, FirstOf(entries, i));
      if !ok {
        assert WalkFails(t, root, dir, decide, stuck);
        return false;
      }
    }
    return true;
  }

  /** The walk's callback on one entry, and the descent it allows. */
  method WalkEntry(fs: FileSystem, root: nat, dir: Path, c: Path, decide: Decider, stuck: set<Path>, ghost bound: nat,
                   ghost t: Tree, ghost done: set<Path>)
    returns (ok: bool)
    requires root <= |dir| <= bound && c in Children(t, dir) && c !in done
    requires WalkState(t, root, dir, done, decide, bound, fs.tree)
    modifies fs
    ensures ok ==> WalkState(t, root, dir, done + {c}, decide, bound, fs.tree)
    ensures !ok ==> WalkedAtMost(t, root, dir, decide, fs.tree) && DepthBound(fs.tree, bound)
    ensures ok <==> !WalkFailsIn(t, root, dir, {c}, decide, stuck)
    decreases bound + 1 - |dir|, 0
  {
    UnwalkedEntry(t, root, dir, done, c, decide);
    NextFails(t, root, dir, done, c, decide, stuck);
    NextWalk(t, root, dir, done, c, decide);
    NeverTooFar(t, root, dir, done, decide);
    NeverTooFar(t, root, dir, done + {c}, decide);
    RemoveKeepsTree(fs.tree, c);
    if IsDir(fs.tree, c) {
      var flags := decide(c[root..], true);
      if flags.skipDir {
        return true;
      }
      if flags.remove {
        if c in stuck {
          return false;
        }
        fs.Remove(c);
      }
      if flags.enterDir {
        if flags.remove {
          return false;
        }
        ok := DeleteDirRecursiveWithSkip(fs, root, c, decide, stuck, bound);
        return ok;
      }
    } else {
      var flags := decide(c[root..], false);
      if flags.remove {
        if c in stuck {
          return false;
        }
        fs.Remove(c);
      }
    }
    return true;
  }

  /** What goes takes along what is below it. */
  lemma {:induction false} RemovedBelow(t: Tree, root: nat, dir: Path, q: Path, decide: Decider)
    requires WellFormed(t) && root <= |dir| && q in t && IsBelow(dir, q) && |q| > |dir| + 1
    ensures WalkRemoves(t, root, dir, q[..|q| - 1], decide) ==> WalkRemoves(t, root, dir, q, decide)
    decreases |q| - |dir|
  {
    var c := ChildToward(dir, q);
    assert ChildToward(dir, q[..|q| - 1]) == c;
    if |q| > |dir| + 2 {
      RemovedBelow(t, root, c, q, decide);
    }
  }

  lemma WalkKeepsTree(t: Tree, root: nat, dir: Path, decide: Decider)
    requires WellFormed(t) && root <= |dir|
    ensures WellFormed(Walked(t, root, dir, decide))
  {
    forall q | q in Walked(t, root, dir, decide) && |q| > 1 ensures q[..|q| - 1] in Walked(t, root, dir, decide) {
      if IsBelow(dir, q[..|q| - 1]) {
        RemovedBelow(t, root, dir, q, decide);
      }
    }
  }

  /** Removing something fails that a cleaning from `t` to `left` removes itself. */
  predicate SticksOn(t: Tree, left: Tree, stuck: set<Path>) {
    exists q | q in stuck :: IsCut(t, left, q)
  }

  /** Without contradictions in its decider a walk fails exactly at such an entry. */
  lemma WalkFailsMeaning(t: Tree, root: nat, dir: Path, decide: Decider, stuck: set<Path>)
    requires WellFormed(t) && IsDir(t, dir) && root <= |dir| && forall p :: !Contradicts(decide(p, true))
    ensures WalkFails(t, root, dir, decide, stuck) <==> SticksOn(t, Walked(t, root, dir, decide), stuck)
  {
    forall q ensures IsCut(t, Walked(t, root, dir, decide), q) <==>
      q in t && IsBelow(dir, q) && WalkCuts(t, root, dir, q, decide)
    {
      WalkCutsAreCut(t, root, dir, q, decide);
    }
  }

  /** And so does the age-based cleaning. */
  lemma SticksMeaning(t: Tree, root: nat, dir: Path, keep: int, maxLevel: int, stuck: set<Path>)
    requires WellFormed(t) && dir != []
    ensures Sticks(t, root, dir, keep, maxLevel, stuck) <==> SticksOn(t, Cleaned(t, root, dir, keep, maxLevel), stuck)
  {
    if IsDir(t, dir) {
      forall q ensures IsCut(t, Cleaned(t, root, dir, keep, maxLevel), q) <==>
        q in t && IsBelow(dir, q) && Cuts(t, root, dir, q, keep, maxLevel)
      {
        CutsAreCut(t, root, dir, q, keep, maxLevel);
      }
    } else {
      NothingBelow(t, root, dir, keep, maxLevel);
      NothingSticks(t, root, dir, keep, maxLevel, stuck);
    }
  }

  /** One cleaning after the other sticks where one of them does. */
  lemma SticksInTurn(t: Tree, mid: Tree, left: Tree, stuck: set<Path>)
    requires left.Items <= mid.Items <= t.Items
    requires forall q | IsCut(t, mid, q) && |q| > 1 :: q[..|q| - 1] in left
    ensures SticksOn(t, left, stuck) <==> SticksOn(t, mid, stuck) || SticksOn(mid, left, stuck)
  {
    forall q ensures IsCut(t, left, q) <==> IsCut(t, mid, q) || IsCut(mid, left, q) {
      CutsTogether(t, mid, left, q);
    }
  }

  /* ---- Cleaning the workspace before a run ---- */

  function SpareCache(path: Path, isDir: bool): Flags {
    if path == [CACHE] then SKIP else REMOVE
  }

  /** Paths relative to the cache; a prefix of the slash-joined path without a slash in it is a
      prefix of its first name. */
  function TidyCache(path: Path, isDir: bool): Flags {
    if path == [] || !(DEPENDENCIES <= path[0]) then NONE
    else if path == [DEPENDENCIES] then ENTER
    else if isDir then SKIP
    else REMOVE
  }

  method DeleteDirectoryContentsSpareCache(fs: FileSystem, stuck: set<Path>) returns (ok: bool)
    requires WellFormed(fs.tree)
    modifies fs
    ensures WellFormed(fs.tree)
    ensures ok ==> fs.tree == Walked(old(fs.tree), 0, [], SpareCache)
    ensures !ok ==> WalkedAtMost(old(fs.tree), 0, [], SpareCache, fs.tree)
    ensures ok <==> !SticksOn(old(fs.tree), Walked(old(fs.tree), 0, [], SpareCache), stuck)
  {
    WalkFailsMeaning(fs.tree, 0, [], SpareCache, stuck);
    DepthBoundExists(fs.tree);
    ghost var bound: nat :| DepthBound(fs.tree, bound);
    ok := DeleteDirRecursiveWithSkip(fs, 0, [], SpareCache, stuck, bound);
  }

  predicate IsFile(t: Tree, p: Path) {
    p in t && t[p].File?
  }

  /** One of two regular files no pass removes: reading a directory there fails, on every run. */
  predicate FileInTheWay(t: Tree) {
    IsFile(t, [CACHE]) || IsFile(t, [CACHE, BUILD_TASKS])
  }

  /** The walk over the cache leaves what stands at the build outputs. */
  lemma BlockedAfterWalk(t: Tree)
    requires WellFormed(t) && IsDir(t, [CACHE])
    ensures Blocked(Walked(t, 1, [CACHE], TidyCache), [CACHE, BUILD_TASKS]) <==> FileInTheWay(t)
  {
    var tasks, walked := [CACHE, BUILD_TASKS], Walked(t, 1, [CACHE], TidyCache);
    assert tasks[..1] == [CACHE] && tasks[..2] == tasks;
    assert DEPENDENCIES[0] == 'd' && BUILD_TASKS[0] == 'b';
    assert ChildToward([CACHE], tasks) == tasks && tasks[1..] == [BUILD_TASKS];
    assert !WalkRemoves(t, 1, [CACHE], tasks, TidyCache);
    assert IsFile(walked, tasks) <==> IsFile(t, tasks);
    assert Blocked(walked, tasks) <==> IsFile(walked, tasks[..1]) || IsFile(walked, tasks[..2]);
  }

  /** Both passes over the cache, in terms of what each does alone. */
  function CleanedCache(t: Tree, keep: int): Tree {
    Cleaned(Walked(t, 1, [CACHE], TidyCache), 1, [CACHE, BUILD_TASKS], keep, 1)
  }

  lemma NoCache(t: Tree, keep: int)
    requires WellFormed(t) && [CACHE] !in t
    ensures !FileInTheWay(t) && CleanedCache(t, keep) == t
  {
    assert [CACHE, BUILD_TASKS][..1] == [CACHE];
    forall q | q in t ensures !IsBelow([CACHE], q) && !IsBelow([CACHE, BUILD_TASKS], q) {
      AncestorsAreDirs(t, q, 1);
      assert q[..1] == [q[0]];
    }
  }

  /** The walk over the cache removes things only in `deps` and next to it. */
  lemma TidyCuts(t: Tree, q: Path)
    requires WellFormed(t) && IsDir(t, [CACHE]) && IsCut(t, Walked(t, 1, [CACHE], TidyCache), q)
    ensures |q| > 1 && DEPENDENCIES <= q[1]
  {
    assert IsBelow([CACHE], q) && WalkRemoves(t, 1, [CACHE], q, TidyCache);
    var c := ChildToward([CACHE], q);
    assert c[1..] == [q[1]];
  }

  lemma CacheSticks(t: Tree, keep: int, stuck: set<Path>)
    requires WellFormed(t) && IsDir(t, [CACHE]) && WellFormed(Walked(t, 1, [CACHE], TidyCache))
    ensures SticksOn(t, CleanedCache(t, keep), stuck) <==>
      || WalkFails(t, 1, [CACHE], TidyCache, stuck)
      || Sticks(Walked(t, 1, [CACHE], TidyCache), 1, [CACHE, BUILD_TASKS], keep, 1, stuck)
  {
    var mid, tasks := Walked(t, 1, [CACHE], TidyCache), [CACHE, BUILD_TASKS];
    WalkFailsMeaning(t, 1, [CACHE], TidyCache, stuck);
    SticksMeaning(mid, 1, tasks, keep, 1, stuck);
    assert DEPENDENCIES[0] == 'd' && BUILD_TASKS[0] == 'b';
    forall q | IsCut(t, mid, q) && |q| > 1 ensures q[..|q| - 1] in CleanedCache(t, keep) {
      TidyCuts(t, q);
      var parent := q[..|q| - 1];
      assert |parent| > 1 ==> parent[1] == q[1] != tasks[1];
    }
    SticksInTurn(t, mid, CleanedCache(t, keep), stuck);
  }

  /** The walk over the cache, then the removal of stale build outputs. */
  method CleanCache(fs: FileSystem, keep: int, stuck: set<Path>) returns (ok: bool)
    requires WellFormed(fs.tree)
    modifies fs
    ensures WellFormed(fs.tree)
    ensures [CACHE] !in old(fs.tree) ==> ok && fs.tree == old(fs.tree)
    ensures IsFile(old(fs.tree), [CACHE]) ==> !ok && fs.tree == old(fs.tree)
    ensures ok <==> !FileInTheWay(old(fs.tree)) && !SticksOn(old(fs.tree), CleanedCache(old(fs.tree), keep), stuck)
    ensures ok ==> fs.tree == CleanedCache(old(fs.tree), keep)
    ensures CleanedCache(old(fs.tree), keep).Items <= fs.tree.Items <= old(fs.tree).Items
  {
    if [CACHE] !in fs.tree {
      NoCache(fs.tree, keep);
      return true;
    }
    if fs.tree[[CACHE]].File? {
      return false;
    }
    ok := CleanCacheDirectory(fs, keep, stuck);
  }

  method TidyUp(fs: FileSystem, stuck: set<Path>) returns (ok: bool)
    requires WellFormed(fs.tree) && IsDir(fs.tree, [CACHE])
    modifies fs
    ensures WellFormed(fs.tree)
    ensures ok <==> !WalkFails(old(fs.tree), 1, [CACHE], TidyCache, stuck)
    ensures ok ==> fs.tree == Walked(old(fs.tree), 1, [CACHE], TidyCache)
    ensures !ok ==> WalkedAtMost(old(fs.tree), 1, [CACHE], TidyCache, fs.tree)
  {
    DepthBoundExists(fs.tree);
    ghost var bound: nat :| DepthBound(fs.tree, bound);
    ok := DeleteDirRecursiveWithSkip(fs, 1, [CACHE], TidyCache, stuck, bound);
  }

  /** The two passes, where the cache is a directory. */
  method CleanCacheDirectory(fs: FileSystem, keep: int, stuck: set<Path>) returns (ok: bool)
    requires WellFormed(fs.tree) && IsDir(fs.tree, [CACHE])
    modifies fs
    ensures WellFormed(fs.tree)
    ensures ok <==> !FileInTheWay(old(fs.tree)) && !SticksOn(old(fs.tree), CleanedCache(old(fs.tree), keep), stuck)
    ensures ok ==> fs.tree == CleanedCache(old(fs.tree), keep)
    ensures CleanedCache(old(fs.tree), keep).Items <= fs.tree.Items <= old(fs.tree).Items
  {
    ghost var t := fs.tree;
    BlockedAfterWalk(t);
    WalkKeepsTree(t, 1, [CACHE], TidyCache);
    CacheSticks(t, keep, stuck);
    ok := TidyUp(fs, stuck);
    if ok {
      var _, cleaned := CleanupNotRecentlyUsed(fs, 1, [CACHE, BUILD_TASKS], keep, 1, stuck);
      ok := cleaned;
    }
  }

  /** Only the cache stays; in `deps` only directories stay; other entries of the cache whose names
      start with "deps" stay if they are directories. */
  predicate Tidy(t: Tree, q: Path) {
    && q != [] && q[0] == CACHE
    && (|q| > 1 && DEPENDENCIES <= q[1] && q[1] != DEPENDENCIES ==> IsDir(t, q[..2]))
    && (|q| > 2 && q[1] == DEPENDENCIES ==> IsDir(t, q[..3]))
  }

  /** The workspace cleaning told entry by entry: of the tidy entries, build outputs stay if they are
      in use, and everything else is untouched. */
  predicate Remains(t: Tree, q: Path, keep: int) {
    && Tidy(t, q)
    && (IsBelow([CACHE, BUILD_TASKS], q) ==> !Gone(t, 1, [CACHE, BUILD_TASKS], q, keep, 1))
  }

  function Remaining(t: Tree, keep: int): Tree {
    map q | q in t && Remains(t, q, keep) :: t[q]
  }

  lemma SparedIsCache(t: Tree, q: Path)
    requires WellFormed(t) && q in t
    ensures !WalkRemoves(t, 0, [], q, SpareCache) <==> q[0] == CACHE
  {
    var c := ChildToward([], q);
    assert c[0..] == c && (c == [CACHE] <==> q[0] == CACHE);
  }

  /** The fate of an entry of the cache itself: entered if it is a directory named like the
      dependencies, else removed if it is a file whose name starts like that. */
  lemma CacheEntry(t: Tree, c: Path)
    requires |c| == 2 && c[0] == CACHE
    ensures Treat(t, 1, c, TidyCache) ==
      if c[1] == DEPENDENCIES then (if IsDir(t, c) then Enter else Spare)
      else if DEPENDENCIES <= c[1] && !IsDir(t, c) then Clean else Spare
  {
    assert c[1..] == [c[1]];
  }

  /** The fate of an entry of the dependencies. */
  lemma DependencyEntry(t: Tree, d: Path)
    requires |d| == 3 && d[0] == CACHE && d[1] == DEPENDENCIES
    ensures Treat(t, 1, d, TidyCache) == if IsDir(t, d) then Spare else Clean
  {
    assert d[1..] == [d[1], d[2]];
  }

  lemma TidiedCache(t: Tree, q: Path)
    requires WellFormed(t) && q in t && IsBelow([CACHE], q)
    ensures !WalkRemoves(t, 1, [CACHE], q, TidyCache) <==>
      && (DEPENDENCIES <= q[1] && q[1] != DEPENDENCIES ==> IsDir(t, q[..2]))
      && (|q| > 2 && q[1] == DEPENDENCIES ==> IsDir(t, q[..3]))
  {
    var c := ChildToward([CACHE], q);
    assert c == q[..2];
    CacheEntry(t, c);
    AncestorsAreDirs(t, q, 2);
    if q[1] == DEPENDENCIES && |q| > 2 {
      assert ChildToward(c, q) == q[..3];
      DependencyEntry(t, q[..3]);
    }
  }

  lemma SweptTree(t: Tree)
    requires WellFormed(t)
    ensures Walked(t, 0, [], SpareCache) == map q | q in t && q[0] == CACHE :: t[q]
    ensures WellFormed(Walked(t, 0, [], SpareCache))
  {
    forall q | q in t ensures q in Walked(t, 0, [], SpareCache) <==> q[0] == CACHE {
      SparedIsCache(t, q);
    }
    assert forall q | q in t && |q| > 1 :: q[..|q| - 1][0] == q[0];
  }

  lemma TidiedTree(t: Tree)
    requires WellFormed(t)
    ensures Walked(Walked(t, 0, [], SpareCache), 1, [CACHE], TidyCache) == map q | q in t && Tidy(t, q) :: t[q]
  {
    SweptTree(t);
    var swept := Walked(t, 0, [], SpareCache);
    forall q | q in swept ensures q in Walked(swept, 1, [CACHE], TidyCache) <==> Tidy(t, q) {
      if |q| > 1 {
        assert IsBelow([CACHE], q);
        TidiedCache(swept, q);
        AncestorsAreDirs(swept, q, 2);
        if |q| > 2 {
          AncestorsAreDirs(swept, q, 3);
        }
      }
    }
  }

  /** Start's two cleaning passes together leave exactly what remains by that description. */
  lemma WorkspaceCleaningIsExact(t: Tree, keep: int)
    requires WellFormed(t)
    ensures var swept := Walked(t, 0, [], SpareCache);
      CleanedCache(swept, keep) == Remaining(t, keep)
  {
    TidiedTree(t);
    var tidied := Walked(Walked(t, 0, [], SpareCache), 1, [CACHE], TidyCache);
    var tasks := [CACHE, BUILD_TASKS];
    assert DEPENDENCIES[0] == 'd' && BUILD_TASKS[0] == 'b';
    forall q | Within(tasks, q) ensures Tidy(t, q) {
      assert q[0] == CACHE && q[1] == BUILD_TASKS;
    }
    assert AgreeWithin(t, tidied, tasks);
    forall q | q in t ensures q in Cleaned(tidied, 1, tasks, keep, 1) <==> Remains(t, q, keep) {
      if IsBelow(tasks, q) {
        LocalVerdicts(t, tidied, 1, tasks, q, keep, 1);
      }
    }
  }

  /** What the first pass leaves for the second, which only removes more. */
  lemma SweptWorkspace(t: Tree, keep: int)
    requires WellFormed(t)
    ensures var swept := Walked(t, 0, [], SpareCache);
      && CleanedCache(swept, keep) == Remaining(t, keep)
      && Remaining(t, keep).Items <= swept.Items
      && (FileInTheWay(swept) <==> FileInTheWay(t))
  {
    WorkspaceCleaningIsExact(t, keep);
    SweptTree(t);
  }

  lemma WorkspaceSticks(t: Tree, keep: int, stuck: set<Path>)
    requires WellFormed(t)
    ensures var swept := Walked(t, 0, [], SpareCache);
      SticksOn(t, Remaining(t, keep), stuck) <==>
      SticksOn(t, swept, stuck) || SticksOn(swept, CleanedCache(swept, keep), stuck)
  {
    var swept := Walked(t, 0, [], SpareCache);
    SweptWorkspace(t, keep);
    SweptTree(t);
    assert forall q | q in t && |q| > 1 && q[..|q| - 1] in swept :: q in swept;
    SticksInTurn(t, swept, Remaining(t, keep), stuck);
  }

  /** Both passes as ods-start runs them, on any workspace. They fail exactly at a file in the way or
      at an entry they remove themselves, and have then removed nothing that should remain. */
  method CleanWorkspace(fs: FileSystem, keep: int, stuck: set<Path>) returns (ok: bool)
    requires WellFormed(fs.tree)
    modifies fs
    ensures ok ==> fs.tree == Remaining(old(fs.tree), keep)
    ensures Remaining(old(fs.tree), keep).Items <= fs.tree.Items <= old(fs.tree).Items
    ensures ok <==> !FileInTheWay(old(fs.tree)) && !SticksOn(old(fs.tree), Remaining(old(fs.tree), keep), stuck)
    ensures WellFormed(fs.tree)
  {
    SweptWorkspace(fs.tree, keep);
    WorkspaceSticks(fs.tree, keep, stuck);
    ok := DeleteDirectoryContentsSpareCache(fs, stuck);
    if ok {
      ok := CleanCache(fs, keep, stuck);
    }
  }
}
