/** Age-based cleaning of the build cache (cmd/start/cache.go, cleanupNotRecentlyUsedMaxLevel): the
    recursive removals leave exactly a declaratively filtered tree, and cleaning composes. */
module CacheCleanup {
  import opened FileTree

  const STAMP := ".ods-last-used-stamp"

  datatype Verdict = Clean | Enter | Spare

  /** What the loop does with one entry of a directory at depth `level` below the cache root. */
  function Judge(t: Tree, entry: Path, level: int, keep: int, maxLevel: int): Verdict {
    if !IsDir(t, entry) then Clean
    else if entry + [STAMP] in t then (if t[entry + [STAMP]].mtime < keep then Clean else Spare)
    else if level < maxLevel then Enter
    else Clean
  }

  /** The level of a directory is the number of separators in its path relative to the root, which
      is `root` names long. */
  function Level(root: nat, dir: Path): int {
    |dir| - root - 1
  }

  /** Does cleaning `dir` remove `q`? The verdict on the entry toward `q` decides, or, if that is
      entered, cleaning goes on inside it. */
  predicate Gone(t: Tree, root: nat, dir: Path, q: Path, keep: int, maxLevel: int)
    requires IsBelow(dir, q)
    decreases |q| - |dir|
  {
    var c := ChildToward(dir, q);
    match Judge(t, c, Level(root, dir), keep, maxLevel)
    case Clean => true
    case Spare => false
    case Enter => c != q && Gone(t, root, c, q, keep, maxLevel)
  }

  /** Does cleaning `dir` look at `q` as an entry? */
  predicate Reached(t: Tree, root: nat, dir: Path, q: Path, keep: int, maxLevel: int)
    requires IsBelow(dir, q)
    decreases |q| - |dir|
  {
    var c := ChildToward(dir, q);
    c == q || (Judge(t, c, Level(root, dir), keep, maxLevel).Enter? && Reached(t, root, c, q, keep, maxLevel))
  }

  function Cleaned(t: Tree, root: nat, dir: Path, keep: int, maxLevel: int): Tree {
    map q | q in t && !(IsBelow(dir, q) && Gone(t, root, dir, q, keep, maxLevel)) :: t[q]
  }

  function Visited(t: Tree, root: nat, dir: Path, keep: int, maxLevel: int): set<Path> {
    set q | q in t && IsBelow(dir, q) && Reached(t, root, dir, q, keep, maxLevel)
  }

  /** A directory without a stamp, above the level bound. */
  predicate IsOpen(t: Tree, root: nat, p: Path, maxLevel: int) {
    IsDir(t, p) && p + [STAMP] !in t && |p| - root - 2 < maxLevel
  }

  /** A file, a directory with a stamp older than `keep`, or one without a stamp at the bound. */
  predicate IsStale(t: Tree, root: nat, p: Path, keep: int, maxLevel: int) {
    || !IsDir(t, p)
    || (p + [STAMP] in t && t[p + [STAMP]].mtime < keep)
    || (p + [STAMP] !in t && |p| - root - 2 >= maxLevel)
  }

  /** `q` is removed exactly if on its way down from `dir` the first entry that is not an open
      directory is stale. */
  lemma {:induction false} GoneMeaning(t: Tree, root: nat, dir: Path, q: Path, keep: int, maxLevel: int)
    requires IsBelow(dir, q)
    ensures Gone(t, root, dir, q, keep, maxLevel) <==>
      exists k | |dir| < k <= |q| ::
        && IsStale(t, root, q[..k], keep, maxLevel)
        && forall j | |dir| < j < k :: IsOpen(t, root, q[..j], maxLevel)
    decreases |q| - |dir|
  {
    var c := ChildToward(dir, q);
    if IsOpen(t, root, c, maxLevel) && c != q {
      GoneMeaning(t, root, c, q, keep, maxLevel);
    }
  }

  /** It is looked at exactly if everything on its way down is an open directory. */
  lemma {:induction false} ReachedMeaning(t: Tree, root: nat, dir: Path, q: Path, keep: int, maxLevel: int)
    requires IsBelow(dir, q)
    ensures Reached(t, root, dir, q, keep, maxLevel) <==>
      forall j | |dir| < j < |q| :: IsOpen(t, root, q[..j], maxLevel)
    decreases |q| - |dir|
  {
    var c := ChildToward(dir, q);
    if IsOpen(t, root, c, maxLevel) && c != q {
      ReachedMeaning(t, root, c, q, keep, maxLevel);
    }
  }

  /** Is `q` an entry that cleaning `dir` removes itself? */
  predicate Cuts(t: Tree, root: nat, dir: Path, q: Path, keep: int, maxLevel: int)
    requires IsBelow(dir, q)
    decreases |q| - |dir|
  {
    var c := ChildToward(dir, q);
    match Judge(t, c, Level(root, dir), keep, maxLevel)
    case Clean => c == q
    case Spare => false
    case Enter => c != q && Cuts(t, root, c, q, keep, maxLevel)
  }

  /** It is one exactly if it goes and what it stands in stays. */
  lemma {:induction false} CutsMeaning(t: Tree, root: nat, dir: Path, q: Path, keep: int, maxLevel: int)
    requires IsBelow(dir, q)
    ensures Cuts(t, root, dir, q, keep, maxLevel) <==>
      && Gone(t, root, dir, q, keep, maxLevel)
      && (|q| == |dir| + 1 || !Gone(t, root, dir, q[..|q| - 1], keep, maxLevel))
    decreases |q| - |dir|
  {
    var c := ChildToward(dir, q);
    if c != q {
      var parent := q[..|q| - 1];
      assert ChildToward(dir, parent) == c;
      CutsMeaning(t, root, c, q, keep, maxLevel);
    }
  }

  lemma CutsAreCut(t: Tree, root: nat, dir: Path, q: Path, keep: int, maxLevel: int)
    requires WellFormed(t) && IsDir(t, dir) && dir != []
    ensures IsCut(t, Cleaned(t, root, dir, keep, maxLevel), q) <==>
      q in t && IsBelow(dir, q) && Cuts(t, root, dir, q, keep, maxLevel)
  {
    if q in t && IsBelow(dir, q) {
      CutsMeaning(t, root, dir, q, keep, maxLevel);
      AncestorsAreDirs(t, q, |q| - 1);
      if |q| == |dir| + 1 {
        assert q[..|q| - 1] == dir;
      }
    }
  }

  /** Removing one of these entries fails, of those reached through `done`. */
  predicate SticksIn(t: Tree, root: nat, dir: Path, done: set<Path>, keep: int, maxLevel: int, stuck: set<Path>) {
    exists q | q in stuck && q in t && IsBelow(dir, q) ::
      ChildToward(dir, q) in done && Cuts(t, root, dir, q, keep, maxLevel)
  }

  predicate Sticks(t: Tree, root: nat, dir: Path, keep: int, maxLevel: int, stuck: set<Path>) {
    exists q | q in stuck && q in t && IsBelow(dir, q) :: Cuts(t, root, dir, q, keep, maxLevel)
  }

  ghost predicate AgreeWithin(t: Tree, t': Tree, dir: Path) {
    forall q | Within(dir, q) :: (q in t <==> q in t') && (q in t ==> t[q] == t'[q])
  }

  lemma {:induction false} LocalVerdicts(t: Tree, t': Tree, root: nat, dir: Path, q: Path, keep: int, maxLevel: int)
    requires AgreeWithin(t, t', dir) && IsBelow(dir, q)
    ensures Gone(t, root, dir, q, keep, maxLevel) == Gone(t', root, dir, q, keep, maxLevel)
    ensures Reached(t, root, dir, q, keep, maxLevel) == Reached(t', root, dir, q, keep, maxLevel)
    ensures Cuts(t, root, dir, q, keep, maxLevel) == Cuts(t', root, dir, q, keep, maxLevel)
    decreases |q| - |dir|
  {
    var c := ChildToward(dir, q);
    assert Within(dir, c) && Within(dir, c + [STAMP]);
    if c != q {
      LocalVerdicts(t, t', root, c, q, keep, maxLevel);
    }
  }

  /* ---- The recursive method ---- */

  /** The tree after the entries `done` of `dir` have been dealt with. */
  function CleanedSoFar(t: Tree, root: nat, dir: Path, done: set<Path>, keep: int, maxLevel: int): Tree {
    map q | q in t && !(IsBelow(dir, q) && ChildToward(dir, q) in done && Gone(t, root, dir, q, keep, maxLevel)) :: t[q]
  }

  function VisitedSoFar(t: Tree, root: nat, dir: Path, done: set<Path>, keep: int, maxLevel: int): set<Path> {
    set q | q in t && IsBelow(dir, q) && ChildToward(dir, q) in done && Reached(t, root, dir, q, keep, maxLevel)
  }

  /** An entry not dealt with yet is as it was, stamp and all. */
  lemma UntouchedEntry(t: Tree, root: nat, dir: Path, done: set<Path>, c: Path, keep: int, maxLevel: int)
    requires c in Children(t, dir) && c !in done
    ensures AgreeWithin(t, CleanedSoFar(t, root, dir, done, keep, maxLevel), c)
    ensures Judge(CleanedSoFar(t, root, dir, done, keep, maxLevel), c, Level(root, dir), keep, maxLevel) ==
            Judge(t, c, Level(root, dir), keep, maxLevel)
  {
    var now := CleanedSoFar(t, root, dir, done, keep, maxLevel);
    forall q | Within(c, q) ensures (q in t <==> q in now) && (q in t ==> t[q] == now[q]) {
      assert ChildToward(dir, q) == c;
    }
    assert Within(c, c) && Within(c, c + [STAMP]);
  }

  lemma NextTree(t: Tree, root: nat, dir: Path, done: set<Path>, c: Path, keep: int, maxLevel: int)
    requires c in Children(t, dir) && c !in done
    ensures var now := CleanedSoFar(t, root, dir, done, keep, maxLevel);
      var next := CleanedSoFar(t, root, dir, done + {c}, keep, maxLevel);
      match Judge(t, c, Level(root, dir), keep, maxLevel)
      case Clean => next == RemoveAll(now, c)
      case Spare => next == now
      case Enter => next == Cleaned(now, root, c, keep, maxLevel)
  {
    var now := CleanedSoFar(t, root, dir, done, keep, maxLevel);
    UntouchedEntry(t, root, dir, done, c, keep, maxLevel);
    forall q | q in t && IsBelow(dir, q) ensures ChildToward(dir, q) == c <==> Within(c, q) {
    }
    forall q | IsBelow(c, q) ensures Gone(now, root, c, q, keep, maxLevel) == Gone(t, root, c, q, keep, maxLevel) {
      LocalVerdicts(t, now, root, c, q, keep, maxLevel);
    }
  }

  /** What visiting one more entry adds: the entry, and what is visited inside if it is entered. */
  lemma NextVisited(t: Tree, root: nat, dir: Path, done: set<Path>, c: Path, keep: int, maxLevel: int)
    requires c in Children(t, dir) && c !in done
    ensures var inside :=
      if Judge(t, c, Level(root, dir), keep, maxLevel).Enter? then Visited(t, root, c, keep, maxLevel) else {};
      && VisitedSoFar(t, root, dir, done + {c}, keep, maxLevel) ==
        VisitedSoFar(t, root, dir, done, keep, maxLevel) + {c} + inside
      && c !in VisitedSoFar(t, root, dir, done, keep, maxLevel) && c !in inside
      && VisitedSoFar(t, root, dir, done, keep, maxLevel) * inside == {}
  {
    var level := Level(root, dir);
    var inside := if Judge(t, c, level, keep, maxLevel).Enter? then Visited(t, root, c, keep, maxLevel) else {};
    forall q | q in t && IsBelow(dir, q)
      ensures ChildToward(dir, q) == c <==> Within(c, q)
      ensures Within(c, q) ==> (Reached(t, root, dir, q, keep, maxLevel) <==> q == c || q in inside)
    {
    }
  }

  lemma NextCount(t: Tree, root: nat, dir: Path, done: set<Path>, c: Path, keep: int, maxLevel: int)
    requires c in Children(t, dir) && c !in done
    ensures var now := CleanedSoFar(t, root, dir, done, keep, maxLevel);
      |VisitedSoFar(t, root, dir, done + {c}, keep, maxLevel)| ==
      |VisitedSoFar(t, root, dir, done, keep, maxLevel)| + 1 +
      (if Judge(t, c, Level(root, dir), keep, maxLevel).Enter? then |Visited(now, root, c, keep, maxLevel)| else 0)
  {
    var now := CleanedSoFar(t, root, dir, done, keep, maxLevel);
    UntouchedEntry(t, root, dir, done, c, keep, maxLevel);
    forall q | IsBelow(c, q)
      ensures Reached(now, root, c, q, keep, maxLevel) == Reached(t, root, c, q, keep, maxLevel)
    {
      LocalVerdicts(t, now, root, c, q, keep, maxLevel);
    }
    assert Visited(now, root, c, keep, maxLevel) == Visited(t, root, c, keep, maxLevel);
    NextVisited(t, root, dir, done, c, keep, maxLevel);
  }

  /** Whether the next entry makes the cleaning fail. */
  lemma NextSticks(t: Tree, root: nat, dir: Path, done: set<Path>, c: Path, keep: int, maxLevel: int, stuck: set<Path>)
    requires c in Children(t, dir) && c !in done
    ensures var now := CleanedSoFar(t, root, dir, done, keep, maxLevel);
      SticksIn(t, root, dir, {c}, keep, maxLevel, stuck) <==>
        match Judge(t, c, Level(root, dir), keep, maxLevel)
        case Clean => c in stuck
        case Spare => false
        case Enter => Sticks(now, root, c, keep, maxLevel, stuck)
  {
    var now := CleanedSoFar(t, root, dir, done, keep, maxLevel);
    UntouchedEntry(t, root, dir, done, c, keep, maxLevel);
    forall q | IsBelow(c, q)
      ensures Cuts(now, root, c, q, keep, maxLevel) == Cuts(t, root, c, q, keep, maxLevel)
      ensures q in t <==> q in now
    {
      LocalVerdicts(t, now, root, c, q, keep, maxLevel);
    }
    forall q | q in t && IsBelow(dir, q) ensures ChildToward(dir, q) == c <==> Within(c, q) {
    }
  }

  lemma SticksTogether(t: Tree, root: nat, dir: Path, done: set<Path>, c: Path, keep: int, maxLevel: int,
                       stuck: set<Path>)
    ensures SticksIn(t, root, dir, done + {c}, keep, maxLevel, stuck) <==>
      SticksIn(t, root, dir, done, keep, maxLevel, stuck) || SticksIn(t, root, dir, {c}, keep, maxLevel, stuck)
  {
  }

  lemma SticksAtLast(t: Tree, root: nat, dir: Path, keep: int, maxLevel: int, stuck: set<Path>)
    requires WellFormed(t)
    ensures SticksIn(t, root, dir, Children(t, dir), keep, maxLevel, stuck) <==>
      Sticks(t, root, dir, keep, maxLevel, stuck)
    ensures !SticksIn(t, root, dir, {}, keep, maxLevel, stuck)
  {
    forall q | q in t && IsBelow(dir, q) ensures ChildToward(dir, q) in Children(t, dir) {
      AncestorsAreDirs(t, q, |dir| + 1);
    }
  }

  lemma NothingSticks(t: Tree, root: nat, dir: Path, keep: int, maxLevel: int, stuck: set<Path>)
    requires WellFormed(t) && dir != [] && !IsDir(t, dir)
    ensures !Sticks(t, root, dir, keep, maxLevel, stuck)
  {
    forall q | q in t ensures !IsBelow(dir, q) {
      assert IsBelow(dir, q) ==> q[..|dir|] == dir;
      if |dir| < |q| {
        AncestorsAreDirs(t, q, |dir|);
      }
    }
  }

  lemma NothingDone(t: Tree, root: nat, dir: Path, keep: int, maxLevel: int)
    ensures CleanedSoFar(t, root, dir, {}, keep, maxLevel) == t
    ensures VisitedSoFar(t, root, dir, {}, keep, maxLevel) == {}
  {
  }

  lemma AllDone(t: Tree, root: nat, dir: Path, keep: int, maxLevel: int)
    requires WellFormed(t)
    ensures CleanedSoFar(t, root, dir, Children(t, dir), keep, maxLevel) == Cleaned(t, root, dir, keep, maxLevel)
    ensures VisitedSoFar(t, root, dir, Children(t, dir), keep, maxLevel) == Visited(t, root, dir, keep, maxLevel)
  {
    forall q | q in t && IsBelow(dir, q) ensures ChildToward(dir, q) in Children(t, dir) {
      AncestorsAreDirs(t, q, |dir| + 1);
    }
  }

  lemma NothingBelow(t: Tree, root: nat, dir: Path, keep: int, maxLevel: int)
    requires WellFormed(t) && dir != [] && !IsDir(t, dir)
    ensures Cleaned(t, root, dir, keep, maxLevel) == t && Visited(t, root, dir, keep, maxLevel) == {}
  {
    forall q | q in t ensures !IsBelow(dir, q) {
      assert IsBelow(dir, q) ==> q[..|dir|] == dir;
      if |dir| < |q| {
        AncestorsAreDirs(t, q, |dir|);
      }
    }
  }

  /** A file stands where the path of a directory leads: reading it is an error other than "not found". */
  predicate Blocked(t: Tree, dir: Path) {
    exists k | 0 < k <= |dir| :: dir[..k] in t && t[dir[..k]].File?
  }

  lemma DirsAreNotBlocked(t: Tree, dir: Path)
    requires WellFormed(t) && dir != [] && IsDir(t, dir)
    ensures !Blocked(t, dir)
  {
    forall k | 0 < k <= |dir| ensures dir[..k] in t && t[dir[..k]].Dir? {
      AncestorsAreDirs(t, dir, k);
      assert k == |dir| ==> dir[..k] == dir;
    }
  }

  /** Cleans `dir`; removing a path in `stuck` fails and ends the cleaning, which otherwise succeeds.
      The tree is then the filtered one and the result the number of entries looked at. A cleaning
      that fails has removed nothing it should not have. Recursion ends at the level bound. */
  method CleanupNotRecentlyUsed(fs: FileSystem, root: nat, dir: Path, keep: int, maxLevel: int, stuck: set<Path>)
    returns (count: nat, ok: bool)
    requires WellFormed(fs.tree) && root < |dir|
    modifies fs
    ensures WellFormed(fs.tree)
    ensures ok ==> fs.tree == Cleaned(old(fs.tree), root, dir, keep, maxLevel)
    ensures ok ==> count == |Visited(old(fs.tree), root, dir, keep, maxLevel)|
    ensures !ok ==> Cleaned(old(fs.tree), root, dir, keep, maxLevel).Items <= fs.tree.Items <= old(fs.tree).Items
    ensures ok <==> !Blocked(old(fs.tree), dir) && !Sticks(old(fs.tree), root, dir, keep, maxLevel, stuck)
    decreases maxLevel - Level(root, dir), 2
  {
    ghost var t := fs.tree;
    count := 0;
    if !IsDir(fs.tree, dir) {
      NothingBelow(t, root, dir, keep, maxLevel);
      NothingSticks(t, root, dir, keep, maxLevel, stuck);
      return 0, !Blocked(fs.tree, dir);
    }
    DirsAreNotBlocked(t, dir);
    var entries := fs.ReadDir(dir);
    NothingDone(t, root, dir, keep, maxLevel);
    count, ok := CleanEntries(fs, root, dir, entries, keep, maxLevel, stuck, t);
    AllDone(t, root, dir, keep, maxLevel);
  }

  /** The state between two turns of the loop over the entries. */
  ghost predicate SoFar(t: Tree, root: nat, dir: Path, done: set<Path>, keep: int, maxLevel: int, now: Tree,
                        count: int)
  {
    && WellFormed(now)
    && now == CleanedSoFar(t, root, dir, done, keep, maxLevel)
    && count == |VisitedSoFar(t, root, dir, done, keep, maxLevel)|
  }

  ghost predicate NotTooMuch(t: Tree, root: nat, dir: Path, keep: int, maxLevel: int, now: Tree) {
    WellFormed(now) && Cleaned(t, root, dir, keep, maxLevel).Items <= now.Items <= t.Items
  }

  /** The loop over the entries of one directory. */
  method CleanEntries(fs: FileSystem, root: nat, dir: Path, entries: seq<Path>, keep: int, maxLevel: int,
                      stuck: set<Path>, ghost t: Tree)
    returns (count: nat, ok: bool)
    requires fs.tree == t && SoFar(t, root, dir, {}, keep, maxLevel, t, 0) && root < |dir|
    requires IsListing(entries, t, dir)
    modifies fs
    ensures ok ==> SoFar(t, root, dir, Children(t, dir), keep, maxLevel, fs.tree, count)
    ensures !ok ==> NotTooMuch(t, root, dir, keep, maxLevel, fs.tree)
    ensures ok <==> !Sticks(t, root, dir, keep, maxLevel, stuck)
    decreases maxLevel - Level(root, dir), 1
  {
    count := 0;
    NoneAndAllOf(entries, t, dir);
    SticksAtLast(t, root, dir, keep, maxLevel, stuck);
    for i := 0 to |entries|
      invariant !SticksIn(t, root, dir, FirstOf(entries, i), keep, maxLevel, stuck)
      invariant SoFar(t, root, dir, FirstOf(entries, i), keep, maxLevel, fs.tree, count)
    {
      NextOf(entries, t, dir, i);
      ghost var done := FirstOf(entries, i);
      SticksTogether(t, root, dir, done, entries[i], keep, maxLevel, stuck);
      var visited, cleaned := CleanEntry(fs, root, dir, entries[i], keep, maxLevel, stuck, t, done, count);
      count := count + visited;
      if !cleaned {
        assert Sticks(t, root, dir, keep, maxLevel, stuck);
        return count, false;
      }
    }
    return count, true;
  }

  /** The body of the loop: one entry of `dir` is removed, entered or spared. */
  method CleanEntry(fs: FileSystem, root: nat, dir: Path, c: Path, keep: int, maxLevel: int, stuck: set<Path>,
                    ghost t: Tree, ghost done: set<Path>, ghost count: nat)
    returns (visited: nat, ok: bool)
    requires root < |dir| && c in Children(t, dir) && c !in done
    requires SoFar(t, root, dir, done, keep, maxLevel, fs.tree, count)
    modifies fs
    ensures ok ==> SoFar(t, root, dir, done + {c}, keep, maxLevel, fs.tree, count + visited)
    ensures !ok ==> NotTooMuch(t, root, dir, keep, maxLevel, fs.tree)
    ensures ok <==> !SticksIn(t, root, dir, {c}, keep, maxLevel, stuck)
    decreases maxLevel - Level(root, dir), 0
  {
    UntouchedEntry(t, root, dir, done, c, keep, maxLevel);
    NextTree(t, root, dir, done, c, keep, maxLevel);
    NextSticks(t, root, dir, done, c, keep, maxLevel, stuck);
    NextCount(t, root, dir, done, c, keep, maxLevel);
    NeverTooMuch(t, root, dir, done, keep, maxLevel);
    NeverTooMuch(t, root, dir, done + {c}, keep, maxLevel);
    var clean, enter := false, false;
    if IsDir(fs.tree, c) {
      if c + [STAMP] !in fs.tree {
        if Level(root, dir) < maxLevel {
          enter := true;
        } else {
          clean := true;
        }
      } else {
        clean := fs.tree[c + [STAMP]].mtime < keep;
      }
    } else {
      clean := true;
    }
    visited, ok := 1, true;
    if clean {
      if c in stuck {
        return 1, false;
      }
      RemoveKeepsTree(fs.tree, c);
      fs.Remove(c);
    } else if enter {
      DirsAreNotBlocked(fs.tree, c);
      var enterCount, entered := CleanupNotRecentlyUsed(fs, root, c, keep, maxLevel, stuck);
      visited, ok := 1 + enterCount, entered;
    }
  }

  lemma RemoveKeepsTree(t: Tree, p: Path)
    requires WellFormed(t)
    ensures WellFormed(RemoveAll(t, p))
  {
    forall q | q in t && |q| > 1 ensures Within(p, q[..|q| - 1]) ==> Within(p, q) {
    }
  }

  lemma NeverTooMuch(t: Tree, root: nat, dir: Path, done: set<Path>, keep: int, maxLevel: int)
    ensures var soFar := CleanedSoFar(t, root, dir, done, keep, maxLevel);
      Cleaned(t, root, dir, keep, maxLevel).Items <= soFar.Items <= t.Items
  {
  }

  /* ---- Cleaning again ---- */

  /** Whatever survives keeps its ancestors, and with it its directory's stamp. */
  lemma {:induction false} SurvivorVerdicts(t: Tree, root: nat, dir: Path, q: Path, keep1: int, keep2: int,
                                            maxLevel: int)
    requires WellFormed(t) && IsBelow(dir, q) && keep1 <= keep2
    requires q in t
    ensures Gone(t, root, dir, q, keep1, maxLevel) ==> Gone(t, root, dir, q, keep2, maxLevel)
    decreases |q| - |dir|
  {
    var c := ChildToward(dir, q);
    if c != q && Judge(t, c, Level(root, dir), keep1, maxLevel).Enter? {
      SurvivorVerdicts(t, root, c, q, keep1, keep2, maxLevel);
    }
  }

  /** `Within` a surviving entry's way down, the cleaned tree shows the same verdicts. */
  lemma {:induction false} SameVerdictsAfter(t: Tree, t': Tree, root: nat, dir: Path, q: Path, keep1: int, keep2: int,
                                             maxLevel: int)
    requires WellFormed(t) && IsBelow(dir, q) && q in t && keep1 <= keep2
    requires forall p | p in t' :: p in t && t'[p] == t[p]
    requires forall p | p in t && IsBelow(dir, p) :: p in t' <==> !Gone(t, root, dir, p, keep1, maxLevel)
    requires !Gone(t, root, dir, q, keep1, maxLevel)
    ensures Gone(t', root, dir, q, keep2, maxLevel) == Gone(t, root, dir, q, keep2, maxLevel)
    decreases |q| - |dir|
  {
    var c := ChildToward(dir, q);
    var stamp := c + [STAMP];
    AncestorsAreDirs(t, q, |c|);
    assert c in t && ChildToward(dir, c) == c && ChildToward(dir, stamp) == c;
    assert c in t';
    assert stamp in t ==> stamp in t';
    if c != q && Judge(t, c, Level(root, dir), keep1, maxLevel).Enter? {
      forall p | p in t && IsBelow(c, p) ensures p in t' <==> !Gone(t, root, c, p, keep1, maxLevel) {
        assert ChildToward(dir, p) == c;
      }
      SameVerdictsAfter(t, t', root, c, q, keep1, keep2, maxLevel);
    }
  }

  /** Cleaning with one date and then with a later one is cleaning with the later one. */
  lemma CleanComposes(t: Tree, root: nat, dir: Path, keep1: int, keep2: int, maxLevel: int)
    requires WellFormed(t) && keep1 <= keep2
    ensures Cleaned(Cleaned(t, root, dir, keep1, maxLevel), root, dir, keep2, maxLevel) ==
      Cleaned(t, root, dir, keep2, maxLevel)
  {
    var t' := Cleaned(t, root, dir, keep1, maxLevel);
    forall q | q in t && IsBelow(dir, q)
      ensures Gone(t, root, dir, q, keep1, maxLevel) ==> Gone(t, root, dir, q, keep2, maxLevel)
      ensures q in t' ==> Gone(t', root, dir, q, keep2, maxLevel) == Gone(t, root, dir, q, keep2, maxLevel)
    {
      SurvivorVerdicts(t, root, dir, q, keep1, keep2, maxLevel);
      if q in t' {
        SameVerdictsAfter(t, t', root, dir, q, keep1, keep2, maxLevel);
      }
    }
  }

  /** A directory that stays keeps its stamp. */
  lemma {:induction false} StampStays(t: Tree, root: nat, dir: Path, p: Path, keep: int, maxLevel: int)
    requires WellFormed(t) && IsBelow(dir, p) && p in t && t[p].Dir? && p + [STAMP] in t
    requires !Gone(t, root, dir, p, keep, maxLevel)
    ensures !Gone(t, root, dir, p + [STAMP], keep, maxLevel)
    decreases |p| - |dir|
  {
    var c := ChildToward(dir, p);
    assert ChildToward(dir, p + [STAMP]) == c;
    if c != p && Judge(t, c, Level(root, dir), keep, maxLevel).Enter? {
      StampStays(t, root, c, p, keep, maxLevel);
    }
  }
}
