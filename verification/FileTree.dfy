/** A directory tree as a map from paths to entries, with the listing and removal the workspace
    cleanup uses. A path is the sequence of its names; the root itself is not in the map. */
module FileTree {

  type Path = seq<string>

  datatype Entry = File(mtime: int) | Dir(mtime: int)

  type Tree = map<Path, Entry>

  /** Every entry below the root sits in a directory of the tree. */
  ghost predicate WellFormed(t: Tree) {
    forall p | p in t :: p != [] && (|p| > 1 ==> p[..|p| - 1] in t && t[p[..|p| - 1]].Dir?)
  }

  predicate IsDir(t: Tree, p: Path) {
    p == [] || (p in t && t[p].Dir?)
  }

  /** `q` is `p` or lies below it. */
  predicate Within(p: Path, q: Path) {
    p <= q
  }

  /** The entry of directory `dir` that `q`, which lies below it, is or is found under. */
  function ChildToward(dir: Path, q: Path): Path
    requires Within(dir, q) && |dir| < |q|
  {
    q[..|dir| + 1]
  }

  predicate IsBelow(dir: Path, q: Path) {
    Within(dir, q) && |dir| < |q|
  }

  function Children(t: Tree, dir: Path): set<Path> {
    set q | q in t && IsBelow(dir, q) && |q| == |dir| + 1
  }

  function RemoveAll(t: Tree, p: Path): Tree {
    map q | q in t && !Within(p, q) :: t[q]
  }

  /** Where `left` is what a cleaning of `t` leaves: `q` goes and what it stands in stays. These are the
      entries the cleaning removes itself; what is below them goes along. */
  predicate IsCut(t: Tree, left: Tree, q: Path) {
    q in t && q !in left && (|q| <= 1 || q[..|q| - 1] in left)
  }

  /** One cleaning after the other. */
  lemma CutsTogether(t: Tree, mid: Tree, left: Tree, q: Path)
    requires left.Items <= mid.Items <= t.Items
    requires IsCut(t, mid, q) && |q| > 1 ==> q[..|q| - 1] in left
    ensures IsCut(t, left, q) <==> IsCut(t, mid, q) || IsCut(mid, left, q)
  {
    assert forall p | p in left :: (p, left[p]) in left.Items && (p, left[p]) in mid.Items;
    assert forall p | p in mid :: (p, mid[p]) in mid.Items && (p, mid[p]) in t.Items;
  }

  /** Some depth no path of the tree exceeds. */
  ghost predicate DepthBound(t: Tree, bound: nat) {
    forall q | q in t :: |q| <= bound
  }

  lemma {:induction false} DepthBoundExists(t: Tree)
    ensures exists bound :: DepthBound(t, bound)
    decreases |t|
  {
    if t.Keys == {} {
      assert DepthBound(t, 0);
    } else {
      var p :| p in t;
      var rest := t - {p};
      assert |rest| < |t| by {
        assert rest.Keys == t.Keys - {p};
      }
      DepthBoundExists(rest);
      var b: nat :| DepthBound(rest, b);
      assert DepthBound(t, if |p| < b then b else |p|);
    }
  }

  /** All ancestors of an entry are directories of the tree. */
  lemma {:induction false} AncestorsAreDirs(t: Tree, q: Path, k: nat)
    requires WellFormed(t) && q in t && 0 < k <= |q|
    ensures q[..k] in t && (k < |q| ==> t[q[..k]].Dir?)
    decreases |q|
  {
    if k < |q| {
      var parent := q[..|q| - 1];
      AncestorsAreDirs(t, parent, k);
      assert parent[..k] == q[..k];
    } else {
      assert q[..k] == q;
    }
  }

  /** `entries` are the entries of a directory, each once. */
  ghost predicate IsListing(entries: seq<Path>, t: Tree, dir: Path) {
    && (forall p :: p in entries <==> p in Children(t, dir))
    && (forall i, j | 0 <= i < j < |entries| :: entries[i] != entries[j])
  }

  function FirstOf(entries: seq<Path>, n: nat): set<Path>
    requires n <= |entries|
  {
    set p | p in entries[..n]
  }

  lemma NextOf(entries: seq<Path>, t: Tree, dir: Path, n: nat)
    requires IsListing(entries, t, dir) && n < |entries|
    ensures entries[n] in Children(t, dir) && entries[n] !in FirstOf(entries, n)
    ensures FirstOf(entries, n + 1) == FirstOf(entries, n) + {entries[n]}
  {
    assert entries[n] in entries && entries[..n + 1] == entries[..n] + [entries[n]];
  }

  lemma NoneAndAllOf(entries: seq<Path>, t: Tree, dir: Path)
    requires IsListing(entries, t, dir)
    ensures FirstOf(entries, 0) == {} && FirstOf(entries, |entries|) == Children(t, dir)
  {
    assert entries[..|entries|] == entries;
  }

  class FileSystem {
    var tree: Tree

    constructor (tree: Tree)
      ensures this.tree == tree
    {
      this.tree := tree;
    }

    /** Whatever order the entries come in makes no difference below. */
    method ReadDir(dir: Path) returns (entries: seq<Path>)
      ensures IsListing(entries, tree, dir)
    {
      entries := [];
      var todo := Children(tree, dir);
      while todo != {}
        invariant todo <= Children(tree, dir)
        invariant forall p :: p in entries <==> p in Children(tree, dir) - todo
        invariant forall i, j | 0 <= i < j < |entries| :: entries[i] != entries[j]
        decreases todo
      {
        var p :| p in todo;
        assert p !in entries;
        entries := entries + [p];
        todo := todo - {p};
      }
    }

    method Remove(p: Path)
      modifies this
      ensures tree == RemoveAll(old(tree), p)
    {
      tree := RemoveAll(tree, p);
    }
  }
}
