/** The pruner (internal/manager/prune.go): what is protected, what is deleted and how, and what is
    left. A deleted pipeline takes all its runs with it. */
module Pruning {
  import opened PipelineRuns
  import opened QueueProtocol
  import opened TektonStore

  /* ---- The number of runs a stage keeps ---- */

  function Min(a: int, b: int): int {
    if a < b then a else b
  }

  function Max(a: int, b: int): int {
    if a < b then b else a
  }

  function Bucket(store: Store, repo: string, stage: string): set<string> {
    set n | n in store && store[n].repo == repo && store[n].stage == stage
  }

  function Newer(store: Store, names: set<string>, t: int): set<string>
    requires names <= store.Keys
  {
    set n | n in names && store[n].created > t
  }

  /** Promised number of survivors among `names`: everything newer than the cutoff, and at least
      MaxKeepRuns if there are that many. */
  function KeepCount(store: Store, names: set<string>, cutoff: int, maxKeep: int): nat
    requires names <= store.Keys
  {
    Max(|Newer(store, names, cutoff)|, Min(maxKeep, |names|))
  }

  /** `keep` is a newest part of `names`: nothing left out is newer than anything kept. */
  ghost predicate IsNewestPart(store: Store, names: set<string>, keep: set<string>)
    requires names <= store.Keys
  {
    && keep <= names
    && forall k, m | k in keep && m in names && m !in keep :: store[m].created <= store[k].created
  }

  /** `keep` holds, of every stage of `repo`, as many runs as promised, and the newest. */
  ghost predicate IsProtected(store: Store, repo: string, cutoff: int, maxKeep: int, keep: set<string>) {
    && (forall n | n in keep :: n in store && store[n].repo == repo)
    && forall stage :: IsProtectedIn(store, repo, stage, cutoff, maxKeep, keep)
  }

  ghost predicate IsProtectedIn(store: Store, repo: string, stage: string, cutoff: int, maxKeep: int,
                                keep: set<string>)
  {
    var bucket := Bucket(store, repo, stage);
    IsNewestPart(store, bucket, keep * bucket) && |keep * bucket| == KeepCount(store, bucket, cutoff, maxKeep)
  }

  /* ---- The loops on one bucket ---- */

  /** Names of the runs in `items`. */
  function Names(items: seq<Item>): set<string> {
    set i | 0 <= i < |items| :: items[i].name
  }

  function Pipelines(items: seq<Item>): set<string> {
    set i | 0 <= i < |items| :: items[i].run.pipeline
  }

  function NewerCount(items: seq<Item>, cutoff: int): nat {
    if items == [] then 0
    else NewerCount(items[..|items| - 1], cutoff) + if items[|items| - 1].run.created > cutoff then 1 else 0
  }

  /** Length of the protected prefix of a sorted bucket. */
  function ProtectedLength(items: seq<Item>, cutoff: int, maxKeep: int): (k: nat)
  {
    Max(NewerCount(items, cutoff), Min(maxKeep, |items|))
  }

  lemma {:induction false} NewerCountBound(items: seq<Item>, cutoff: int)
    ensures NewerCount(items, cutoff) <= |items|
    ensures Descending(items) ==> forall i | 0 <= i < |items| ::
      items[i].run.created > cutoff <==> i < NewerCount(items, cutoff)
  {
    if items != [] {
      var init := items[..|items| - 1];
      NewerCountBound(init, cutoff);
      if Descending(items) {
        assert forall i | 0 <= i < |init| :: items[i] == init[i];
        if NewerCount(init, cutoff) < |init| {
          assert init[|init| - 1].run.created <= cutoff;
        }
      }
    }
  }

  /** The test on one run, given how many are protected before it, tells whether it is in the prefix. */
  lemma ProtectedTest(items: seq<Item>, cutoff: int, maxKeep: int, i: nat)
    requires Descending(items) && i < |items|
    ensures var k := ProtectedLength(items, cutoff, maxKeep);
      k <= |items| && (items[i].run.created > cutoff || Min(i, k) < maxKeep <==> i < k)
  {
    NewerCountBound(items, cutoff);
  }

  lemma SplitNext(items: seq<Item>, i: nat, k: nat)
    requires i < |items| && k <= |items|
    ensures if i < k then items[..i + 1] == items[..i] + [items[i]]
            else items[k..i + 1] == items[k..i] + [items[i]]
  {
  }

  /** Splits a sorted bucket: the protected runs are exactly its prefix of ProtectedLength. */
  method Categorize(items: seq<Item>, cutoff: int, maxKeep: int) returns (kept: seq<Item>, prunable: seq<Item>)
    requires Descending(items)
    ensures var k := ProtectedLength(items, cutoff, maxKeep);
      k <= |items| && kept == items[..k] && prunable == items[k..]
  {
    kept, prunable := [], [];
    NewerCountBound(items, cutoff);
    var k := ProtectedLength(items, cutoff, maxKeep);
    for i := 0 to |items|
      invariant kept == items[..Min(i, k)]
      invariant prunable == items[Min(i, k)..i]
    {
      ProtectedTest(items, cutoff, maxKeep, i);
      SplitNext(items, i, k);
      if items[i].run.created > cutoff || |kept| < maxKeep {
        kept := kept + [items[i]];
      } else {
        prunable := prunable + [items[i]];
      }
    }
  }

  method PipelineIsProtected(pipeline: string, kept: seq<Item>) returns (found: bool)
    ensures found <==> pipeline in Pipelines(kept)
  {
    for i := 0 to |kept|
      invariant forall j | 0 <= j < i :: kept[j].run.pipeline != pipeline
    {
      if kept[i].run.pipeline == pipeline {
        return true;
      }
    }
    return false;
  }

  /** The entries of `s` without those that occurred before. */
  function FirstOccurrences(s: seq<string>): seq<string> {
    if s == [] then []
    else
      var init, last := s[..|s| - 1], s[|s| - 1];
      if last in init then FirstOccurrences(init) else FirstOccurrences(init) + [last]
  }

  method Unique(s: seq<string>) returns (list: seq<string>)
    ensures list == FirstOccurrences(s)
  {
    var keys: set<string> := {};
    list := [];
    for i := 0 to |s|
      invariant forall x :: x in keys <==> x in s[..i]
      invariant list == FirstOccurrences(s[..i])
    {
      assert s[..i + 1][..i] == s[..i];
      if s[i] !in keys {
        keys := keys + {s[i]};
        list := list + [s[i]];
      }
    }
    assert s[..|s|] == s;
  }

  /** Position of the first occurrence. */
  function IndexOf(s: seq<string>, x: string): (i: nat)
    requires x in s
    ensures i < |s| && s[i] == x && forall j | 0 <= j < i :: s[j] != x
  {
    if s[0] == x then 0 else 1 + IndexOf(s[1..], x)
  }

  /** Same entries, no duplicates, and in the order of their first occurrences. */
  lemma {:induction false} FirstOccurrencesMeaning(s: seq<string>)
    ensures forall x :: x in FirstOccurrences(s) <==> x in s
    ensures forall i, j | 0 <= i < j < |FirstOccurrences(s)| ::
      && FirstOccurrences(s)[i] in s && FirstOccurrences(s)[j] in s
      && IndexOf(s, FirstOccurrences(s)[i]) < IndexOf(s, FirstOccurrences(s)[j])
  {
    if s != [] {
      var init, last := s[..|s| - 1], s[|s| - 1];
      assert s == init + [last];
      FirstOccurrencesMeaning(init);
      forall x | x in init ensures IndexOf(s, x) == IndexOf(init, x) {
        IndexIsUnique(s, x, IndexOf(init, x));
      }
      if last !in init {
        IndexIsUnique(s, last, |init|);
      }
    }
  }

  lemma IndexIsUnique(s: seq<string>, x: string, i: nat)
    requires i < |s| && s[i] == x && forall j | 0 <= j < i :: s[j] != x
    ensures IndexOf(s, x) == i
  {
    var k := IndexOf(s, x);
    assert !(k < i) && !(i < k);
  }

  /** The runs of `prunable` that go by their own name, since a kept run shares their pipeline. */
  function RunsToName(prunable: seq<Item>, kept: seq<Item>): seq<string> {
    if prunable == [] then []
    else
      var init, last := prunable[..|prunable| - 1], prunable[|prunable| - 1];
      RunsToName(init, kept) + if last.run.pipeline in Pipelines(kept) then [last.name] else []
  }

  /** The pipelines of the others, one entry a run. */
  function PipelinesToName(prunable: seq<Item>, kept: seq<Item>): seq<string> {
    if prunable == [] then []
    else
      var init, last := prunable[..|prunable| - 1], prunable[|prunable| - 1];
      PipelinesToName(init, kept) + if last.run.pipeline in Pipelines(kept) then [] else [last.run.pipeline]
  }

  lemma {:induction false} NamedOnce(prunable: seq<Item>, kept: seq<Item>)
    ensures forall x :: x in RunsToName(prunable, kept) <==>
      exists j | 0 <= j < |prunable| :: prunable[j].name == x && prunable[j].run.pipeline in Pipelines(kept)
    ensures forall x :: x in PipelinesToName(prunable, kept) <==> x !in Pipelines(kept) && x in Pipelines(prunable)
  {
    if prunable != [] {
      var init, last := prunable[..|prunable| - 1], prunable[|prunable| - 1];
      NamedOnce(init, kept);
      assert prunable == init + [last];
      assert Pipelines(prunable) == Pipelines(init) + {last.run.pipeline};
    }
  }

  /** What findPrunableResources answers for a bucket sorted as `sorted`: every prunable run by its own
      name if its pipeline owns a protected run, else by its pipeline, in the order of the bucket and
      without repetitions. */
  ghost predicate IsPrunable(sorted: seq<Item>, cutoff: int, maxKeep: int, runs: seq<string>, pipelines: seq<string>) {
    var k := ProtectedLength(sorted, cutoff, maxKeep);
    && k <= |sorted|
    && runs == FirstOccurrences(RunsToName(sorted[k..], sorted[..k]))
    && pipelines == FirstOccurrences(PipelinesToName(sorted[k..], sorted[..k]))
  }

  /** The answer as sets, in terms of the sorted bucket. */
  lemma PrunableMeaning(sorted: seq<Item>, cutoff: int, maxKeep: int, runs: seq<string>, pipelines: seq<string>)
    requires IsPrunable(sorted, cutoff, maxKeep, runs, pipelines)
    ensures var k := ProtectedLength(sorted, cutoff, maxKeep);
      && (forall x :: x in runs <==>
            exists i | k <= i < |sorted| :: sorted[i].name == x && sorted[i].run.pipeline in Pipelines(sorted[..k]))
      && (forall x :: x in pipelines <==> x !in Pipelines(sorted[..k]) && x in Pipelines(sorted[k..]))
  {
    var k := ProtectedLength(sorted, cutoff, maxKeep);
    var kept, prunable := sorted[..k], sorted[k..];
    NamedOnce(prunable, kept);
    FirstOccurrencesMeaning(RunsToName(prunable, kept));
    FirstOccurrencesMeaning(PipelinesToName(prunable, kept));
    assert forall i | k <= i < |sorted| :: sorted[i] == prunable[i - k];
    assert forall j | 0 <= j < |prunable| :: prunable[j] == sorted[j + k];
  }

  /** The places in `prunable` of the runs that go by their own name, or of the others. */
  function Places(prunable: seq<Item>, kept: seq<Item>, byName: bool): (places: seq<nat>)
    ensures forall i | 0 <= i < |places| :: places[i] < |prunable|
  {
    if prunable == [] then []
    else
      var n := |prunable| - 1;
      Places(prunable[..n], kept, byName) + if (prunable[n].run.pipeline in Pipelines(kept)) == byName then [n] else []
  }

  lemma {:induction false} PlacesMeaning(prunable: seq<Item>, kept: seq<Item>, byName: bool)
    ensures var places := Places(prunable, kept, byName);
      && (forall i, j | 0 <= i < j < |places| :: places[i] < places[j])
      && (forall n: nat | n < |prunable| :: n in places <==> (prunable[n].run.pipeline in Pipelines(kept)) == byName)
  {
    if prunable != [] {
      var init := prunable[..|prunable| - 1];
      PlacesMeaning(init, kept, byName);
      var places := Places(init, kept, byName);
      assert |init| !in places;
    }
  }

  lemma {:induction false} NamedInPlaces(prunable: seq<Item>, kept: seq<Item>)
    ensures var places, runs := Places(prunable, kept, true), RunsToName(prunable, kept);
      |runs| == |places| && forall i | 0 <= i < |places| :: runs[i] == prunable[places[i]].name
    ensures var places, pipelines := Places(prunable, kept, false), PipelinesToName(prunable, kept);
      |pipelines| == |places| && forall i | 0 <= i < |places| :: pipelines[i] == prunable[places[i]].run.pipeline
  {
    if prunable != [] {
      var init := prunable[..|prunable| - 1];
      NamedInPlaces(init, kept);
    }
  }

  /** A run with an earlier entry comes before every run with a later one. */
  ghost predicate NamesInOrder(sorted: seq<Item>, k: nat, runs: seq<string>)
    requires k <= |sorted|
  {
    forall i, j, q | 0 <= i < j < |runs| && k <= q < |sorted| ::
      sorted[q].name == runs[j] && sorted[q].run.pipeline in Pipelines(sorted[..k]) ==>
      exists p | k <= p < q :: sorted[p].name == runs[i]
  }

  ghost predicate PipelinesInOrder(sorted: seq<Item>, k: nat, pipelines: seq<string>)
    requires k <= |sorted|
  {
    forall i, j, q | 0 <= i < j < |pipelines| && k <= q < |sorted| ::
      sorted[q].run.pipeline == pipelines[j] ==>
      exists p | k <= p < q :: sorted[p].run.pipeline == pipelines[i]
  }

  /** Both answers are in the order of the bucket. */
  lemma PrunableOrder(sorted: seq<Item>, cutoff: int, maxKeep: int, runs: seq<string>, pipelines: seq<string>)
    requires IsPrunable(sorted, cutoff, maxKeep, runs, pipelines)
    ensures NamesInOrder(sorted, ProtectedLength(sorted, cutoff, maxKeep), runs)
    ensures PipelinesInOrder(sorted, ProtectedLength(sorted, cutoff, maxKeep), pipelines)
  {
    var k := ProtectedLength(sorted, cutoff, maxKeep);
    RunsInOrder(sorted, k, runs);
    PrunableMeaning(sorted, cutoff, maxKeep, runs, pipelines);
    forall i, j, q | 0 <= i < j < |pipelines| && k <= q < |sorted| && sorted[q].run.pipeline == pipelines[j]
      ensures exists p | k <= p < q :: sorted[p].run.pipeline == pipelines[i]
    {
      assert pipelines[j] in pipelines;
      var p := EarlierPipeline(sorted[k..], sorted[..k], i, j, q - k);
      assert sorted[k + p].run.pipeline == pipelines[i];
    }
  }

  lemma RunsInOrder(sorted: seq<Item>, k: nat, runs: seq<string>)
    requires k <= |sorted| && runs == FirstOccurrences(RunsToName(sorted[k..], sorted[..k]))
    ensures NamesInOrder(sorted, k, runs)
  {
    forall i, j, q | 0 <= i < j < |runs| && k <= q < |sorted| && sorted[q].name == runs[j]
                     && sorted[q].run.pipeline in Pipelines(sorted[..k])
      ensures exists p | k <= p < q :: sorted[p].name == runs[i]
    {
      var p := EarlierRun(sorted[k..], sorted[..k], i, j, q - k);
      assert sorted[k + p].name == runs[i];
    }
  }

  lemma EarlierRun(prunable: seq<Item>, kept: seq<Item>, i: nat, j: nat, q: nat) returns (p: nat)
    requires i < j < |FirstOccurrences(RunsToName(prunable, kept))| && q < |prunable|
    requires prunable[q].name == FirstOccurrences(RunsToName(prunable, kept))[j]
    requires prunable[q].run.pipeline in Pipelines(kept)
    ensures p < q && prunable[p].name == FirstOccurrences(RunsToName(prunable, kept))[i]
  {
    var all, places := RunsToName(prunable, kept), Places(prunable, kept, true);
    FirstOccurrencesMeaning(all);
    PlacesMeaning(prunable, kept, true);
    NamedInPlaces(prunable, kept);
    assert q in places;
    var b :| 0 <= b < |places| && places[b] == q;
    var first := FirstOccurrences(all);
    var a := IndexOf(all, first[i]);
    assert a < IndexOf(all, first[j]) <= b by {
      assert all[b] == first[j];
    }
    p := places[a];
  }

  lemma EarlierPipeline(prunable: seq<Item>, kept: seq<Item>, i: nat, j: nat, q: nat) returns (p: nat)
    requires i < j < |FirstOccurrences(PipelinesToName(prunable, kept))| && q < |prunable|
    requires prunable[q].run.pipeline == FirstOccurrences(PipelinesToName(prunable, kept))[j]
    requires prunable[q].run.pipeline !in Pipelines(kept)
    ensures p < q && prunable[p].run.pipeline == FirstOccurrences(PipelinesToName(prunable, kept))[i]
  {
    var all, places := PipelinesToName(prunable, kept), Places(prunable, kept, false);
    FirstOccurrencesMeaning(all);
    PlacesMeaning(prunable, kept, false);
    NamedInPlaces(prunable, kept);
    assert q in places;
    var b :| 0 <= b < |places| && places[b] == q;
    var first := FirstOccurrences(all);
    var a := IndexOf(all, first[i]);
    assert a < IndexOf(all, first[j]) <= b by {
      assert all[b] == first[j];
    }
    p := places[a];
  }

  /** For each prunable run: its own name if its pipeline owns a kept run, else its pipeline's. */
  method NamePrunables(prunable: seq<Item>, kept: seq<Item>) returns (runs: seq<string>, pipelines: seq<string>)
    ensures runs == RunsToName(prunable, kept) && pipelines == PipelinesToName(prunable, kept)
  {
    runs, pipelines := [], [];
    for i := 0 to |prunable|
      invariant runs == RunsToName(prunable[..i], kept) && pipelines == PipelinesToName(prunable[..i], kept)
    {
      assert prunable[..i + 1][..i] == prunable[..i];
      var found := PipelineIsProtected(prunable[i].run.pipeline, kept);
      if found {
        runs := runs + [prunable[i].name];
      } else {
        pipelines := pipelines + [prunable[i].run.pipeline];
      }
    }
    assert prunable[..|prunable|] == prunable;
  }

  /** Sorts the bucket in place and finds what can go. */
  method FindPrunableResources(a: array<Item>, cutoff: int, maxKeep: int)
    returns (runs: seq<string>, pipelines: seq<string>)
    modifies a
    ensures Descending(a[..]) && multiset(a[..]) == multiset(old(a[..]))
    ensures IsPrunable(a[..], cutoff, maxKeep, runs, pipelines)
  {
    SortDescending(a);
    var kept, prunable := Categorize(a[..], cutoff, maxKeep);
    runs, pipelines := NamePrunables(prunable, kept);
    runs := Unique(runs);
    pipelines := Unique(pipelines);
  }

  method SortAndFind(bucket: seq<Item>, cutoff: int, maxKeep: int)
    returns (runs: seq<string>, pipelines: seq<string>, sorted: seq<Item>)
    ensures Descending(sorted) && multiset(sorted) == multiset(bucket)
    ensures IsPrunable(sorted, cutoff, maxKeep, runs, pipelines)
  {
    var a := new Item[|bucket|](i requires 0 <= i < |bucket| => bucket[i]);
    assert a[..] == bucket;
    runs, pipelines := FindPrunableResources(a, cutoff, maxKeep);
    sorted := a[..];
  }

  /* ---- From a sorted bucket to the store ---- */

  ghost predicate IsBucketListing(items: seq<Item>, store: Store, repo: string, stage: string) {
    && (forall i | i in items :: i.name in Bucket(store, repo, stage) && store[i.name] == i.run)
    && (forall n | n in Bucket(store, repo, stage) :: Item(n, store[n]) in items)
    && (forall i, j | 0 <= i < j < |items| :: items[i].name != items[j].name)
  }

  lemma {:induction false} NamesSize(items: seq<Item>)
    requires forall i, j | 0 <= i < j < |items| :: items[i].name != items[j].name
    ensures |Names(items)| == |items|
  {
    if items != [] {
      var init, last := items[..|items| - 1], items[|items| - 1];
      NamesSize(init);
      assert Names(items) == Names(init) + {last.name};
    }
  }

  lemma {:induction false} CountAtMostOnce(items: seq<Item>, x: Item)
    requires forall i, j | 0 <= i < j < |items| :: items[i] != items[j]
    ensures multiset(items)[x] <= 1
  {
    if items != [] {
      var init := items[..|items| - 1];
      CountAtMostOnce(init, x);
      assert items == init + [items[|items| - 1]];
      if items[|items| - 1] == x {
        assert x !in init;
      }
    }
  }

  lemma CountTwice(items: seq<Item>, i: nat, j: nat)
    requires i < j < |items| && items[i] == items[j]
    ensures multiset(items)[items[i]] >= 2
  {
    assert items == items[..j] + items[j..];
    assert items[..j][i] == items[i] && items[j..][0] == items[i];
    assert items[i] in multiset(items[..j]) && items[i] in multiset(items[j..]);
  }

  lemma PermutedListing(items: seq<Item>, sorted: seq<Item>, store: Store, repo: string, stage: string)
    requires IsBucketListing(items, store, repo, stage) && multiset(sorted) == multiset(items)
    ensures IsBucketListing(sorted, store, repo, stage)
  {
    assert forall x :: x in sorted <==> x in multiset(sorted);
    assert forall x :: x in items <==> x in multiset(items);
    forall i, j | 0 <= i < j < |sorted| ensures sorted[i].name != sorted[j].name {
      if sorted[i].name == sorted[j].name {
        assert sorted[i] in items && sorted[j] in items;
        CountTwice(sorted, i, j);
        CountAtMostOnce(items, sorted[i]);
      }
    }
  }

  lemma ListingIndex(sorted: seq<Item>, store: Store, repo: string, stage: string, n: string) returns (i: nat)
    requires IsBucketListing(sorted, store, repo, stage) && n in Bucket(store, repo, stage)
    ensures i < |sorted| && sorted[i] == Item(n, store[n])
  {
    assert Item(n, store[n]) in sorted;
    i :| i < |sorted| && sorted[i] == Item(n, store[n]);
  }

  lemma ListingNames(sorted: seq<Item>, store: Store, repo: string, stage: string)
    requires IsBucketListing(sorted, store, repo, stage)
    ensures Names(sorted) == Bucket(store, repo, stage)
  {
    assert forall i | 0 <= i < |sorted| :: sorted[i] in sorted;
    forall n | n in Bucket(store, repo, stage) ensures n in Names(sorted) {
      var i := ListingIndex(sorted, store, repo, stage, n);
    }
  }

  lemma NewerNames(sorted: seq<Item>, store: Store, repo: string, stage: string, cutoff: int)
    requires Descending(sorted) && IsBucketListing(sorted, store, repo, stage)
    ensures NewerCount(sorted, cutoff) <= |sorted|
    ensures Names(sorted[..NewerCount(sorted, cutoff)]) == Newer(store, Bucket(store, repo, stage), cutoff)
  {
    var newer := NewerCount(sorted, cutoff);
    NewerCountBound(sorted, cutoff);
    assert forall i | 0 <= i < |sorted| :: sorted[i] in sorted;
    forall n | n in Newer(store, Bucket(store, repo, stage), cutoff) ensures n in Names(sorted[..newer]) {
      var i := ListingIndex(sorted, store, repo, stage, n);
      assert i < newer && sorted[..newer][i] == sorted[i];
    }
  }

  lemma ListingSizes(sorted: seq<Item>, store: Store, repo: string, stage: string, cutoff: int)
    requires Descending(sorted) && IsBucketListing(sorted, store, repo, stage)
    ensures |Bucket(store, repo, stage)| == |sorted|
    ensures |Newer(store, Bucket(store, repo, stage), cutoff)| == NewerCount(sorted, cutoff)
  {
    ListingNames(sorted, store, repo, stage);
    NewerNames(sorted, store, repo, stage, cutoff);
    NamesSize(sorted);
    NamesSize(sorted[..NewerCount(sorted, cutoff)]);
  }

  lemma PrefixIsNewest(sorted: seq<Item>, store: Store, repo: string, stage: string, k: nat)
    requires Descending(sorted) && IsBucketListing(sorted, store, repo, stage) && k <= |sorted|
    ensures IsNewestPart(store, Bucket(store, repo, stage), Names(sorted[..k]))
    ensures |Names(sorted[..k])| == k
  {
    NamesSize(sorted[..k]);
    var bucket, keep := Bucket(store, repo, stage), Names(sorted[..k]);
    assert forall i | 0 <= i < |sorted| :: sorted[i] in sorted;
    assert forall p | 0 <= p < k :: sorted[..k][p].name in keep;
    forall n, m | n in keep && m in bucket && m !in keep ensures store[m].created <= store[n].created {
      var i :| 0 <= i < k && sorted[..k][i].name == n;
      var j := ListingIndex(sorted, store, repo, stage, m);
      assert j >= k;
    }
  }

  /** The protected prefix is what the stage has been promised. */
  lemma PrefixIsProtected(sorted: seq<Item>, store: Store, repo: string, stage: string, cutoff: int, maxKeep: int)
    requires Descending(sorted) && IsBucketListing(sorted, store, repo, stage)
    ensures ProtectedLength(sorted, cutoff, maxKeep) <= |sorted|
    ensures var bucket, keep := Bucket(store, repo, stage), Names(sorted[..ProtectedLength(sorted, cutoff, maxKeep)]);
      && IsNewestPart(store, bucket, keep)
      && |keep| == KeepCount(store, bucket, cutoff, maxKeep)
  {
    NewerCountBound(sorted, cutoff);
    ListingSizes(sorted, store, repo, stage, cutoff);
    PrefixIsNewest(sorted, store, repo, stage, ProtectedLength(sorted, cutoff, maxKeep));
  }

  /* ---- A whole prune ---- */

  /** A kept run of this stage belongs to `pipeline`. */
  predicate OwnsKeptRun(store: Store, stage: string, pipeline: string, keep: set<string>) {
    exists m | m in keep :: m in store && store[m].stage == stage && store[m].pipeline == pipeline
  }

  /** Pruned runs whose pipeline stays for the sake of a kept one. */
  function DoomedRuns(store: Store, repo: string, stages: set<string>, keep: set<string>): set<string> {
    set n | n in store && store[n].repo == repo && store[n].stage in stages && n !in keep
            && OwnsKeptRun(store, store[n].stage, store[n].pipeline, keep)
  }

  /** Pipelines all of whose runs in some stage are pruned. */
  function DoomedPipelines(store: Store, repo: string, stages: set<string>, keep: set<string>): set<string> {
    set n | n in store && store[n].repo == repo && store[n].stage in stages && n !in keep
            && !OwnsKeptRun(store, store[n].stage, store[n].pipeline, keep)
          :: store[n].pipeline
  }

  function Without(store: Store, runs: set<string>, pipelines: set<string>): Store {
    map n | n in store && n !in runs && store[n].pipeline !in pipelines :: store[n]
  }

  function Stages(store: Store, repo: string): set<string> {
    set n | n in store && store[n].repo == repo :: store[n].stage
  }

  /** What a prune that listed `store` and keeps `keep` leaves of `later` when nobody else acts from
      then on and the deletions in `refused` fail. */
  function PrunedFrom(store: Store, later: Store, repo: string, keep: set<string>, refused: set<string>): Store {
    Without(later, DoomedRuns(store, repo, Stages(store, repo), keep) - refused,
            DoomedPipelines(store, repo, Stages(store, repo), keep) - refused)
  }

  /** The same when nobody else acts at all. */
  function AfterPrune(store: Store, repo: string, keep: set<string>, refused: set<string>): Store {
    PrunedFrom(store, store, repo, keep, refused)
  }

  datatype Deletion = OfPipeline(name: string) | OfRun(name: string)

  function Deleted(runs: Store, d: Deletion): Store {
    match d
    case OfPipeline(pipeline) => Without(runs, {}, {pipeline})
    case OfRun(name) => Without(runs, {name}, {})
  }

  /** One deletion, before which other clients have acted in their chance `k`. */
  function AfterDeletion(now: Contents, d: Deletion, others: Others, k: nat, refused: set<string>): Contents {
    var later := others(k, now);
    if d.name in refused then later else later.(runs := Deleted(later.runs, d))
  }

  /** The deletions of `plan` in order, others acting before each. */
  function Replayed(now: Contents, plan: seq<Deletion>, others: Others, k: nat, refused: set<string>): Contents
    decreases |plan|
  {
    if plan == [] then now
    else
      var n := |plan| - 1;
      AfterDeletion(Replayed(now, plan[..n], others, k, refused), plan[n], others, k + n, refused)
  }

  lemma NextDeletion(now: Contents, plan: seq<Deletion>, others: Others, k: nat, refused: set<string>, i: nat)
    requires i < |plan|
    ensures Replayed(now, plan[..i + 1], others, k, refused) ==
            AfterDeletion(Replayed(now, plan[..i], others, k, refused), plan[i], others, k + i, refused)
  {
    assert plan[..i + 1][..i] == plan[..i];
  }

  lemma {:induction false} ReplayedAppend(now: Contents, a: seq<Deletion>, b: seq<Deletion>, others: Others, k: nat,
                                          refused: set<string>)
    ensures Replayed(now, a + b, others, k, refused) ==
            Replayed(Replayed(now, a, others, k, refused), b, others, k + |a|, refused)
    decreases |b|
  {
    if b == [] {
      assert a + b == a;
    } else {
      var n := |b| - 1;
      ReplayedAppend(now, a, b[..n], others, k, refused);
      assert (a + b)[..|a| + n] == a + b[..n] && (a + b)[|a| + n] == b[n];
    }
  }

  function RunsIn(plan: seq<Deletion>): set<string> {
    set d | d in plan && d.OfRun? :: d.name
  }

  function PipelinesIn(plan: seq<Deletion>): set<string> {
    set d | d in plan && d.OfPipeline? :: d.name
  }

  function PipelineDeletions(names: seq<string>): (plan: seq<Deletion>)
    ensures |plan| == |names| && forall i | 0 <= i < |names| :: plan[i] == OfPipeline(names[i])
  {
    if names == [] then [] else PipelineDeletions(names[..|names| - 1]) + [OfPipeline(names[|names| - 1])]
  }

  function RunDeletions(names: seq<string>): (plan: seq<Deletion>)
    ensures |plan| == |names| && forall i | 0 <= i < |names| :: plan[i] == OfRun(names[i])
  {
    if names == [] then [] else RunDeletions(names[..|names| - 1]) + [OfRun(names[|names| - 1])]
  }

  lemma ReplayedStage(now: Contents, pipelines: seq<string>, runs: seq<string>, others: Others, k: nat,
                      refused: set<string>)
    ensures Replayed(now, PipelineDeletions(pipelines) + RunDeletions(runs), others, k, refused) ==
            Replayed(Replayed(now, PipelineDeletions(pipelines), others, k, refused), RunDeletions(runs), others,
                     k + |pipelines|, refused)
  {
    ReplayedAppend(now, PipelineDeletions(pipelines), RunDeletions(runs), others, k, refused);
  }

  lemma PlanOfStage(pipelines: seq<string>, runs: seq<string>)
    ensures RunsIn(PipelineDeletions(pipelines) + RunDeletions(runs)) == Elements(runs)
    ensures PipelinesIn(PipelineDeletions(pipelines) + RunDeletions(runs)) == Elements(pipelines)
  {
    var a, b := PipelineDeletions(pipelines), RunDeletions(runs);
    forall x | x in runs ensures OfRun(x) in a + b {
      var i :| 0 <= i < |runs| && runs[i] == x;
      assert b[i] == OfRun(x);
    }
    forall x | x in pipelines ensures OfPipeline(x) in a + b {
      var i :| 0 <= i < |pipelines| && pipelines[i] == x;
      assert a[i] == OfPipeline(x);
    }
  }

  lemma PlansTogether(a: seq<Deletion>, b: seq<Deletion>)
    ensures RunsIn(a + b) == RunsIn(a) + RunsIn(b) && PipelinesIn(a + b) == PipelinesIn(a) + PipelinesIn(b)
  {
  }

  /** Deletes what a prune that keeps `keep` gives up: the named runs and pipelines, in some order. */
  ghost predicate IsPlan(plan: seq<Deletion>, store: Store, repo: string, stages: set<string>, keep: set<string>) {
    && RunsIn(plan) == DoomedRuns(store, repo, stages, keep)
    && PipelinesIn(plan) == DoomedPipelines(store, repo, stages, keep)
  }

  /** The stages are pruned independently of each other. */
  lemma OneMoreStage(store: Store, repo: string, done: set<string>, keep: set<string>, stage: string,
                     stageKeep: set<string>)
    requires stage !in done && stageKeep <= Bucket(store, repo, stage)
    requires forall n | n in keep :: n in store && store[n].repo == repo && store[n].stage in done
    ensures DoomedRuns(store, repo, done + {stage}, keep + stageKeep) ==
            DoomedRuns(store, repo, done, keep) + DoomedRuns(store, repo, {stage}, stageKeep)
    ensures DoomedPipelines(store, repo, done + {stage}, keep + stageKeep) ==
            DoomedPipelines(store, repo, done, keep) + DoomedPipelines(store, repo, {stage}, stageKeep)
  {
    var both := keep + stageKeep;
    forall st, p
      ensures OwnsKeptRun(store, st, p, both) <==>
              OwnsKeptRun(store, st, p, keep) || OwnsKeptRun(store, st, p, stageKeep)
    {
    }
    assert forall p :: !OwnsKeptRun(store, stage, p, keep);
    assert forall st, p | st in done :: !OwnsKeptRun(store, st, p, stageKeep);
  }

  lemma StillProtected(store: Store, repo: string, stage: string, cutoff: int, maxKeep: int, keep: set<string>,
                       more: set<string>)
    requires more * Bucket(store, repo, stage) == {}
    requires IsProtectedIn(store, repo, stage, cutoff, maxKeep, keep)
    ensures IsProtectedIn(store, repo, stage, cutoff, maxKeep, keep + more)
  {
    var bucket := Bucket(store, repo, stage);
    assert forall n | n in bucket :: n !in more by {
      assert forall n | n in bucket && n in more :: n in more * bucket;
    }
    assert (keep + more) * bucket == keep * bucket;
  }

  class Pruner {
    const tekton: Tekton
    const maxKeepRuns: int

    constructor (tekton: Tekton, maxKeepRuns: int)
      ensures this.tekton == tekton && this.maxKeepRuns == maxKeepRuns
    {
      this.tekton, this.maxKeepRuns := tekton, maxKeepRuns;
    }

    /** Assigns the runs to buckets by stage; unknown stages get a bucket of their own. */
    method CategorizeByStage(items: seq<Item>, ghost store: Store, ghost repo: string)
      returns (buckets: map<string, seq<Item>>)
      requires IsListing(items, store, repo)
      ensures Stages(store, repo) <= buckets.Keys
      ensures forall stage | stage in buckets :: IsBucketListing(buckets[stage], store, repo, stage)
    {
      buckets := map["dev" := [], "qa" := [], "prod" := []];
      for i := 0 to |items|
        invariant ArePartialBuckets(items[..i], buckets)
      {
        var stage := items[i].run.stage;
        BucketsNext(items, i, buckets);
        buckets := buckets[stage := BucketOf(buckets, stage) + [items[i]]];
      }
      assert items[..|items|] == items;
      FullBuckets(items, store, repo, buckets);
    }

    method Delete(d: Deletion, others: Others, k: nat, refused: set<string>)
      modifies tekton
      ensures tekton.Now() == AfterDeletion(old(tekton.Now()), d, others, k, refused)
    {
      var later := others(k, tekton.Now());
      tekton.BecomesLater(later);
      if d.name !in refused {
        match d
        case OfPipeline(pipeline) => tekton.DeletePipeline(pipeline);
        case OfRun(name) => tekton.DeletePipelineRun(name);
      }
    }

    method DeletePipelines(pipelines: seq<string>, others: Others, k: nat, refused: set<string>)
      modifies tekton
      ensures tekton.Now() == Replayed(old(tekton.Now()), PipelineDeletions(pipelines), others, k, refused)
    {
      ghost var start, plan := tekton.Now(), PipelineDeletions(pipelines);
      for i := 0 to |pipelines|
        invariant tekton.Now() == Replayed(start, plan[..i], others, k, refused)
      {
        NextDeletion(start, plan, others, k, refused, i);
        Delete(OfPipeline(pipelines[i]), others, k + i, refused);
      }
      assert plan[..|plan|] == plan;
    }

    method DeleteRuns(runs: seq<string>, others: Others, k: nat, refused: set<string>)
      modifies tekton
      ensures tekton.Now() == Replayed(old(tekton.Now()), RunDeletions(runs), others, k, refused)
    {
      ghost var start, plan := tekton.Now(), RunDeletions(runs);
      for i := 0 to |runs|
        invariant tekton.Now() == Replayed(start, plan[..i], others, k, refused)
      {
        NextDeletion(start, plan, others, k, refused, i);
        Delete(OfRun(runs[i]), others, k + i, refused);
      }
      assert plan[..|plan|] == plan;
    }

    method DeleteAll(pipelines: seq<string>, runs: seq<string>, others: Others, k: nat, refused: set<string>)
      modifies tekton
      ensures tekton.Now() ==
              Replayed(old(tekton.Now()), PipelineDeletions(pipelines) + RunDeletions(runs), others, k, refused)
    {
      ReplayedStage(tekton.Now(), pipelines, runs, others, k, refused);
      DeletePipelines(pipelines, others, k, refused);
      DeleteRuns(runs, others, k + |pipelines|, refused);
    }

    /** One bucket: find what can go, delete pipelines, then runs; the deletions in `refused` fail. */
    method PruneStage(bucket: seq<Item>, cutoff: int, others: Others, k: nat, refused: set<string>,
                      ghost store: Store, ghost repo: string, ghost stage: string)
      returns (count: nat, ghost keep: set<string>, ghost plan: seq<Deletion>)
      requires IsBucketListing(bucket, store, repo, stage)
      modifies tekton
      ensures IsNewestPart(store, Bucket(store, repo, stage), keep)
      ensures |keep| == KeepCount(store, Bucket(store, repo, stage), cutoff, maxKeepRuns)
      ensures IsPlan(plan, store, repo, {stage}, keep) && count == |plan|
      ensures tekton.Now() == Replayed(old(tekton.Now()), plan, others, k, refused)
    {
      var runs, pipelines, sorted := SortAndFind(bucket, cutoff, maxKeepRuns);
      keep := StagePlan(bucket, sorted, store, repo, stage, cutoff, maxKeepRuns, runs, pipelines);
      plan := PipelineDeletions(pipelines) + RunDeletions(runs);
      DeleteAll(pipelines, runs, others, k, refused);
      count := |pipelines| + |runs|;
    }

    /** One turn of the loop over the stages; `start` is what the store held before the first. */
    method PruneNext(bucket: seq<Item>, cutoff: int, others: Others, k: nat, refused: set<string>, ghost store: Store,
                     ghost repo: string, ghost stage: string, ghost done: set<string>, ghost keep: set<string>,
                     ghost plan: seq<Deletion>, ghost start: Contents)
      returns (k': nat, ghost keep': set<string>, ghost plan': seq<Deletion>)
      requires IsBucketListing(bucket, store, repo, stage) && stage !in done && k == |plan|
      requires PlannedSoFar(store, repo, done, keep, cutoff, maxKeepRuns, plan)
      requires tekton.Now() == Replayed(start, plan, others, 0, refused)
      modifies tekton
      ensures k' == |plan'| && PlannedSoFar(store, repo, done + {stage}, keep', cutoff, maxKeepRuns, plan')
      ensures tekton.Now() == Replayed(start, plan', others, 0, refused)
    {
      var count, stageKeep, stagePlan := PruneStage(bucket, cutoff, others, k, refused, store, repo, stage);
      PlannedFurther(store, repo, done, keep, stage, stageKeep, cutoff, maxKeepRuns, plan, stagePlan);
      ReplayedAppend(start, plan, stagePlan, others, 0, refused);
      k', keep', plan' := k + count, keep + stageKeep, plan + stagePlan;
    }

    /** The loop over the stages, in any order. */
    method PruneStages(buckets: map<string, seq<Item>>, cutoff: int, others: Others, refused: set<string>,
                       ghost store: Store, ghost repo: string)
      returns (ghost keep: set<string>, ghost plan: seq<Deletion>)
      requires forall stage | stage in buckets :: IsBucketListing(buckets[stage], store, repo, stage)
      modifies tekton
      ensures PlannedSoFar(store, repo, buckets.Keys, keep, cutoff, maxKeepRuns, plan)
      ensures tekton.Now() == Replayed(old(tekton.Now()), plan, others, 0, refused)
    {
      keep, plan := {}, [];
      ghost var start := tekton.Now();
      var k, done := 0, {};
      NothingPlanned(store, repo, cutoff, maxKeepRuns);
      while done != buckets.Keys
        invariant done <= buckets.Keys && k == |plan|
        invariant PlannedSoFar(store, repo, done, keep, cutoff, maxKeepRuns, plan)
        invariant tekton.Now() == Replayed(start, plan, others, 0, refused)
        decreases buckets.Keys - done
      {
        var stage :| stage in buckets && stage !in done;
        k, keep, plan :=
          PruneNext(buckets[stage], cutoff, others, k, refused, store, repo, stage, done, keep, plan, start);
        done := done + {stage};
      }
    }

    /** Prunes one repository. `keep` are the runs the policy protects in the listing and `plan` the
        deletions that follow from it; other clients act before each. */
    method Prune(repo: string, cutoff: int, listFails: bool, others: Others, refused: set<string>)
      returns (failed: bool, ghost keep: set<string>, ghost plan: seq<Deletion>)
      modifies tekton
      ensures failed <==> listFails
      ensures failed ==> tekton.Now() == old(tekton.Now())
      ensures !failed ==> IsProtected(old(tekton.runs), repo, cutoff, maxKeepRuns, keep)
      ensures !failed ==> IsPlan(plan, old(tekton.runs), repo, Stages(old(tekton.runs), repo), keep)
      ensures !failed ==> tekton.Now() == Replayed(old(tekton.Now()), plan, others, 0, refused)
    {
      if listFails {
        return true, {}, [];
      }
      ghost var store := tekton.runs;
      var items := tekton.ListPipelineRuns(repo);
      var buckets := CategorizeByStage(items, store, repo);
      keep, plan := PruneStages(buckets, cutoff, others, refused, store, repo);
      PlanIsComplete(store, repo, buckets.Keys, keep, cutoff, maxKeepRuns, plan);
      return false, keep, plan;
    }
  }

  function Elements(s: seq<string>): set<string> {
    set x | x in s
  }

  /** Names of the protected prefix, and what the answer means for them. */
  lemma StageKeep(bucket: seq<Item>, sorted: seq<Item>, store: Store, repo: string, stage: string, cutoff: int,
                  maxKeep: int, runs: seq<string>, pipelines: seq<string>)
    returns (keep: set<string>)
    requires IsBucketListing(bucket, store, repo, stage) && multiset(sorted) == multiset(bucket) && Descending(sorted)
    requires IsPrunable(sorted, cutoff, maxKeep, runs, pipelines)
    ensures IsNewestPart(store, Bucket(store, repo, stage), keep)
    ensures |keep| == KeepCount(store, Bucket(store, repo, stage), cutoff, maxKeep)
    ensures Elements(runs) == DoomedRuns(store, repo, {stage}, keep)
    ensures Elements(pipelines) == DoomedPipelines(store, repo, {stage}, keep)
  {
    PermutedListing(bucket, sorted, store, repo, stage);
    PrefixIsProtected(sorted, store, repo, stage, cutoff, maxKeep);
    var k := ProtectedLength(sorted, cutoff, maxKeep);
    keep := Names(sorted[..k]);
    PrunableMeaning(sorted, cutoff, maxKeep, runs, pipelines);
    PrunableRunsAreDoomed(sorted, store, repo, stage, k, runs);
    PrunablePipelinesAreDoomed(sorted, store, repo, stage, k, pipelines);
  }

  lemma StagePlan(bucket: seq<Item>, sorted: seq<Item>, store: Store, repo: string, stage: string, cutoff: int,
                  maxKeep: int, runs: seq<string>, pipelines: seq<string>)
    returns (keep: set<string>)
    requires IsBucketListing(bucket, store, repo, stage) && multiset(sorted) == multiset(bucket) && Descending(sorted)
    requires IsPrunable(sorted, cutoff, maxKeep, runs, pipelines)
    ensures IsNewestPart(store, Bucket(store, repo, stage), keep)
    ensures |keep| == KeepCount(store, Bucket(store, repo, stage), cutoff, maxKeep)
    ensures IsPlan(PipelineDeletions(pipelines) + RunDeletions(runs), store, repo, {stage}, keep)
  {
    keep := StageKeep(bucket, sorted, store, repo, stage, cutoff, maxKeep, runs, pipelines);
    PlanOfStage(pipelines, runs);
  }

  lemma PrefixFacts(sorted: seq<Item>, store: Store, repo: string, stage: string, k: nat)
    requires IsBucketListing(sorted, store, repo, stage) && k <= |sorted|
    ensures forall i | 0 <= i < |sorted| :: sorted[i].name in store && store[sorted[i].name] == sorted[i].run
    ensures forall i | 0 <= i < |sorted| :: sorted[i].run.repo == repo && sorted[i].run.stage == stage
    ensures forall i | 0 <= i < |sorted| :: sorted[i].name in Names(sorted[..k]) <==> i < k
    ensures forall p :: p in Pipelines(sorted[..k]) <==> OwnsKeptRun(store, stage, p, Names(sorted[..k]))
  {
    var keep := Names(sorted[..k]);
    assert forall i | 0 <= i < |sorted| :: sorted[i] in sorted;
    assert forall i | 0 <= i < k :: sorted[..k][i] == sorted[i];
    assert forall i | 0 <= i < k :: sorted[..k][i].name in keep;
    forall p ensures p in Pipelines(sorted[..k]) <==> OwnsKeptRun(store, stage, p, keep) {
      if p in Pipelines(sorted[..k]) {
        var i :| 0 <= i < k && sorted[..k][i].run.pipeline == p;
        assert sorted[i].name in keep && store[sorted[i].name] == sorted[i].run;
      }
    }
  }

  lemma PrunableRunsAreDoomed(sorted: seq<Item>, store: Store, repo: string, stage: string, k: nat, runs: seq<string>)
    requires IsBucketListing(sorted, store, repo, stage) && k <= |sorted|
    requires forall x :: x in runs <==> exists i | k <= i < |sorted| ::
      sorted[i].name == x && sorted[i].run.pipeline in Pipelines(sorted[..k])
    ensures Elements(runs) == DoomedRuns(store, repo, {stage}, Names(sorted[..k]))
  {
    PrefixFacts(sorted, store, repo, stage, k);
    var keep := Names(sorted[..k]);
    forall x ensures x in runs <==> x in DoomedRuns(store, repo, {stage}, keep) {
      if x in runs {
        var i :| k <= i < |sorted| && sorted[i].name == x && sorted[i].run.pipeline in Pipelines(sorted[..k]);
        assert x !in keep;
      }
      if x in DoomedRuns(store, repo, {stage}, keep) {
        var i := ListingIndex(sorted, store, repo, stage, x);
        assert sorted[i].name == x;
      }
    }
  }

  lemma PrunablePipelinesAreDoomed(sorted: seq<Item>, store: Store, repo: string, stage: string, k: nat,
                                   pipelines: seq<string>)
    requires IsBucketListing(sorted, store, repo, stage) && k <= |sorted|
    requires forall x :: x in pipelines <==> x !in Pipelines(sorted[..k]) && x in Pipelines(sorted[k..])
    ensures Elements(pipelines) == DoomedPipelines(store, repo, {stage}, Names(sorted[..k]))
  {
    PrefixFacts(sorted, store, repo, stage, k);
    var keep := Names(sorted[..k]);
    forall x ensures x in pipelines <==> x in DoomedPipelines(store, repo, {stage}, keep) {
      if x in pipelines {
        var i :| 0 <= i < |sorted| - k && sorted[k..][i].run.pipeline == x;
        assert sorted[k + i].name !in keep && store[sorted[k + i].name].pipeline == x;
      }
      if x in DoomedPipelines(store, repo, {stage}, keep) {
        var n :| n in Bucket(store, repo, stage) && n !in keep && store[n].pipeline == x &&
          !OwnsKeptRun(store, stage, x, keep);
        var i := ListingIndex(sorted, store, repo, stage, n);
        assert sorted[i].name == n && i >= k;
        assert sorted[k..][i - k].run.pipeline == x;
      }
    }
  }

  lemma ProtectedSoFar(store: Store, repo: string, done: set<string>, keep: set<string>, stage: string,
                       stageKeep: set<string>, cutoff: int, maxKeep: int)
    requires stage !in done
    requires forall n | n in keep :: n in store && store[n].repo == repo && store[n].stage in done
    requires forall st | st in done :: IsProtectedIn(store, repo, st, cutoff, maxKeep, keep)
    requires IsNewestPart(store, Bucket(store, repo, stage), stageKeep)
    requires |stageKeep| == KeepCount(store, Bucket(store, repo, stage), cutoff, maxKeep)
    ensures forall st | st in done + {stage} :: IsProtectedIn(store, repo, st, cutoff, maxKeep, keep + stageKeep)
  {
    assert (keep + stageKeep) * Bucket(store, repo, stage) == stageKeep;
    forall st | st in done ensures IsProtectedIn(store, repo, st, cutoff, maxKeep, keep + stageKeep) {
      assert forall n | n in stageKeep :: n !in Bucket(store, repo, st);
      StillProtected(store, repo, st, cutoff, maxKeep, keep, stageKeep);
    }
  }

  /** The plan after the stages `done`. */
  ghost predicate PlannedSoFar(store: Store, repo: string, done: set<string>, keep: set<string>, cutoff: int,
                               maxKeep: int, plan: seq<Deletion>)
  {
    && (forall n | n in keep :: n in store && store[n].repo == repo && store[n].stage in done)
    && (forall stage | stage in done :: IsProtectedIn(store, repo, stage, cutoff, maxKeep, keep))
    && IsPlan(plan, store, repo, done, keep)
  }

  lemma NothingPlanned(store: Store, repo: string, cutoff: int, maxKeep: int)
    ensures PlannedSoFar(store, repo, {}, {}, cutoff, maxKeep, [])
  {
    assert DoomedRuns(store, repo, {}, {}) == {} && DoomedPipelines(store, repo, {}, {}) == {};
  }

  lemma PlannedFurther(store: Store, repo: string, done: set<string>, keep: set<string>, stage: string,
                       stageKeep: set<string>, cutoff: int, maxKeep: int, plan: seq<Deletion>, stagePlan: seq<Deletion>)
    requires PlannedSoFar(store, repo, done, keep, cutoff, maxKeep, plan) && stage !in done
    requires IsNewestPart(store, Bucket(store, repo, stage), stageKeep)
    requires |stageKeep| == KeepCount(store, Bucket(store, repo, stage), cutoff, maxKeep)
    requires IsPlan(stagePlan, store, repo, {stage}, stageKeep)
    ensures PlannedSoFar(store, repo, done + {stage}, keep + stageKeep, cutoff, maxKeep, plan + stagePlan)
  {
    ProtectedSoFar(store, repo, done, keep, stage, stageKeep, cutoff, maxKeep);
    OneMoreStage(store, repo, done, keep, stage, stageKeep);
    PlansTogether(plan, stagePlan);
  }

  lemma OnlyTheseStages(store: Store, repo: string, done: set<string>, keep: set<string>)
    requires Stages(store, repo) <= done
    ensures DoomedRuns(store, repo, done, keep) == DoomedRuns(store, repo, Stages(store, repo), keep)
    ensures DoomedPipelines(store, repo, done, keep) == DoomedPipelines(store, repo, Stages(store, repo), keep)
  {
    assert forall n | n in store && store[n].repo == repo :: store[n].stage in Stages(store, repo);
  }

  lemma AllProtected(store: Store, repo: string, done: set<string>, keep: set<string>, cutoff: int, maxKeep: int)
    requires Stages(store, repo) <= done
    requires forall n | n in keep :: n in store && store[n].repo == repo && store[n].stage in done
    requires forall stage | stage in done :: IsProtectedIn(store, repo, stage, cutoff, maxKeep, keep)
    ensures IsProtected(store, repo, cutoff, maxKeep, keep)
  {
    assert forall n | n in store && store[n].repo == repo :: store[n].stage in Stages(store, repo);
    forall stage ensures IsProtectedIn(store, repo, stage, cutoff, maxKeep, keep) {
      if stage !in done {
        var bucket := Bucket(store, repo, stage);
        assert bucket == {} && keep * bucket == {} && Newer(store, bucket, cutoff) == {};
        assert |keep * bucket| == 0 && |bucket| == 0 && |Newer(store, bucket, cutoff)| == 0;
      }
    }
  }

  lemma PlanIsComplete(store: Store, repo: string, done: set<string>, keep: set<string>, cutoff: int, maxKeep: int,
                       plan: seq<Deletion>)
    requires Stages(store, repo) <= done && PlannedSoFar(store, repo, done, keep, cutoff, maxKeep, plan)
    ensures IsProtected(store, repo, cutoff, maxKeep, keep)
    ensures IsPlan(plan, store, repo, Stages(store, repo), keep)
  {
    AllProtected(store, repo, done, keep, cutoff, maxKeep);
    OnlyTheseStages(store, repo, done, keep);
  }

  ghost predicate IsPartialBucket(items: seq<Item>, stage: string, bucket: seq<Item>) {
    && (forall x | x in bucket :: x in items && x.run.stage == stage)
    && (forall x | x in items && x.run.stage == stage :: x in bucket)
    && (forall i, j | 0 <= i < j < |bucket| :: bucket[i].name != bucket[j].name)
  }

  function BucketOf(buckets: map<string, seq<Item>>, stage: string): seq<Item> {
    if stage in buckets then buckets[stage] else []
  }

  ghost predicate ArePartialBuckets(items: seq<Item>, buckets: map<string, seq<Item>>) {
    forall stage :: IsPartialBucket(items, stage, BucketOf(buckets, stage))
  }

  lemma BucketsNext(items: seq<Item>, i: nat, buckets: map<string, seq<Item>>)
    requires i < |items| && ArePartialBuckets(items[..i], buckets)
    requires forall j, k | 0 <= j < k < |items| :: items[j].name != items[k].name
    ensures var stage := items[i].run.stage;
      ArePartialBuckets(items[..i + 1], buckets[stage := BucketOf(buckets, stage) + [items[i]]])
  {
    var stage := items[i].run.stage;
    var buckets' := buckets[stage := BucketOf(buckets, stage) + [items[i]]];
    forall other ensures IsPartialBucket(items[..i + 1], other, BucketOf(buckets', other)) {
      assert IsPartialBucket(items[..i], other, BucketOf(buckets, other));
      if other == stage {
        ExtendBucket(items, i, BucketOf(buckets, stage));
      } else {
        OtherBucket(items, i, other, BucketOf(buckets, other));
      }
    }
  }

  lemma OtherBucket(items: seq<Item>, i: nat, stage: string, bucket: seq<Item>)
    requires i < |items| && items[i].run.stage != stage && IsPartialBucket(items[..i], stage, bucket)
    ensures IsPartialBucket(items[..i + 1], stage, bucket)
  {
    assert items[..i + 1] == items[..i] + [items[i]];
  }

  lemma FullBuckets(items: seq<Item>, store: Store, repo: string, buckets: map<string, seq<Item>>)
    requires IsListing(items, store, repo)
    requires ArePartialBuckets(items, buckets)
    ensures Stages(store, repo) <= buckets.Keys
    ensures forall stage | stage in buckets :: IsBucketListing(buckets[stage], store, repo, stage)
  {
    forall n | n in store && store[n].repo == repo ensures Item(n, store[n]) in items && store[n].stage in buckets {
      var i :| 0 <= i < |items| && items[i].name == n;
      assert items[i] == Item(n, store[n]);
      assert IsPartialBucket(items, store[n].stage, BucketOf(buckets, store[n].stage));
    }
    forall stage | stage in buckets ensures IsBucketListing(buckets[stage], store, repo, stage) {
      assert IsPartialBucket(items, stage, BucketOf(buckets, stage));
    }
  }

  lemma ExtendBucket(items: seq<Item>, i: nat, bucket: seq<Item>)
    requires i < |items| && IsPartialBucket(items[..i], items[i].run.stage, bucket)
    requires forall j, k | 0 <= j < k < |items| :: items[j].name != items[k].name
    ensures IsPartialBucket(items[..i + 1], items[i].run.stage, bucket + [items[i]])
  {
    assert items[..i + 1] == items[..i] + [items[i]];
    forall j | 0 <= j < |bucket| ensures bucket[j].name != items[i].name {
      assert bucket[j] in items[..i];
    }
  }
}
