/** What pruning promises: the number and age of the survivors, when the cascade spares them, an
    order-free description by rank, and that pruning twice is pruning once. */
module PrunePolicy {
  import opened PipelineRuns
  import opened Pruning
  import opened SetSizes
  import opened TektonStore

  /** Runs of one pipeline belong to one repository and one stage. */
  ghost predicate OneHome(store: Store) {
    forall m, n | m in store && n in store && store[m].pipeline == store[n].pipeline ::
      store[m].repo == store[n].repo && store[m].stage == store[n].stage
  }

  /** `repo` cut down to `keep`, every other repository untouched. */
  function Retain(store: Store, repo: string, keep: set<string>): Store {
    map n | n in store && (store[n].repo == repo ==> n in keep) :: store[n]
  }

  /** Every run the policy gives up is deleted by name or through its pipeline, never both. */
  lemma CoveredOnce(sorted: seq<Item>, store: Store, repo: string, stage: string, cutoff: int, maxKeep: int,
                    runs: seq<string>, pipelines: seq<string>, i: nat)
    requires IsBucketListing(sorted, store, repo, stage) && IsPrunable(sorted, cutoff, maxKeep, runs, pipelines)
    requires i < |sorted|
    ensures ProtectedLength(sorted, cutoff, maxKeep) <= i ==>
      (sorted[i].name in runs <==> sorted[i].run.pipeline !in pipelines)
    ensures i < ProtectedLength(sorted, cutoff, maxKeep) ==>
      sorted[i].name !in runs && sorted[i].run.pipeline !in pipelines
  {
    var k := ProtectedLength(sorted, cutoff, maxKeep);
    PrunableMeaning(sorted, cutoff, maxKeep, runs, pipelines);
    PrefixFacts(sorted, store, repo, stage, k);
    if k <= i {
      assert sorted[k..][i - k] == sorted[i];
      assert sorted[i].run.pipeline in Pipelines(sorted[k..]);
    } else {
      assert sorted[..k][i] == sorted[i];
      assert sorted[i].run.pipeline in Pipelines(sorted[..k]);
    }
  }

  /** After a prune without failures exactly the promised runs are left, if pipelines have one home. */
  lemma PruneKeepsThePromise(store: Store, repo: string, cutoff: int, maxKeep: int, keep: set<string>)
    requires OneHome(store) && IsProtected(store, repo, cutoff, maxKeep, keep)
    ensures AfterPrune(store, repo, keep, {}) == Retain(store, repo, keep)
  {
    var runs := DoomedRuns(store, repo, Stages(store, repo), keep);
    var pipelines := DoomedPipelines(store, repo, Stages(store, repo), keep);
    assert forall n | n in store && store[n].repo == repo :: store[n].stage in Stages(store, repo);
    forall n | n in store
      ensures (n !in runs && store[n].pipeline !in pipelines) <==> (store[n].repo == repo ==> n in keep)
    {
      if store[n].repo == repo && n in keep {
        assert OwnsKeptRun(store, store[n].stage, store[n].pipeline, keep);
      }
    }
  }

  /** Whatever deletions fail, no protected run and no other repository is touched. */
  lemma FailuresAreSafe(store: Store, repo: string, cutoff: int, maxKeep: int, keep: set<string>, refused: set<string>)
    requires OneHome(store) && IsProtected(store, repo, cutoff, maxKeep, keep)
    ensures Retain(store, repo, keep).Keys <= AfterPrune(store, repo, keep, refused).Keys <= store.Keys
  {
    PruneKeepsThePromise(store, repo, cutoff, maxKeep, keep);
  }

  /** In general the cascade spares the protected runs exactly if no pipeline loses all its runs of
      one stage while one of its runs is protected in another. */
  lemma CascadeSparesProtected(store: Store, repo: string, cutoff: int, maxKeep: int, keep: set<string>)
    requires IsProtected(store, repo, cutoff, maxKeep, keep)
    ensures keep <= AfterPrune(store, repo, keep, {}).Keys <==>
      forall n, m |
        n in keep && m in store && store[m].repo == repo && store[m].pipeline == store[n].pipeline && m !in keep ::
        OwnsKeptRun(store, store[m].stage, store[m].pipeline, keep)
  {
    var pipelines := DoomedPipelines(store, repo, Stages(store, repo), keep);
    assert forall n | n in store && store[n].repo == repo :: store[n].stage in Stages(store, repo);
    forall n | n in keep
      ensures n in AfterPrune(store, repo, keep, {}) <==>
        forall m | m in store && store[m].repo == repo && store[m].pipeline == store[n].pipeline && m !in keep ::
          OwnsKeptRun(store, store[m].stage, store[m].pipeline, keep)
    {
      assert n in AfterPrune(store, repo, keep, {}) <==> store[n].pipeline !in pipelines;
    }
  }

  /** A branch whose pipeline moved from dev to qa: pruning dev deletes the only run of qa. */
  const MOVED: Store := map[
    "a" := Run("r", "dev", "p", 1, Unset, true, false, 0),
    "b" := Run("r", "dev", "q", 5, Unset, true, false, 1),
    "c" := Run("r", "qa", "p", 9, Unset, true, false, 2)]

  lemma MovedPipelineLosesProtectedRun()
    ensures IsProtected(MOVED, "r", 100, 1, {"b", "c"})
    ensures "c" !in AfterPrune(MOVED, "r", {"b", "c"}, {})
  {
    var keep := {"b", "c"};
    forall stage ensures IsProtectedIn(MOVED, "r", stage, 100, 1, keep) {
      var bucket := Bucket(MOVED, "r", stage);
      assert Newer(MOVED, bucket, 100) == {};
      if stage == "dev" {
        assert bucket == {"a", "b"} && keep * bucket == {"b"};
      } else if stage == "qa" {
        assert bucket == {"c"} && keep * bucket == {"c"};
      } else {
        assert bucket == {} && keep * bucket == {};
      }
    }
    assert MOVED["a"].stage in Stages(MOVED, "r");
    assert !OwnsKeptRun(MOVED, "dev", "p", keep);
    assert "p" in DoomedPipelines(MOVED, "r", Stages(MOVED, "r"), keep);
  }

  /* ---- Other clients between listing and deletions ---- */

  /** Runs in both stores have the labels they had. */
  ghost predicate SameLabels(store: Store, later: Store) {
    forall n | n in store && n in later :: store[n].repo == later[n].repo && store[n].pipeline == later[n].pipeline
  }

  /** Of the runs listed, exactly those given up go; of the runs created meanwhile, in whatever
      repository, exactly those of a pipeline given up. */
  lemma LateRuns(store: Store, later: Store, repo: string, cutoff: int, maxKeep: int, keep: set<string>)
    requires OneHome(store) && SameLabels(store, later) && IsProtected(store, repo, cutoff, maxKeep, keep)
    ensures forall n | n in later :: n in PrunedFrom(store, later, repo, keep, {}) <==>
      if n in store then (store[n].repo == repo ==> n in keep)
      else later[n].pipeline !in DoomedPipelines(store, repo, Stages(store, repo), keep)
  {
    PruneKeepsThePromise(store, repo, cutoff, maxKeep, keep);
    forall n | n in later && n in store
      ensures n in PrunedFrom(store, later, repo, keep, {}) <==> n in AfterPrune(store, repo, keep, {})
    {
    }
  }

  /** When others act only before the first deletion, the deletions together filter what they left. */
  lemma DeletionsTogether(store: Store, now: Contents, repo: string, keep: set<string>, plan: seq<Deletion>,
                          others: Others, refused: set<string>)
    requires IsPlan(plan, store, repo, Stages(store, repo), keep)
    requires forall j, c :: j > 0 ==> others(j, c) == c
    ensures var later := if plan == [] then now else others(0, now);
      Replayed(now, plan, others, 0, refused).runs == PrunedFrom(store, later.runs, repo, keep, refused)
  {
    ReplayedQuietly(now, plan, others, refused);
  }

  lemma OneMoreDeleted(later: Store, plan: seq<Deletion>, d: Deletion, refused: set<string>)
    ensures var before := Without(later, RunsIn(plan) - refused, PipelinesIn(plan) - refused);
      Without(later, RunsIn(plan + [d]) - refused, PipelinesIn(plan + [d]) - refused) ==
      if d.name in refused then before else Deleted(before, d)
  {
    PlansTogether(plan, [d]);
    assert RunsIn([d]) == if d.OfRun? then {d.name} else {};
    assert PipelinesIn([d]) == if d.OfPipeline? then {d.name} else {};
  }

  lemma {:induction false} ReplayedQuietly(now: Contents, plan: seq<Deletion>, others: Others, refused: set<string>)
    requires forall j, c :: j > 0 ==> others(j, c) == c
    ensures var later := if plan == [] then now else others(0, now);
      Replayed(now, plan, others, 0, refused).runs ==
      Without(later.runs, RunsIn(plan) - refused, PipelinesIn(plan) - refused)
    decreases |plan|
  {
    if plan != [] {
      var n := |plan| - 1;
      ReplayedQuietly(now, plan[..n], others, refused);
      assert plan == plan[..n] + [plan[n]];
      if n == 0 {
        assert plan[..n] == [] && Without(others(0, now).runs, {}, {}) == others(0, now).runs;
      }
      OneMoreDeleted(others(0, now).runs, plan[..n], plan[n], refused);
    }
  }

  /** A deletion takes run `n`, which belongs to `pipeline`. */
  predicate Hits(d: Deletion, n: string, pipeline: string) {
    d == OfRun(n) || d == OfPipeline(pipeline)
  }

  predicate HasRun(now: Contents, n: string, pipeline: string) {
    n in now.runs && now.runs[n].pipeline == pipeline
  }

  /** From their chance `k` on others neither delete the run nor create it again. */
  ghost predicate LeaveAlone(others: Others, k: nat, n: string, pipeline: string) {
    forall j, now :: k <= j ==>
      && (HasRun(now, n, pipeline) ==> HasRun(others(j, now), n, pipeline))
      && (n !in now.runs ==> n !in others(j, now).runs)
  }

  lemma FateInDeletion(before: Contents, d: Deletion, others: Others, k: nat, refused: set<string>, n: string,
                       pipeline: string)
    requires LeaveAlone(others, k, n, pipeline) && (n in before.runs ==> HasRun(before, n, pipeline))
    ensures var after := AfterDeletion(before, d, others, k, refused);
      && (n in after.runs ==> HasRun(after, n, pipeline))
      && (n in after.runs <==> n in before.runs && (d.name in refused || !Hits(d, n, pipeline)))
  {
  }

  /** Whatever others do to other runs, a run that is there when deletion `k` is due is left exactly if
      no deletion from then on hits it. */
  lemma {:induction false} FateOfRun(now: Contents, plan: seq<Deletion>, others: Others, refused: set<string>,
                                     k: nat, n: string, pipeline: string)
    requires k < |plan| && LeaveAlone(others, k + 1, n, pipeline)
    requires HasRun(others(k, Replayed(now, plan[..k], others, 0, refused)), n, pipeline)
    ensures var end := Replayed(now, plan, others, 0, refused);
      && (n in end.runs ==> HasRun(end, n, pipeline))
      && (n in end.runs <==> forall i | k <= i < |plan| :: plan[i].name in refused || !Hits(plan[i], n, pipeline))
    decreases |plan|
  {
    var last := |plan| - 1;
    if k < last {
      assert plan[..last][..k] == plan[..k];
      assert forall i | k <= i < last :: plan[..last][i] == plan[i];
      FateOfRun(now, plan[..last], others, refused, k, n, pipeline);
      FateInDeletion(Replayed(now, plan[..last], others, 0, refused), plan[last], others, last, refused, n, pipeline);
    }
  }

  /** No deletion of a plan hits a protected run or another repository, and one hits every run given
      up; a run created since the listing is hit exactly if its pipeline is given up. */
  lemma PlanHits(store: Store, repo: string, cutoff: int, maxKeep: int, keep: set<string>, plan: seq<Deletion>,
                 n: string, pipeline: string)
    requires OneHome(store) && IsProtected(store, repo, cutoff, maxKeep, keep)
    requires IsPlan(plan, store, repo, Stages(store, repo), keep)
    requires n in store ==> store[n].pipeline == pipeline
    ensures (exists d | d in plan :: Hits(d, n, pipeline)) <==>
      if n in store then store[n].repo == repo && n !in keep
      else pipeline in DoomedPipelines(store, repo, Stages(store, repo), keep)
  {
    PruneKeepsThePromise(store, repo, cutoff, maxKeep, keep);
    assert n in RunsIn(plan) <==> OfRun(n) in plan;
    assert pipeline in PipelinesIn(plan) <==> OfPipeline(pipeline) in plan;
    assert n in store ==> (n in AfterPrune(store, repo, keep, {}) <==> n in Retain(store, repo, keep));
  }

  /** So the newest run can be lost: "c" is created after the listing for a pipeline whose runs are
      all old. */
  const LISTED: Store := map[
    "a" := Run("r", "dev", "p", 1, Unset, true, false, 0),
    "b" := Run("r", "dev", "q", 5, Unset, true, false, 1)]
  const MEANWHILE: Store := LISTED["c" := Run("r", "dev", "p", 200, Unset, false, false, 2)]

  lemma ProtectedInListed()
    ensures IsProtected(LISTED, "r", 100, 1, {"b"})
  {
    forall stage ensures IsProtectedIn(LISTED, "r", stage, 100, 1, {"b"}) {
      var bucket := Bucket(LISTED, "r", stage);
      assert Newer(LISTED, bucket, 100) == {};
      if stage == "dev" {
        assert bucket == {"a", "b"} && {"b"} * bucket == {"b"};
      } else {
        assert bucket == {} && {"b"} * bucket == {};
      }
    }
  }

  lemma NewestRunLost()
    ensures IsProtected(LISTED, "r", 100, 1, {"b"}) && OneHome(MEANWHILE) && SameLabels(LISTED, MEANWHILE)
    ensures "c" !in PrunedFrom(LISTED, MEANWHILE, "r", {"b"}, {})
  {
    ProtectedInListed();
    assert LISTED["a"].stage in Stages(LISTED, "r");
    assert "p" in DoomedPipelines(LISTED, "r", Stages(LISTED, "r"), {"b"});
  }

  /* ---- The survivors by rank ---- */

  ghost predicate DistinctTimes(store: Store) {
    forall m, n | m in store && n in store && m != n :: store[m].created != store[n].created
  }

  /** How many runs of the same repository and stage are newer. */
  function Rank(store: Store, n: string): nat
    requires n in store
  {
    |Newer(store, Bucket(store, store[n].repo, store[n].stage), store[n].created)|
  }

  /** The policy in one line, with no sorting and no loops. */
  predicate Survives(store: Store, cutoff: int, maxKeep: int, n: string)
    requires n in store
  {
    store[n].created > cutoff || Rank(store, n) < maxKeep
  }

  function Survivors(store: Store, repo: string, cutoff: int, maxKeep: int): set<string> {
    set n | n in store && store[n].repo == repo && Survives(store, cutoff, maxKeep, n)
  }

  /** Being among the k newest is having a rank below k. */
  lemma KeptByRank(store: Store, bucket: set<string>, keep: set<string>, n: string)
    requires DistinctTimes(store) && bucket <= store.Keys && n in bucket && IsNewestPart(store, bucket, keep)
    ensures n in keep <==> |Newer(store, bucket, store[n].created)| < |keep|
  {
    var newer := Newer(store, bucket, store[n].created);
    if n in keep {
      forall m | m in newer ensures m in keep - {n} {
        assert store[m].created > store[n].created;
      }
      SubsetSize(newer, keep - {n});
    } else {
      assert keep <= newer;
      SubsetSize(keep, newer);
    }
  }

  lemma RankAgainstCutoff(store: Store, bucket: set<string>, cutoff: int, n: string)
    requires bucket <= store.Keys && n in bucket
    ensures |Newer(store, bucket, store[n].created)| < |bucket|
    ensures |Newer(store, bucket, store[n].created)| < |Newer(store, bucket, cutoff)| <==> store[n].created > cutoff
  {
    var newer, recent := Newer(store, bucket, store[n].created), Newer(store, bucket, cutoff);
    assert n !in newer;
    SubsetSize(newer, bucket);
    if store[n].created > cutoff {
      assert newer <= recent && n in recent;
      SubsetSize(newer, recent);
    } else {
      assert recent <= newer;
      SubsetSize(recent, newer);
    }
  }

  /** With distinct creation times there is only one choice of protected runs: the one by rank. */
  lemma ProtectedAreSurvivors(store: Store, repo: string, cutoff: int, maxKeep: int, keep: set<string>)
    requires DistinctTimes(store) && IsProtected(store, repo, cutoff, maxKeep, keep)
    ensures keep == Survivors(store, repo, cutoff, maxKeep)
  {
    forall n | n in store && store[n].repo == repo ensures n in keep <==> Survives(store, cutoff, maxKeep, n) {
      var bucket := Bucket(store, repo, store[n].stage);
      assert IsProtectedIn(store, repo, store[n].stage, cutoff, maxKeep, keep);
      KeptByRank(store, bucket, keep * bucket, n);
      RankAgainstCutoff(store, bucket, cutoff, n);
    }
  }

  /* ---- Pruning again later ---- */

  /** `added` are runs created after all of `store`. */
  ghost predicate AreLaterRuns(added: Store, store: Store) {
    && added.Keys !! store.Keys
    && forall m, n | m in added && n in store :: store[n].created < added[m].created
  }

  /** What the first prune has left of the newer ones is all of them, for every run it has left and
      for every run created since. */
  lemma RankAfterPrune(store: Store, added: Store, repo: string, cutoff: int, maxKeep: int, n: string)
    requires AreLaterRuns(added, store) && n in Retain(store, repo, Survivors(store, repo, cutoff, maxKeep)) + added
    requires (store + added)[n].repo == repo
    ensures var after := Retain(store, repo, Survivors(store, repo, cutoff, maxKeep)) + added;
      after[n] == (store + added)[n] && Rank(after, n) == Rank(store + added, n)
  {
    var all, after := store + added, Retain(store, repo, Survivors(store, repo, cutoff, maxKeep)) + added;
    var stage, t := all[n].stage, all[n].created;
    var newer := Newer(all, Bucket(all, repo, stage), t);
    forall m | m in newer ensures m in after {
      if m in store {
        assert n in store;
        var bucket := Bucket(store, repo, stage);
        SubsetSize(Newer(store, bucket, store[m].created), Newer(store, bucket, t));
      }
    }
    assert newer == Newer(after, Bucket(after, repo, stage), t);
  }

  /** A run the first prune has given up would not survive the second. */
  lemma GivenUpForGood(store: Store, added: Store, repo: string, cutoff1: int, cutoff2: int, maxKeep: int, n: string)
    requires AreLaterRuns(added, store) && cutoff1 <= cutoff2
    requires n in store && store[n].repo == repo && !Survives(store, cutoff1, maxKeep, n)
    ensures !Survives(store + added, cutoff2, maxKeep, n)
  {
    var all, stage, t := store + added, store[n].stage, store[n].created;
    SubsetSize(Newer(store, Bucket(store, repo, stage), t), Newer(all, Bucket(all, repo, stage), t));
  }

  lemma SurvivorsCompose(store: Store, added: Store, repo: string, cutoff1: int, cutoff2: int, maxKeep: int)
    requires AreLaterRuns(added, store) && cutoff1 <= cutoff2
    ensures var after := Retain(store, repo, Survivors(store, repo, cutoff1, maxKeep)) + added;
      Survivors(after, repo, cutoff2, maxKeep) == Survivors(store + added, repo, cutoff2, maxKeep)
  {
    var all, after := store + added, Retain(store, repo, Survivors(store, repo, cutoff1, maxKeep)) + added;
    forall n ensures n in Survivors(after, repo, cutoff2, maxKeep) <==> n in Survivors(all, repo, cutoff2, maxKeep) {
      if n in all && all[n].repo == repo {
        if n in after {
          RankAfterPrune(store, added, repo, cutoff1, maxKeep, n);
        } else {
          GivenUpForGood(store, added, repo, cutoff1, cutoff2, maxKeep, n);
        }
      }
    }
  }

  /** Pruning at one time and again later leaves what only pruning later leaves, whatever runs are
      created in between: repeated pruning never erodes the floor of MaxKeepRuns. */
  lemma PruneComposes(store: Store, added: Store, repo: string, cutoff1: int, cutoff2: int, maxKeep: int,
                      keep1: set<string>, keep12: set<string>, keep2: set<string>)
    requires AreLaterRuns(added, store) && cutoff1 <= cutoff2
    requires OneHome(store + added) && DistinctTimes(store + added)
    requires IsProtected(store, repo, cutoff1, maxKeep, keep1)
    requires IsProtected(AfterPrune(store, repo, keep1, {}) + added, repo, cutoff2, maxKeep, keep12)
    requires IsProtected(store + added, repo, cutoff2, maxKeep, keep2)
    ensures AfterPrune(AfterPrune(store, repo, keep1, {}) + added, repo, keep12, {}) ==
            AfterPrune(store + added, repo, keep2, {})
  {
    var all, after := store + added, AfterPrune(store, repo, keep1, {}) + added;
    PartOfHomes(all, store);
    PruneKeepsThePromise(store, repo, cutoff1, maxKeep, keep1);
    ProtectedAreSurvivors(store, repo, cutoff1, maxKeep, keep1);
    PartOfHomes(all, after);
    ProtectedAreSurvivors(after, repo, cutoff2, maxKeep, keep12);
    ProtectedAreSurvivors(all, repo, cutoff2, maxKeep, keep2);
    SurvivorsCompose(store, added, repo, cutoff1, cutoff2, maxKeep);
    PruneKeepsThePromise(after, repo, cutoff2, maxKeep, keep12);
    PruneKeepsThePromise(all, repo, cutoff2, maxKeep, keep2);
    SurvivorsAreLeft(store, added, repo, cutoff1, cutoff2, maxKeep);
  }

  lemma PartOfHomes(all: Store, part: Store)
    requires OneHome(all) && DistinctTimes(all) && forall n | n in part :: n in all && part[n] == all[n]
    ensures OneHome(part) && DistinctTimes(part)
  {
  }

  lemma SurvivorsAreLeft(store: Store, added: Store, repo: string, cutoff1: int, cutoff2: int, maxKeep: int)
    requires AreLaterRuns(added, store) && cutoff1 <= cutoff2
    ensures var after := Retain(store, repo, Survivors(store, repo, cutoff1, maxKeep)) + added;
      var survivors := Survivors(store + added, repo, cutoff2, maxKeep);
      Retain(after, repo, survivors) == Retain(store + added, repo, survivors)
  {
    forall n | n in store && store[n].repo == repo && !Survives(store, cutoff1, maxKeep, n)
      ensures !Survives(store + added, cutoff2, maxKeep, n)
    {
      GivenUpForGood(store, added, repo, cutoff1, cutoff2, maxKeep, n);
    }
  }
}
