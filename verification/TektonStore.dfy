/** The Tekton resources the manager works on, as an object with the calls it makes. */
module TektonStore {
  import opened PipelineRuns
  import opened QueueProtocol

  /** The store behind the Tekton client. */
  class Tekton {
    var runs: Store
    var nextVersion: nat
    var clock: int
    /** Which runs began to execute, in order; nothing the manager does reads it. */
    var history: seq<Started>

    constructor (runs: Store, nextVersion: nat, clock: int)
      ensures this.runs == runs && this.nextVersion == nextVersion && this.clock == clock && history == []
    {
      this.runs, this.nextVersion, this.clock, this.history := runs, nextVersion, clock, [];
    }

    function Now(): Contents
      reads this
    {
      Contents(runs, nextVersion, clock, history)
    }

    method ListPipelineRuns(repo: string) returns (items: seq<Item>)
      ensures IsListing(items, runs, repo)
    {
      items := [];
      var names := runs.Keys;
      while names != {}
        invariant names <= runs.Keys
        invariant forall i | 0 <= i < |items| ::
          && items[i].name in runs && items[i].name !in names
          && runs[items[i].name] == items[i].run && items[i].run.repo == repo
        invariant forall i, j | 0 <= i < j < |items| :: items[i].name != items[j].name
        invariant forall n | n in runs && n !in names && runs[n].repo == repo ::
          exists i | 0 <= i < |items| :: items[i].name == n
        decreases names
      {
        var n :| n in names;
        ghost var before := items;
        if runs[n].repo == repo {
          items := items + [Item(n, runs[n])];
          assert items[|before|].name == n;
        }
        assert forall i | 0 <= i < |before| :: items[i] == before[i];
        names := names - {n};
      }
    }

    /** Stores a new run unless its name is taken. */
    method CreatePipelineRun(name: string, run: Run, outcome: Outcome) returns (ok: bool)
      modifies this
      ensures ok <==> outcome.Works? && name !in old(runs)
      ensures Now() == if outcome.Fails? || name in old(runs) then old(Now()) else Created(old(Now()), name, run)
    {
      ok := outcome.Works? && name !in runs;
      if !outcome.Fails? && name !in runs {
        runs := runs[name := run.(version := nextVersion)];
        nextVersion := nextVersion + 1;
        if !run.IsPending() {
          history := history + [Started(run.repo, run.created)];
        }
      }
    }

    /** Replaces a run if it is still at the version the caller read; used to remove the pending status. */
    method UpdatePipelineRun(name: string, run: Run, outcome: Outcome) returns (ok: bool)
      requires !run.IsPending()
      modifies this
      ensures ok <==> outcome.Works? && Unchanged(old(runs), name, run.version)
      ensures Now() == if outcome.Fails? || !Unchanged(old(runs), name, run.version) then old(Now())
                       else Created(old(Now()), name, run)
    {
      var current := name in runs && runs[name].version == run.version;
      ok := outcome.Works? && current;
      if !outcome.Fails? && current {
        runs := runs[name := run.(version := nextVersion)];
        nextVersion := nextVersion + 1;
        history := history + [Started(run.repo, run.created)];
      }
    }

    method DeletePipelineRun(name: string)
      modifies this
      ensures runs == old(runs) - {name}
      ensures Now() == old(Now()).(runs := runs)
    {
      runs := runs - {name};
    }

    /** Deletes a pipeline and, by propagation, every run of it. */
    method DeletePipeline(pipeline: string)
      modifies this
      ensures runs == map n | n in old(runs) && old(runs)[n].pipeline != pipeline :: old(runs)[n]
      ensures Now() == old(Now()).(runs := runs)
    {
      runs := map n | n in runs && runs[n].pipeline != pipeline :: runs[n];
    }

    /** Other clients were at work: the store has become `later`. */
    method BecomesLater(later: Contents)
      modifies this
      ensures Now() == later
    {
      runs, nextVersion, clock, history := later.runs, later.nextVersion, later.clock, later.history;
    }
  }

  /** What the store holds at some time. */
  datatype Contents = Contents(runs: Store, nextVersion: nat, clock: int, history: seq<Started>)

  /** What other clients make of the store in their `n`-th chance to act. */
  type Others = (nat, Contents) -> Contents

  /** How a call that writes ends: it can also take effect and be reported as failed. */
  datatype Outcome = Works | Fails | Lost

  /** A run written under a new version; it executes from then on unless it is pending. */
  function Created(now: Contents, name: string, run: Run): Contents {
    Contents(now.runs[name := run.(version := now.nextVersion)], now.nextVersion + 1, now.clock,
             if run.IsPending() then now.history else now.history + [Started(run.repo, run.created)])
  }
}
