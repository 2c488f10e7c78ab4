/** Pipeline runs as the manager sees them (internal/manager/pipeline.go): the fields its
    decisions read, the listing of one repository, and the in-place sort by creation time. */
module PipelineRuns {

  /** spec.status as far as the manager distinguishes it. */
  datatype SpecStatus = Unset | Pending | Cancelled

  datatype Run = Run(
    repo: string,
    stage: string,
    pipeline: string,
    created: int,
    status: SpecStatus,
    done: bool,
    timedOut: bool,
    version: nat)
  {
    predicate IsPending() {
      status.Pending?
    }

    predicate IsProgressing() {
      !(done || status.Pending? || status.Cancelled? || timedOut)
    }
  }

  /** The external store: run name to run. */
  type Store = map<string, Run>

  datatype Item = Item(name: string, run: Run)

  function PendingNames(store: Store, repo: string): set<string> {
    set n | n in store && store[n].repo == repo && store[n].IsPending()
  }

  /** No run of `repo` is executing. */
  predicate Quiet(store: Store, repo: string) {
    forall n | n in store && store[n].repo == repo :: !store[n].IsProgressing()
  }

  /** No run of `repo` is executing and none is waiting: a new run may start at once. */
  predicate Idle(store: Store, repo: string) {
    forall n | n in store && store[n].repo == repo :: !store[n].IsProgressing() && !store[n].IsPending()
  }

  /** `items` lists exactly the runs of `repo`, each once, in any order. */
  ghost predicate IsListing(items: seq<Item>, store: Store, repo: string) {
    && (forall i | 0 <= i < |items| ::
          items[i].name in store && store[items[i].name] == items[i].run && items[i].run.repo == repo)
    && (forall i, j | 0 <= i < j < |items| :: items[i].name != items[j].name)
    && (forall n | n in store && store[n].repo == repo :: exists i | 0 <= i < |items| :: items[i].name == n)
  }

  ghost predicate Descending(items: seq<Item>) {
    forall i, j | 0 <= i < j < |items| :: items[i].run.created >= items[j].run.created
  }

  /** `n` is a pending run of `repo` and none is older; the sort is not stable, so which of
      several equally old runs comes last is open. */
  ghost predicate IsOldestPending(store: Store, repo: string, n: string) {
    && n in PendingNames(store, repo)
    && forall m | m in PendingNames(store, repo) :: store[n].created <= store[m].created
  }

  /** Sorting in place; like the library sort, only order and permutation are promised. */
  method SortDescending(a: array<Item>)
    modifies a
    ensures Descending(a[..])
    ensures multiset(a[..]) == multiset(old(a[..]))
  {
    for i := 0 to a.Length
      invariant Descending(a[..i])
      invariant multiset(a[..]) == multiset(old(a[..]))
    {
      SinkInto(a, i);
    }
    assert a[..] == a[..a.Length];
  }

  /** One insertion: moves a[i] forward past every older run before it. */
  method SinkInto(a: array<Item>, i: nat)
    requires i < a.Length && Descending(a[..i])
    modifies a
    ensures Descending(a[..i + 1])
    ensures multiset(a[..]) == multiset(old(a[..]))
  {
    var j := i;
    assert forall p, q | 0 <= p < q < i :: a[..i][p].run.created >= a[..i][q].run.created;
    while j > 0 && a[j - 1].run.created < a[j].run.created
      invariant 0 <= j <= i
      invariant forall p, q | 0 <= p < q <= i && q != j :: a[p].run.created >= a[q].run.created
      invariant multiset(a[..]) == multiset(old(a[..]))
    {
      Swap(a, j);
      j := j - 1;
    }
  }

  method Swap(a: array<Item>, j: nat)
    requires 0 < j < a.Length
    modifies a
    ensures a[..] == old(a[..])[j - 1 := old(a[j])][j := old(a[j - 1])]
    ensures multiset(a[..]) == multiset(old(a[..]))
  {
    a[j - 1], a[j] := a[j], a[j - 1];
  }
}
