/** How fast a queue empties: without new triggers and with successful calls, every tick on a
    repository that executes nothing starts exactly its oldest pending run, and a queue of n runs
    is empty and inactive after n rounds of completion and tick. */
module QueueDrain {
  import opened PipelineRuns
  import opened QueueProtocol
  import opened QueueGuarantees
  import opened SetSizes

  function Length(s: State, repo: string): nat {
    |PendingNames(s.store, repo)|
  }

  /** How many starts of runs of `repo` the history records. */
  function Starts(history: seq<Started>, repo: string): nat {
    if history == [] then 0
    else Starts(history[..|history| - 1], repo) + if history[|history| - 1].repo == repo then 1 else 0
  }

  /** One advanceQueue call of the machine that nothing interferes with: list, update, report. */
  function Visit(s: State, d: Decision): State
    requires Enabled(s, WatcherList(d))
  {
    var listed := Apply(s, WatcherList(d));
    Apply(if d.Start? then Apply(listed, WatcherUpdate) else listed, WatcherReturn)
  }

  /** The rest of a tick: every remaining queue visited in order, then the timer. */
  ghost predicate Visits(s: State, s': State)
    requires s.watcher.Advancing?
    decreases |s.watcher.todo|
  {
    if s.watcher.todo == [] then
      s' == Apply(s, WatcherEndTick)
    else
      exists d :: Enabled(s, WatcherList(d)) && Visits(Visit(s, d), s')
  }

  /** Everything that executed has come to an end; nothing that waits was touched. */
  ghost predicate Completed(s: State, q: State) {
    && q == s.(store := q.store, nextVersion := q.nextVersion)
    && q.store.Keys == s.store.Keys
    && (forall n | n in s.store ::
          && q.store[n].repo == s.store[n].repo
          && q.store[n].created == s.store[n].created
          && q.store[n].status == s.store[n].status
          && !q.store[n].IsProgressing())
  }

  /** One round: what executes completes, then the timer, if armed, fires once. */
  ghost predicate Round(s: State, s': State) {
    && s.watcher.Selecting?
    && exists q :: Completed(s, q) && Fires(q, s')
  }

  ghost predicate Fires(q: State, s': State)
    requires q.watcher.Selecting?
  {
    if q.timerArmed then
      exists order :: Enabled(q, WatcherTick(order)) && Visits(Apply(q, WatcherTick(order)), s')
    else
      s' == q
  }

  function Less(n: nat, k: nat): nat {
    if n <= k then 0 else n - k
  }

  /** Queues, store and history after a visit. */
  ghost predicate Visited(s: State, d: Decision, s': State)
    requires Enabled(s, WatcherList(d))
  {
    var repo := s.watcher.todo[0];
    && s'.watcher == Advancing(s.watcher.todo[1..])
    && s'.queues == (if d.remaining == 0 then s.queues[repo := false] else s.queues)
    && if d.Leave? then s'.store == s.store && s'.history == s.history
       else
         var run := s.store[d.pick];
         && s'.store == s.store[d.pick := run.(status := Unset, version := s.nextVersion)]
         && s'.history == s.history + [Started(run.repo, run.created)]
  }

  lemma VisitMeaning(s: State, d: Decision)
    requires Enabled(s, WatcherList(d))
    ensures Visited(s, d, Visit(s, d))
  {
  }

  lemma VisitedOwn(s: State, d: Decision, s': State)
    requires Enabled(s, WatcherList(d)) && Visited(s, d, s')
    ensures var repo := s.watcher.todo[0];
      && (Quiet(s.store, repo) ==>
            && Length(s', repo) == Less(Length(s, repo), 1)
            && Starts(s'.history, repo) == Starts(s.history, repo) + Length(s, repo) - Length(s', repo))
      && (Active(s', repo) <==> Active(s, repo) && Length(s', repo) > 0)
  {
    var repo := s.watcher.todo[0];
    if d.Start? {
      assert PendingNames(s'.store, repo) == PendingNames(s.store, repo) - {d.pick};
      assert s'.history[..|s'.history| - 1] == s.history;
    }
  }

  lemma VisitedOther(s: State, d: Decision, s': State, q: string)
    requires Enabled(s, WatcherList(d)) && Visited(s, d, s') && q != s.watcher.todo[0]
    ensures PendingNames(s'.store, q) == PendingNames(s.store, q)
    ensures Starts(s'.history, q) == Starts(s.history, q)
    ensures Active(s', q) <==> Active(s, q)
    ensures Quiet(s'.store, q) <==> Quiet(s.store, q)
  {
    if d.Start? {
      assert s.store[d.pick].repo != q && s'.store[d.pick].repo != q;
      assert forall n | n in s.store && n != d.pick :: s'.store[n] == s.store[n];
      assert s'.history[..|s'.history| - 1] == s.history;
    }
  }

  /** What one visit does to the visited queue. */
  lemma VisitOwnEffect(s: State, d: Decision)
    requires Enabled(s, WatcherList(d))
    ensures var s', repo := Visit(s, d), s.watcher.todo[0];
      && s'.watcher == Advancing(s.watcher.todo[1..])
      && (Quiet(s.store, repo) ==>
            && Length(s', repo) == Less(Length(s, repo), 1)
            && Starts(s'.history, repo) == Starts(s.history, repo) + Length(s, repo) - Length(s', repo))
      && (Active(s', repo) <==> Active(s, repo) && Length(s', repo) > 0)
  {
    VisitMeaning(s, d);
    VisitedOwn(s, d, Visit(s, d));
  }

  /** What it does to every other: nothing. */
  lemma VisitOtherEffect(s: State, d: Decision, q: string)
    requires Enabled(s, WatcherList(d)) && q != s.watcher.todo[0]
    ensures var s' := Visit(s, d);
      && PendingNames(s'.store, q) == PendingNames(s.store, q)
      && Starts(s'.history, q) == Starts(s.history, q)
      && (Active(s', q) <==> Active(s, q))
      && (Quiet(s'.store, q) <==> Quiet(s.store, q))
  {
    VisitMeaning(s, d);
    VisitedOther(s, d, Visit(s, d), q);
  }

  lemma VisitKeeps(s: State, d: Decision)
    requires TickInv(s) && Enabled(s, WatcherList(d))
    requires forall r | r in s.watcher.todo :: Quiet(s.store, r)
    ensures TickInv(Visit(s, d))
    ensures forall r | r in s.watcher.todo[1..] :: r != s.watcher.todo[0] && Quiet(Visit(s, d).store, r)
  {
    var listed := Apply(s, WatcherList(d));
    TickStep(s, WatcherList(d));
    if d.Start? {
      TickStep(listed, WatcherUpdate);
      TickStep(Apply(listed, WatcherUpdate), WatcherReturn);
    } else {
      TickStep(listed, WatcherReturn);
    }
    var left := Unvisited(s.watcher);
    forall r | r in s.watcher.todo[1..] ensures r != s.watcher.todo[0] && Quiet(Visit(s, d).store, r) {
      var i :| 1 <= i < |left| && left[i] == r;
      assert left[0] != left[i] && r in s.watcher.todo;
      VisitOtherEffect(s, d, r);
    }
  }

  /** What becomes of queue `q` when it is due in a tick, or not. */
  ghost predicate Shortened(s: State, s': State, q: string, due: bool) {
    && Length(s', q) == (if due then Less(Length(s, q), 1) else Length(s, q))
    && (Active(s', q) <==> Active(s, q) && (due ==> Length(s', q) > 0))
    && Starts(s'.history, q) == Starts(s.history, q) + Length(s, q) - Length(s', q)
  }

  lemma VisitShortens(s: State, d: Decision, q: string)
    requires Enabled(s, WatcherList(d)) && Quiet(s.store, s.watcher.todo[0])
    ensures Shortened(s, Visit(s, d), q, q == s.watcher.todo[0])
  {
    VisitOwnEffect(s, d);
    if q != s.watcher.todo[0] {
      VisitOtherEffect(s, d, q);
    }
  }

  lemma ShortenedOnce(s: State, t: State, s': State, q: string, now: bool, later: bool)
    requires Shortened(s, t, q, now) && Shortened(t, s', q, later) && !(now && later)
    ensures Shortened(s, s', q, now || later)
  {
  }

  /** One visit and the rest of its tick. */
  lemma TickSplit(s: State, s': State, q: string) returns (t: State)
    requires s.watcher.Advancing? && s.watcher.todo != [] && Visits(s, s') && TickInv(s)
    requires forall r | r in s.watcher.todo :: Quiet(s.store, r)
    ensures t.watcher == Advancing(s.watcher.todo[1..]) && Visits(t, s') && TickInv(t)
    ensures forall r | r in t.watcher.todo :: r != s.watcher.todo[0] && Quiet(t.store, r)
    ensures Shortened(s, t, q, q == s.watcher.todo[0])
  {
    var d :| Enabled(s, WatcherList(d)) && Visits(Visit(s, d), s');
    t := Visit(s, d);
    VisitKeeps(s, d);
    VisitShortens(s, d, q);
    VisitMeaning(s, d);
  }

  lemma TickEnds(s: State, s': State, q: string)
    requires s.watcher.Advancing? && s.watcher.todo == [] && Visits(s, s') && TickInv(s)
    ensures TickInv(s') && s'.watcher.Selecting?
    ensures Shortened(s, s', q, false)
  {
    TickStep(s, WatcherEndTick);
  }

  /** A whole tick over quiet repositories shortens every visited queue by one and switches off
      exactly the ones that became empty. */
  lemma {:induction false} TickEffect(s: State, s': State, q: string)
    requires s.watcher.Advancing? && Visits(s, s') && TickInv(s)
    requires forall r | r in s.watcher.todo :: Quiet(s.store, r)
    ensures TickInv(s') && s'.watcher.Selecting?
    ensures Shortened(s, s', q, q in s.watcher.todo)
    decreases |s.watcher.todo|
  {
    var todo := s.watcher.todo;
    if todo == [] {
      TickEnds(s, s', q);
    } else {
      var t := TickSplit(s, s', q);
      TickEffect(t, s', q);
      ShortenedOnce(s, t, s', q, q == todo[0], q in todo[1..]);
      assert q in todo <==> q == todo[0] || q in todo[1..];
    }
  }

  lemma ArmedRound(s: State, order: seq<string>, s': State, q: string)
    requires TickInv(s) && Enabled(s, WatcherTick(order)) && Visits(Apply(s, WatcherTick(order)), s')
    requires forall n | n in s.store :: !s.store[n].IsProgressing()
    ensures TickInv(s') && s'.watcher.Selecting?
    ensures Shortened(s, s', q, Active(s, q))
  {
    TickStep(s, WatcherTick(order));
    TickEffect(Apply(s, WatcherTick(order)), s', q);
    assert q in order <==> Active(s, q);
  }

  lemma CompletedEffect(s: State, mid: State, q: string)
    requires TickInv(s) && Completed(s, mid)
    ensures TickInv(mid) && mid.watcher == s.watcher && mid.timerArmed == s.timerArmed && mid.queues == s.queues
    ensures forall n | n in mid.store :: !mid.store[n].IsProgressing()
    ensures Shortened(s, mid, q, false)
  {
    assert PendingNames(mid.store, q) == PendingNames(s.store, q);
  }

  lemma FiresEffect(mid: State, s': State, q: string)
    requires TickInv(mid) && mid.watcher.Selecting? && Fires(mid, s')
    requires forall n | n in mid.store :: !mid.store[n].IsProgressing()
    ensures TickInv(s') && s'.watcher.Selecting?
    ensures Shortened(mid, s', q, Active(mid, q))
  {
    if mid.timerArmed {
      var order :| Enabled(mid, WatcherTick(order)) && Visits(Apply(mid, WatcherTick(order)), s');
      ArmedRound(mid, order, s', q);
    }
  }

  lemma RoundEffect(s: State, s': State, q: string)
    requires TickInv(s) && Round(s, s')
    ensures TickInv(s') && s'.watcher.Selecting?
    ensures Shortened(s, s', q, Active(s, q))
  {
    var mid :| Completed(s, mid) && Fires(mid, s');
    CompletedEffect(s, mid, q);
    FiresEffect(mid, s', q);
    ShortenedOnce(s, mid, s', q, false, Active(s, q));
  }

  /** Rounds in a row, no trigger in between. */
  ghost predicate Rounds(trace: seq<State>) {
    && trace != []
    && trace[0].watcher.Selecting?
    && TickInv(trace[0])
    && forall i | 0 <= i < |trace| - 1 :: Round(trace[i], trace[i + 1])
  }

  /** Exact progress: after k rounds a queue that was active has lost, and its repository has
      started, min(n, k) runs; it is still active precisely while something waits in it. */
  lemma {:induction false} DrainExactly(trace: seq<State>, k: nat, q: string)
    requires Rounds(trace) && k < |trace| && Active(trace[0], q)
    ensures trace[k].watcher.Selecting? && TickInv(trace[k])
    ensures Length(trace[k], q) == Less(Length(trace[0], q), k)
    ensures Starts(trace[k].history, q) == Starts(trace[0].history, q) + Length(trace[0], q) - Length(trace[k], q)
    ensures k > 0 ==> (Active(trace[k], q) <==> Length(trace[k], q) > 0)
  {
    if k > 0 {
      DrainExactly(trace, k - 1, q);
      assert Round(trace[k - 1], trace[(k - 1) + 1]);
      RoundEffect(trace[k - 1], trace[k], q);
    }
  }

  lemma {:induction false} InactiveStays(trace: seq<State>, k: nat, q: string)
    requires Rounds(trace) && k < |trace| && !Active(trace[0], q)
    ensures trace[k].watcher.Selecting? && TickInv(trace[k])
    ensures Length(trace[k], q) == Length(trace[0], q) && !Active(trace[k], q)
  {
    if k > 0 {
      InactiveStays(trace, k - 1, q);
      assert Round(trace[k - 1], trace[(k - 1) + 1]);
      RoundEffect(trace[k - 1], trace[k], q);
    }
  }

  /** From a state that has forgotten nothing and has no message under way, as many rounds as the
      longest queue is long start every pending run of every repository and leave no queue active. */
  lemma EverythingStarts(trace: seq<State>)
    requires Rounds(trace) && Awake(trace[0])
    requires trace[0].channel == [] && trace[0].bootTodo == {} && !trace[0].scheduler.Sending?
    requires |trace| > 1 && forall q :: Length(trace[0], q) < |trace|
    ensures var end := trace[|trace| - 1];
      && (forall n | n in end.store :: !end.store[n].IsPending())
      && !HasActive(end.queues)
  {
    var k := |trace| - 1;
    forall q ensures PendingNames(trace[k].store, q) == {} && !Active(trace[k], q) {
      if Active(trace[0], q) {
        DrainExactly(trace, k, q);
      } else {
        InactiveStays(trace, k, q);
        assert forall n | n in trace[0].store && trace[0].store[n].IsPending() ::
          Active(trace[0], trace[0].store[n].repo);
        assert PendingNames(trace[0].store, q) == {};
      }
    }
    forall n | n in trace[k].store ensures !trace[k].store[n].IsPending() {
      assert n !in PendingNames(trace[k].store, trace[k].store[n].repo);
    }
    forall q | q in trace[k].queues ensures !trace[k].queues[q] {
      assert !Active(trace[k], q);
    }
  }

  lemma {:induction false} VisitsExist(s: State)
    requires s.watcher.Advancing?
    ensures exists s' :: Visits(s, s')
    decreases |s.watcher.todo|
  {
    if s.watcher.todo == [] {
      assert Visits(s, Apply(s, WatcherEndTick));
    } else {
      DecisionExists(s.store, s.watcher.todo[0]);
      var d :| IsDecision(s.store, s.watcher.todo[0], d);
      assert Enabled(s, WatcherList(d));
      VisitOwnEffect(s, d);
      VisitsExist(Visit(s, d));
      var s' :| Visits(Visit(s, d), s');
      assert Visits(s, s');
    }
  }

  /** A round is always possible, whatever runs are waiting. */
  lemma RoundExists(s: State)
    requires s.watcher.Selecting?
    ensures exists s' :: Round(s, s')
  {
    var q := s.(store := map n | n in s.store :: s.store[n].(done := true));
    assert Completed(s, q);
    if q.timerArmed {
      var active := set r | r in q.queues && q.queues[r];
      EnumerationExists(active);
      var order: seq<string> :| Distinct(order) && forall r :: r in order <==> r in active;
      assert forall i | 0 <= i < |order| :: order[i] in order;
      assert IsActiveOrder(q, order);
      assert Enabled(q, WatcherTick(order));
      VisitsExist(Apply(q, WatcherTick(order)));
      var s' :| Visits(Apply(q, WatcherTick(order)), s');
      assert Fires(q, s') && Round(s, s');
    } else {
      assert Fires(q, q) && Round(s, q);
    }
  }

  /* ---- Waiting while other runs arrive ---- */

  predicate Waits(s: State, n: string) {
    n in s.store && s.store[n].IsPending()
  }

  /** The pending runs of its repository that run `n` may have to wait for: those not created later. */
  function AheadOf(s: State, n: string): set<string>
    requires n in s.store
  {
    set m | m in PendingNames(s.store, s.store[n].repo) && m != n && s.store[m].created <= s.store[n].created
  }

  /** Between two ticks anything may happen, except that `n` goes on waiting with its queue active and
      nothing gets ahead of it. */
  ghost predicate KeepsPlace(s: State, s': State, n: string) {
    && Waits(s, n) && Waits(s', n)
    && s'.store[n].repo == s.store[n].repo && s'.store[n].created == s.store[n].created
    && AheadOf(s', n) <= AheadOf(s, n)
    && (Active(s, s.store[n].repo) ==> Active(s', s.store[n].repo))
  }

  lemma KeepsPlaceOn(s: State, mid: State, s': State, n: string)
    requires KeepsPlace(s, mid, n) && KeepsPlace(mid, s', n)
    ensures KeepsPlace(s, s', n)
  {
  }

  /** No step but a restart or a tick makes it lose its place as long as it waits, and runs created
      at a later time than its own do not get ahead. */
  lemma StepKeepsPlace(s: State, step: Step, n: string)
    requires Waits(s, n) && s.watcher.Selecting? && Enabled(s, step) && !step.WatcherTick? && !step.Restart?
    requires IsCreate(step) ==> s.store[n].created < s.clock
    requires Waits(Apply(s, step), n)
    ensures KeepsPlace(s, Apply(s, step), n) && Apply(s, step).watcher.Selecting?
  {
    var s' := Apply(s, step);
    if IsWorldStep(step) {
      WorldKeepsRuns(s, step);
    } else if IsCreate(step) {
      assert forall m | m in s'.store && m != step.name :: m in s.store && s'.store[m] == s.store[m];
    } else {
      assert s'.store == s.store;
    }
  }

  lemma WorldKeepsRuns(s: State, step: Step)
    requires Enabled(s, step) && IsWorldStep(step)
    ensures var s' := Apply(s, step);
      && s'.watcher == s.watcher && s'.queues == s.queues
      && forall m | m in s'.store ::
           && m in s.store && s'.store[m].repo == s.store[m].repo && s'.store[m].created == s.store[m].created
           && (s'.store[m].IsPending() ==> s.store[m].IsPending())
  {
  }

  /** One round with arrivals: `n` keeps its place until nothing of its repository executes, then the
      timer fires. */
  ghost predicate BusyRound(s: State, s': State, n: string) {
    exists mid ::
      && KeepsPlace(s, mid, n) && Quiet(mid.store, mid.store[n].repo)
      && TickInv(mid) && mid.watcher.Selecting? && Fires(mid, s')
  }

  /** It has been started. */
  predicate HasStarted(s: State, n: string) {
    n in s.store && s.store[n].status.Unset?
  }

  /** `n` has come nearer, or has started. */
  ghost predicate Advances(s: State, s': State, n: string, due: bool)
    requires n in s.store
  {
    || HasStarted(s', n)
    || (&& KeepsPlace(s, s', n)
        && |AheadOf(s', n)| + (if due then 1 else 0) <= |AheadOf(s, n)|)
  }

  /** The queue of `n` is visited: its oldest run starts, which is `n` or one ahead of it. */
  lemma VisitedWaiting(s: State, d: Decision, s': State, n: string)
    requires Enabled(s, WatcherList(d)) && Visited(s, d, s') && Waits(s, n)
    requires s.store[n].repo == s.watcher.todo[0] && Quiet(s.store, s.store[n].repo)
    ensures Advances(s, s', n, true)
  {
    var repo := s.store[n].repo;
    assert n in PendingNames(s.store, repo);
    assert d.Start?;
    if d.pick != n {
      assert d.pick in AheadOf(s, n);
      assert AheadOf(s', n) == AheadOf(s, n) - {d.pick};
      assert {d.pick, n} <= PendingNames(s.store, repo);
      AtLeastTwo(PendingNames(s.store, repo), d.pick, n);
    }
  }

  lemma AtLeastTwo(names: set<string>, m: string, n: string)
    requires m in names && n in names && m != n
    ensures |names| >= 2
  {
    assert n in names - {m} && |names - {m}| == |names| - 1;
  }

  lemma VisitedElsewhere(s: State, d: Decision, s': State, n: string)
    requires Enabled(s, WatcherList(d)) && Visited(s, d, s') && n in s.store && s.store[n].repo != s.watcher.todo[0]
    ensures n in s'.store && s'.store[n] == s.store[n]
    ensures Waits(s, n) ==> KeepsPlace(s, s', n) && AheadOf(s', n) == AheadOf(s, n)
    ensures Quiet(s'.store, s.store[n].repo) <==> Quiet(s.store, s.store[n].repo)
  {
    VisitedOther(s, d, s', s.store[n].repo);
    assert d.Start? ==> s.store[d.pick].repo == s.watcher.todo[0];
    assert forall m | m in s.store && s.store[m].repo == s.store[n].repo :: s'.store[m] == s.store[m];
  }

  lemma VisitKeepsTick(s: State, d: Decision)
    requires TickInv(s) && Enabled(s, WatcherList(d))
    ensures TickInv(Visit(s, d)) && s.watcher.todo[0] !in s.watcher.todo[1..]
  {
    var listed := Apply(s, WatcherList(d));
    TickStep(s, WatcherList(d));
    if d.Start? {
      TickStep(listed, WatcherUpdate);
      TickStep(Apply(listed, WatcherUpdate), WatcherReturn);
    } else {
      TickStep(listed, WatcherReturn);
    }
    assert forall i | 1 <= i < |s.watcher.todo| :: s.watcher.todo[0] != s.watcher.todo[i];
  }

  /** The rest of a tick that does not visit the repository of `n` leaves it where it is. */
  lemma {:induction false} RestOfTick(s: State, s': State, n: string)
    requires s.watcher.Advancing? && Visits(s, s') && TickInv(s)
    requires n in s.store && s.store[n].repo !in s.watcher.todo
    ensures TickInv(s') && s'.watcher.Selecting?
    ensures n in s'.store && s'.store[n] == s.store[n]
    ensures Waits(s, n) ==> KeepsPlace(s, s', n) && AheadOf(s', n) == AheadOf(s, n)
    decreases |s.watcher.todo|
  {
    if s.watcher.todo == [] {
      TickStep(s, WatcherEndTick);
    } else {
      var t := VisitFirst(s, s', n);
      RestOfTick(t, s', n);
    }
  }

  /** One visit of another queue and the rest of the tick. */
  lemma VisitFirst(s: State, s': State, n: string) returns (t: State)
    requires s.watcher.Advancing? && s.watcher.todo != [] && Visits(s, s') && TickInv(s)
    requires n in s.store && s.store[n].repo != s.watcher.todo[0]
    ensures t.watcher == Advancing(s.watcher.todo[1..]) && Visits(t, s') && TickInv(t)
    ensures n in t.store && t.store[n] == s.store[n]
    ensures Waits(s, n) ==> KeepsPlace(s, t, n) && AheadOf(t, n) == AheadOf(s, n)
    ensures Quiet(t.store, s.store[n].repo) <==> Quiet(s.store, s.store[n].repo)
  {
    var d :| Enabled(s, WatcherList(d)) && Visits(Visit(s, d), s');
    t := Visit(s, d);
    VisitMeaning(s, d);
    VisitKeepsTick(s, d);
    VisitedElsewhere(s, d, t, n);
  }

  /** The visit of its own queue and the rest of the tick. */
  lemma VisitOwn(s: State, s': State, n: string)
    requires s.watcher.Advancing? && s.watcher.todo != [] && Visits(s, s') && TickInv(s) && Waits(s, n)
    requires s.store[n].repo == s.watcher.todo[0] && Quiet(s.store, s.store[n].repo)
    ensures TickInv(s') && s'.watcher.Selecting?
    ensures Advances(s, s', n, true)
  {
    var d :| Enabled(s, WatcherList(d)) && Visits(Visit(s, d), s');
    var t := Visit(s, d);
    VisitMeaning(s, d);
    VisitKeepsTick(s, d);
    VisitedWaiting(s, d, t, n);
    assert t.store[n].repo == s.store[n].repo;
    RestOfTick(t, s', n);
    if Waits(t, n) {
      KeepsPlaceOn(s, t, s', n);
    }
  }

  /** What a tick does for a waiting run, whatever the other repositories are doing. */
  lemma {:induction false} TickForWaiting(s: State, s': State, n: string)
    requires s.watcher.Advancing? && Visits(s, s') && TickInv(s) && Waits(s, n) && Quiet(s.store, s.store[n].repo)
    ensures TickInv(s') && s'.watcher.Selecting?
    ensures Advances(s, s', n, s.store[n].repo in s.watcher.todo)
    decreases |s.watcher.todo|
  {
    var todo, repo := s.watcher.todo, s.store[n].repo;
    if repo !in todo {
      RestOfTick(s, s', n);
    } else if repo == todo[0] {
      VisitOwn(s, s', n);
    } else {
      var t := VisitFirst(s, s', n);
      assert todo == [todo[0]] + todo[1..];
      TickForWaiting(t, s', n);
      AdvancesOn(s, t, s', n, true);
    }
  }

  lemma AdvancesOn(s: State, t: State, s': State, n: string, due: bool)
    requires KeepsPlace(s, t, n) && Advances(t, s', n, due)
    ensures Advances(s, s', n, due)
  {
    SubsetSize(AheadOf(t, n), AheadOf(s, n));
    if !HasStarted(s', n) {
      KeepsPlaceOn(s, t, s', n);
    }
  }

  lemma FiresForWaiting(mid: State, s': State, n: string)
    requires Waits(mid, n) && Active(mid, mid.store[n].repo) && Quiet(mid.store, mid.store[n].repo)
    requires TickInv(mid) && mid.watcher.Selecting? && Fires(mid, s')
    ensures TickInv(s') && s'.watcher.Selecting? && Advances(mid, s', n, true)
  {
    var order :| Enabled(mid, WatcherTick(order)) && Visits(Apply(mid, WatcherTick(order)), s');
    var ticking := Apply(mid, WatcherTick(order));
    TickStep(mid, WatcherTick(order));
    assert mid.store[n].repo in order;
    TickForWaiting(ticking, s', n);
    AdvancesOn(mid, ticking, s', n, true);
  }

  lemma BusyRoundEffect(s: State, s': State, n: string)
    requires Waits(s, n) && Active(s, s.store[n].repo) && BusyRound(s, s', n)
    ensures TickInv(s') && s'.watcher.Selecting? && Advances(s, s', n, true)
  {
    var mid :| KeepsPlace(s, mid, n) && Quiet(mid.store, mid.store[n].repo)
      && TickInv(mid) && mid.watcher.Selecting? && Fires(mid, s');
    FiresForWaiting(mid, s', n);
    AdvancesOn(s, mid, s', n, true);
  }

  /** Bounded waiting: with r pending runs ahead of it a run whose queue is active starts within r + 1
      rounds, whatever runs are created at later times in between. */
  lemma {:induction false} BoundedWaiting(trace: seq<State>, n: string)
    requires trace != [] && Waits(trace[0], n) && Active(trace[0], trace[0].store[n].repo)
    requires |trace| > |AheadOf(trace[0], n)| + 1
    requires forall i | 0 <= i < |trace| - 1 :: Waits(trace[i], n) ==> BusyRound(trace[i], trace[i + 1], n)
    ensures exists k :: 0 < k <= |AheadOf(trace[0], n)| + 1 && HasStarted(trace[k], n)
    decreases |trace|
  {
    assert BusyRound(trace[0], trace[0 + 1], n);
    BusyRoundEffect(trace[0], trace[1], n);
    if !HasStarted(trace[1], n) {
      var rest := trace[1..];
      forall i | 0 <= i < |rest| - 1 && Waits(rest[i], n) ensures BusyRound(rest[i], rest[i + 1], n) {
        assert rest[i] == trace[i + 1] && rest[i + 1] == trace[(i + 1) + 1];
      }
      BoundedWaiting(rest, n);
      var k :| 0 < k <= |AheadOf(rest[0], n)| + 1 && HasStarted(rest[k], n);
      assert HasStarted(trace[k + 1], n);
    }
  }
}
