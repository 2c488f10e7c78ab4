/** What every interleaving of the manager's steps keeps: mutual exclusion per repository,
    first-in-first-out starts, and wake-ups that are lost only by named error steps. */
module QueueGuarantees {
  import opened PipelineRuns
  import opened QueueProtocol

  /* ---- Mutual exclusion ---- */

  /** A scheduler about to start a run directly has an idle repository before it; a watcher about
      to start `pick` has a quiet one, or `pick` has changed and the update will be refused. */
  ghost predicate SafetyInv(s: State) {
    && AtMostOneProgressing(s)
    && (forall n | n in s.store :: s.store[n].version < s.nextVersion)
    && (s.scheduler.Deciding? && !s.scheduler.queued ==> Idle(s.store, s.scheduler.repo))
    && (s.watcher.Starting? ==>
          && s.watcher.seen < s.nextVersion
          && (Unchanged(s.store, s.watcher.pick, s.watcher.seen) ==>
                && s.watcher.pick in PendingNames(s.store, s.watcher.repo)
                && Quiet(s.store, s.watcher.repo)))
  }

  /** Steps of the outside world: they never make a run wait or execute. */
  predicate IsWorldStep(step: Step) {
    step.RunFinishes? || step.RunTimesOut? || step.RunCancelled? || step.RunTouched? || step.RunsDeleted? ||
      step.ClockAdvances?
  }

  /** Steps by which the manager writes a run. */
  predicate IsCreate(step: Step) {
    step.SchedulerCreate? || step.SchedulerCreateLost?
  }

  predicate IsStart(step: Step) {
    step.WatcherUpdate? || step.WatcherUpdateLost?
  }

  lemma SafetyCreate(s: State, step: Step)
    requires SafetyInv(s) && Enabled(s, step) && IsCreate(step)
    ensures SafetyInv(Apply(s, step))
  {
  }

  lemma SafetyStart(s: State, step: Step)
    requires SafetyInv(s) && Enabled(s, step) && IsStart(step)
    ensures SafetyInv(Apply(s, step))
  {
    var s' := Apply(s, step);
    var repo := s.watcher.repo;
    assert s.store[s.watcher.pick].repo == repo;
    assert forall n | n in s.store && n != s.watcher.pick :: s'.store[n] == s.store[n];
  }

  /** `s'` has no runs but those of `s`, none newly waiting or executing, and changed ones are stamped. */
  ghost predicate OnlyEnds(s: State, s': State) {
    && s'.scheduler == s.scheduler && s'.watcher == s.watcher && s.nextVersion <= s'.nextVersion
    && forall n | n in s'.store ::
         && n in s.store && s'.store[n].repo == s.store[n].repo
         && (s'.store[n].IsProgressing() ==> s.store[n].IsProgressing())
         && (s'.store[n].IsPending() ==> s.store[n].IsPending())
         && (s'.store[n] == s.store[n] || s.nextVersion <= s'.store[n].version < s'.nextVersion)
  }

  lemma WorldOnlyEnds(s: State, step: Step)
    requires Enabled(s, step) && IsWorldStep(step)
    ensures OnlyEnds(s, Apply(s, step))
  {
  }

  lemma SafetyOfEnds(s: State, s': State)
    requires SafetyInv(s) && OnlyEnds(s, s')
    ensures SafetyInv(s')
  {
    if s.watcher.Starting? && Unchanged(s'.store, s.watcher.pick, s.watcher.seen) {
      assert s'.store[s.watcher.pick] == s.store[s.watcher.pick];
    }
  }

  lemma SafetyWorld(s: State, step: Step)
    requires SafetyInv(s) && Enabled(s, step) && IsWorldStep(step)
    ensures SafetyInv(Apply(s, step))
  {
    WorldOnlyEnds(s, step);
    SafetyOfEnds(s, Apply(s, step));
  }

  lemma SafetyLocal(s: State, step: Step)
    requires SafetyInv(s) && Enabled(s, step) && !IsCreate(step) && !IsStart(step) && !IsWorldStep(step)
    ensures SafetyInv(Apply(s, step))
  {
    assert Apply(s, step).store == s.store && Apply(s, step).nextVersion == s.nextVersion;
  }

  lemma SafetyStep(s: State, step: Step)
    requires SafetyInv(s) && Enabled(s, step)
    ensures SafetyInv(Apply(s, step))
  {
    if IsCreate(step) {
      SafetyCreate(s, step);
    } else if IsStart(step) {
      SafetyStart(s, step);
    } else if IsWorldStep(step) {
      SafetyWorld(s, step);
    } else {
      SafetyLocal(s, step);
    }
  }

  /* ---- First in, first out ---- */

  ghost predicate StartedInOrder(s: State) {
    forall i, j | 0 <= i < j < |s.history| ::
      s.history[i].repo == s.history[j].repo ==> s.history[i].created <= s.history[j].created
  }

  /** Nothing waiting is older than anything of its repository that was started. */
  ghost predicate NoneOvertaken(s: State) {
    forall i, n | 0 <= i < |s.history| && n in PendingNames(s.store, s.history[i].repo) ::
      s.history[i].created <= s.store[n].created
  }

  ghost predicate FifoInv(s: State) {
    && StartedInOrder(s)
    && NoneOvertaken(s)
    && (forall n | n in s.store :: s.store[n].created <= s.clock)
    && (forall i | 0 <= i < |s.history| :: s.history[i].created <= s.clock)
    && (s.watcher.Starting? && Unchanged(s.store, s.watcher.pick, s.watcher.seen) ==>
          forall m | m in PendingNames(s.store, s.watcher.repo) ::
            s.store[s.watcher.pick].created <= s.store[m].created)
  }

  lemma FifoCreate(s: State, step: Step)
    requires SafetyInv(s) && FifoInv(s) && Enabled(s, step) && IsCreate(step)
    ensures FifoInv(Apply(s, step))
  {
    var s' := Apply(s, step);
    var repo, queued, name := s.scheduler.repo, s.scheduler.queued, step.name;
    forall r, n | n in PendingNames(s'.store, r)
      ensures (n == name && queued) || (n in PendingNames(s.store, r) && s'.store[n] == s.store[n])
      ensures queued || r != repo
    {
    }
    if queued {
      assert s'.history == s.history && s'.store[name].created == s.clock;
    } else {
      assert s'.history == s.history + [Started(repo, s.clock)];
    }
    FifoExtended(s, s', repo);
  }

  /** History and store grow by at most one run created now. */
  lemma FifoExtended(s: State, s': State, repo: string)
    requires FifoInv(s) && s'.clock == s.clock && s'.watcher == s.watcher
    requires s.watcher.Starting? ==> s.watcher.seen < s.nextVersion
    requires forall n | n in s'.store ::
      (n in s.store && s'.store[n] == s.store[n]) ||
        (s'.store[n].created == s.clock && s'.store[n].version == s.nextVersion)
    requires s'.history == s.history ||
      (s'.history == s.history + [Started(repo, s.clock)] && PendingNames(s'.store, repo) == {})
    ensures FifoInv(s')
  {
    forall i, n | 0 <= i < |s'.history| && n in PendingNames(s'.store, s'.history[i].repo)
      ensures s'.history[i].created <= s'.store[n].created
    {
      if i < |s.history| && n in s.store && s'.store[n] == s.store[n] {
        assert s'.history[i] == s.history[i] && n in PendingNames(s.store, s.history[i].repo);
      }
    }
    if s.watcher.Starting? && Unchanged(s'.store, s.watcher.pick, s.watcher.seen) {
      forall m | m in PendingNames(s'.store, s.watcher.repo)
        ensures s'.store[s.watcher.pick].created <= s'.store[m].created
      {
        if m in s.store && s'.store[m] == s.store[m] {
          assert m in PendingNames(s.store, s.watcher.repo);
        }
      }
    }
  }

  lemma FifoStart(s: State, step: Step)
    requires SafetyInv(s) && FifoInv(s) && Enabled(s, step) && IsStart(step)
    ensures FifoInv(Apply(s, step))
  {
  }

  /** `s'` differs from `s` by a store in which nothing new waits, or by a later clock. */
  lemma FifoWorld(s: State, s': State)
    requires SafetyInv(s) && FifoInv(s)
    requires s'.history == s.history && s'.watcher == s.watcher && s.clock <= s'.clock
    requires forall n | n in s'.store ::
               && n in s.store
               && s'.store[n].repo == s.store[n].repo
               && s'.store[n].created == s.store[n].created
               && (s'.store[n].IsPending() ==> s.store[n].IsPending())
               && (s'.store[n].version == s.store[n].version || s.nextVersion <= s'.store[n].version)
    ensures FifoInv(s')
  {
    assert forall r :: PendingNames(s'.store, r) <= PendingNames(s.store, r);
  }

  lemma FifoWorldStep(s: State, step: Step)
    requires SafetyInv(s) && FifoInv(s) && Enabled(s, step) && IsWorldStep(step)
    ensures FifoInv(Apply(s, step))
  {
    FifoWorld(s, Apply(s, step));
  }

  /** Steps that leave store, clock and history alone. */
  lemma FifoLocal(s: State, step: Step)
    requires SafetyInv(s) && FifoInv(s) && Enabled(s, step) && !IsCreate(step) && !IsStart(step) && !IsWorldStep(step)
    ensures FifoInv(Apply(s, step))
  {
    assert Apply(s, step).store == s.store && Apply(s, step).history == s.history && Apply(s, step).clock == s.clock;
  }

  lemma FifoStep(s: State, step: Step)
    requires SafetyInv(s) && FifoInv(s) && Enabled(s, step)
    ensures FifoInv(Apply(s, step))
  {
    if IsCreate(step) {
      FifoCreate(s, step);
    } else if IsStart(step) {
      FifoStart(s, step);
    } else if IsWorldStep(step) {
      FifoWorldStep(s, step);
    } else {
      FifoLocal(s, step);
    }
  }

  /* ---- Wake-ups ---- */

  /** A message that will re-activate the queue of `repo` exists somewhere. */
  predicate Covered(s: State, repo: string) {
    repo in s.bootTodo || repo in s.channel || s.scheduler == Sending(repo)
  }

  /** No pending run is forgotten: its queue is active or about to be activated. */
  ghost predicate Awake(s: State) {
    forall n | n in s.store && s.store[n].IsPending() :: Active(s, s.store[n].repo) || Covered(s, s.store[n].repo)
  }

  /** The watcher has made up its mind to switch this queue off. */
  predicate AboutToDeactivate(s: State, repo: string) {
    match s.watcher
    case Starting(_, r, _, _, remaining) => r == repo && remaining == 0
    case Finishing(_, r, remaining) => r == repo && remaining == 0
    case _ => false
  }

  predicate Woken(s: State, repo: string) {
    Covered(s, repo) || (Active(s, repo) && !AboutToDeactivate(s, repo))
  }

  /** The one run a wake-up may be missing for: the last of its queue, about to be started. */
  predicate IsLastPick(s: State, repo: string, n: string) {
    s.watcher.Starting? && s.watcher.repo == repo && s.watcher.pick == n && s.watcher.remaining == 0
  }

  /** The queues a tick has not finished with, the current one first. */
  function Unvisited(w: WatcherPc): seq<string> {
    match w
    case Selecting => []
    case Advancing(todo) => todo
    case Starting(todo, repo, _, _, _) => [repo] + todo
    case Finishing(todo, repo, _) => [repo] + todo
  }

  ghost predicate Distinct(queues: seq<string>) {
    forall i, j | 0 <= i < j < |queues| :: queues[i] != queues[j]
  }

  /** The queues still to visit are active and pairwise different; an active queue has a tick coming. */
  ghost predicate TickInv(s: State) {
    && (forall q | q in Unvisited(s.watcher) :: Active(s, q))
    && Distinct(Unvisited(s.watcher))
    && (s.watcher.Selecting? && HasActive(s.queues) ==> s.timerArmed)
  }

  ghost predicate WakeInv(s: State) {
    forall n | n in s.store && s.store[n].IsPending() ::
      Woken(s, s.store[n].repo) || IsLastPick(s, s.store[n].repo, n)
  }

  lemma TickReturn(s: State)
    requires TickInv(s) && Enabled(s, WatcherReturn)
    ensures TickInv(Apply(s, WatcherReturn))
  {
    var left, todo := Unvisited(s.watcher), s.watcher.todo;
    var s' := Apply(s, WatcherReturn);
    assert left[1..] == todo;
    forall q | q in todo ensures Active(s', q) {
      var i :| 0 <= i < |todo| && todo[i] == q;
      assert left[i + 1] == q && left[0] != left[i + 1];
      assert Active(s, q);
    }
  }

  lemma TickTurn(s: State, step: Step)
    requires TickInv(s) && Enabled(s, step)
    requires step.WatcherList? || step.WatcherListError? || IsStart(step) || step.WatcherUpdateError?
    ensures TickInv(Apply(s, step))
  {
    var s' := Apply(s, step);
    assert Unvisited(s'.watcher) == Unvisited(s.watcher) && s'.queues == s.queues && !s'.watcher.Selecting?;
  }

  lemma TickSelect(s: State, step: Step)
    requires TickInv(s) && Enabled(s, step)
    requires step.WatcherTick? || step.WatcherEndTick? || step.WatcherReceive? || step.Restart?
    ensures TickInv(Apply(s, step))
  {
  }

  lemma TickStep(s: State, step: Step)
    requires TickInv(s) && Enabled(s, step)
    ensures TickInv(Apply(s, step))
  {
    if step.WatcherReturn? {
      TickReturn(s);
    } else if step.WatcherList? || step.WatcherListError? || IsStart(step) || step.WatcherUpdateError? {
      TickTurn(s, step);
    } else if step.WatcherTick? || step.WatcherEndTick? || step.WatcherReceive? || step.Restart? {
      TickSelect(s, step);
    } else {
      var s' := Apply(s, step);
      assert s'.watcher == s.watcher && s'.queues == s.queues && s'.timerArmed == s.timerArmed;
    }
  }

  /** Exactly the steps that lose no wake-up. Every step outside the four kinds of error is one. */
  ghost predicate Harmless(s: State, step: Step)
    requires Enabled(s, step)
  {
    match step
    case WatcherListError =>
      var repo := s.watcher.todo[0];
      PendingNames(s.store, repo) != {} ==> Covered(s, repo)
    case WatcherUpdateError =>
      var w := s.watcher;
      w.remaining == 0 && w.pick in PendingNames(s.store, w.repo) ==> Covered(s, w.repo)
    case SchedulerCreateLost(name) =>
      s.scheduler.queued ==> Woken(s, s.scheduler.repo) || IsLastPick(s, s.scheduler.repo, name)
    case BootError =>
      forall n | n in s.store && s.store[n].IsPending() && s.store[n].repo in s.bootTodo ::
        var repo := s.store[n].repo;
        || repo in s.channel || s.scheduler == Sending(repo)
        || (Active(s, repo) && !AboutToDeactivate(s, repo))
        || IsLastPick(s, repo, n)
    case _ => true
  }

  lemma OnlyPending(pending: set<string>, n: string, d: Decision)
    requires n in pending && d.remaining == 0
    requires if d.Start? then d.pick in pending && |pending| == 1 else |pending| == 0
    ensures d.Start? && d.pick == n
  {
    var others := pending - {n};
    assert |others| == |pending| - 1;
  }

  lemma WakeList(s: State, d: Decision)
    requires WakeInv(s) && Enabled(s, WatcherList(d))
    ensures WakeInv(Apply(s, WatcherList(d)))
  {
    var repo := s.watcher.todo[0];
    var pending := PendingNames(s.store, repo);
    var s' := Apply(s, WatcherList(d));
    forall n | n in s'.store && s'.store[n].IsPending()
      ensures Woken(s', s'.store[n].repo) || IsLastPick(s', s'.store[n].repo, n)
    {
      assert Woken(s, s.store[n].repo);
      if s.store[n].repo == repo && d.remaining == 0 {
        assert n in pending;
        OnlyPending(pending, n, d);
      }
    }
  }

  lemma WakeListError(s: State)
    requires WakeInv(s) && Enabled(s, WatcherListError)
    ensures WakeInv(Apply(s, WatcherListError)) <==> Harmless(s, WatcherListError)
  {
    var repo := s.watcher.todo[0];
    var s' := Apply(s, WatcherListError);
    forall n | n in s.store && s.store[n].IsPending()
      ensures s.store[n].repo == repo || Woken(s', s.store[n].repo)
      ensures s.store[n].repo == repo ==> (Woken(s', repo) <==> Covered(s, repo)) && n in PendingNames(s.store, repo)
    {
    }
    if PendingNames(s.store, repo) != {} && WakeInv(s') {
      var n :| n in PendingNames(s.store, repo);
      assert Woken(s', s'.store[n].repo);
    }
  }

  lemma WakeUpdateError(s: State)
    requires WakeInv(s) && Enabled(s, WatcherUpdateError)
    ensures WakeInv(Apply(s, WatcherUpdateError)) <==> Harmless(s, WatcherUpdateError)
  {
    var w := s.watcher;
    var s' := Apply(s, WatcherUpdateError);
    forall n | n in s.store && s.store[n].IsPending()
      ensures IsLastPick(s, s.store[n].repo, n) || Woken(s', s.store[n].repo)
      ensures Covered(s, s.store[n].repo) ==> Woken(s', s.store[n].repo)
    {
      assert Woken(s, s.store[n].repo) || IsLastPick(s, s.store[n].repo, n);
    }
    if w.remaining == 0 && w.pick in PendingNames(s.store, w.repo) && WakeInv(s') {
      assert Woken(s', s'.store[w.pick].repo);
    }
  }

  lemma WakeBootError(s: State)
    requires WakeInv(s) && Enabled(s, BootError)
    ensures WakeInv(Apply(s, BootError)) <==> Harmless(s, BootError)
  {
  }

  lemma WakeCreate(s: State, step: Step)
    requires WakeInv(s) && Enabled(s, step) && IsCreate(step)
    ensures WakeInv(Apply(s, step)) <==> Harmless(s, step)
  {
    var s' := Apply(s, step);
    var repo, name := s.scheduler.repo, step.name;
    assert s'.store[name].repo == repo;
    forall n | n in s.store && s.store[n].IsPending()
      ensures Woken(s', s.store[n].repo) || IsLastPick(s', s.store[n].repo, n)
    {
      assert Woken(s, s.store[n].repo) || IsLastPick(s, s.store[n].repo, n);
    }
  }

  lemma WakeMessages(s: State, step: Step)
    requires WakeInv(s) && Enabled(s, step)
    requires step.SchedulerSend? || step.BootSend? || step.WatcherReceive? || step.Restart?
    ensures WakeInv(Apply(s, step))
  {
  }

  lemma WakeWatcher(s: State, step: Step)
    requires WakeInv(s) && Enabled(s, step)
    requires step.WatcherTick? || step.WatcherEndTick? || step.WatcherReturn? || step.WatcherUpdate? ||
      step.WatcherUpdateLost?
    ensures WakeInv(Apply(s, step))
  {
  }

  lemma WakeStep(s: State, step: Step)
    requires WakeInv(s) && Enabled(s, step)
    ensures WakeInv(Apply(s, step)) <==> Harmless(s, step)
  {
    match step
    case WatcherList(d) => WakeList(s, d);
    case WatcherListError => WakeListError(s);
    case WatcherUpdateError => WakeUpdateError(s);
    case BootError => WakeBootError(s);
    case SchedulerCreate(_) => WakeCreate(s, step);
    case SchedulerCreateLost(_) => WakeCreate(s, step);
    case SchedulerSend => WakeMessages(s, step);
    case BootSend(_) => WakeMessages(s, step);
    case WatcherReceive => WakeMessages(s, step);
    case Restart(_) => WakeMessages(s, step);
    case WatcherTick(_) => WakeWatcher(s, step);
    case WatcherEndTick => WakeWatcher(s, step);
    case WatcherReturn => WakeWatcher(s, step);
    case WatcherUpdate => WakeWatcher(s, step);
    case WatcherUpdateLost => WakeWatcher(s, step);
    case _ =>
  }

  lemma AwakeFromInv(s: State)
    requires WakeInv(s) && TickInv(s)
    ensures Awake(s)
  {
    forall n | n in s.store && s.store[n].IsPending()
      ensures Active(s, s.store[n].repo) || Covered(s, s.store[n].repo)
    {
      if IsLastPick(s, s.store[n].repo, n) {
        assert Unvisited(s.watcher)[0] == s.store[n].repo;
      }
    }
  }

  /* ---- Whole executions ---- */

  ghost predicate Invariant(s: State) {
    SafetyInv(s) && FifoInv(s) && TickInv(s)
  }

  lemma InitiallyInvariant(s: State)
    requires Initial(s)
    ensures Invariant(s)
  {
  }

  lemma InvariantNext(s: State, step: Step, s': State)
    requires Invariant(s) && Takes(s, step, s')
    ensures Invariant(s')
  {
    SafetyStep(s, step);
    FifoStep(s, step);
    TickStep(s, step);
  }

  lemma {:induction false} InvariantHolds(trace: seq<State>, steps: seq<Step>, i: nat)
    requires IsExecution(trace, steps) && i < |trace|
    ensures Invariant(trace[i])
  {
    if i == 0 {
      InitiallyInvariant(trace[0]);
    } else {
      InvariantHolds(trace, steps, i - 1);
      assert Takes(trace[i - 1], steps[i - 1], trace[(i - 1) + 1]);
      InvariantNext(trace[i - 1], steps[i - 1], trace[i]);
    }
  }

  /** Which runs execute after a step, by what begins and ends an execution: a run begins with its
      creation, if that is not queued, or with the update that starts it, unless it has come to an end
      before; it ends when it finishes, times out, is cancelled or deleted. */
  function ExecutingAfter(s: State, step: Step, executing: set<string>): set<string>
    requires Enabled(s, step)
  {
    match step
    case SchedulerCreate(name) => if s.scheduler.queued then executing else executing + {name}
    case SchedulerCreateLost(name) => if s.scheduler.queued then executing else executing + {name}
    case WatcherUpdate => ExecutingWithPick(s, executing)
    case WatcherUpdateLost => ExecutingWithPick(s, executing)
    case RunFinishes(name) => executing - {name}
    case RunTimesOut(name) => executing - {name}
    case RunCancelled(name) => executing - {name}
    case RunsDeleted(names) => executing - names
    case _ => executing
  }

  function ExecutingWithPick(s: State, executing: set<string>): set<string>
    requires s.watcher.Starting? && s.watcher.pick in s.store
  {
    var run := s.store[s.watcher.pick];
    if run.done || run.timedOut then executing else executing + {s.watcher.pick}
  }

  /** Which runs execute in state `i`: at first those begun and not ended by then, later by the steps. */
  ghost function ExecutingAt(trace: seq<State>, steps: seq<Step>, i: nat): set<string>
    requires IsExecution(trace, steps) && i < |trace|
  {
    if i == 0 then
      var store := trace[0].store;
      set n | n in store && store[n].status.Unset? && !store[n].done && !store[n].timedOut
    else
      assert Takes(trace[i - 1], steps[i - 1], trace[(i - 1) + 1]);
      ExecutingAfter(trace[i - 1], steps[i - 1], ExecutingAt(trace, steps, i - 1))
  }

  function Progressing(store: Store): set<string> {
    set n | n in store && store[n].IsProgressing()
  }

  ghost predicate SameAt(store: Store, store': Store, n: string) {
    if n in store then n in store' && store'[n] == store[n] else n !in store'
  }

  /** At most one run differs between the stores. */
  ghost predicate OnlyDiffersAt(store: Store, store': Store, n: string) {
    forall m | m != n :: SameAt(store, store', m)
  }

  lemma ExecutingStep(s: State, step: Step)
    requires Enabled(s, step)
    ensures ExecutingAfter(s, step, Progressing(s.store)) == Progressing(Apply(s, step).store)
  {
    if IsCreate(step) {
      ExecutingCreate(s, step);
    } else if IsStart(step) {
      ExecutingStart(s, step);
    } else if IsWorldStep(step) {
      ExecutingWorld(s, step);
    } else {
      assert Apply(s, step).store == s.store;
    }
  }

  lemma ExecutingCreate(s: State, step: Step)
    requires Enabled(s, step) && IsCreate(step)
    ensures ExecutingAfter(s, step, Progressing(s.store)) == Progressing(Apply(s, step).store)
  {
    assert OnlyDiffersAt(s.store, Apply(s, step).store, step.name);
  }

  lemma ExecutingStart(s: State, step: Step)
    requires Enabled(s, step) && IsStart(step)
    ensures ExecutingAfter(s, step, Progressing(s.store)) == Progressing(Apply(s, step).store)
  {
    assert OnlyDiffersAt(s.store, Apply(s, step).store, s.watcher.pick);
  }

  lemma ExecutingWorld(s: State, step: Step)
    requires Enabled(s, step) && IsWorldStep(step)
    ensures ExecutingAfter(s, step, Progressing(s.store)) == Progressing(Apply(s, step).store)
  {
  }

  /** The test the manager makes on a run tells in every state whether it executes. */
  lemma {:induction false} ProgressingMeansExecuting(trace: seq<State>, steps: seq<Step>, i: nat)
    requires IsExecution(trace, steps) && i < |trace|
    ensures forall n :: n in ExecutingAt(trace, steps, i) <==> n in trace[i].store && trace[i].store[n].IsProgressing()
  {
    if i > 0 {
      ProgressingMeansExecuting(trace, steps, i - 1);
      assert Takes(trace[i - 1], steps[i - 1], trace[(i - 1) + 1]);
      assert ExecutingAt(trace, steps, i - 1) == Progressing(trace[i - 1].store);
      ExecutingStep(trace[i - 1], steps[i - 1]);
    }
  }

  /** No two runs of one repository among `executing`. */
  ghost predicate OnePerRepository(store: Store, executing: set<string>) {
    && executing <= store.Keys
    && forall m, n | m in executing && n in executing && store[m].repo == store[n].repo :: m == n
  }

  /** Whatever interleaves and whichever calls fail, no repository ever has two executing runs. */
  lemma NoConcurrentRuns(trace: seq<State>, steps: seq<Step>)
    requires IsExecution(trace, steps)
    ensures forall i | 0 <= i < |trace| :: OnePerRepository(trace[i].store, ExecutingAt(trace, steps, i))
  {
    forall i | 0 <= i < |trace| ensures OnePerRepository(trace[i].store, ExecutingAt(trace, steps, i)) {
      InvariantHolds(trace, steps, i);
      ProgressingMeansExecuting(trace, steps, i);
    }
  }

  /** Runs of one repository start in the order of their creation, however they are started. */
  lemma FirstInFirstOut(trace: seq<State>, steps: seq<Step>)
    requires IsExecution(trace, steps)
    ensures forall i | 0 <= i < |trace| :: StartedInOrder(trace[i]) && NoneOvertaken(trace[i])
  {
    forall i | 0 <= i < |trace| ensures StartedInOrder(trace[i]) && NoneOvertaken(trace[i]) {
      InvariantHolds(trace, steps, i);
    }
  }

  ghost predicate LosesNothing(s: State, step: Step) {
    Enabled(s, step) && Harmless(s, step)
  }

  lemma InitiallyWoken(s: State)
    requires Initial(s)
    ensures WakeInv(s)
  {
    var repos: set<string> :| Enabled(s, Restart(repos)) && s == Boot(s, repos);
    forall n | n in s.store ensures Woken(s, s.store[n].repo) {
    }
  }

  lemma WakeNext(s: State, step: Step, s': State)
    requires WakeInv(s) && LosesNothing(s, step) && Takes(s, step, s')
    ensures WakeInv(s')
  {
    WakeStep(s, step);
  }

  lemma {:induction false} WakeInvHolds(trace: seq<State>, steps: seq<Step>, i: nat)
    requires IsExecution(trace, steps) && i < |trace|
    requires forall j | 0 <= j < |steps| :: LosesNothing(trace[j], steps[j])
    ensures WakeInv(trace[i])
  {
    if i == 0 {
      InitiallyWoken(trace[0]);
    } else {
      WakeInvHolds(trace, steps, i - 1);
      assert LosesNothing(trace[i - 1], steps[i - 1]) && Takes(trace[i - 1], steps[i - 1], trace[(i - 1) + 1]);
      WakeNext(trace[i - 1], steps[i - 1], trace[i]);
    }
  }

  /** Unless a harmful error occurs, no pending run is ever forgotten, restarts included. */
  lemma NoLostWakeUp(trace: seq<State>, steps: seq<Step>)
    requires IsExecution(trace, steps)
    requires forall j | 0 <= j < |steps| :: LosesNothing(trace[j], steps[j])
    ensures forall i | 0 <= i < |trace| :: Awake(trace[i])
  {
    forall i | 0 <= i < |trace| ensures Awake(trace[i]) {
      WakeInvHolds(trace, steps, i);
      InvariantHolds(trace, steps, i);
      AwakeFromInv(trace[i]);
    }
  }

  /* ---- Versions identify contents ---- */

  ghost predicate Inherits(s: State, s': State) {
    && s.nextVersion <= s'.nextVersion
    && forall n | n in s'.store && s'.store[n].version < s.nextVersion :: n in s.store && s'.store[n] == s.store[n]
  }

  /** A run found at the version it was listed at is the run that was listed, field by field, so
      writing the listed copy back overwrites no one's change. */
  lemma {:induction false} VersionIdentifiesRun(trace: seq<State>, steps: seq<Step>, i: nat, j: nat, n: string)
    requires IsExecution(trace, steps) && i <= j < |trace|
    requires n in trace[i].store && Unchanged(trace[j].store, n, trace[i].store[n].version)
    ensures trace[j].store[n] == trace[i].store[n]
  {
    InheritsAlong(trace, steps, i, j);
    InvariantHolds(trace, steps, i);
  }

  lemma InheritsStep(s: State, step: Step)
    requires Enabled(s, step)
    ensures Inherits(s, Apply(s, step))
  {
    if IsWorldStep(step) {
      InheritsWorld(s, step);
    } else if !IsCreate(step) && !IsStart(step) {
      assert Apply(s, step).store == s.store && Apply(s, step).nextVersion == s.nextVersion;
    }
  }

  lemma InheritsWorld(s: State, step: Step)
    requires Enabled(s, step) && IsWorldStep(step)
    ensures Inherits(s, Apply(s, step))
  {
  }

  lemma {:induction false} InheritsAlong(trace: seq<State>, steps: seq<Step>, i: nat, j: nat)
    requires IsExecution(trace, steps) && i <= j < |trace|
    ensures Inherits(trace[i], trace[j])
  {
    if i < j {
      InheritsAlong(trace, steps, i, j - 1);
      assert Takes(trace[j - 1], steps[j - 1], trace[(j - 1) + 1]);
      InheritsStep(trace[j - 1], steps[j - 1]);
      InheritsTransitive(trace[i], trace[j - 1], trace[j]);
    }
  }

  lemma InheritsTransitive(s: State, m: State, t: State)
    requires Inherits(s, m) && Inherits(m, t)
    ensures Inherits(s, t)
  {
  }

  /* ---- The two error paths that switch a waiting queue off ---- */

  /** A failed listing is reported as length 0: the queue is forgotten exactly if a run waits in it
      and no other message for it is under way. */
  lemma ListErrorForgets(s: State)
    requires WakeInv(s) && TickInv(s) && Enabled(s, WatcherListError)
    ensures Awake(Apply(Apply(s, WatcherListError), WatcherReturn)) <==> Harmless(s, WatcherListError)
  {
    var repo := s.watcher.todo[0];
    var s' := Apply(Apply(s, WatcherListError), WatcherReturn);
    forall n | n in s.store && s.store[n].IsPending()
      ensures s.store[n].repo != repo ==> Active(s', s.store[n].repo) || Covered(s', s.store[n].repo)
    {
      assert Woken(s, s.store[n].repo);
    }
    assert s'.store == s.store && !Active(s', repo) && (Covered(s', repo) <==> Covered(s, repo));
    if PendingNames(s.store, repo) != {} {
      var n :| n in PendingNames(s.store, repo);
      assert s'.store[n].IsPending() && s'.store[n].repo == repo;
    } else {
      assert forall n | n in s.store && s.store[n].IsPending() ::
        s.store[n].repo == repo ==> n in PendingNames(s.store, repo);
    }
  }

  /** A failed update reports the length without the run it did not start: the queue is forgotten
      exactly if that run was the last, still waits, and no other message is under way. */
  lemma UpdateErrorForgets(s: State)
    requires WakeInv(s) && TickInv(s) && Enabled(s, WatcherUpdateError)
    ensures Awake(Apply(Apply(s, WatcherUpdateError), WatcherReturn)) <==> Harmless(s, WatcherUpdateError)
  {
    var w := s.watcher;
    var s' := Apply(Apply(s, WatcherUpdateError), WatcherReturn);
    assert Unvisited(w)[0] == w.repo;
    forall n | n in s.store && s.store[n].IsPending() && !IsLastPick(s, s.store[n].repo, n)
      ensures Active(s', s.store[n].repo) || Covered(s', s.store[n].repo)
    {
      assert Woken(s, s.store[n].repo);
    }
    if Awake(s') && w.remaining == 0 && w.pick in PendingNames(s.store, w.repo) {
      assert s'.store[w.pick].IsPending();
    }
  }

  /** A pending run nothing will look at. */
  ghost predicate Forgotten(s: State, n: string) {
    && n in s.store && s.store[n].IsPending()
    && !Active(s, s.store[n].repo)
    && !Covered(s, s.store[n].repo)
    && s.store[n].repo !in Unvisited(s.watcher)
  }

  /** It stays forgotten as long as it waits, until the process restarts or its repository gets
      another queued run. */
  lemma ForgottenStays(s: State, step: Step, n: string)
    requires Forgotten(s, n) && Enabled(s, step) && SafetyInv(s)
    requires n in Apply(s, step).store && Apply(s, step).store[n].IsPending()
    requires !step.Restart? && !(step.SchedulerCreate? && s.scheduler.repo == s.store[n].repo)
    ensures Forgotten(Apply(s, step), n)
  {
    if IsWorldStep(step) || IsCreate(step) || IsStart(step) {
      ForgottenByWrites(s, step, n);
    } else {
      var left, left' := Unvisited(s.watcher), Unvisited(Apply(s, step).watcher);
      if !step.WatcherTick? {
        assert left' <= left || left' == left[1..];
      }
    }
  }

  lemma ForgottenByWrites(s: State, step: Step, n: string)
    requires Forgotten(s, n) && Enabled(s, step) && (IsWorldStep(step) || IsCreate(step) || IsStart(step))
    requires n in Apply(s, step).store && Apply(s, step).store[n].IsPending()
    requires !(step.SchedulerCreate? && s.scheduler.repo == s.store[n].repo)
    ensures Forgotten(Apply(s, step), n)
  {
    if IsStart(step) {
      ForgottenByStart(s, step, n);
    } else if IsCreate(step) {
      ForgottenByCreate(s, step, n);
    } else {
      WorldOnlyEnds(s, step);
      assert Apply(s, step).queues == s.queues && Apply(s, step).channel == s.channel;
    }
  }

  lemma ForgottenByStart(s: State, step: Step, n: string)
    requires Forgotten(s, n) && Enabled(s, step) && IsStart(step)
    requires Apply(s, step).store[n].IsPending()
    ensures Forgotten(Apply(s, step), n)
  {
    var s' := Apply(s, step);
    assert s'.store[n].repo == s.store[n].repo && Unvisited(s'.watcher) == Unvisited(s.watcher);
  }

  lemma ForgottenByCreate(s: State, step: Step, n: string)
    requires Forgotten(s, n) && Enabled(s, step) && IsCreate(step)
    requires !(step.SchedulerCreate? && s.scheduler.repo == s.store[n].repo)
    ensures Forgotten(Apply(s, step), n)
  {
    var s' := Apply(s, step);
    assert s'.store[n] == s.store[n] && s'.watcher == s.watcher;
  }

  /** A store holding one waiting run "p" of repository "r" at version `version`, the last one given
      out, and the watcher's part of a state over it. */
  function OneWaiting(version: nat, channel: seq<string>, queues: map<string, bool>, armed: bool, boot: set<string>,
                      watcher: WatcherPc): State {
    var store := map["p" := Run("r", "dev", "r-main", 0, Pending, false, false, version)];
    State(store, 0, version + 1, channel, queues, armed, boot, Waiting, watcher, [])
  }

  const FORGETTING: seq<Step> :=
    [BootSend("r"), WatcherReceive, WatcherTick(["r"]), WatcherListError, WatcherReturn, WatcherEndTick]

  const FORGETTING_TRACE: seq<State> := [
    OneWaiting(0, [], map[], true, {"r"}, Selecting),
    OneWaiting(0, ["r"], map[], true, {}, Selecting),
    OneWaiting(0, [], map["r" := true], true, {}, Selecting),
    OneWaiting(0, [], map["r" := true], false, {}, Advancing(["r"])),
    OneWaiting(0, [], map["r" := true], false, {}, Finishing([], "r", 0)),
    OneWaiting(0, [], map["r" := false], false, {}, Advancing([])),
    OneWaiting(0, [], map["r" := false], false, {}, Selecting)]

  lemma WakingSteps()
    ensures Takes(OneWaiting(0, [], map[], true, {"r"}, Selecting), BootSend("r"),
                  OneWaiting(0, ["r"], map[], true, {}, Selecting))
    ensures Takes(OneWaiting(0, ["r"], map[], true, {}, Selecting), WatcherReceive,
                  OneWaiting(0, [], map["r" := true], true, {}, Selecting))
    ensures Takes(OneWaiting(0, [], map["r" := true], true, {}, Selecting), WatcherTick(["r"]),
                  OneWaiting(0, [], map["r" := true], false, {}, Advancing(["r"])))
  {
    assert {"r"} - {"r"} == {} && ["r"][1..] == [];
    assert Active(OneWaiting(0, [], map["r" := true], true, {}, Selecting), "r");
  }

  lemma ListErrorStep()
    ensures Takes(OneWaiting(0, [], map["r" := true], false, {}, Advancing(["r"])), WatcherListError,
                  OneWaiting(0, [], map["r" := true], false, {}, Finishing([], "r", 0)))
  {
    assert ["r"][1..] == [];
  }

  lemma ClosingSteps(version: nat)
    ensures Takes(OneWaiting(version, [], map["r" := true], false, {}, Finishing([], "r", 0)), WatcherReturn,
                  OneWaiting(version, [], map["r" := false], false, {}, Advancing([])))
    ensures Takes(OneWaiting(version, [], map["r" := false], false, {}, Advancing([])), WatcherEndTick,
                  OneWaiting(version, [], map["r" := false], false, {}, Selecting))
  {
  }

  lemma ForgettingStep(i: nat)
    requires i < |FORGETTING|
    ensures Takes(FORGETTING_TRACE[i], FORGETTING[i], FORGETTING_TRACE[i + 1])
  {
    WakingSteps();
    ListErrorStep();
    ClosingSteps(0);
    assert i == 0 || i == 1 || i == 2 || i == 3 || i == 4 || i == 5;
  }

  lemma OneWaitingStarts()
    ensures Initial(OneWaiting(0, [], map[], true, {"r"}, Selecting))
  {
    var s := OneWaiting(0, [], map[], true, {"r"}, Selecting);
    assert Enabled(s, Restart({"r"})) && s == Boot(s, {"r"});
  }

  /** Forgetting is reachable with a single failing call: boot, one tick, a list error. */
  lemma ReachableForgottenRun()
    ensures IsExecution(FORGETTING_TRACE, FORGETTING)
    ensures Forgotten(FORGETTING_TRACE[|FORGETTING|], "p")
  {
    OneWaitingStarts();
    forall i: nat | i < |FORGETTING| ensures Takes(FORGETTING_TRACE[i], FORGETTING[i], FORGETTING_TRACE[i + 1]) {
      ForgettingStep(i);
    }
    assert |FORGETTING_TRACE| == |FORGETTING| + 1;
  }

  /** The same with a refused update: another client writes the run between listing and update. */
  const CONFLICTING: seq<Step> :=
    [BootSend("r"), WatcherReceive, WatcherTick(["r"]), WatcherList(Start("p", 0, 0)), RunTouched("p"),
     WatcherUpdateError, WatcherReturn, WatcherEndTick]

  const CONFLICTING_TRACE: seq<State> := [
    OneWaiting(0, [], map[], true, {"r"}, Selecting),
    OneWaiting(0, ["r"], map[], true, {}, Selecting),
    OneWaiting(0, [], map["r" := true], true, {}, Selecting),
    OneWaiting(0, [], map["r" := true], false, {}, Advancing(["r"])),
    OneWaiting(0, [], map["r" := true], false, {}, Starting([], "r", "p", 0, 0)),
    OneWaiting(1, [], map["r" := true], false, {}, Starting([], "r", "p", 0, 0)),
    OneWaiting(1, [], map["r" := true], false, {}, Finishing([], "r", 0)),
    OneWaiting(1, [], map["r" := false], false, {}, Advancing([])),
    OneWaiting(1, [], map["r" := false], false, {}, Selecting)]

  lemma ListedWaiting()
    ensures Takes(OneWaiting(0, [], map["r" := true], false, {}, Advancing(["r"])), WatcherList(Start("p", 0, 0)),
                  OneWaiting(0, [], map["r" := true], false, {}, Starting([], "r", "p", 0, 0)))
  {
    var s := OneWaiting(0, [], map["r" := true], false, {}, Advancing(["r"]));
    assert PendingNames(s.store, "r") == {"p"} && s.watcher.todo[1..] == [];
    assert IsDecision(s.store, "r", Start("p", 0, 0));
  }

  lemma ConflictArises()
    ensures Takes(OneWaiting(0, [], map["r" := true], false, {}, Starting([], "r", "p", 0, 0)), RunTouched("p"),
                  OneWaiting(1, [], map["r" := true], false, {}, Starting([], "r", "p", 0, 0)))
    ensures Takes(OneWaiting(1, [], map["r" := true], false, {}, Starting([], "r", "p", 0, 0)), WatcherUpdateError,
                  OneWaiting(1, [], map["r" := true], false, {}, Finishing([], "r", 0)))
  {
  }

  lemma ConflictingStep(i: nat)
    requires i < |CONFLICTING|
    ensures Takes(CONFLICTING_TRACE[i], CONFLICTING[i], CONFLICTING_TRACE[i + 1])
  {
    WakingSteps();
    ListedWaiting();
    ConflictArises();
    ClosingSteps(1);
    assert i == 0 || i == 1 || i == 2 || i == 3 || i == 4 || i == 5 || i == 6 || i == 7;
  }

  /** So it is reachable without any failing call but the update that the conflict has refused. */
  lemma ReachableConflict()
    ensures IsExecution(CONFLICTING_TRACE, CONFLICTING)
    ensures !Unchanged(CONFLICTING_TRACE[5].store, "p", CONFLICTING_TRACE[5].watcher.seen)
    ensures Forgotten(CONFLICTING_TRACE[|CONFLICTING|], "p")
  {
    OneWaitingStarts();
    forall i: nat | i < |CONFLICTING| ensures Takes(CONFLICTING_TRACE[i], CONFLICTING[i], CONFLICTING_TRACE[i + 1]) {
      ConflictingStep(i);
    }
    assert |CONFLICTING_TRACE| == |CONFLICTING| + 1;
    assert CONFLICTING[5] == WatcherUpdateError;
  }

  /* ---- The manager can always move while something waits ---- */

  lemma {:induction false} OldestExists(store: Store, repo: string, names: set<string>)
    requires names != {} && names <= PendingNames(store, repo)
    ensures exists n :: n in names && forall m | m in names :: store[n].created <= store[m].created
  {
    var n :| n in names;
    if names != {n} {
      OldestExists(store, repo, names - {n});
      var k :| k in names - {n} && forall m | m in names - {n} :: store[k].created <= store[m].created;
      var best := if store[n].created <= store[k].created then n else k;
      assert forall m | m in names :: m == n || m in names - {n};
      assert best in names && forall m | m in names :: store[best].created <= store[m].created;
    } else {
      assert forall m | m in names :: m == n;
    }
  }

  lemma DecisionExists(store: Store, repo: string)
    ensures exists d :: IsDecision(store, repo, d)
  {
    var pending := PendingNames(store, repo);
    if Quiet(store, repo) && pending != {} {
      OldestExists(store, repo, pending);
      var n :| n in pending && forall m | m in pending :: store[n].created <= store[m].created;
      assert IsDecision(store, repo, Start(n, store[n].version, |pending| - 1));
    } else {
      assert IsDecision(store, repo, Leave(|pending|));
    }
  }

  lemma {:induction false} EnumerationExists(names: set<string>)
    ensures exists order: seq<string> :: Distinct(order) && forall q :: q in order <==> q in names
  {
    if names == {} {
      assert Distinct([]);
    } else {
      var q :| q in names;
      EnumerationExists(names - {q});
      var rest: seq<string> :| Distinct(rest) && forall p :: p in rest <==> p in names - {q};
      assert Distinct([q] + rest) && forall p :: p in [q] + rest <==> p in names;
    }
  }

  /** A step of the manager itself that no call has to fail for; a conflict is not a failed call. */
  predicate IsManagerMove(s: State, step: Step) {
    match step
    case SchedulerSend | WatcherReceive | WatcherTick(_) | WatcherList(_) | WatcherUpdate => true
    case WatcherReturn | WatcherEndTick | BootSend(_) => true
    case WatcherUpdateError => s.watcher.Starting? && !Unchanged(s.store, s.watcher.pick, s.watcher.seen)
    case _ => false
  }

  /** No deadlock between the bounded channel, the timer and the two loops: while a run waits, some
      component can take its next step without any call failing. */
  lemma NeverStuck(s: State, n: string)
    requires WakeInv(s) && TickInv(s) && n in s.store && s.store[n].IsPending()
    ensures exists step :: IsManagerMove(s, step) && Enabled(s, step)
  {
    AwakeFromInv(s);
    match s.watcher
    case Advancing(todo) =>
      if todo == [] {
        assert Enabled(s, WatcherEndTick);
      } else {
        DecisionExists(s.store, todo[0]);
        var d :| IsDecision(s.store, todo[0], d);
        assert Enabled(s, WatcherList(d));
      }
    case Starting(_, _, pick, seen, _) =>
      assert Enabled(s, if Unchanged(s.store, pick, seen) then WatcherUpdate else WatcherUpdateError);
    case Finishing(_, _, _) => assert Enabled(s, WatcherReturn);
    case Selecting =>
      if s.channel != [] {
        assert Enabled(s, WatcherReceive);
      } else if s.scheduler.Sending? {
        assert Enabled(s, SchedulerSend);
      } else if s.store[n].repo in s.bootTodo {
        assert Enabled(s, BootSend(s.store[n].repo));
      } else {
        var active := set q | q in s.queues && s.queues[q];
        EnumerationExists(active);
        var order: seq<string> :| Distinct(order) && forall q :: q in order <==> q in active;
        assert forall i | 0 <= i < |order| :: order[i] in order;
        assert IsActiveOrder(s, order);
        assert Enabled(s, WatcherTick(order));
      }
  }
}
