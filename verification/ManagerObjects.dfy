/** The manager's objects and loops: `Watcher` and `Scheduler` over the Tekton store. Every method
    is proved against the functions and steps of the state machine. */
module ManagerObjects {
  import opened PipelineRuns
  import opened QueueProtocol
  import opened QueueGuarantees
  import opened QueueDrain
  import opened TektonStore

  class Watcher {
    const tekton: Tekton
    var queues: map<string, bool>
    var timerArmed: bool

    constructor (tekton: Tekton)
      ensures this.tekton == tekton && queues == map[] && timerArmed
    {
      this.tekton, queues, timerArmed := tekton, map[], true;
    }

    /** The part of the machine's state these two objects hold, completed by `rest`. */
    ghost function View(rest: State): State
      reads this, tekton
    {
      rest.(store := tekton.runs, nextVersion := tekton.nextVersion, clock := tekton.clock, history := tekton.history,
            queues := queues, timerArmed := timerArmed)
    }

    method HasActiveQueue() returns (active: bool)
      ensures active <==> HasActive(queues)
    {
      var names := queues.Keys;
      while names != {}
        invariant names <= queues.Keys
        invariant forall q | q in queues && q !in names :: !queues[q]
        decreases names
      {
        var q :| q in names;
        if queues[q] {
          return true;
        }
        names := names - {q};
      }
      return false;
    }

    method ActiveQueues() returns (qs: seq<string>)
      ensures forall q :: q in qs <==> q in queues && queues[q]
      ensures forall i, j | 0 <= i < j < |qs| :: qs[i] != qs[j]
    {
      qs := [];
      var names := queues.Keys;
      while names != {}
        invariant names <= queues.Keys
        invariant forall q :: q in qs <==> q in queues && q !in names && queues[q]
        invariant forall i, j | 0 <= i < j < |qs| :: qs[i] != qs[j]
        decreases names
      {
        var q :| q in names;
        assert q !in qs;
        if queues[q] {
          qs := qs + [q];
        }
        names := names - {q};
      }
    }

    /** The scan of advanceQueue: collects the pending runs and looks for an executing one. */
    method Scan(items: seq<Item>) returns (pending: seq<Item>, foundRunning: bool)
      requires forall i, j | 0 <= i < j < |items| :: items[i].name != items[j].name
      ensures foundRunning <==> exists j | 0 <= j < |items| :: items[j].run.IsProgressing()
      ensures forall p :: p in pending <==> p in items && p.run.IsPending()
      ensures forall j, k | 0 <= j < k < |pending| :: pending[j].name != pending[k].name
    {
      foundRunning := false;
      pending := [];
      for i := 0 to |items|
        invariant foundRunning <==> exists j | 0 <= j < i :: items[j].run.IsProgressing()
        invariant forall p :: p in pending <==> p in items[..i] && p.run.IsPending()
        invariant forall j, k | 0 <= j < k < |pending| :: pending[j].name != pending[k].name
      {
        assert items[..i + 1] == items[..i] + [items[i]];
        if items[i].run.IsPending() {
          assert forall j | 0 <= j < |pending| :: pending[j] in pending && pending[j].name != items[i].name;
          pending := pending + [items[i]];
        } else if items[i].run.IsProgressing() {
          foundRunning := true;
        }
      }
      assert items[..|items|] == items;
    }

    /** The sort and the choice of advanceQueue, on one listing. */
    method Decide(items: seq<Item>, ghost store: Store, ghost repo: string) returns (d: Decision, oldest: Item)
      requires IsListing(items, store, repo)
      ensures IsDecision(store, repo, d)
      ensures d.Start? ==> oldest == Item(d.pick, store[d.pick])
    {
      var pending, foundRunning := Scan(items);
      PendingComplete(items, pending, store, repo);
      QuietScan(items, store, repo);
      oldest := Item("", Run("", "", "", 0, Unset, false, false, 0));
      if !foundRunning && |pending| > 0 {
        oldest := Oldest(pending);
        LastIsOldest(pending, oldest, store, repo);
        d := Start(oldest.name, oldest.run.version, |pending| - 1);
      } else {
        d := Leave(|pending|);
      }
    }

    /** Sorts the pending runs and takes the last. */
    method Oldest(pending: seq<Item>) returns (oldest: Item)
      requires pending != []
      ensures oldest in pending && forall p | p in pending :: oldest.run.created <= p.run.created
    {
      var a := new Item[|pending|](i requires 0 <= i < |pending| => pending[i]);
      assert a[..] == pending;
      SortDescending(a);
      oldest := a[a.Length - 1];
      assert oldest in multiset(a[..]);
      forall p | p in pending ensures oldest.run.created <= p.run.created {
        assert p in multiset(a[..]);
        var k :| 0 <= k < |a[..]| && a[..][k] == p;
      }
    }

    /** One call of advanceQueue. `later` is what other clients have made of the store between the
        two calls. */
    method AdvanceQueue(queue: string, listFails: bool, later: Contents, update: Outcome)
      returns (remaining: nat, failed: bool, ghost d: Decision)
      modifies tekton
      ensures listFails ==> remaining == 0 && failed && tekton.Now() == old(tekton.Now())
      ensures !listFails ==> IsDecision(old(tekton.runs), queue, d) && remaining == d.remaining
      ensures !listFails && d.Leave? ==> !failed && tekton.Now() == later
      ensures !listFails && d.Start? ==>
        && (failed <==> !update.Works? || !Unchanged(later.runs, d.pick, d.seen))
        && tekton.Now() == if update.Fails? || !Unchanged(later.runs, d.pick, d.seen) then later
                           else
                             var run := old(tekton.runs)[d.pick].(status := Unset, version := later.nextVersion);
                             Contents(later.runs[d.pick := run], later.nextVersion + 1, later.clock,
                                      later.history + [Started(run.repo, run.created)])
    {
      d := Leave(0);
      if listFails {
        return 0, true, d;
      }
      var items := tekton.ListPipelineRuns(queue);
      ghost var listed := tekton.runs;
      var choice, oldest := Decide(items, listed, queue);
      d := choice;
      tekton.BecomesLater(later);
      remaining, failed := choice.remaining, false;
      if choice.Start? {
        var ok := tekton.UpdatePipelineRun(oldest.name, oldest.run.(status := Unset), update);
        failed := !ok;
      }
    }

    /** The loop body of the timer branch. An error of advanceQueue is only logged. */
    method VisitQueue(ghost todo: seq<string>, queue: string, e: Environment, i: nat, ghost rest: State)
      requires todo != [] && todo[0] == queue && !timerArmed
      requires Bounded(tekton.Now()) && AreOthers(e.others)
      modifies this, tekton
      ensures !timerArmed && Bounded(tekton.Now())
      ensures TakesTurn(old(View(rest)).(watcher := Advancing(todo)), e, i,
                        View(rest).(watcher := Advancing(todo[1..])))
    {
      ghost var here := View(rest).(watcher := Advancing(todo));
      var later := e.others(2 * i, tekton.Now());
      var remaining, _, d := AdvanceQueue(queue, e.listFails(i), later, e.updates(i));
      if remaining == 0 {
        queues := queues[queue := false];
      }
      if !e.listFails(i) {
        AdvancedTurn(here, e, i, d);
      }
    }

    /** The timer branch of Run in a given environment: queue by queue it takes the machine's turns,
        in which a call fails only if the environment says so. */
    method Tick(e: Environment, ghost rest: State) returns (ghost order: seq<string>)
      requires rest.watcher.Selecting? && timerArmed
      requires Bounded(tekton.Now()) && AreOthers(e.others)
      modifies this, tekton
      ensures Enabled(old(View(rest)), WatcherTick(order))
      ensures Turns(Apply(old(View(rest)), WatcherTick(order)), e, 0, View(rest))
    {
      var qs := ActiveQueues();
      order := qs;
      assert forall i | 0 <= i < |qs| :: qs[i] in qs;
      ghost var start := Apply(View(rest), WatcherTick(qs));
      timerArmed := false;
      assert qs[0..] == qs;
      for i := 0 to |qs|
        invariant !timerArmed && Bounded(tekton.Now())
        invariant LeadsTo(start, e, i, View(rest).(watcher := Advancing(qs[i..])))
      {
        ghost var here := View(rest).(watcher := Advancing(qs[i..]));
        VisitQueue(qs[i..], qs[i], e, i, rest);
        assert qs[i..][1..] == qs[i + 1..];
        ghost var there := View(rest).(watcher := Advancing(qs[i + 1..]));
        var later := e.others(2 * i + 1, tekton.Now());
        tekton.BecomesLater(later);
        assert View(rest).(watcher := Advancing(qs[i + 1..])) == WithContents(there, later);
        LeadsOn(start, e, i, here, there);
      }
      ghost var last := View(rest).(watcher := Advancing(qs[|qs|..]));
      timerArmed := HasActiveQueue();
      assert Turns(last, e, |qs|, Apply(last, WatcherEndTick));
      assert View(rest) == Apply(last, WatcherEndTick);
    }

    /** The receive branch of Run: activate the queue and arm the timer. */
    method Receive(repo: string, ghost rest: State)
      requires rest.watcher.Selecting? && rest.channel != [] && rest.channel[0] == repo
      modifies this
      ensures View(rest.(channel := rest.channel[1..])) == Apply(old(View(rest)), WatcherReceive)
    {
      queues := queues[repo := true];
      assert queues[repo];
      timerArmed := HasActiveQueue();
    }
  }

  /* ---- Turns of the timer branch in terms of the machine ---- */

  /** What surrounds the loop: other clients, who act during turn i in their chance 2i and after it
      in their chance 2i + 1, and the outcome of each call. */
  datatype Environment = Environment(others: Others, listFails: nat -> bool, updates: nat -> Outcome)

  ghost predicate Bounded(now: Contents) {
    forall n | n in now.runs :: now.runs[n].version < now.nextVersion
  }

  /** Later writes have got new versions. */
  ghost predicate Follows(now: Contents, later: Contents) {
    && Bounded(later)
    && now.nextVersion <= later.nextVersion
    && forall n | n in later.runs && later.runs[n].version < now.nextVersion ::
      n in now.runs && later.runs[n] == now.runs[n]
  }

  ghost predicate AreOthers(others: Others) {
    forall k, now | Bounded(now) :: Follows(now, others(k, now))
  }

  function WithContents(s: State, now: Contents): State {
    s.(store := now.runs, nextVersion := now.nextVersion, clock := now.clock, history := now.history)
  }

  function ContentsOf(s: State): Contents {
    Contents(s.store, s.nextVersion, s.clock, s.history)
  }

  /** Others have acted in their chance `k`. */
  function AfterOthers(s: State, others: Others, k: nat): State {
    WithContents(s, others(k, ContentsOf(s)))
  }

  /** The update step of the machine that a call with this outcome is. */
  function UpdateStep(s: State, outcome: Outcome): Step
    requires s.watcher.Starting?
  {
    if outcome.Fails? || !Unchanged(s.store, s.watcher.pick, s.watcher.seen) then WatcherUpdateError
    else if outcome.Lost? then WatcherUpdateLost
    else WatcherUpdate
  }

  /** The rest of a turn after its listing: others act, the update if there is one, the report. */
  function TurnEnd(s: State, e: Environment, i: nat, d: Decision): State
    requires Enabled(s, WatcherList(d))
  {
    var mid := AfterOthers(Apply(s, WatcherList(d)), e.others, 2 * i);
    Apply(if d.Start? then Apply(mid, UpdateStep(mid, e.updates(i))) else mid, WatcherReturn)
  }

  /** The machine's steps in turn `i`: an error only where a call fails, a start wherever it can be. */
  ghost predicate TakesTurn(s: State, e: Environment, i: nat, s': State)
    requires s.watcher.Advancing? && s.watcher.todo != []
  {
    if e.listFails(i) then s' == Apply(Apply(s, WatcherListError), WatcherReturn)
    else exists d :: Enabled(s, WatcherList(d)) && s' == TurnEnd(s, e, i, d)
  }

  /** The rest of a tick from turn `i` on, others acting during and after each turn. */
  ghost predicate Turns(s: State, e: Environment, i: nat, s': State)
    requires s.watcher.Advancing?
    decreases |s.watcher.todo|
  {
    if s.watcher.todo == [] then
      s' == Apply(s, WatcherEndTick)
    else
      exists t :: TakesTurn(s, e, i, t) && t.watcher == Advancing(s.watcher.todo[1..])
        && Turns(AfterOthers(t, e.others, 2 * i + 1), e, i + 1, s')
  }

  /** Store and queues after a turn whose listing succeeded, as AdvanceQueue and its caller leave them. */
  function Advanced(s: State, e: Environment, i: nat, d: Decision): State
    requires Enabled(s, WatcherList(d))
  {
    var queues := if d.remaining == 0 then s.queues[s.watcher.todo[0] := false] else s.queues;
    var later := e.others(2 * i, ContentsOf(s));
    var now :=
      if d.Leave? || e.updates(i).Fails? || !Unchanged(later.runs, d.pick, d.seen) then later
      else Created(later, d.pick, s.store[d.pick].(status := Unset));
    WithContents(s, now).(queues := queues, watcher := Advancing(s.watcher.todo[1..]))
  }

  lemma AdvancedTurn(s: State, e: Environment, i: nat, d: Decision)
    requires s.watcher.Advancing? && Enabled(s, WatcherList(d)) && Bounded(ContentsOf(s)) && AreOthers(e.others)
    ensures Advanced(s, e, i, d) == TurnEnd(s, e, i, d)
    ensures Bounded(ContentsOf(Advanced(s, e, i, d)))
  {
    var later := e.others(2 * i, ContentsOf(s));
    assert Follows(ContentsOf(s), later);
    if d.Leave? || e.updates(i).Fails? || !Unchanged(later.runs, d.pick, d.seen) {
      IdleTurn(s, e, i, d);
    } else {
      StartedTurn(s, e, i, d);
    }
  }

  lemma IdleTurn(s: State, e: Environment, i: nat, d: Decision)
    requires s.watcher.Advancing? && Enabled(s, WatcherList(d)) && Bounded(e.others(2 * i, ContentsOf(s)))
    requires d.Leave? || e.updates(i).Fails? || !Unchanged(e.others(2 * i, ContentsOf(s)).runs, d.pick, d.seen)
    ensures Advanced(s, e, i, d) == TurnEnd(s, e, i, d)
    ensures Bounded(ContentsOf(Advanced(s, e, i, d)))
  {
    var later := e.others(2 * i, ContentsOf(s));
    assert ContentsOf(Apply(s, WatcherList(d))) == ContentsOf(s);
    assert ContentsOf(Advanced(s, e, i, d)) == later;
  }

  lemma UpdateWritesCopy(mid: State, outcome: Outcome, run: Run)
    requires mid.watcher.Starting? && !outcome.Fails? && Unchanged(mid.store, mid.watcher.pick, mid.watcher.seen)
    requires mid.store[mid.watcher.pick] == run
    ensures var s' := Apply(mid, UpdateStep(mid, outcome));
      && s' == Reporting(WithContents(mid, ContentsOf(s')))
      && ContentsOf(s') == Created(ContentsOf(mid), mid.watcher.pick, run.(status := Unset))
  {
  }

  /** The listed copy written back is the current run started. */
  lemma StartedTurn(s: State, e: Environment, i: nat, d: Decision)
    requires s.watcher.Advancing? && Enabled(s, WatcherList(d)) && Bounded(ContentsOf(s)) && d.Start?
    requires Follows(ContentsOf(s), e.others(2 * i, ContentsOf(s)))
    requires !e.updates(i).Fails? && Unchanged(e.others(2 * i, ContentsOf(s)).runs, d.pick, d.seen)
    ensures Advanced(s, e, i, d) == TurnEnd(s, e, i, d)
    ensures Bounded(ContentsOf(Advanced(s, e, i, d)))
  {
    var later := e.others(2 * i, ContentsOf(s));
    assert later.runs[d.pick] == s.store[d.pick];
    assert ContentsOf(Apply(s, WatcherList(d))) == ContentsOf(s);
    var mid := AfterOthers(Apply(s, WatcherList(d)), e.others, 2 * i);
    UpdateWritesCopy(mid, e.updates(i), s.store[d.pick]);
  }

  /** Whatever completes a tick from `s` at turn `i` completes it from `start`. */
  ghost predicate LeadsTo(start: State, e: Environment, i: nat, s: State)
    requires start.watcher.Advancing? && s.watcher.Advancing?
  {
    forall t :: Turns(s, e, i, t) ==> Turns(start, e, 0, t)
  }

  lemma LeadsOn(start: State, e: Environment, i: nat, s: State, t: State)
    requires start.watcher.Advancing? && s.watcher.Advancing? && s.watcher.todo != [] && LeadsTo(start, e, i, s)
    requires TakesTurn(s, e, i, t) && t.watcher == Advancing(s.watcher.todo[1..])
    ensures LeadsTo(start, e, i + 1, AfterOthers(t, e.others, 2 * i + 1))
  {
    forall s' | Turns(AfterOthers(t, e.others, 2 * i + 1), e, i + 1, s') ensures Turns(start, e, 0, s') {
      assert Turns(s, e, i, s');
    }
  }

  /** Nobody else acts and no call fails. */
  ghost predicate IsUndisturbed(e: Environment) {
    && (forall k, now :: e.others(k, now) == now)
    && (forall i :: !e.listFails(i))
    && (forall i :: e.updates(i).Works?)
  }

  lemma UndisturbedEnd(s: State, e: Environment, i: nat, d: Decision)
    requires IsUndisturbed(e) && Enabled(s, WatcherList(d))
    ensures TurnEnd(s, e, i, d) == Visit(s, d)
  {
    var listed := Apply(s, WatcherList(d));
    assert AfterOthers(listed, e.others, 2 * i) == listed;
    assert d.Start? ==> UpdateStep(listed, e.updates(i)) == WatcherUpdate;
  }

  lemma UndisturbedTurn(s: State, e: Environment, i: nat, t: State)
    requires s.watcher.Advancing? && s.watcher.todo != [] && IsUndisturbed(e) && TakesTurn(s, e, i, t)
    ensures exists d :: Enabled(s, WatcherList(d)) && t == Visit(s, d)
  {
    var d :| Enabled(s, WatcherList(d)) && t == TurnEnd(s, e, i, d);
    UndisturbedEnd(s, e, i, d);
  }

  /** One turn and the rest of its tick. */
  lemma TurnsSplit(s: State, e: Environment, i: nat, s': State) returns (t: State)
    requires s.watcher.Advancing? && s.watcher.todo != [] && Turns(s, e, i, s')
    ensures TakesTurn(s, e, i, t) && t.watcher == Advancing(s.watcher.todo[1..])
    ensures Turns(AfterOthers(t, e.others, 2 * i + 1), e, i + 1, s')
  {
    t :| TakesTurn(s, e, i, t) && t.watcher == Advancing(s.watcher.todo[1..])
      && Turns(AfterOthers(t, e.others, 2 * i + 1), e, i + 1, s');
  }

  lemma UndisturbedSplit(s: State, e: Environment, i: nat, s': State) returns (t: State)
    requires s.watcher.Advancing? && s.watcher.todo != [] && IsUndisturbed(e) && Turns(s, e, i, s')
    ensures t.watcher == Advancing(s.watcher.todo[1..]) && Turns(t, e, i + 1, s')
    ensures exists d :: Enabled(s, WatcherList(d)) && t == Visit(s, d)
  {
    t := TurnsSplit(s, e, i, s');
    UndisturbedTurn(s, e, i, t);
    assert AfterOthers(t, e.others, 2 * i + 1) == t;
  }

  lemma VisitsOnward(s: State, t: State, s': State)
    requires s.watcher.Advancing? && s.watcher.todo != [] && t.watcher.Advancing? && Visits(t, s')
    requires exists d :: Enabled(s, WatcherList(d)) && t == Visit(s, d)
    ensures Visits(s, s')
  {
    var d :| Enabled(s, WatcherList(d)) && t == Visit(s, d);
    assert Visits(Visit(s, d), s');
  }

  /** Then the turns are the visits of the drain results, so these hold for the timer branch. */
  lemma {:induction false} UndisturbedTick(s: State, e: Environment, i: nat, s': State)
    requires s.watcher.Advancing? && IsUndisturbed(e) && Turns(s, e, i, s')
    ensures Visits(s, s')
    decreases |s.watcher.todo|
  {
    if s.watcher.todo == [] {
      LastTurn(s, e, i, s');
    } else {
      var t := UndisturbedSplit(s, e, i, s');
      UndisturbedTick(t, e, i + 1, s');
      VisitsOnward(s, t, s');
    }
  }

  lemma LastTurn(s: State, e: Environment, i: nat, s': State)
    requires s.watcher.Advancing? && s.watcher.todo == [] && Turns(s, e, i, s')
    ensures Visits(s, s')
  {
  }

  /* ---- What others do ---- */

  /** Components other than the watcher may have been at work. */
  ghost predicate OthersWork(s: State, s': State) {
    && s'.watcher == s.watcher && s'.queues == s.queues && s'.timerArmed == s.timerArmed
    && Follows(ContentsOf(s), ContentsOf(s'))
  }

  predicate IsWatcherStep(step: Step) {
    match step
    case WatcherReceive | WatcherTick(_) | WatcherList(_) | WatcherListError | WatcherUpdate => true
    case WatcherUpdateError | WatcherUpdateLost | WatcherReturn | WatcherEndTick => true
    case _ => false
  }

  lemma BoundedStep(s: State, step: Step)
    requires Bounded(ContentsOf(s)) && Enabled(s, step)
    ensures Bounded(ContentsOf(Apply(s, step)))
  {
    var s' := Apply(s, step);
    if IsCreate(step) || IsStart(step) {
      assert s'.nextVersion == s.nextVersion + 1;
    } else if IsWorldStep(step) {
      BoundedWorldStep(s, step);
    } else {
      assert s'.store == s.store && s'.nextVersion == s.nextVersion;
    }
  }

  lemma BoundedWorldStep(s: State, step: Step)
    requires Bounded(ContentsOf(s)) && Enabled(s, step) && IsWorldStep(step)
    ensures Bounded(ContentsOf(Apply(s, step)))
  {
  }

  lemma OnlyStore(s: State, step: Step)
    requires Enabled(s, step) && !IsWatcherStep(step) && !step.Restart?
    ensures var s' := Apply(s, step);
      s'.watcher == s.watcher && s'.queues == s.queues && s'.timerArmed == s.timerArmed
  {
  }

  lemma OthersWorkStep(s: State, step: Step)
    requires Bounded(ContentsOf(s)) && Enabled(s, step) && !IsWatcherStep(step) && !step.Restart?
    ensures OthersWork(s, Apply(s, step))
  {
    InheritsStep(s, step);
    BoundedStep(s, step);
    OnlyStore(s, step);
  }

  /** Any steps of the other components in a row are interference as the timer branch allows it. */
  lemma {:induction false} OthersWorkAlong(trace: seq<State>, steps: seq<Step>, k: nat)
    requires |trace| == |steps| + 1 && k <= |steps| && Bounded(ContentsOf(trace[0]))
    requires forall i | 0 <= i < |steps| ::
      Takes(trace[i], steps[i], trace[i + 1]) && !IsWatcherStep(steps[i]) && !steps[i].Restart?
    ensures OthersWork(trace[0], trace[k])
  {
    if k > 0 {
      OthersWorkAlong(trace, steps, k - 1);
      assert Takes(trace[k - 1], steps[k - 1], trace[(k - 1) + 1]);
      OthersWorkStep(trace[k - 1], steps[k - 1]);
      OthersWorkOn(trace[0], trace[k - 1], trace[k]);
    }
  }

  lemma OthersWorkOn(s: State, mid: State, s': State)
    requires OthersWork(s, mid) && OthersWork(mid, s')
    ensures OthersWork(s, s')
  {
  }

  /** AdvanceQueue with interference is the machine's list step, any steps of others, and the
      update step: writing back the listed copy is starting the run as the store has it. */
  lemma AdvanceIsListThenUpdate(s: State, d: Decision, later: State)
    requires SafetyInv(s) && Enabled(s, WatcherList(d)) && d.Start?
    requires later.watcher == Apply(s, WatcherList(d)).watcher && Inherits(s, later)
    ensures Enabled(later, WatcherUpdate) <==> Unchanged(later.store, d.pick, d.seen)
    ensures Unchanged(later.store, d.pick, d.seen) ==>
      var listed, s' := s.store[d.pick], Apply(later, WatcherUpdate);
      && s'.store == later.store[d.pick := listed.(status := Unset, version := later.nextVersion)]
      && s'.history == later.history + [Started(listed.repo, listed.created)]
      && s'.watcher.remaining == d.remaining
      && s' == Apply(later, WatcherUpdateLost)
  {
    assert d.pick in s.store && s.store[d.pick].version < s.nextVersion;
  }

  /** Schedule leaves what the machine's list step, steps of others, and the create step leave, which
      `later` is the state before; the answer is whether the machine is to send a wake-up. */
  lemma ScheduleIsListThenCreate(s: State, repo: string, stage: string, pipeline: string, later: State, name: string)
    requires Enabled(s, SchedulerList(repo, stage, pipeline))
    requires later.scheduler == Apply(s, SchedulerList(repo, stage, pipeline)).scheduler
    ensures Enabled(later, SchedulerCreate(name)) <==> name !in later.store
    ensures name !in later.store ==>
      var pend, s' := !Idle(s.store, repo), Apply(later, SchedulerCreate(name));
      var status := if pend then Pending else Unset;
      var run := Run(repo, stage, pipeline, later.clock, status, false, false, later.nextVersion);
      && ContentsOf(s') == Contents(later.store[name := run], later.nextVersion + 1, later.clock,
                                    later.history + if pend then [] else [Started(repo, later.clock)])
      && (s'.scheduler == Sending(repo) <==> pend)
      && Apply(later, SchedulerCreateLost(name)) == s'.(scheduler := Waiting)
  {
  }

  lemma QuietScan(items: seq<Item>, store: Store, repo: string)
    requires IsListing(items, store, repo)
    ensures Quiet(store, repo) <==> forall j | 0 <= j < |items| :: !items[j].run.IsProgressing()
  {
    forall n | n in store && store[n].repo == repo
      ensures exists i | 0 <= i < |items| :: items[i] == Item(n, store[n])
    {
      var i :| 0 <= i < |items| && items[i].name == n;
      assert items[i] == Item(n, store[n]);
    }
  }

  /** The scan's pending runs are the repository's, each once. */
  lemma PendingComplete(items: seq<Item>, pending: seq<Item>, store: Store, repo: string)
    requires IsListing(items, store, repo)
    requires forall j | 0 <= j < |pending| :: pending[j].run.IsPending() && pending[j] in items
    requires forall j | 0 <= j < |items| && items[j].run.IsPending() :: items[j] in pending
    requires forall j, k | 0 <= j < k < |pending| :: pending[j].name != pending[k].name
    ensures forall i | i in pending :: i.name in PendingNames(store, repo) && store[i.name] == i.run
    ensures forall n | n in PendingNames(store, repo) :: Item(n, store[n]) in pending
    ensures |pending| == |PendingNames(store, repo)|
  {
    forall n | n in PendingNames(store, repo) ensures Item(n, store[n]) in pending {
      var i :| 0 <= i < |items| && items[i].name == n;
      assert items[i] == Item(n, store[n]);
    }
    var names := seq(|pending|, i requires 0 <= i < |pending| => pending[i].name);
    assert forall n :: n in names ==> n in PendingNames(store, repo);
    forall n | n in PendingNames(store, repo) ensures n in names {
      var i :| 0 <= i < |pending| && pending[i] == Item(n, store[n]);
      assert names[i] == n;
    }
    SetOfDistinct(names, PendingNames(store, repo));
  }

  lemma {:induction false} SetOfDistinct(names: seq<string>, all: set<string>)
    requires forall n :: n in names <==> n in all
    requires forall i, j | 0 <= i < j < |names| :: names[i] != names[j]
    ensures |names| == |all|
  {
    if names == [] {
      assert all == {};
    } else {
      var last := names[|names| - 1];
      var init := names[..|names| - 1];
      assert names == init + [last];
      SetOfDistinct(init, all - {last});
    }
  }

  lemma LastIsOldest(pending: seq<Item>, oldest: Item, store: Store, repo: string)
    requires oldest in pending && forall p | p in pending :: oldest.run.created <= p.run.created
    requires forall i | i in pending :: i.name in PendingNames(store, repo) && store[i.name] == i.run
    requires forall n | n in PendingNames(store, repo) :: Item(n, store[n]) in pending
    ensures IsOldestPending(store, repo, oldest.name)
  {
    forall m | m in PendingNames(store, repo) ensures store[oldest.name].created <= store[m].created {
      assert Item(m, store[m]) in pending;
    }
  }

  class Scheduler {
    const tekton: Tekton

    constructor (tekton: Tekton)
      ensures this.tekton == tekton
    {
      this.tekton := tekton;
    }

    method NeedsQueueing(items: seq<Item>) returns (needed: bool)
      ensures needed <==> exists i | 0 <= i < |items| :: items[i].run.IsPending() || items[i].run.IsProgressing()
    {
      for i := 0 to |items|
        invariant forall j | 0 <= j < i :: !items[j].run.IsPending() && !items[j].run.IsProgressing()
      {
        if items[i].run.IsPending() || items[i].run.IsProgressing() {
          return true;
        }
      }
      return false;
    }

    /** One call of schedule, from the listing on; `later` is the store at the time of the create.
        The answer tells whether a wake-up has to be sent. */
    method Schedule(repo: string, stage: string, pipeline: string, listFails: bool, later: Contents,
                    create: Outcome, name: string)
      returns (queued: bool)
      modifies tekton
      ensures listFails ==> !queued && tekton.Now() == old(tekton.Now())
      ensures !listFails ==>
        var pend := !Idle(old(tekton.runs), repo);
        var status := if pend then Pending else Unset;
        var run := Run(repo, stage, pipeline, later.clock, status, false, false, later.nextVersion);
        && (queued <==> pend && create.Works? && name !in later.runs)
        && tekton.Now() == if create.Fails? || name in later.runs then later
                           else Contents(later.runs[name := run], later.nextVersion + 1, later.clock,
                                         later.history + if pend then [] else [Started(repo, later.clock)])
    {
      if listFails {
        return false;
      }
      var items := tekton.ListPipelineRuns(repo);
      var needed := NeedsQueueing(items);
      IdleScan(items, tekton.runs, repo);
      tekton.BecomesLater(later);
      var status := if needed then Pending else Unset;
      var run := Run(repo, stage, pipeline, tekton.clock, status, false, false, 0);
      var ok := tekton.CreatePipelineRun(name, run, create);
      return ok && needed;
    }
  }

  lemma IdleScan(items: seq<Item>, store: Store, repo: string)
    requires IsListing(items, store, repo)
    ensures Idle(store, repo) <==> forall j | 0 <= j < |items| ::
      !items[j].run.IsProgressing() && !items[j].run.IsPending()
  {
    forall n | n in store && store[n].repo == repo
      ensures exists i | 0 <= i < |items| :: items[i] == Item(n, store[n])
    {
      var i :| 0 <= i < |items| && items[i].name == n;
      assert items[i] == Item(n, store[n]);
    }
  }
}
