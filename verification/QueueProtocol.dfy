/** The pipeline manager as a state machine: scheduler, watcher, pruner, boot goroutine and
    outside world interleave at every call to the shared store and every channel operation.
    One manager process; only the manager starts runs; the clock never goes back. */
module QueueProtocol {
  import opened PipelineRuns

  const CHANNEL_BUFFER_SIZE := 5

  /** What advanceQueue makes of one listing: start `pick` (last seen at version `seen`) or leave the
      queue alone; `remaining` is the queue length it will report. */
  datatype Decision =
    | Start(pick: string, seen: nat, remaining: nat)
    | Leave(remaining: nat)

  ghost predicate IsDecision(store: Store, repo: string, d: Decision) {
    var pending := PendingNames(store, repo);
    if Quiet(store, repo) && pending != {} then
      && d.Start?
      && IsOldestPending(store, repo, d.pick)
      && d.seen == store[d.pick].version
      && d.remaining == |pending| - 1
    else
      d == Leave(|pending|)
  }

  /** Where the scheduler stands between two of its calls. */
  datatype SchedulerPc =
    | Waiting
    | Deciding(repo: string, stage: string, pipeline: string, queued: bool)
    | Sending(repo: string)

  /** Where the watcher stands; `todo` are the queues this tick has still to visit. */
  datatype WatcherPc =
    | Selecting
    | Advancing(todo: seq<string>)
    | Starting(todo: seq<string>, repo: string, pick: string, seen: nat, remaining: nat)
    | Finishing(todo: seq<string>, repo: string, remaining: nat)

  /** History entry: a run of `repo` created at `created` began to execute. */
  datatype Started = Started(repo: string, created: int)

  datatype State = State(
    store: Store,
    clock: int,
    nextVersion: nat,
    channel: seq<string>,
    queues: map<string, bool>,
    timerArmed: bool,
    bootTodo: set<string>,
    scheduler: SchedulerPc,
    watcher: WatcherPc,
    history: seq<Started>)

  datatype Step =
    // scheduler
    | SchedulerList(repo: string, stage: string, pipeline: string)
    | SchedulerCreate(name: string)
    | SchedulerCreateError
    | SchedulerCreateLost(name: string)
    | SchedulerSend
    // watcher
    | WatcherReceive
    | WatcherTick(order: seq<string>)
    | WatcherList(decision: Decision)
    | WatcherListError
    | WatcherUpdate
    | WatcherUpdateError
    | WatcherUpdateLost
    | WatcherReturn
    | WatcherEndTick
    // boot goroutine and process restart
    | BootSend(repo: string)
    | BootError
    | Restart(repos: set<string>)
    // outside world, pruner included
    | RunFinishes(name: string)
    | RunTimesOut(name: string)
    | RunCancelled(name: string)
    | RunTouched(name: string)
    | RunsDeleted(names: set<string>)
    | ClockAdvances(now: int)

  predicate Active(s: State, repo: string) {
    repo in s.queues && s.queues[repo]
  }

  ghost predicate HasActive(queues: map<string, bool>) {
    exists q | q in queues :: queues[q]
  }

  /** `order` enumerates the active queues, as ranging over the map does. */
  ghost predicate IsActiveOrder(s: State, order: seq<string>) {
    && (forall i | 0 <= i < |order| :: Active(s, order[i]))
    && (forall i, j | 0 <= i < j < |order| :: order[i] != order[j])
    && (forall q | q in s.queues && s.queues[q] :: q in order)
  }

  ghost predicate Enabled(s: State, step: Step) {
    match step
    case SchedulerList(_, _, _) => s.scheduler.Waiting?
    case SchedulerCreate(name) => s.scheduler.Deciding? && name !in s.store
    case SchedulerCreateError => s.scheduler.Deciding?
    case SchedulerCreateLost(name) => s.scheduler.Deciding? && name !in s.store
    case SchedulerSend => s.scheduler.Sending? && |s.channel| < CHANNEL_BUFFER_SIZE
    case WatcherReceive => s.watcher.Selecting? && s.channel != []
    case WatcherTick(order) => s.watcher.Selecting? && s.timerArmed && IsActiveOrder(s, order)
    case WatcherList(d) => s.watcher.Advancing? && s.watcher.todo != [] && IsDecision(s.store, s.watcher.todo[0], d)
    case WatcherListError => s.watcher.Advancing? && s.watcher.todo != []
    case WatcherUpdate => s.watcher.Starting? && Unchanged(s.store, s.watcher.pick, s.watcher.seen)
    case WatcherUpdateError => s.watcher.Starting?
    case WatcherUpdateLost => s.watcher.Starting? && Unchanged(s.store, s.watcher.pick, s.watcher.seen)
    case WatcherReturn => s.watcher.Finishing?
    case WatcherEndTick => s.watcher.Advancing? && s.watcher.todo == []
    case BootSend(repo) => repo in s.bootTodo && |s.channel| < CHANNEL_BUFFER_SIZE
    case BootError => true
    case Restart(repos) => forall n | n in s.store :: s.store[n].repo in repos
    case RunFinishes(name) => name in s.store
    case RunTimesOut(name) => name in s.store
    case RunCancelled(name) => name in s.store
    case RunTouched(name) => name in s.store
    case RunsDeleted(_) => true
    case ClockAdvances(now) => s.clock <= now
  }

  /** The server's compare-and-swap: an update goes through only for the version it was read at. */
  predicate Unchanged(store: Store, name: string, seen: nat) {
    name in store && store[name].version == seen
  }

  function Apply(s: State, step: Step): State
    requires Enabled(s, step)
  {
    match step
    case SchedulerList(repo, stage, pipeline) =>
      s.(scheduler := Deciding(repo, stage, pipeline, !Idle(s.store, repo)))
    case SchedulerCreate(name) =>
      var repo, queued := s.scheduler.repo, s.scheduler.queued;
      CreateRun(s, name).(scheduler := if queued then Sending(repo) else Waiting)
    case SchedulerCreateError => s.(scheduler := Waiting)
    case SchedulerCreateLost(name) => CreateRun(s, name).(scheduler := Waiting)
    case SchedulerSend => s.(channel := s.channel + [s.scheduler.repo], scheduler := Waiting)
    case WatcherReceive =>
      s.(queues := s.queues[s.channel[0] := true], channel := s.channel[1..], timerArmed := true)
    case WatcherTick(order) => s.(watcher := Advancing(order), timerArmed := false)
    case WatcherList(d) =>
      var repo, todo := s.watcher.todo[0], s.watcher.todo[1..];
      s.(watcher := match d
                    case Start(pick, seen, remaining) => Starting(todo, repo, pick, seen, remaining)
                    case Leave(remaining) => Finishing(todo, repo, remaining))
    case WatcherListError => s.(watcher := Finishing(s.watcher.todo[1..], s.watcher.todo[0], 0))
    case WatcherUpdate => Reporting(StartRun(s, s.watcher.pick))
    case WatcherUpdateError => Reporting(s)
    case WatcherUpdateLost => Reporting(StartRun(s, s.watcher.pick))
    case WatcherReturn =>
      var w := s.watcher;
      s.(queues := if w.remaining == 0 then s.queues[w.repo := false] else s.queues, watcher := Advancing(w.todo))
    case WatcherEndTick => s.(watcher := Selecting, timerArmed := AnyActive(s.queues))
    case BootSend(repo) => s.(channel := s.channel + [repo], bootTodo := s.bootTodo - {repo})
    case BootError => s.(bootTodo := {})
    case Restart(repos) => Boot(s, repos)
    case RunFinishes(name) => Write(s, name, s.store[name].(done := true))
    case RunTimesOut(name) => Write(s, name, s.store[name].(timedOut := true))
    case RunCancelled(name) => Write(s, name, s.store[name].(status := Cancelled))
    case RunTouched(name) => Write(s, name, s.store[name])
    case RunsDeleted(names) => s.(store := s.store - names)
    case ClockAdvances(now) => s.(clock := now)
  }

  predicate AnyActive(queues: map<string, bool>)
    ensures AnyActive(queues) == HasActive(queues)
  {
    !forall q | q in queues :: !queues[q]
  }

  /** Every write stamps the object with a version the store has never used before. */
  function Write(s: State, name: string, run: Run): State {
    s.(store := s.store[name := run.(version := s.nextVersion)], nextVersion := s.nextVersion + 1)
  }

  function CreateRun(s: State, name: string): State
    requires s.scheduler.Deciding?
  {
    var pc := s.scheduler;
    var status := if pc.queued then Pending else Unset;
    var s' := Write(s, name, Run(pc.repo, pc.stage, pc.pipeline, s.clock, status, false, false, 0));
    if pc.queued then s' else s'.(history := s.history + [Started(pc.repo, s.clock)])
  }

  function StartRun(s: State, name: string): State
    requires name in s.store
  {
    var run := s.store[name];
    Write(s, name, run.(status := Unset)).(history := s.history + [Started(run.repo, run.created)])
  }

  function Reporting(s: State): State
    requires s.watcher.Starting?
  {
    s.(watcher := Finishing(s.watcher.todo, s.watcher.repo, s.watcher.remaining))
  }

  /** A fresh manager process next to the surviving store: nothing but the boot-time list of
      repositories tells it what is pending. */
  function Boot(s: State, repos: set<string>): State {
    s.(channel := [], queues := map[], timerArmed := true, bootTodo := repos, scheduler := Waiting,
       watcher := Selecting)
  }

  ghost predicate Initial(s: State) {
    && AtMostOneProgressing(s)
    && (forall n | n in s.store :: s.store[n].version < s.nextVersion && s.store[n].created <= s.clock)
    && (exists repos: set<string> :: Enabled(s, Restart(repos)) && s == Boot(s, repos))
    && s.history == []
  }

  /** A finite execution: `trace` has one state more than there are steps. */
  ghost predicate IsExecution(trace: seq<State>, steps: seq<Step>) {
    && |trace| == |steps| + 1
    && Initial(trace[0])
    && forall i | 0 <= i < |steps| :: Takes(trace[i], steps[i], trace[i + 1])
  }

  ghost predicate Takes(s: State, step: Step, s': State) {
    Enabled(s, step) && s' == Apply(s, step)
  }

  /** The manager's promise: no two runs of one repository execute at once. */
  ghost predicate AtMostOneProgressing(s: State) {
    forall m, n | m in s.store && n in s.store && s.store[m].IsProgressing() && s.store[n].IsProgressing() ::
      s.store[m].repo == s.store[n].repo ==> m == n
  }
}
