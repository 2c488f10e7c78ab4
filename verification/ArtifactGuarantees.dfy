/** Two promises that span ods-start and ods-finish: the subrepository gate opens only after a
    successful run of that very commit, and runs do not upload what is there already. */
module ArtifactGuarantees {
  import opened ArtifactExchange

  const PERMANENT := "permanent"
  const TEMPORARY := "temporary"
  /** The order start searches in. */
  const SEARCHED := [PERMANENT, TEMPORARY]

  lemma SourceOfSearched(repos: Repositories, group: string)
    ensures FindSource(repos, SEARCHED, group) ==
      if Found(repos, PERMANENT, group) != {} then FoundIn(PERMANENT)
      else if Found(repos, TEMPORARY, group) != {} then FoundIn(TEMPORARY)
      else NotFound
  {
    assert SEARCHED[1..] == [TEMPORARY] && [TEMPORARY][1..] == [];
    assert FindSource(repos, [TEMPORARY], group) ==
      if Found(repos, TEMPORARY, group) != {} then FoundIn(TEMPORARY) else NotFound;
  }

  /* ---- Names of the directories for failed runs ---- */

  lemma FailedDirsDiffer(r: string, s: string)
    requires FailedDir(r) == FailedDir(s)
    ensures r == s
  {
    assert FailedDir(r)[7..7 + |r|] == r && FailedDir(s)[7..7 + |s|] == s;
    assert |FailedDir(r)| == |r| + 17 && |FailedDir(s)| == |s| + 17;
  }

  lemma FailedDirIsNoRunsDir(run: string)
    ensures FailedDir(run) != PIPELINE_RUNS
  {
    assert FailedDir(run)[0] == 'f' && PIPELINE_RUNS[0] == 'p';
  }

  /* ---- Many runs at once: the gate ---- */

  /** What finish knows of its run: the commit it was started for, and the aggregate status. */
  datatype Verdict = Verdict(group: string, status: string)

  /** One file of a run that finish has uploaded. */
  datatype Sent = Sent(run: string, group: string, at: Location, target: string)

  /** What commits carry in their artifacts directory, where they carry anything. */
  type Trees = map<string, map<Location, Blob>>

  function Carried(trees: Trees, group: string): map<Location, Blob> {
    if group in trees then trees[group] else map[]
  }

  /** A run works on its own commit and, for an umbrella repository, on those of its subrepositories;
      `verdicts` holds the runs that have reached finish. */
  datatype World = World(
    trees: Trees,
    repos: Repositories,
    flights: map<(string, string), Workspace>,
    verdicts: map<string, Verdict>,
    sent: set<Sent>)

  datatype Step =
    | Start(run: string, ws: Workspace)
    | Task(run: string, group: string, at: Location, blob: Blob)
    | Record(run: string, group: string, status: string)
    | Upload(run: string, group: string, at: Location, target: string)

  ghost predicate Enabled(w: World, step: Step) {
    match step
    case Start(run, ws) =>
      && (run, ws.group) !in w.flights
      && IsManifest(ws.manifest, w.repos, SEARCHED, ws.group)
      && ws.files == Carried(w.trees, ws.group) + Downloads(w.repos, SEARCHED, ws.group)
      && AllInSubfolders(Downloads(w.repos, SEARCHED, ws.group)) && IsTree(ws.files)
    case Task(run, group, at, blob) =>
      // tasks write anywhere but among the run records
      (run, group) in w.flights && at.dir != [] && at.dir[0] != PIPELINE_RUNS
    case Record(run, group, status) => (run, group) in w.flights && run !in w.verdicts
    case Upload(run, group, at, target) =>
      // finish takes every file once
      && (run, group) in w.flights && run in w.verdicts && IsOffered(w.flights[(run, group)], target, at)
      && Sent(run, group, at, target) !in w.sent
  }

  /** Where finish writes the record of its run. */
  function RecordAt(run: string): Location {
    Location([PIPELINE_RUNS], run + ".json")
  }

  function Apply(w: World, step: Step): World
    requires Enabled(w, step)
  {
    match step
    case Start(run, ws) => w.(flights := w.flights[(run, ws.group) := ws])
    case Task(run, group, at, blob) =>
      var ws := w.flights[(run, group)];
      w.(flights := w.flights[(run, group) := ws.(files := ws.files[at := blob])])
    case Record(run, group, status) =>
      var ws := w.flights[(run, group)];
      w.(flights := w.flights[(run, group) := ws.(files := ws.files[RecordAt(run) := RunRecord(run, status)])],
         verdicts := w.verdicts[run := Verdict(group, status)])
    case Upload(run, group, at, target) =>
      var ws := w.flights[(run, group)];
      var asset := DestinationOf(ws, at, run, w.verdicts[run].status);
      w.(repos := w.repos[target := Assets(w.repos, target)[asset := ws.files[at]]],
         sent := w.sent + {Sent(run, group, at, target)})
  }

  type Verdicts = map<string, Verdict>

  /** The record of a finished run of this commit, and of a successful one unless it is `own`. */
  predicate IsTrueRecord(verdicts: Verdicts, group: string, blob: Blob, own: string) {
    && blob.RunRecord?
    && blob.run in verdicts
    && verdicts[blob.run] == Verdict(group, blob.status)
    && (TasksSuccessful(blob.status) || blob.run == own)
  }

  predicate IsAmongRuns(l: Location) {
    l.dir != [] && l.dir[0] == PIPELINE_RUNS
  }

  /** What start's check on a subrepository looks for: run records, or a file in their place. */
  predicate MakesRunsDir(l: Location) {
    (l.dir + [l.name])[0] == PIPELINE_RUNS
  }

  /** The check: the path of the run records exists after the download. */
  predicate GateOpens(files: map<Location, Blob>) {
    exists l | l in files :: MakesRunsDir(l)
  }

  /** The commit itself carries nothing there. */
  predicate IsBare(trees: Trees, group: string) {
    !GateOpens(Carried(trees, group))
  }

  /** Of bare commits repositories hold, among the run records, only those of successful runs. */
  ghost predicate RepositoryIsTrue(repo: Repository, verdicts: Verdicts, trees: Trees) {
    forall a | a in repo && IsAmongRuns(a.at) && IsBare(trees, a.group) ::
      a.at.dir == [PIPELINE_RUNS] && IsTrueRecord(verdicts, a.group, repo[a], "") && TasksSuccessful(repo[a].status)
  }

  /** So do workspaces, apart from the run's own record. */
  ghost predicate FilesAreTrue(files: map<Location, Blob>, verdicts: Verdicts, group: string, run: string) {
    forall l | l in files && IsAmongRuns(l) :: l.dir == [PIPELINE_RUNS] && IsTrueRecord(verdicts, group, files[l], run)
  }

  ghost predicate GateInv(w: World) {
    && (forall name :: RepositoryIsTrue(Assets(w.repos, name), w.verdicts, w.trees))
    && (forall key | key in w.flights ::
          && w.flights[key].group == key.1
          && (IsBare(w.trees, key.1) ==> FilesAreTrue(w.flights[key].files, w.verdicts, key.1, key.0)))
  }

  lemma GateUpload(w: World, step: Step)
    requires GateInv(w) && Enabled(w, step) && step.Upload?
    ensures GateInv(Apply(w, step))
  {
    var ws, status := w.flights[(step.run, step.group)], w.verdicts[step.run].status;
    FailedDirIsNoRunsDir(step.run);
    var w', asset := Apply(w, step), DestinationOf(ws, step.at, step.run, status);
    assert RepositoryIsTrue(Assets(w.repos, step.target), w.verdicts, w.trees);
    assert IsBare(w.trees, step.group) ==> FilesAreTrue(ws.files, w.verdicts, step.group, step.run);
    assert RepositoryIsTrue(Assets(w'.repos, step.target), w.verdicts, w.trees);
    forall name ensures RepositoryIsTrue(Assets(w'.repos, name), w.verdicts, w.trees) {
      assert name != step.target ==> Assets(w'.repos, name) == Assets(w.repos, name);
    }
  }

  lemma StartIsTrue(w: World, ws: Workspace, run: string)
    requires GateInv(w) && Enabled(w, Start(run, ws)) && IsBare(w.trees, ws.group)
    ensures FilesAreTrue(ws.files, w.verdicts, ws.group, run)
  {
    var downloads := Downloads(w.repos, SEARCHED, ws.group);
    forall l | l in ws.files && IsAmongRuns(l) ensures l in downloads && ws.files[l] == downloads[l] {
      assert MakesRunsDir(l);
    }
    match FindSource(w.repos, SEARCHED, ws.group)
    case FoundIn(name) =>
      assert RepositoryIsTrue(Assets(w.repos, name), w.verdicts, w.trees);
      assert forall l | l in downloads :: Asset(ws.group, l) in Assets(w.repos, name);
    case NotFound =>
  }

  lemma GateStart(w: World, step: Step)
    requires GateInv(w) && Enabled(w, step) && step.Start?
    ensures GateInv(Apply(w, step))
  {
    if IsBare(w.trees, step.ws.group) {
      StartIsTrue(w, step.ws, step.run);
    }
  }

  lemma GateTask(w: World, step: Step)
    requires GateInv(w) && Enabled(w, step) && step.Task?
    ensures GateInv(Apply(w, step))
  {
    var files := w.flights[(step.run, step.group)].files;
    if IsBare(w.trees, step.group) {
      assert FilesAreTrue(files, w.verdicts, step.group, step.run);
      assert FilesAreTrue(files[step.at := step.blob], w.verdicts, step.group, step.run);
    }
  }

  lemma MoreVerdicts(w: World, run: string, v: Verdict)
    requires GateInv(w) && run !in w.verdicts
    ensures GateInv(w.(verdicts := w.verdicts[run := v]))
  {
    var more := w.verdicts[run := v];
    forall name ensures RepositoryIsTrue(Assets(w.repos, name), more, w.trees) {
      assert RepositoryIsTrue(Assets(w.repos, name), w.verdicts, w.trees);
    }
  }

  lemma GateRecord(w: World, step: Step)
    requires GateInv(w) && Enabled(w, step) && step.Record?
    ensures GateInv(Apply(w, step))
  {
    var v := Verdict(step.group, step.status);
    MoreVerdicts(w, step.run, v);
    if IsBare(w.trees, step.group) {
      var files, verdicts := w.flights[(step.run, step.group)].files, w.verdicts[step.run := v];
      assert FilesAreTrue(files, verdicts, step.group, step.run);
      var record := RunRecord(step.run, step.status);
      assert FilesAreTrue(files[RecordAt(step.run) := record], verdicts, step.group, step.run);
    }
  }

  lemma GateStep(w: World, step: Step)
    requires GateInv(w) && Enabled(w, step)
    ensures GateInv(Apply(w, step))
  {
    match step
    case Start(_, _) => GateStart(w, step);
    case Upload(_, _, _, _) => GateUpload(w, step);
    case Task(_, _, _, _) => GateTask(w, step);
    case Record(_, _, _) => GateRecord(w, step);
  }

  ghost predicate IsExecution(trace: seq<World>, steps: seq<Step>) {
    && |trace| == |steps| + 1
    && trace[0] == World(trace[0].trees, map[], map[], map[], {})
    && forall i | 0 <= i < |steps| :: Takes(trace[i], steps[i], trace[i + 1])
  }

  ghost predicate Takes(w: World, step: Step, w': World) {
    Enabled(w, step) && w' == Apply(w, step)
  }

  lemma {:induction false} GateInvHolds(trace: seq<World>, steps: seq<Step>, i: nat)
    requires IsExecution(trace, steps) && i < |trace|
    ensures GateInv(trace[i])
  {
    if i > 0 {
      GateInvHolds(trace, steps, i - 1);
      assert Takes(trace[i - 1], steps[i - 1], trace[(i - 1) + 1]);
      GateStep(trace[i - 1], steps[i - 1]);
    }
  }

  lemma {:induction false} TreesStay(trace: seq<World>, steps: seq<Step>, i: nat)
    requires IsExecution(trace, steps) && i < |trace|
    ensures trace[i].trees == trace[0].trees
  {
    if i > 0 {
      TreesStay(trace, steps, i - 1);
      assert Takes(trace[i - 1], steps[i - 1], trace[(i - 1) + 1]);
    }
  }

  /** In any interleaving of starts, tasks and uploads of any number of runs, the gate opens for a
      bare commit only if some run of that commit has finished successfully. */
  lemma GateIsSound(trace: seq<World>, steps: seq<Step>, i: nat)
    requires IsExecution(trace, steps) && i < |steps| && steps[i].Start? && GateOpens(steps[i].ws.files)
    requires IsBare(trace[0].trees, steps[i].ws.group)
    ensures exists run | run in trace[i].verdicts ::
      trace[i].verdicts[run].group == steps[i].ws.group && TasksSuccessful(trace[i].verdicts[run].status)
  {
    GateInvHolds(trace, steps, i);
    TreesStay(trace, steps, i);
    assert Takes(trace[i], steps[i], trace[i + 1]);
    var w, ws := trace[i], steps[i].ws;
    var l :| l in ws.files && MakesRunsDir(l);
    var repo := Assets(w.repos, FindSource(w.repos, SEARCHED, ws.group).name);
    assert RepositoryIsTrue(repo, w.verdicts, w.trees);
    assert l !in Carried(w.trees, ws.group) && l in Downloads(w.repos, SEARCHED, ws.group);
    assert l.dir != [] && IsAmongRuns(l) && Asset(ws.group, l) in repo;
    assert IsTrueRecord(w.verdicts, ws.group, ws.files[l], "");
    assert ws.files[l].run in w.verdicts;
  }

  predicate HasRunRecord(repos: Repositories, name: string, group: string) {
    exists l | l in Found(repos, name, group) :: IsAmongRuns(l)
  }

  /** It opens exactly if the commit carries something there or the first repository with anything
      for the commit has a record. */
  lemma GateOpensWhen(repos: Repositories, tree: map<Location, Blob>, group: string)
    requires AllInSubfolders(Downloads(repos, SEARCHED, group))
    ensures GateOpens(tree + Downloads(repos, SEARCHED, group)) <==>
      || GateOpens(tree)
      || HasRunRecord(repos, PERMANENT, group)
      || (Found(repos, PERMANENT, group) == {} && HasRunRecord(repos, TEMPORARY, group))
  {
    SourceOfSearched(repos, group);
    var downloads := Downloads(repos, SEARCHED, group);
    assert forall name :: Downloaded(repos, name, group).Keys == Found(repos, name, group);
    assert forall l | l in downloads :: MakesRunsDir(l) <==> IsAmongRuns(l);
    assert (tree + downloads).Keys == tree.Keys + downloads.Keys;
  }

  /** So a commit that tracks a file there opens it before any run. */
  const TRACKED: Trees := map["g" := map[Location([PIPELINE_RUNS], "x.json") := Data("")]]

  lemma CarriedFileOpensGate()
    ensures var ws := Workspace("g", Manifest("", []), TRACKED["g"]);
      var start := World(TRACKED, map[], map[], map[], {});
      && IsExecution([start, start.(flights := map[("y", "g") := ws])], [Start("y", ws)])
      && GateOpens(ws.files) && start.verdicts == map[]
    ensures GateOpens(map[Location([], "pipeline-runs") := Data("")])
  {
    assert MakesRunsDir(Location([], "pipeline-runs"));
    SourceOfSearched(map[], "g");
    var ws := Workspace("g", Manifest("", []), TRACKED["g"]);
    var start := World(TRACKED, map[], map[], map[], {});
    assert Takes(start, Start("y", ws), start.(flights := map[("y", "g") := ws]));
    assert MakesRunsDir(Location([PIPELINE_RUNS], "x.json"));
  }

  /** So the gate can stay shut after a success: the record is in the temporary repository, and what
      a failed run left in the permanent one hides it. */
  const HIDDEN: Repositories := map[
    PERMANENT := map[Asset("g", Location([FailedDir("x"), PIPELINE_RUNS], "x.json")) := RunRecord("x", "Failed")],
    TEMPORARY := map[Asset("g", Location([PIPELINE_RUNS], "y.json")) := RunRecord("y", "Succeeded")]]

  lemma SuccessCanBeHidden()
    ensures HasRunRecord(HIDDEN, TEMPORARY, "g") && !GateOpens(Downloads(HIDDEN, SEARCHED, "g"))
  {
    FailedDirIsNoRunsDir("x");
    SourceOfSearched(HIDDEN, "g");
    assert PERMANENT[0] == 'p' && TEMPORARY[0] == 't';
    assert Location([PIPELINE_RUNS], "y.json") in Found(HIDDEN, TEMPORARY, "g");
    assert Location([FailedDir("x"), PIPELINE_RUNS], "x.json") in Found(HIDDEN, PERMANENT, "g");
    assert !HasRunRecord(HIDDEN, PERMANENT, "g");
    GateOpensWhen(HIDDEN, map[], "g");
    assert map[] + Downloads(HIDDEN, SEARCHED, "g") == Downloads(HIDDEN, SEARCHED, "g");
  }

  /** And runs get there: x of a later stage fails and leaves its record in the permanent repository,
      y of the dev stage then succeeds on the same commit. */
  const FAILED_RECORD := Location([FailedDir("x"), PIPELINE_RUNS], "x.json")
  const LEFT_BY_X: Repository := map[Asset("g", FAILED_RECORD) := RunRecord("x", "Failed")]

  const X_STARTED := Workspace("g", Manifest("", []), map[])
  const X_FINISHED := Workspace("g", Manifest("", []), map[RecordAt("x") := RunRecord("x", "Failed")])
  const Y_STARTED :=
    Workspace("g", Manifest(PERMANENT, [FAILED_RECORD]), map[FAILED_RECORD := RunRecord("x", "Failed")])
  const Y_FINISHED := Y_STARTED.(files := Y_STARTED.files[RecordAt("y") := RunRecord("y", "Succeeded")])

  const X_FAILED := Verdict("g", "Failed")
  const Y_SUCCEEDED := Verdict("g", "Succeeded")
  const SENT_BY_X := Sent("x", "g", RecordAt("x"), PERMANENT)
  const SENT_BY_Y := Sent("y", "g", RecordAt("y"), TEMPORARY)

  const HIDING: seq<Step> := [
    Start("x", X_STARTED), Record("x", "g", "Failed"), Upload("x", "g", RecordAt("x"), PERMANENT),
    Start("y", Y_STARTED), Record("y", "g", "Succeeded"), Upload("y", "g", RecordAt("y"), TEMPORARY)]

  const HIDING_TRACE: seq<World> := [
    World(map[], map[], map[], map[], {}),
    World(map[], map[], map[("x", "g") := X_STARTED], map[], {}),
    World(map[], map[], map[("x", "g") := X_FINISHED], map["x" := X_FAILED], {}),
    World(map[], map[PERMANENT := LEFT_BY_X], map[("x", "g") := X_FINISHED], map["x" := X_FAILED], {SENT_BY_X}),
    World(map[], map[PERMANENT := LEFT_BY_X], map[("x", "g") := X_FINISHED, ("y", "g") := Y_STARTED],
          map["x" := X_FAILED], {SENT_BY_X}),
    World(map[], map[PERMANENT := LEFT_BY_X], map[("x", "g") := X_FINISHED, ("y", "g") := Y_FINISHED],
          map["x" := X_FAILED, "y" := Y_SUCCEEDED], {SENT_BY_X}),
    World(map[], HIDDEN, map[("x", "g") := X_FINISHED, ("y", "g") := Y_FINISHED],
          map["x" := X_FAILED, "y" := Y_SUCCEEDED], {SENT_BY_X, SENT_BY_Y})]

  lemma XStarts()
    ensures Takes(HIDING_TRACE[0], HIDING[0], HIDING_TRACE[1])
  {
    SourceOfSearched(map[], "g");
  }

  lemma XFinishes()
    ensures Takes(HIDING_TRACE[1], HIDING[1], HIDING_TRACE[2])
    ensures Takes(HIDING_TRACE[2], HIDING[2], HIDING_TRACE[3])
  {
    assert TasksSuccessful("Failed") == false;
    assert DestinationOf(X_FINISHED, RecordAt("x"), "x", "Failed") == Asset("g", FAILED_RECORD);
  }

  lemma FoundAfterX(repos: Repositories)
    requires repos == map[PERMANENT := LEFT_BY_X]
    ensures Found(repos, PERMANENT, "g") == {FAILED_RECORD}
    ensures Downloads(repos, SEARCHED, "g") == Y_STARTED.files
    ensures IsManifest(Y_STARTED.manifest, repos, SEARCHED, "g")
    ensures AllInSubfolders(Y_STARTED.files) && IsTree(Y_STARTED.files)
    ensures Carried(map[], "g") + Y_STARTED.files == Y_STARTED.files
  {
    SourceOfSearched(repos, "g");
    assert Assets(repos, PERMANENT) == LEFT_BY_X;
  }

  lemma YStarts()
    ensures Takes(HIDING_TRACE[3], HIDING[3], HIDING_TRACE[4])
  {
    var w, step := HIDING_TRACE[3], HIDING[3];
    FoundAfterX(w.repos);
    assert step == Start("y", Y_STARTED) && Enabled(w, step);
    assert w.flights[("y", "g") := Y_STARTED] == map[("x", "g") := X_FINISHED, ("y", "g") := Y_STARTED];
  }

  lemma YRecords()
    ensures Takes(HIDING_TRACE[4], HIDING[4], HIDING_TRACE[5])
  {
    var w := HIDING_TRACE[4];
    assert HIDING[4] == Record("y", "g", "Succeeded");
    assert w.flights[("y", "g") := Y_FINISHED] == map[("x", "g") := X_FINISHED, ("y", "g") := Y_FINISHED];
    assert w.verdicts["y" := Y_SUCCEEDED] == map["x" := X_FAILED, "y" := Y_SUCCEEDED];
  }

  lemma YUploads()
    ensures Takes(HIDING_TRACE[5], HIDING[5], HIDING_TRACE[6])
  {
    var w, step := HIDING_TRACE[5], HIDING[5];
    assert PERMANENT[0] == 'p' && TEMPORARY[0] == 't' && "x"[0] == 'x' && "y"[0] == 'y';
    assert step == Upload("y", "g", RecordAt("y"), TEMPORARY) && "y" + ".json" == "y.json";
    assert DestinationOf(Y_FINISHED, RecordAt("y"), "y", "Succeeded") == Asset("g", RecordAt("y"));
    assert Enabled(w, step);
    assert Assets(w.repos, TEMPORARY) == map[];
    assert Apply(w, step).repos == HIDDEN;
    assert Apply(w, step).sent == {SENT_BY_X, SENT_BY_Y};
  }

  lemma HidingStep(i: nat)
    requires i < |HIDING|
    ensures Takes(HIDING_TRACE[i], HIDING[i], HIDING_TRACE[i + 1])
  {
    match i
    case 0 => XStarts();
    case 1 => XFinishes();
    case 2 => XFinishes();
    case 3 => YStarts();
    case 4 => YRecords();
    case _ => YUploads();
  }

  /** Six steps after which the gate is shut for a commit with a successful run. */
  lemma ReachableHiddenSuccess()
    ensures IsExecution(HIDING_TRACE, HIDING)
    ensures var end := HIDING_TRACE[|HIDING|];
      && "y" in end.verdicts && end.verdicts["y"].group == "g" && TasksSuccessful(end.verdicts["y"].status)
      && !GateOpens(Downloads(end.repos, SEARCHED, "g"))
  {
    forall i: nat | i < |HIDING| ensures Takes(HIDING_TRACE[i], HIDING[i], HIDING_TRACE[i + 1]) {
      HidingStep(i);
    }
    SuccessCanBeHidden();
    assert HIDING_TRACE[|HIDING|].repos == HIDDEN;
  }

  /* ---- Uploading what is there already ---- */

  /** No asset of the commit lies in the directory this run would use if it failed. */
  ghost predicate IsFreshRun(repos: Repositories, group: string, run: string) {
    forall name, a | a in Assets(repos, name) && a.group == group && a.at.dir != [] :: a.at.dir[0] != FailedDir(run)
  }

  /** Finish with target `target` meets an asset that is there already. */
  ghost predicate Reuploads(repos: Repositories, ws: Workspace, target: string, run: string, status: string) {
    exists l | l in Offered(ws, target) :: DestinationOf(ws, l, run, status) in Assets(repos, target)
  }

  lemma OfferedElsewhere(repos: Repositories, ws: Workspace, target: string, l: Location)
    requires IsManifest(ws.manifest, repos, SEARCHED, ws.group) && IsOffered(ws, target, l)
    requires FindSource(repos, SEARCHED, ws.group) == FoundIn(target)
    ensures Asset(ws.group, l) !in Assets(repos, target)
  {
    assert l == Location([l.dir[0]], l.name);
    assert forall a | a in Assets(repos, target) && a.group == ws.group :: a.at in Found(repos, target, ws.group);
  }

  lemma DestinationInGroup(ws: Workspace, l: Location, run: string, status: string)
    requires |l.dir| == 1
    ensures TasksSuccessful(status) ==> DestinationOf(ws, l, run, status) == Asset(ws.group, l)
    ensures !TasksSuccessful(status) ==> DestinationOf(ws, l, run, status).at.dir[0] == FailedDir(run)
    ensures DestinationOf(ws, l, run, status).group == ws.group
  {
    assert l.dir == [l.dir[0]];
  }

  /** Whatever both repositories and the workspace hold, finish uploads no path that is already in
      the permanent repository: it is searched first, so the manifest knows all of it. */
  lemma NoReuploadToPermanent(repos: Repositories, ws: Workspace, run: string, status: string)
    requires IsManifest(ws.manifest, repos, SEARCHED, ws.group)
    requires TasksSuccessful(status) || IsFreshRun(repos, ws.group, run)
    ensures !Reuploads(repos, ws, PERMANENT, run, status)
  {
    SourceOfSearched(repos, ws.group);
    forall l | l in Offered(ws, PERMANENT) ensures DestinationOf(ws, l, run, status) !in Assets(repos, PERMANENT) {
      DestinationInGroup(ws, l, run, status);
      if Found(repos, PERMANENT, ws.group) != {} {
        OfferedElsewhere(repos, ws, PERMANENT, l);
      } else {
        assert forall a | a in Assets(repos, PERMANENT) && a.group == ws.group ::
          a.at in Found(repos, PERMANENT, ws.group);
      }
    }
  }

  /** For the temporary repository this fails exactly if a successful run re-offers a temporary path
      while the permanent repository has something for the commit and so hides the temporary one. */
  lemma ReuploadToTemporaryWhen(repos: Repositories, ws: Workspace, run: string, status: string)
    requires IsManifest(ws.manifest, repos, SEARCHED, ws.group)
    requires TasksSuccessful(status) || IsFreshRun(repos, ws.group, run)
    ensures Reuploads(repos, ws, TEMPORARY, run, status) <==>
      && TasksSuccessful(status)
      && Found(repos, PERMANENT, ws.group) != {}
      && exists l | l in ws.files :: |l.dir| == 1 && l in Found(repos, TEMPORARY, ws.group)
  {
    SourceOfSearched(repos, ws.group);
    assert PERMANENT[0] == 'p' && TEMPORARY[0] == 't';
    forall l | l in Offered(ws, TEMPORARY)
      ensures DestinationOf(ws, l, run, status) in Assets(repos, TEMPORARY) <==>
        TasksSuccessful(status) && Found(repos, PERMANENT, ws.group) != {} && l in Found(repos, TEMPORARY, ws.group)
    {
      IsHidden(repos, ws, run, status, l);
    }
    if TasksSuccessful(status) && Found(repos, PERMANENT, ws.group) != {} {
      if l :| l in ws.files && |l.dir| == 1 && l in Found(repos, TEMPORARY, ws.group) {
        assert IsOffered(ws, TEMPORARY, l) && l in Offered(ws, TEMPORARY);
      }
    }
  }

  /** The same for one file. */
  lemma IsHidden(repos: Repositories, ws: Workspace, run: string, status: string, l: Location)
    requires IsManifest(ws.manifest, repos, SEARCHED, ws.group) && IsOffered(ws, TEMPORARY, l)
    requires TasksSuccessful(status) || IsFreshRun(repos, ws.group, run)
    ensures DestinationOf(ws, l, run, status) in Assets(repos, TEMPORARY) <==>
      TasksSuccessful(status) && Found(repos, PERMANENT, ws.group) != {} && l in Found(repos, TEMPORARY, ws.group)
  {
    SourceOfSearched(repos, ws.group);
    DestinationInGroup(ws, l, run, status);
    if Asset(ws.group, l) in Assets(repos, TEMPORARY) {
      assert l in Found(repos, TEMPORARY, ws.group);
      if Found(repos, PERMANENT, ws.group) == {} {
        OfferedElsewhere(repos, ws, TEMPORARY, l);
      }
    }
  }

  /* ---- Overwriting, over any interleaving of runs ---- */

  /** Where an upload goes to. */
  function Target(w: World, step: Step): Asset
    requires step.Upload? && (step.run, step.group) in w.flights && step.run in w.verdicts && |step.at.dir| == 1
  {
    DestinationOf(w.flights[(step.run, step.group)], step.at, step.run, w.verdicts[step.run].status)
  }

  /** The step stores an asset at `a` of repository `name`. */
  ghost predicate Stores(w: World, step: Step, name: string, a: Asset) {
    step.Upload? && Enabled(w, step) && step.target == name && Target(w, step) == a
  }

  /** What no step takes back: flights and what they found, verdicts, assets, uploads made. */
  ghost predicate Continues(w: World, w': World) {
    && (forall key | key in w.flights ::
          && key in w'.flights
          && w'.flights[key].group == w.flights[key].group
          && w'.flights[key].manifest == w.flights[key].manifest)
    && (forall run | run in w.verdicts :: run in w'.verdicts && w'.verdicts[run] == w.verdicts[run])
    && (forall name, a | a in Assets(w.repos, name) :: a in Assets(w'.repos, name))
    && w.sent <= w'.sent
  }

  lemma ContinuesStep(w: World, step: Step)
    requires Enabled(w, step)
    ensures Continues(w, Apply(w, step))
    ensures forall name, a | a in Assets(Apply(w, step).repos, name) && a !in Assets(w.repos, name) ::
      Stores(w, step, name, a)
    ensures forall name, a | Stores(w, step, name, a) :: a in Assets(Apply(w, step).repos, name)
  {
  }

  lemma ContinuesTransitive(w: World, mid: World, w': World)
    requires Continues(w, mid) && Continues(mid, w')
    ensures Continues(w, w')
  {
  }

  lemma {:induction false} ContinuesAlong(trace: seq<World>, steps: seq<Step>, j: nat, i: nat)
    requires IsExecution(trace, steps) && j <= i < |trace|
    ensures Continues(trace[j], trace[i])
  {
    if j < i {
      ContinuesAlong(trace, steps, j, i - 1);
      assert Takes(trace[i - 1], steps[i - 1], trace[(i - 1) + 1]);
      ContinuesStep(trace[i - 1], steps[i - 1]);
      ContinuesTransitive(trace[j], trace[i - 1], trace[i]);
    }
  }

  /** What is new has been stored in between. */
  lemma {:induction false} StoredInBetween(trace: seq<World>, steps: seq<Step>, j: nat, i: nat, name: string, a: Asset)
    requires IsExecution(trace, steps) && j <= i < |trace| && a !in Assets(trace[j].repos, name)
    ensures a in Assets(trace[i].repos, name) <==> exists k | j <= k < i :: Stores(trace[k], steps[k], name, a)
  {
    if j < i {
      StoredInBetween(trace, steps, j, i - 1, name, a);
      assert Takes(trace[i - 1], steps[i - 1], trace[(i - 1) + 1]);
      ContinuesStep(trace[i - 1], steps[i - 1]);
    }
  }

  /** Neither the commit nor a task puts a file directly into the directory this run has if it fails. */
  ghost predicate LeavesFree(trees: Trees, steps: seq<Step>, group: string, run: string) {
    && (forall l | l in Carried(trees, group) :: l.dir != [FailedDir(run)])
    && (forall i | 0 <= i < |steps| && steps[i].Task? && steps[i].group == group :: steps[i].at.dir != [FailedDir(run)])
  }

  /** What lies in that directory comes from the run. */
  ghost predicate FailedInv(w: World, group: string, run: string) {
    && (forall name, a |
          a in Assets(w.repos, name) && a.group == group && a.at.dir != [] && a.at.dir[0] == FailedDir(run) ::
          |a.at.dir| > 1 && (run, group) in w.flights)
    && (forall key, l | key in w.flights && key.1 == group && l in w.flights[key].files :: l.dir != [FailedDir(run)])
  }

  lemma FailedStart(w: World, step: Step, group: string, run: string)
    requires FailedInv(w, group, run) && Enabled(w, step) && step.Start?
    requires forall l | l in Carried(w.trees, group) :: l.dir != [FailedDir(run)]
    ensures FailedInv(Apply(w, step), group, run)
  {
    var ws := step.ws;
    forall l | ws.group == group && l in ws.files ensures l.dir != [FailedDir(run)] {
      if l in Downloads(w.repos, SEARCHED, group) {
        var name := FindSource(w.repos, SEARCHED, group).name;
        assert Asset(group, l) in Assets(w.repos, name);
      }
    }
  }

  lemma FailedWrite(w: World, step: Step, group: string, run: string)
    requires FailedInv(w, group, run) && Enabled(w, step) && (step.Task? || step.Record?)
    requires step.Task? && step.group == group ==> step.at.dir != [FailedDir(run)]
    ensures FailedInv(Apply(w, step), group, run)
  {
    FailedDirIsNoRunsDir(run);
    assert [PIPELINE_RUNS][0] == PIPELINE_RUNS;
  }

  lemma FailedUpload(w: World, step: Step, group: string, run: string)
    requires FailedInv(w, group, run) && GateInv(w) && Enabled(w, step) && step.Upload?
    ensures FailedInv(Apply(w, step), group, run)
  {
    var ws, status := w.flights[(step.run, step.group)], w.verdicts[step.run].status;
    DestinationInGroup(ws, step.at, step.run, status);
    assert step.at.dir == [step.at.dir[0]];
    if FailedDir(step.run) == FailedDir(run) {
      FailedDirsDiffer(step.run, run);
    }
    var w', dest := Apply(w, step), DestinationOf(ws, step.at, step.run, status);
    forall name, a | a in Assets(w'.repos, name) && a.group == group && a.at.dir != [] && a.at.dir[0] == FailedDir(run)
      ensures |a.at.dir| > 1 && (run, group) in w'.flights
    {
      assert a in Assets(w.repos, name) || a == dest;
    }
  }

  lemma {:induction false} FailedInvHolds(trace: seq<World>, steps: seq<Step>, i: nat, group: string, run: string)
    requires IsExecution(trace, steps) && i < |trace| && LeavesFree(trace[0].trees, steps, group, run)
    ensures FailedInv(trace[i], group, run)
  {
    if i > 0 {
      FailedInvHolds(trace, steps, i - 1, group, run);
      GateInvHolds(trace, steps, i - 1);
      TreesStay(trace, steps, i - 1);
      var w, step := trace[i - 1], steps[i - 1];
      assert Takes(w, step, trace[(i - 1) + 1]);
      match step
      case Start(_, _) => FailedStart(w, step, group, run);
      case Upload(_, _, _, _) => FailedUpload(w, step, group, run);
      case _ => FailedWrite(w, step, group, run);
    }
  }

  /** The run whose upload is step `i` started with step `j`. */
  ghost predicate StartedAt(steps: seq<Step>, j: nat, i: nat) {
    && j < i < |steps| && steps[i].Upload? && steps[j].Start?
    && steps[j].run == steps[i].run && steps[j].ws.group == steps[i].group
  }

  /** The upload of step `i` belongs to a successful run, or to one whose directory for a failure is
      left to it. */
  ghost predicate HasPlace(trace: seq<World>, steps: seq<Step>, i: nat)
    requires i < |trace| && i < |steps| && steps[i].Upload?
  {
    || LeavesFree(trace[0].trees, steps, steps[i].group, steps[i].run)
    || (steps[i].run in trace[i].verdicts && TasksSuccessful(trace[i].verdicts[steps[i].run].status))
  }

  /** What the run of step `i` knows at its upload, against the repositories at its start. */
  lemma KnownSinceStart(trace: seq<World>, steps: seq<Step>, j: nat, i: nat)
    requires IsExecution(trace, steps) && StartedAt(steps, j, i) && HasPlace(trace, steps, i)
    ensures Enabled(trace[i], steps[i])
    ensures var ws := trace[i].flights[(steps[i].run, steps[i].group)];
      && ws.group == steps[i].group && IsManifest(ws.manifest, trace[j].repos, SEARCHED, ws.group)
      && (TasksSuccessful(trace[i].verdicts[steps[i].run].status) || IsFreshRun(trace[j].repos, ws.group, steps[i].run))
  {
    var step, run := steps[i], steps[i].run;
    assert Takes(trace[i], steps[i], trace[i + 1]);
    assert Takes(trace[j], steps[j], trace[j + 1]);
    ContinuesAlong(trace, steps, j + 1, i);
    if LeavesFree(trace[0].trees, steps, step.group, run) {
      FailedInvHolds(trace, steps, j, step.group, run);
    }
  }

  /** A run stores no file twice. */
  lemma StoresOnce(trace: seq<World>, steps: seq<Step>, k: nat, i: nat)
    requires IsExecution(trace, steps) && k < i < |steps| && steps[i].Upload? && Enabled(trace[i], steps[i])
    requires Stores(trace[k], steps[k], steps[i].target, Target(trace[i], steps[i]))
    ensures steps[k].run != steps[i].run
  {
    GateInvHolds(trace, steps, k);
    GateInvHolds(trace, steps, i);
    assert Takes(trace[k], steps[k], trace[k + 1]);
    ContinuesAlong(trace, steps, k, i);
    ContinuesAlong(trace, steps, k + 1, i);
    if steps[k].run == steps[i].run {
      DestinationInjective(trace[i].flights[(steps[i].run, steps[i].group)], steps[k].at, steps[i].at, steps[i].run,
                           trace[i].verdicts[steps[i].run].status);
      assert false;
    }
  }

  /** Another run has put something at the target of step `i` since step `j`. */
  ghost predicate StoredByAnother(trace: seq<World>, steps: seq<Step>, j: nat, i: nat)
    requires j <= i < |trace| && i < |steps| && |steps| < |trace| && steps[i].Upload? && Enabled(trace[i], steps[i])
  {
    exists k | j < k < i :: steps[k].Upload? && steps[k].run != steps[i].run
      && Stores(trace[k], steps[k], steps[i].target, Target(trace[i], steps[i]))
  }

  /** A target that was free at the start is taken exactly if another run has taken it. */
  lemma TakenSinceStart(trace: seq<World>, steps: seq<Step>, j: nat, i: nat)
    requires IsExecution(trace, steps) && StartedAt(steps, j, i) && Enabled(trace[i], steps[i])
    requires Target(trace[i], steps[i]) !in Assets(trace[j].repos, steps[i].target)
    ensures Target(trace[i], steps[i]) in Assets(trace[i].repos, steps[i].target) <==>
      StoredByAnother(trace, steps, j, i)
  {
    var a, name := Target(trace[i], steps[i]), steps[i].target;
    StoredInBetween(trace, steps, j, i, name, a);
    forall k | j <= k < i && Stores(trace[k], steps[k], name, a) ensures j < k && steps[k].run != steps[i].run {
      StoresOnce(trace, steps, k, i);
    }
  }

  /** In any interleaving of runs an upload meets an asset in the permanent repository exactly if
      another run has stored it there since this one started. */
  lemma PermanentIsOverwrittenWhen(trace: seq<World>, steps: seq<Step>, j: nat, i: nat)
    requires IsExecution(trace, steps) && StartedAt(steps, j, i) && HasPlace(trace, steps, i)
    requires steps[i].target == PERMANENT
    ensures Enabled(trace[i], steps[i])
    ensures Target(trace[i], steps[i]) in Assets(trace[i].repos, PERMANENT) <==> StoredByAnother(trace, steps, j, i)
  {
    KnownSinceStart(trace, steps, j, i);
    var ws := trace[i].flights[(steps[i].run, steps[i].group)];
    NoReuploadToPermanent(trace[j].repos, ws, steps[i].run, trace[i].verdicts[steps[i].run].status);
    assert steps[i].at in Offered(ws, PERMANENT);
    TakenSinceStart(trace, steps, j, i);
  }

  /** For the temporary repository there is one more case: the run is successful, and at its start the
      file was there already, hidden by something in the permanent repository. */
  lemma TemporaryIsOverwrittenWhen(trace: seq<World>, steps: seq<Step>, j: nat, i: nat)
    requires IsExecution(trace, steps) && StartedAt(steps, j, i) && HasPlace(trace, steps, i)
    requires steps[i].target == TEMPORARY
    ensures Enabled(trace[i], steps[i])
    ensures Target(trace[i], steps[i]) in Assets(trace[i].repos, TEMPORARY) <==>
      || StoredByAnother(trace, steps, j, i)
      || (&& TasksSuccessful(trace[i].verdicts[steps[i].run].status)
          && Found(trace[j].repos, PERMANENT, steps[i].group) != {}
          && steps[i].at in Found(trace[j].repos, TEMPORARY, steps[i].group))
  {
    KnownSinceStart(trace, steps, j, i);
    var ws := trace[i].flights[(steps[i].run, steps[i].group)];
    IsHidden(trace[j].repos, ws, steps[i].run, trace[i].verdicts[steps[i].run].status, steps[i].at);
    if Target(trace[i], steps[i]) in Assets(trace[j].repos, TEMPORARY) {
      ContinuesAlong(trace, steps, j, i);
    } else {
      TakenSinceStart(trace, steps, j, i);
    }
  }

  /** The extra case arises whenever runs of the dev stage follow one of a later stage: x leaves a
      report in the permanent repository, y and then z download it and upload it to the temporary one. */
  const REPORT := Location(["xunit-reports"], "r.xml")
  const LEFT: Repository := map[Asset("g", REPORT) := Data("r")]
  const WITH_REPORT := Workspace("g", Manifest("", []), map[REPORT := Data("r")])
  const RESTARTED := Workspace("g", Manifest(PERMANENT, [REPORT]), map[REPORT := Data("r")])

  function Started(w: World, run: string, ws: Workspace): World {
    w.(flights := w.flights[(run, "g") := ws])
  }

  function Recorded(w: World, run: string, ws: Workspace): World {
    Started(w, run, ws.(files := ws.files[RecordAt(run) := RunRecord(run, "Succeeded")])).(
      verdicts := w.verdicts[run := Y_SUCCEEDED])
  }

  function Reported(w: World, run: string, target: string): World {
    w.(repos := w.repos[target := Assets(w.repos, target)[Asset("g", REPORT) := Data("r")]],
       sent := w.sent + {Sent(run, "g", REPORT, target)})
  }

  const NOTHING := World(map[], map[], map[], map[], {})
  const X_RAN := Recorded(Started(Started(NOTHING, "x", X_STARTED), "x", WITH_REPORT), "x", WITH_REPORT)
  const X_LEFT := Reported(X_RAN, "x", PERMANENT)
  const Y_RAN := Recorded(Started(X_LEFT, "y", RESTARTED), "y", RESTARTED)
  const Y_LEFT := Reported(Y_RAN, "y", TEMPORARY)
  const Z_RAN := Recorded(Started(Y_LEFT, "z", RESTARTED), "z", RESTARTED)

  lemma StartsAfterX(w: World, run: string)
    requires w.trees == map[] && Assets(w.repos, PERMANENT) == LEFT && (run, "g") !in w.flights
    ensures Takes(w, Start(run, RESTARTED), Started(w, run, RESTARTED))
  {
    SourceOfSearched(w.repos, "g");
    assert Found(w.repos, PERMANENT, "g") == {REPORT};
    assert Downloads(w.repos, SEARCHED, "g") == RESTARTED.files;
    assert Carried(w.trees, "g") + RESTARTED.files == RESTARTED.files;
  }

  lemma Records(w: World, run: string, ws: Workspace)
    requires (run, "g") in w.flights && w.flights[(run, "g")] == ws && run !in w.verdicts
    ensures Takes(w, Record(run, "g", "Succeeded"), Recorded(w, run, ws))
  {
  }

  lemma UploadsReport(w: World, run: string, target: string)
    requires (run, "g") in w.flights && run in w.verdicts && w.verdicts[run] == Y_SUCCEEDED
    requires var ws := w.flights[(run, "g")];
      ws.group == "g" && IsOffered(ws, target, REPORT) && ws.files[REPORT] == Data("r")
    requires Sent(run, "g", REPORT, target) !in w.sent
    ensures Takes(w, Upload(run, "g", REPORT, target), Reported(w, run, target))
    ensures Target(w, Upload(run, "g", REPORT, target)) == Asset("g", REPORT)
  {
    DestinationInGroup(w.flights[(run, "g")], REPORT, run, "Succeeded");
  }

  lemma XWrites()
    ensures Takes(NOTHING, Start("x", X_STARTED), Started(NOTHING, "x", X_STARTED))
    ensures var w := Started(NOTHING, "x", X_STARTED);
      Takes(w, Task("x", "g", REPORT, Data("r")), Started(w, "x", WITH_REPORT))
  {
    SourceOfSearched(map[], "g");
    assert "xunit-reports"[0] == 'x' && PIPELINE_RUNS[0] == 'p';
  }

  lemma XEnds()
    ensures Takes(Started(Started(NOTHING, "x", X_STARTED), "x", WITH_REPORT), Record("x", "g", "Succeeded"), X_RAN)
    ensures Takes(X_RAN, Upload("x", "g", REPORT, PERMANENT), X_LEFT)
  {
    Records(Started(Started(NOTHING, "x", X_STARTED), "x", WITH_REPORT), "x", WITH_REPORT);
    UploadsReport(X_RAN, "x", PERMANENT);
  }

  lemma YRuns()
    ensures Takes(X_LEFT, Start("y", RESTARTED), Started(X_LEFT, "y", RESTARTED))
    ensures Takes(Started(X_LEFT, "y", RESTARTED), Record("y", "g", "Succeeded"), Y_RAN)
  {
    StartsAfterX(X_LEFT, "y");
    Records(Started(X_LEFT, "y", RESTARTED), "y", RESTARTED);
  }

  lemma YEnds()
    ensures Takes(Y_RAN, Upload("y", "g", REPORT, TEMPORARY), Y_LEFT)
    ensures Assets(Y_LEFT.repos, PERMANENT) == LEFT && Asset("g", REPORT) in Assets(Y_LEFT.repos, TEMPORARY)
  {
    assert PERMANENT[0] == 'p' && TEMPORARY[0] == 't';
    UploadsReport(Y_RAN, "y", TEMPORARY);
  }

  lemma ZRuns()
    ensures Takes(Y_LEFT, Start("z", RESTARTED), Started(Y_LEFT, "z", RESTARTED))
    ensures Takes(Started(Y_LEFT, "z", RESTARTED), Record("z", "g", "Succeeded"), Z_RAN)
  {
    YEnds();
    StartsAfterX(Y_LEFT, "z");
    Records(Started(Y_LEFT, "z", RESTARTED), "z", RESTARTED);
  }

  lemma ZMayUpload()
    ensures var step := Upload("z", "g", REPORT, TEMPORARY);
      Enabled(Z_RAN, step) && Target(Z_RAN, step) in Assets(Z_RAN.repos, TEMPORARY)
  {
    assert PERMANENT[0] == 'p' && TEMPORARY[0] == 't';
    YEnds();
    UploadsReport(Z_RAN, "z", TEMPORARY);
  }

  /** Some execution ends in `w`. */
  ghost predicate IsReachable(w: World) {
    exists trace, steps :: IsExecution(trace, steps) && trace[|steps|] == w
  }

  lemma ReachableNext(w: World, step: Step, w': World)
    requires IsReachable(w) && Takes(w, step, w')
    ensures IsReachable(w')
  {
    var trace, steps :| IsExecution(trace, steps) && trace[|steps|] == w;
    var trace', steps' := trace + [w'], steps + [step];
    forall i: nat | i < |steps'| ensures Takes(trace'[i], steps'[i], trace'[i + 1]) {
      if i < |steps| {
        assert Takes(trace[i], steps[i], trace[i + 1]);
      }
    }
    assert IsExecution(trace', steps') && trace'[|steps'|] == w';
  }

  lemma NothingIsReachable()
    ensures IsReachable(NOTHING)
  {
    assert IsExecution([NOTHING], []) && [NOTHING][0] == NOTHING;
  }

  lemma XIsReachable()
    ensures IsReachable(X_LEFT)
  {
    NothingIsReachable();
    XWrites();
    XEnds();
    var started := Started(NOTHING, "x", X_STARTED);
    ReachableNext(NOTHING, Start("x", X_STARTED), started);
    ReachableNext(started, Task("x", "g", REPORT, Data("r")), Started(started, "x", WITH_REPORT));
    ReachableNext(Started(started, "x", WITH_REPORT), Record("x", "g", "Succeeded"), X_RAN);
    ReachableNext(X_RAN, Upload("x", "g", REPORT, PERMANENT), X_LEFT);
  }

  lemma YIsReachable()
    ensures IsReachable(Y_LEFT)
  {
    XIsReachable();
    YRuns();
    YEnds();
    ReachableNext(X_LEFT, Start("y", RESTARTED), Started(X_LEFT, "y", RESTARTED));
    ReachableNext(Started(X_LEFT, "y", RESTARTED), Record("y", "g", "Succeeded"), Y_RAN);
    ReachableNext(Y_RAN, Upload("y", "g", REPORT, TEMPORARY), Y_LEFT);
  }

  /** After nine steps of runs that do not overlap the last one may upload what is there. */
  lemma ReachableReupload()
    ensures IsReachable(Z_RAN)
    ensures var step := Upload("z", "g", REPORT, TEMPORARY);
      Enabled(Z_RAN, step) && Target(Z_RAN, step) in Assets(Z_RAN.repos, TEMPORARY)
  {
    YIsReachable();
    ZRuns();
    ReachableNext(Y_LEFT, Start("z", RESTARTED), Started(Y_LEFT, "z", RESTARTED));
    ReachableNext(Started(Y_LEFT, "z", RESTARTED), Record("z", "g", "Succeeded"), Z_RAN);
    ZMayUpload();
  }

  lemma {:induction false} FlightHasStarted(trace: seq<World>, steps: seq<Step>, i: nat, run: string, group: string)
    requires IsExecution(trace, steps) && i < |trace| && (run, group) in trace[i].flights
    ensures exists j | 0 <= j < i :: steps[j].Start? && steps[j].run == run && steps[j].ws.group == group
  {
    assert Takes(trace[i - 1], steps[i - 1], trace[(i - 1) + 1]);
    if (run, group) in trace[i - 1].flights {
      FlightHasStarted(trace, steps, i - 1, run, group);
    } else {
      assert steps[i - 1].Start?;
    }
  }

  /** No other run of the commit uploads to the permanent repository between a run's start and an
      upload of that run. */
  ghost predicate RunsDoNotOverlap(steps: seq<Step>) {
    forall j: nat, k: nat, i: nat | StartedAt(steps, j, i) && j < k < i && steps[k].Upload? ::
      steps[k].target == PERMANENT && steps[k].group == steps[i].group ==> steps[k].run == steps[i].run
  }

  /** So where runs of one commit do not overlap, whether they succeed, fail or are aborted, nothing
      in the permanent repository is ever uploaded again. */
  lemma PermanentIsNeverOverwritten(trace: seq<World>, steps: seq<Step>, i: nat)
    requires IsExecution(trace, steps) && RunsDoNotOverlap(steps) && i < |steps|
    requires steps[i].Upload? ==> HasPlace(trace, steps, i)
    ensures forall a | a in Assets(trace[i].repos, PERMANENT) ::
      a in Assets(trace[i + 1].repos, PERMANENT) &&
      Assets(trace[i + 1].repos, PERMANENT)[a] == Assets(trace[i].repos, PERMANENT)[a]
  {
    assert Takes(trace[i], steps[i], trace[i + 1]);
    if steps[i].Upload? && steps[i].target == PERMANENT {
      FlightHasStarted(trace, steps, i, steps[i].run, steps[i].group);
      var j :| 0 <= j < i && steps[j].Start? && steps[j].run == steps[i].run && steps[j].ws.group == steps[i].group;
      assert StartedAt(steps, j, i);
      PermanentIsOverwrittenWhen(trace, steps, j, i);
      GateInvHolds(trace, steps, i);
      forall k | j < k < i && Stores(trace[k], steps[k], PERMANENT, Target(trace[i], steps[i]))
        ensures steps[k].run == steps[i].run
      {
        GateInvHolds(trace, steps, k);
        assert Target(trace[k], steps[k]).group == steps[k].group && Target(trace[i], steps[i]).group == steps[i].group;
      }
      assert Target(trace[i], steps[i]) !in Assets(trace[i].repos, PERMANENT);
    }
  }

  function Elements(ls: seq<Location>): set<Location> {
    set l | l in ls
  }

  lemma ElementsNext(ls: seq<Location>, k: nat)
    requires 0 < k <= |ls|
    ensures Elements(ls[..k]) == Elements(ls[..k - 1]) + {ls[k - 1]}
  {
    assert ls[..k] == ls[..k - 1] + [ls[k - 1]];
  }

  /** One run uploads the files `ls`, one after the other, with nothing in between. */
  ghost predicate AreUploads(trace: seq<World>, run: string, group: string, target: string, ls: seq<Location>) {
    && |trace| == |ls| + 1
    && (run, group) in trace[0].flights && run in trace[0].verdicts
    && forall i | 0 <= i < |ls| :: Takes(trace[i], Upload(run, group, ls[i], target), trace[i + 1])
  }

  /** `up` has been uploaded since `start`. */
  ghost predicate HasUploaded(start: Repositories, w: World, run: string, group: string, target: string,
                              up: set<Location>)
    requires (run, group) in w.flights && run in w.verdicts
  {
    && (forall l | l in up :: Sent(run, group, l, target) in w.sent)
    && UploadState(start, w.repos, target, w.flights[(run, group)], up, run, w.verdicts[run].status)
  }

  lemma NextUpload(start: Repositories, up: set<Location>, w: World, run: string, group: string, target: string,
                   l: Location, w': World)
    requires (run, group) in w.flights && run in w.verdicts && HasUploaded(start, w, run, group, target, up)
    requires Takes(w, Upload(run, group, l, target), w')
    ensures w'.flights == w.flights && w'.verdicts == w.verdicts
    ensures HasUploaded(start, w', run, group, target, up + {l})
  {
    OneMoreUpload(start, w.repos, target, w.flights[(run, group)], up, l, run, w.verdicts[run].status);
  }

  /** The flights and verdicts of `w`, and the files `up` uploaded since. */
  ghost predicate HasOnlyUploaded(w: World, w': World, run: string, group: string, target: string, up: set<Location>)
    requires (run, group) in w.flights && run in w.verdicts
  {
    w'.flights == w.flights && w'.verdicts == w.verdicts && HasUploaded(w.repos, w', run, group, target, up)
  }

  lemma UploadsStep(trace: seq<World>, run: string, group: string, target: string, ls: seq<Location>, k: nat)
    requires AreUploads(trace, run, group, target, ls) && 0 < k <= |ls|
    requires HasOnlyUploaded(trace[0], trace[k - 1], run, group, target, Elements(ls[..k - 1]))
    ensures HasOnlyUploaded(trace[0], trace[k], run, group, target, Elements(ls[..k]))
  {
    assert Takes(trace[k - 1], Upload(run, group, ls[k - 1], target), trace[(k - 1) + 1]);
    NextUpload(trace[0].repos, Elements(ls[..k - 1]), trace[k - 1], run, group, target, ls[k - 1], trace[k]);
    ElementsNext(ls, k);
  }

  /** Together they do what the upload loop of finish does with those files. */
  lemma {:induction false} UploadsMakeFinish(trace: seq<World>, run: string, group: string, target: string,
                                             ls: seq<Location>, k: nat)
    requires AreUploads(trace, run, group, target, ls) && k <= |ls|
    ensures HasOnlyUploaded(trace[0], trace[k], run, group, target, Elements(ls[..k]))
  {
    if k == 0 {
      assert Elements(ls[..0]) == {};
    } else {
      UploadsMakeFinish(trace, run, group, target, ls, k - 1);
      UploadsStep(trace, run, group, target, ls, k);
    }
  }
}
