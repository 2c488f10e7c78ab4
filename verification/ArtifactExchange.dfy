/** How artifacts travel between pipeline runs of one commit: ods-start downloads what the first
    repository with anything has (pkg/pipelinectxt/artifacts.go, cmd/start/main.go), ods-finish
    uploads what the manifest lacks (cmd/finish/main.go). */
module ArtifactExchange {
  import opened SetSizes

  const PIPELINE_RUNS := "pipeline-runs"

  /** A file below an artifacts directory or a group: the names of its directories, and its own. */
  datatype Location = Location(dir: seq<string>, name: string)

  /** A run's own record, written by finish, or what a task produced. */
  datatype Blob = RunRecord(run: string, status: string) | Data(content: string)

  /** An asset belongs to a group, which stands for one commit of one repository. */
  datatype Asset = Asset(group: string, at: Location)

  type Repository = map<Asset, Blob>
  type Repositories = map<string, Repository>

  function Assets(repos: Repositories, name: string): Repository {
    if name in repos then repos[name] else map[]
  }

  /** Everything below a group. */
  function Found(repos: Repositories, name: string, group: string): set<Location> {
    set a | a in Assets(repos, name) && a.group == group :: a.at
  }

  datatype Manifest = Manifest(source: string, artifacts: seq<Location>)
  {
    predicate Contains(repository: string, directory: string, name: string) {
      repository == source && Location([directory], name) in artifacts
    }
  }

  datatype Workspace = Workspace(group: string, manifest: Manifest, files: map<Location, Blob>)

  datatype Source = FoundIn(name: string) | NotFound

  /** The first repository with an asset in the group. */
  function FindSource(repos: Repositories, names: seq<string>, group: string): Source {
    if names == [] then NotFound
    else if Found(repos, names[0], group) != {} then FoundIn(names[0])
    else FindSource(repos, names[1..], group)
  }

  /** The manifest start writes: source repository, or no name, and all its locations in any order. */
  ghost predicate IsManifest(m: Manifest, repos: Repositories, names: seq<string>, group: string) {
    match FindSource(repos, names, group)
    case FoundIn(name) => m.source == name && forall l :: l in m.artifacts <==> l in Found(repos, name, group)
    case NotFound => m == Manifest("", [])
  }

  /** The download is refused for assets that sit in the group itself. */
  predicate AllInSubfolders(files: map<Location, Blob>) {
    forall l | l in files :: l.dir != []
  }

  function Downloaded(repos: Repositories, name: string, group: string): map<Location, Blob> {
    map l | l in Found(repos, name, group) :: Assets(repos, name)[Asset(group, l)]
  }

  /** What start downloads into the artifacts directory. */
  function Downloads(repos: Repositories, names: seq<string>, group: string): map<Location, Blob> {
    match FindSource(repos, names, group)
    case FoundIn(name) => Downloaded(repos, name, group)
    case NotFound => map[]
  }

  /** One location is a file where the other needs a directory. */
  predicate Clash(k: Location, l: Location) {
    k.dir + [k.name] <= l.dir || l.dir + [l.name] <= k.dir
  }

  predicate IsTree(files: map<Location, Blob>) {
    forall k, l | k in files && l in files :: !Clash(k, l)
  }

  /** The files can lie side by side exactly if none is a directory on the way to another. */
  lemma TreeMeaning(files: map<Location, Blob>)
    ensures IsTree(files) <==>
      forall k, l, i | k in files && l in files && 0 < i <= |l.dir| :: l.dir[..i] != k.dir + [k.name]
  {
    forall k, l | k in files && l in files
      ensures k.dir + [k.name] <= l.dir <==> exists i | 0 < i <= |l.dir| :: l.dir[..i] == k.dir + [k.name]
    {
      if k.dir + [k.name] <= l.dir {
        assert l.dir[..|k.dir| + 1] == k.dir + [k.name];
      }
    }
  }

  predicate TasksSuccessful(status: string) {
    status == "Succeeded" || status == "Completed"
  }

  function FailedDir(run: string): string {
    "failed-" + run + "-artifacts"
  }

  /** Where finish puts a file of subdirectory `sub`: failed runs get a directory of their own. */
  function Destination(group: string, sub: string, name: string, run: string, status: string): Asset {
    Asset(group, Location(if TasksSuccessful(status) then [sub] else [FailedDir(run), sub], name))
  }

  /** What finish uploads: files directly in a subdirectory that the manifest does not show in the
      target repository. Anything deeper is not read. */
  predicate IsOffered(ws: Workspace, target: string, l: Location) {
    l in ws.files && |l.dir| == 1 && !ws.manifest.Contains(target, l.dir[0], l.name)
  }

  function Offered(ws: Workspace, target: string): set<Location> {
    set l | l in ws.files && IsOffered(ws, target, l)
  }

  /** `repo'` is `repo` with the files at `up` stored at their destinations. */
  ghost predicate IsUploaded(repo: Repository, repo': Repository, ws: Workspace, up: set<Location>, run: string,
                             status: string)
    requires forall l | l in up :: l in ws.files && |l.dir| == 1
  {
    && (forall l | l in up ::
          DestinationOf(ws, l, run, status) in repo' && repo'[DestinationOf(ws, l, run, status)] == ws.files[l])
    && (forall a | a in repo :: a in repo')
    && (forall a | a in repo' ::
          || (a in repo && repo'[a] == repo[a])
          || exists l | l in up :: a == DestinationOf(ws, l, run, status))
  }

  function DestinationOf(ws: Workspace, l: Location, run: string, status: string): Asset
    requires |l.dir| == 1
  {
    Destination(ws.group, l.dir[0], l.name, run, status)
  }

  /** The path of an artifact directly in a subdirectory: in the group of the commit, and below a
      directory of the run's own if that failed. */
  function PathOf(group: string, l: Location, run: string, status: string): Asset {
    if status == "Succeeded" || status == "Completed" then Asset(group, l)
    else Asset(group, Location(["failed-" + run + "-artifacts"] + l.dir, l.name))
  }

  /** The file was downloaded from `target` itself, at the same place. */
  predicate WasThere(target: string, ws: Workspace, l: Location) {
    target == ws.manifest.source && l in ws.manifest.artifacts
  }

  /** The file is in `target` where it belongs, or was there when the run started. */
  predicate IsSafe(now: Repositories, target: string, ws: Workspace, l: Location, run: string, status: string)
    requires l in ws.files
  {
    var a := PathOf(ws.group, l, run, status);
    (a in Assets(now, target) && Assets(now, target)[a] == ws.files[l]) || WasThere(target, ws, l)
  }

  /** Nothing has changed but that some files not there at the start are where they belong. */
  ghost predicate OnlyUploads(start: Repositories, now: Repositories, target: string, ws: Workspace, run: string,
                              status: string)
  {
    && (forall name | name != target :: Assets(now, name) == Assets(start, name))
    && (forall a | a in Assets(start, target) :: a in Assets(now, target))
    && (forall a | a in Assets(now, target) ::
          || (a in Assets(start, target) && Assets(now, target)[a] == Assets(start, target)[a])
          || (exists l | l in ws.files && |l.dir| == 1 && !WasThere(target, ws, l) ::
                a == PathOf(ws.group, l, run, status) && Assets(now, target)[a] == ws.files[l]))
  }

  lemma PathOfDestination(ws: Workspace, l: Location, run: string, status: string)
    requires |l.dir| == 1
    ensures PathOf(ws.group, l, run, status) == DestinationOf(ws, l, run, status)
  {
    var own := "failed-" + run + "-artifacts";
    assert l.dir == [l.dir[0]] && [own] + l.dir == [own, l.dir[0]];
  }

  lemma OfferedMeaning(ws: Workspace, target: string, l: Location)
    requires l in ws.files && |l.dir| == 1
    ensures IsOffered(ws, target, l) <==> !WasThere(target, ws, l)
  {
    assert l == Location([l.dir[0]], l.name);
  }

  /** After all uploads every artifact is safe. */
  lemma NothingIsLost(start: Repositories, now: Repositories, target: string, ws: Workspace, run: string,
                      status: string)
    requires UploadState(start, now, target, ws, Offered(ws, target), run, status)
    ensures forall l | l in ws.files && |l.dir| == 1 :: IsSafe(now, target, ws, l, run, status)
  {
    forall l | l in ws.files && |l.dir| == 1 ensures IsSafe(now, target, ws, l, run, status) {
      OfferedMeaning(ws, target, l);
      PathOfDestination(ws, l, run, status);
      assert IsOffered(ws, target, l) ==> l in Offered(ws, target);
    }
  }

  lemma NothingElse(start: Repositories, now: Repositories, target: string, ws: Workspace, up: set<Location>,
                    run: string, status: string)
    requires UploadState(start, now, target, ws, up, run, status) && up <= Offered(ws, target)
    ensures OnlyUploads(start, now, target, ws, run, status)
  {
    forall l | l in up ensures PathOf(ws.group, l, run, status) == DestinationOf(ws, l, run, status) {
      PathOfDestination(ws, l, run, status);
    }
    forall l | l in up ensures !WasThere(target, ws, l) {
      assert l in Offered(ws, target);
      OfferedMeaning(ws, target, l);
    }
  }

  /** After a successful run all its artifacts are in the target: what has not been uploaded was there
      at the start, and stays as long as nobody deletes it. */
  lemma SuccessfulRunIsStored(atStart: Repositories, names: seq<string>, now: Repositories, target: string,
                              ws: Workspace, run: string, status: string)
    requires IsManifest(ws.manifest, atStart, names, ws.group) && (status == "Succeeded" || status == "Completed")
    requires forall a | a in Assets(atStart, target) :: a in Assets(now, target)
    requires forall l | l in ws.files && |l.dir| == 1 :: IsSafe(now, target, ws, l, run, status)
    ensures forall l | l in ws.files && |l.dir| == 1 :: Asset(ws.group, l) in Assets(now, target)
  {
    forall l | l in ws.files && |l.dir| == 1 && WasThere(target, ws, l)
      ensures Asset(ws.group, l) in Assets(atStart, target)
    {
      assert l in Found(atStart, target, ws.group);
    }
  }

  /** Different files go to different places. */
  lemma DestinationInjective(ws: Workspace, k: Location, l: Location, run: string, status: string)
    requires |k.dir| == 1 && |l.dir| == 1 && DestinationOf(ws, k, run, status) == DestinationOf(ws, l, run, status)
    ensures k == l
  {
    assert k.dir == [k.dir[0]] && l.dir == [l.dir[0]];
  }

  /* ---- The programs ---- */

  class Nexus {
    var repos: Repositories

    constructor (repos: Repositories)
      ensures this.repos == repos
    {
      this.repos := repos;
    }

    method Search(name: string, group: string) returns (found: seq<Location>)
      ensures forall l :: l in found <==> l in Found(repos, name, group)
    {
      found := [];
      var todo := Found(repos, name, group);
      while todo != {}
        invariant todo <= Found(repos, name, group)
        invariant forall l :: l in found <==> l in Found(repos, name, group) - todo
        decreases todo
      {
        var l :| l in todo;
        found := found + [l];
        todo := todo - {l};
      }
    }

    method Upload(name: string, asset: Asset, blob: Blob)
      modifies this
      ensures repos == old(repos)[name := Assets(old(repos), name)[asset := blob]]
    {
      repos := repos[name := Assets(repos, name)[asset := blob]];
    }

    /** searchForAssets: the repositories in order, up to the first with anything in the group. */
    method SearchForAssets(names: seq<string>, group: string) returns (source: string, found: seq<Location>)
      ensures match FindSource(repos, names, group)
              case FoundIn(name) =>
                source == name && found != [] && forall l :: l in found <==> l in Found(repos, name, group)
              case NotFound => source == "" && found == []
    {
      assert names[0..] == names;
      for i := 0 to |names|
        invariant FindSource(repos, names, group) == FindSource(repos, names[i..], group)
      {
        assert names[i..][0] == names[i] && names[i..][1..] == names[i + 1..];
        found := Search(names[i], group);
        if |found| > 0 {
          assert found[0] in Found(repos, names[i], group);
          return names[i], found;
        }
        assert forall l | l in Found(repos, names[i], group) :: l in found;
      }
      assert names[|names|..] == [];
      return "", [];
    }

    /** DownloadGroup: the files of the group and the manifest that describes them. `tree` is what the
        artifacts directory holds already, which is what the commit carries there. */
    method DownloadGroup(names: seq<string>, group: string, tree: map<Location, Blob>) returns (ok: bool, ws: Workspace)
      requires IsTree(tree)
      ensures ok <==>
        AllInSubfolders(Downloads(repos, names, group)) && IsTree(tree + Downloads(repos, names, group))
      ensures ok ==> ws.group == group && IsManifest(ws.manifest, repos, names, group)
      ensures ok ==> ws.files == tree + Downloads(repos, names, group)
    {
      var source, found := SearchForAssets(names, group);
      ghost var goal := tree + Downloads(repos, names, group);
      var files := tree;
      var artifacts: seq<Location> := [];
      ws := Workspace(group, Manifest(source, []), map[]);
      for i := 0 to |found|
        invariant artifacts == found[..i] && IsTree(files)
        invariant forall j | 0 <= j < i :: found[j].dir != []
        invariant forall l :: l in files <==> l in tree || l in found[..i]
        invariant forall l | l in files :: l in goal && files[l] == if l in found[..i] then goal[l] else tree[l]
      {
        var l := found[i];
        assert l in found && found[..i + 1] == found[..i] + [l];
        assert l in Downloads(repos, names, group);
        if l.dir == [] {
          return false, ws;
        }
        if exists k | k in files :: Clash(k, l) {
          return false, ws;
        }
        files := files[l := Assets(repos, source)[Asset(group, l)]];
        artifacts := artifacts + [l];
      }
      assert found[..|found|] == found;
      assert files == goal;
      return true, Workspace(group, Manifest(source, artifacts), files);
    }

    /** One file of uploadArtifacts, uploaded unless the manifest has it; fails if no upload is left. */
    method UploadIfMissing(target: string, ws: Workspace, l: Location, run: string, status: string, budget: nat,
                           ghost up: set<Location>, ghost start: Repositories)
      returns (ok: bool, left: nat)
      requires UploadState(start, repos, target, ws, up, run, status) && l in ws.files && |l.dir| == 1 && l !in up
      modifies this
      ensures ok <==> budget > 0 || !IsOffered(ws, target, l)
      ensures ok ==> UploadState(start, repos, target, ws, up + OfferedOf(ws, target, l), run, status)
      ensures !ok ==> UploadState(start, repos, target, ws, up, run, status)
      ensures left == if ok && IsOffered(ws, target, l) then budget - 1 else budget
    {
      assert l.dir == [l.dir[0]];
      left := budget;
      if ws.manifest.Contains(target, l.dir[0], l.name) {
        assert up + OfferedOf(ws, target, l) == up;
        return true, left;
      }
      if left == 0 {
        return false, left;
      }
      OneMoreUpload(start, repos, target, ws, up, l, run, status);
      Upload(target, Destination(ws.group, l.dir[0], l.name, run, status), ws.files[l]);
      return true, left - 1;
    }

    /** One subdirectory of uploadArtifacts; `was` has been uploaded before it. */
    method UploadSubdirectory(target: string, ws: Workspace, sub: string, names: seq<string>, run: string,
                              status: string, budget: nat, ghost was: set<Location>, ghost start: Repositories)
      returns (ok: bool, left: nat, ghost up: set<Location>)
      requires UploadState(start, repos, target, ws, was, run, status)
      requires IsSubdirectory(ws, sub, names) && forall l | l in was :: l.dir != [sub]
      modifies this
      ensures UploadState(start, repos, target, ws, up, run, status)
      ensures |up| + left == |was| + budget
      ensures ok ==> up == was + OfferedIn(ws, target, sub, names)
      ensures !ok ==> left == 0 && up < was + OfferedIn(ws, target, sub, names)
    {
      left, up := budget, was;
      for i := 0 to |names|
        invariant UploadState(start, repos, target, ws, up, run, status)
        invariant up == was + OfferedIn(ws, target, sub, names[..i])
        invariant |up| + left == |was| + budget
      {
        var l := Location([sub], names[i]);
        OfferedNext(ws, target, sub, names, i, was);
        ok, left := UploadIfMissing(target, ws, l, run, status, left, up, start);
        if !ok {
          return false, left, up;
        }
        up := up + OfferedOf(ws, target, l);
      }
      assert names[..|names|] == names;
      return true, left, up;
    }

    /** uploadArtifacts: `budget` uploads succeed before one fails. */
    method UploadArtifacts(target: string, ws: Workspace, run: string, status: string, budget: nat)
      returns (ok: bool, ghost up: set<Location>)
      modifies this
      ensures up <= Offered(ws, target) && (ok ==> up == Offered(ws, target))
      ensures ok <==> |Offered(ws, target)| <= budget
      ensures !ok ==> |up| == budget
      ensures ok ==> forall l | l in ws.files && |l.dir| == 1 :: IsSafe(repos, target, ws, l, run, status)
      ensures OnlyUploads(old(repos), repos, target, ws, run, status)
      ensures UploadState(old(repos), repos, target, ws, up, run, status)
    {
      ghost var start := repos;
      var artifacts := ReadArtifactsDir(ws.files);
      var subs := artifacts.Keys;
      var left := budget;
      up := {};
      OfferedUnderNone(ws, target);
      while subs != {}
        invariant subs <= artifacts.Keys
        invariant up == OfferedUnder(ws, target, artifacts.Keys - subs)
        invariant |up| + left == budget
        invariant UploadState(start, repos, target, ws, up, run, status)
        decreases subs
      {
        var sub :| sub in subs;
        ghost var done := artifacts.Keys - subs;
        OfferedUnderNext(ws, target, done, sub, artifacts[sub]);
        subs := subs - {sub};
        ok, left, up := UploadSubdirectory(target, ws, sub, artifacts[sub], run, status, left, up, start);
        if !ok {
          SubsetSize(up, OfferedUnder(ws, target, done + {sub}));
          SubsetSize(OfferedUnder(ws, target, done + {sub}), Offered(ws, target));
          NothingElse(start, repos, target, ws, up, run, status);
          return false, up;
        }
        assert artifacts.Keys - subs == done + {sub};
      }
      assert artifacts.Keys - subs == artifacts.Keys;
      OfferedUnderAll(ws, target, artifacts.Keys);
      NothingIsLost(start, repos, target, ws, run, status);
      NothingElse(start, repos, target, ws, up, run, status);
      return true, up;
    }
  }

  /** A file as a set, empty if it is not offered. */
  function OfferedOf(ws: Workspace, target: string, l: Location): set<Location> {
    if IsOffered(ws, target, l) then {l} else {}
  }

  /** What is offered in the subdirectories `subs`. */
  function OfferedUnder(ws: Workspace, target: string, subs: set<string>): set<Location> {
    set l | l in ws.files && IsOffered(ws, target, l) && l.dir[0] in subs
  }

  lemma OfferedUnderNone(ws: Workspace, target: string)
    ensures OfferedUnder(ws, target, {}) == {}
  {
  }

  lemma OfferedUnderNext(ws: Workspace, target: string, done: set<string>, sub: string, names: seq<string>)
    requires sub !in done && forall name :: name in names <==> Location([sub], name) in ws.files
    ensures OfferedUnder(ws, target, done + {sub}) == OfferedUnder(ws, target, done) + OfferedIn(ws, target, sub, names)
    ensures forall l | l in OfferedUnder(ws, target, done) :: l.dir != [sub]
  {
    forall l | l in ws.files && IsOffered(ws, target, l)
      ensures l.dir[0] == sub <==> l.dir == [sub] && l.name in names
    {
      assert l == Location([l.dir[0]], l.name);
    }
  }

  lemma OfferedUnderAll(ws: Workspace, target: string, subs: set<string>)
    requires forall l | l in ws.files && l.dir != [] :: l.dir[0] in subs
    ensures OfferedUnder(ws, target, subs) == Offered(ws, target)
  {
  }

  /** What of subdirectory `sub` is offered under one of `names`. */
  function OfferedIn(ws: Workspace, target: string, sub: string, names: seq<string>): set<Location> {
    set l | l in ws.files && l.dir == [sub] && l.name in names && IsOffered(ws, target, l)
  }

  /** `names` are files directly in subdirectory `sub`, each once. */
  ghost predicate IsSubdirectory(ws: Workspace, sub: string, names: seq<string>) {
    && (forall name | name in names :: Location([sub], name) in ws.files)
    && (forall i, j | 0 <= i < j < |names| :: names[i] != names[j])
  }

  lemma OfferedGrows(ws: Workspace, target: string, sub: string, names: seq<string>, i: nat)
    requires i < |names| && IsSubdirectory(ws, sub, names)
    ensures Location([sub], names[i]) !in OfferedIn(ws, target, sub, names[..i])
    ensures OfferedIn(ws, target, sub, names[..i + 1]) ==
            OfferedIn(ws, target, sub, names[..i]) + OfferedOf(ws, target, Location([sub], names[i]))
  {
    assert names[..i + 1] == names[..i] + [names[i]] && names[i] in names;
  }

  lemma OfferedWithin(ws: Workspace, target: string, sub: string, names: seq<string>, i: nat)
    requires i < |names| && IsSubdirectory(ws, sub, names) && IsOffered(ws, target, Location([sub], names[i]))
    ensures Location([sub], names[i]) in OfferedIn(ws, target, sub, names)
    ensures OfferedIn(ws, target, sub, names[..i]) <= OfferedIn(ws, target, sub, names)
  {
    assert names[i] in names;
  }

  lemma OfferedNext(ws: Workspace, target: string, sub: string, names: seq<string>, i: nat, was: set<Location>)
    requires i < |names| && IsSubdirectory(ws, sub, names) && forall l | l in was :: l.dir != [sub]
    ensures var l, up := Location([sub], names[i]), was + OfferedIn(ws, target, sub, names[..i]);
      && l in ws.files && l !in up
      && up + OfferedOf(ws, target, l) == was + OfferedIn(ws, target, sub, names[..i + 1])
      && |up + OfferedOf(ws, target, l)| == |up| + (if IsOffered(ws, target, l) then 1 else 0)
      && (IsOffered(ws, target, l) ==> up < was + OfferedIn(ws, target, sub, names))
  {
    var l, before := Location([sub], names[i]), OfferedIn(ws, target, sub, names[..i]);
    OfferedGrows(ws, target, sub, names, i);
    assert names[i] in names;
    assert l.dir == [sub] && l !in was;
    if IsOffered(ws, target, l) {
      OfferedWithin(ws, target, sub, names, i);
    } else {
      assert was + before + OfferedOf(ws, target, l) == was + before;
    }
  }

  /** `start` with the files at `up` uploaded to `target`, nothing else changed. */
  ghost predicate UploadState(start: Repositories, now: Repositories, target: string, ws: Workspace, up: set<Location>,
                              run: string, status: string)
  {
    && (forall l | l in up :: l in ws.files && |l.dir| == 1)
    && IsUploaded(Assets(start, target), Assets(now, target), ws, up, run, status)
    && (forall name | name != target :: Assets(now, name) == Assets(start, name))
  }

  lemma OneMoreUpload(start: Repositories, now: Repositories, target: string, ws: Workspace, up: set<Location>,
                      l: Location, run: string, status: string)
    requires UploadState(start, now, target, ws, up, run, status) && l in ws.files && |l.dir| == 1 && l !in up
    ensures UploadState(start, now[target := Assets(now, target)[DestinationOf(ws, l, run, status) := ws.files[l]]],
                        target, ws, up + {l}, run, status)
  {
    forall k | k in up ensures DestinationOf(ws, k, run, status) != DestinationOf(ws, l, run, status) {
      if DestinationOf(ws, k, run, status) == DestinationOf(ws, l, run, status) {
        DestinationInjective(ws, k, l, run, status);
      }
    }
  }

  /** The files directly in each top-level subdirectory; deeper files are not read. */
  method ReadArtifactsDir(files: map<Location, Blob>) returns (artifacts: map<string, seq<string>>)
    ensures forall l | l in files && l.dir != [] :: l.dir[0] in artifacts
    ensures forall sub, name | sub in artifacts :: name in artifacts[sub] <==> Location([sub], name) in files
    ensures forall sub | sub in artifacts :: forall i, j | 0 <= i < j < |artifacts[sub]| ::
      artifacts[sub][i] != artifacts[sub][j]
  {
    artifacts := map[];
    var todo := files.Keys;
    while todo != {}
      invariant todo <= files.Keys
      invariant forall l | l in files && l !in todo && l.dir != [] :: l.dir[0] in artifacts
      invariant forall sub, name | sub in artifacts ::
        name in artifacts[sub] <==> Location([sub], name) in files.Keys - todo
      invariant forall sub | sub !in artifacts :: forall name :: Location([sub], name) !in files.Keys - todo
      invariant forall sub | sub in artifacts :: forall i, j | 0 <= i < j < |artifacts[sub]| ::
        artifacts[sub][i] != artifacts[sub][j]
      decreases todo
    {
      var l :| l in todo;
      todo := todo - {l};
      if l.dir != [] {
        var sub := l.dir[0];
        var names := if sub in artifacts then artifacts[sub] else [];
        if |l.dir| == 1 {
          assert l == Location([sub], l.name) && l.name !in names;
          names := names + [l.name];
        }
        artifacts := artifacts[sub := names];
      }
    }
  }
}
