/** Release tags (internal/repository/tags.go and applyVersionTags in cmd/start/main.go): candidates
    v<V>-rc.<n> and finals v<V> over an umbrella repository and its subrepositories, any of whose
    API calls may fail. */
module ReleaseTags {
  import opened Decimal

  const WIP := "WIP"

  datatype Tag = Tag(id: string, commit: string)

  function FinalId(version: string): string {
    "refs/tags/v" + version
  }

  function CandidatePrefix(version: string): string {
    FinalId(version) + "-rc."
  }

  function CandidateId(version: string, n: int): string {
    CandidatePrefix(version) + Itoa(n)
  }

  /** The number of a candidate of `version`, if the tag is one. */
  function CandidateNumber(id: string, version: string): Parsed {
    if CandidatePrefix(version) <= id then Atoi(id[|CandidatePrefix(version)|..]) else NotANumber
  }

  /** A candidate is what is printed as one, up to how its number is printed. */
  lemma CandidateNumberMeaning(id: string, version: string, n: int)
    ensures CandidateNumber(id, version) == Number(n) <==>
      exists digits :: id == "refs/tags/v" + version + "-rc." + digits && Atoi(digits) == Number(n)
  {
    var prefix := "refs/tags/v" + version + "-rc.";
    if prefix <= id {
      assert id == prefix + id[|prefix|..];
    }
    forall digits | id == prefix + digits ensures prefix <= id && digits == id[|prefix|..] {
    }
  }

  /** The highest positive candidate number of a list, 0 if there is none. */
  function Highest(tags: seq<Tag>, version: string): int {
    if tags == [] then 0
    else
      var h := Highest(tags[..|tags| - 1], version);
      match CandidateNumber(tags[|tags| - 1].id, version)
      case Number(n) => if n > h then n else h
      case NotANumber => h
  }

  method TagListContainsFinalVersion(tags: seq<Tag>, version: string) returns (found: bool)
    ensures found <==> exists t | t in tags :: t.id == FinalId(version)
  {
    for i := 0 to |tags|
      invariant forall j | 0 <= j < i :: tags[j].id != FinalId(version)
    {
      if tags[i].id == FinalId(version) {
        return true;
      }
    }
    return false;
  }

  /** `latest` is the address of the loop variable, so what it points to in the end is the last tag
      of the list, whichever tag had the highest number. */
  method LatestReleaseCandidate(tags: seq<Tag>, version: string) returns (found: bool, latest: Tag, highest: int)
    ensures highest == Highest(tags, version)
    ensures found <==> highest > 0
    ensures found ==> tags != [] && latest == tags[|tags| - 1]
  {
    highest, found := 0, false;
    var t := Tag("", "");
    for i := 0 to |tags|
      invariant highest == Highest(tags[..i], version) && highest >= 0
      invariant found <==> highest > 0
      invariant i > 0 ==> t == tags[i - 1]
    {
      t := tags[i];
      assert tags[..i + 1][..i] == tags[..i];
      if CandidatePrefix(version) <= t.id {
        var n := Atoi(t.id[|CandidatePrefix(version)|..]);
        if n.Number? && n.value > highest {
          highest := n.value;
          found := true;
        }
      }
    }
    assert tags[..|tags|] == tags;
    latest := t;
  }

  /** The number is the true maximum of all parsable candidates, or 0. */
  lemma {:induction false} HighestMeaning(tags: seq<Tag>, version: string)
    ensures 0 <= Highest(tags, version) <= MAX_INT
    ensures forall t | t in tags && CandidateNumber(t.id, version).Number? ::
      CandidateNumber(t.id, version).value <= Highest(tags, version)
    ensures Highest(tags, version) > 0 ==>
      exists t | t in tags :: CandidateNumber(t.id, version) == Number(Highest(tags, version))
  {
    if tags != [] {
      var init, last := tags[..|tags| - 1], tags[|tags| - 1];
      HighestMeaning(init, version);
      assert tags == init + [last];
      assert last in tags;
    }
  }

  /** The tag meant by "latest release candidate": the first in the list with the highest number. */
  function HighestTag(tags: seq<Tag>, version: string): (t: Tag)
    requires Highest(tags, version) > 0
    ensures t in tags && CandidateNumber(t.id, version) == Number(Highest(tags, version))
  {
    var init, last := tags[..|tags| - 1], tags[|tags| - 1];
    if Highest(init, version) == Highest(tags, version) then HighestTag(init, version) else last
  }

  /** checkProdTagRequirements accepts the checked out commit. */
  predicate MayPromote(tags: seq<Tag>, version: string, commit: string) {
    Highest(tags, version) > 0 && tags != [] && tags[|tags| - 1].commit == commit
  }

  method CheckProdTagRequirements(tags: seq<Tag>, commit: string, version: string) returns (ok: bool)
    ensures ok <==> MayPromote(tags, version, commit)
  {
    var found, latest, _ := LatestReleaseCandidate(tags, version);
    return found && latest.commit == commit;
  }

  /** The check looks at the right commit exactly if the last tag of the list is on the commit of
      the highest candidate. */
  lemma CheckIsRightWhen(tags: seq<Tag>, version: string)
    requires Highest(tags, version) > 0
    ensures (forall commit :: MayPromote(tags, version, commit) <==> commit == HighestTag(tags, version).commit) <==>
            tags[|tags| - 1].commit == HighestTag(tags, version).commit
  {
    if forall commit :: MayPromote(tags, version, commit) <==> commit == HighestTag(tags, version).commit {
      assert MayPromote(tags, version, tags[|tags| - 1].commit);
    }
  }

  /** Listed newest first, the older candidate's commit is accepted and the newer one's refused. */
  lemma OlderCandidatePromoted()
    ensures var tags := [Tag("refs/tags/v1.0-rc.2", "new"), Tag("refs/tags/v1.0-rc.1", "old")];
      Highest(tags, "1.0") == 2 && MayPromote(tags, "1.0", "old") && !MayPromote(tags, "1.0", "new")
  {
    var tags := [Tag("refs/tags/v1.0-rc.2", "new"), Tag("refs/tags/v1.0-rc.1", "old")];
    var prefix := CandidatePrefix("1.0");
    assert prefix == "refs/tags/v1.0-rc.";
    assert tags[0].id == prefix + "2" && tags[1].id == prefix + "1";
    assert tags[0].id[|prefix|..] == "2" && tags[1].id[|prefix|..] == "1";
    assert Atoi("2") == Number(2) && Atoi("1") == Number(1);
    assert Highest([], "1.0") == 0;
    assert tags[..1] == [tags[0]] && tags[..1][..0] == [];
    assert Highest(tags[..1], "1.0") == 2;
  }

  /* ---- The server and one run of applyVersionTags ---- */

  /** Tags of one repository, id to commit; of all repositories. */
  type RepoTags = map<string, string>
  type Tags = map<string, RepoTags>

  function TagsOf(tags: Tags, repo: string): RepoTags {
    if repo in tags then tags[repo] else map[]
  }

  predicate IsTagOf(id: string, version: string) {
    id == FinalId(version) || CandidatePrefix(version) <= id
  }

  /** A complete answer to listing the tags of a version: in any order, with any other tags in it. */
  ghost predicate ListsTags(list: seq<Tag>, tags: RepoTags, version: string) {
    && (forall t | t in list :: t.id in tags && tags[t.id] == t.commit)
    && (forall id | id in tags && IsTagOf(id, version) :: Tag(id, tags[id]) in list)
  }

  /** How the server orders the answers, by repository and contents. */
  type Order = (string, RepoTags) -> seq<Tag>

  datatype Context = Context(repo: string, commit: string)

  /** The state of the server while a run makes its calls; after `budget` more calls one fails. */
  datatype Progress = Progress(tags: Tags, budget: nat, ok: bool)

  function Call(p: Progress): Progress {
    if p.budget == 0 then p.(ok := false) else p.(budget := p.budget - 1)
  }

  /** TagCreate; the server refuses an id that exists. */
  function Create(p: Progress, ctxt: Context, id: string): Progress {
    var called := Call(p);
    var own := TagsOf(p.tags, ctxt.repo);
    if !called.ok || id in own then called.(ok := false)
    else called.(tags := p.tags[ctxt.repo := own[id := ctxt.commit]])
  }

  function CreateInAll(p: Progress, ctxts: seq<Context>, id: string): Progress
    decreases |ctxts|
  {
    if ctxts == [] then p
    else
      var next := Create(p, ctxts[0], id);
      if next.ok then CreateInAll(next, ctxts[1..], id) else next
  }

  /** Listing, check and creation in the subrepositories one after the other. */
  function PromoteInAll(p: Progress, ctxts: seq<Context>, version: string, order: Order): Progress
    decreases |ctxts|
  {
    if ctxts == [] then p
    else
      var listed := Call(p);
      if !listed.ok || !MayPromote(order(ctxts[0].repo, TagsOf(p.tags, ctxts[0].repo)), version, ctxts[0].commit) then
        listed.(ok := false)
      else
        var next := Create(listed, ctxts[0], FinalId(version));
        if next.ok then PromoteInAll(next, ctxts[1..], version, order) else next
  }

  datatype Stage = Dev | Qa | Prod

  datatype Job = Job(stage: Stage, main: Context, subs: seq<Context>, version: string, order: Order, budget: nat)

  ghost predicate HasFinal(list: seq<Tag>, version: string) {
    exists t | t in list :: t.id == FinalId(version)
  }

  /** The QA branch: a new candidate, first in main. */
  function Candidated(listed: Progress, list: seq<Tag>, job: Job): Progress {
    CreateInAll(listed, [job.main] + job.subs, CandidateId(job.version, Increment(Highest(list, job.version))))
  }

  /** The PROD branch: main is checked and tagged first. */
  function Promoted(listed: Progress, list: seq<Tag>, job: Job): Progress {
    if !MayPromote(list, job.version, job.main.commit) then listed.(ok := false)
    else
      var promoted := Create(listed, job.main, FinalId(job.version));
      if promoted.ok then PromoteInAll(promoted, job.subs, job.version, job.order) else promoted
  }

  /** One run of applyVersionTags on the server's tags. */
  ghost function Applied(tags: Tags, job: Job): Progress {
    var start := Progress(tags, job.budget, true);
    if job.stage.Dev? then start
    else if job.version == WIP then start.(ok := false)
    else
      var listed := Call(start);
      var list := job.order(job.main.repo, TagsOf(tags, job.main.repo));
      if !listed.ok || HasFinal(list, job.version) then listed
      else if job.stage.Qa? then Candidated(listed, list, job)
      else Promoted(listed, list, job)
  }

  /** The ids the server gives to the names the code creates. */
  lemma NamesAreIds(version: string, n: int)
    ensures "refs/tags/" + ("v" + version) == FinalId(version)
    ensures "refs/tags/" + ("v" + version + "-rc." + Itoa(n)) == CandidateId(version, n)
  {
    assert "refs/tags/" + "v" == "refs/tags/v";
    assert "refs/tags/" + ("v" + version) == FinalId(version);
    assert "refs/tags/" + ("v" + version + "-rc." + Itoa(n)) == ("refs/tags/" + ("v" + version)) + "-rc." + Itoa(n);
  }

  class Bitbucket {
    var tags: Tags
    var budget: nat
    const order: Order

    constructor (tags: Tags, budget: nat, order: Order)
      ensures this.tags == tags && this.budget == budget && this.order == order
    {
      this.tags, this.budget, this.order := tags, budget, order;
    }

    method TagList(repo: string) returns (ok: bool, list: seq<Tag>)
      modifies this`budget
      ensures Progress(tags, budget, ok) == Call(Progress(tags, old(budget), true))
      ensures ok ==> list == order(repo, TagsOf(tags, repo))
    {
      list := [];
      ok := budget > 0;
      if ok {
        budget := budget - 1;
        list := order(repo, TagsOf(tags, repo));
      }
    }

    method CreateTag(ctxt: Context, name: string) returns (ok: bool)
      modifies this
      ensures Progress(tags, budget, ok) == Create(Progress(old(tags), old(budget), true), ctxt, "refs/tags/" + name)
    {
      ok := budget > 0;
      if ok {
        budget := budget - 1;
        var id := "refs/tags/" + name;
        var own := TagsOf(tags, ctxt.repo);
        ok := id !in own;
        if ok {
          tags := tags[ctxt.repo := own[id := ctxt.commit]];
        }
      }
    }

    /** The QA branch after the check for a final tag: the candidate in main, then in every subrepo. */
    method TagCandidates(ctxts: seq<Context>, name: string) returns (ok: bool)
      modifies this
      ensures Progress(tags, budget, ok) ==
        CreateInAll(Progress(old(tags), old(budget), true), ctxts, "refs/tags/" + name)
    {
      ghost var goal := CreateInAll(Progress(tags, budget, true), ctxts, "refs/tags/" + name);
      assert ctxts[0..] == ctxts;
      for i := 0 to |ctxts|
        invariant CreateInAll(Progress(tags, budget, true), ctxts[i..], "refs/tags/" + name) == goal
      {
        assert ctxts[i..][0] == ctxts[i] && ctxts[i..][1..] == ctxts[i + 1..];
        var created := CreateTag(ctxts[i], name);
        if !created {
          return false;
        }
      }
      return true;
    }

    /** The PROD branch for the subrepos. */
    method PromoteSubrepos(subs: seq<Context>, version: string) returns (ok: bool)
      modifies this
      ensures Progress(tags, budget, ok) == PromoteInAll(Progress(old(tags), old(budget), true), subs, version, order)
    {
      ghost var goal := PromoteInAll(Progress(tags, budget, true), subs, version, order);
      assert subs[0..] == subs;
      for i := 0 to |subs|
        invariant PromoteInAll(Progress(tags, budget, true), subs[i..], version, order) == goal
      {
        assert subs[i..][0] == subs[i] && subs[i..][1..] == subs[i + 1..];
        var listed, list := TagList(subs[i].repo);
        if !listed {
          return false;
        }
        var allowed := CheckProdTagRequirements(list, subs[i].commit, version);
        if !allowed {
          return false;
        }
        assert "refs/tags/" + ("v" + version) == FinalId(version);
        var created := CreateTag(subs[i], "v" + version);
        if !created {
          return false;
        }
      }
      return true;
    }

    method Promote(main: Context, subs: seq<Context>, version: string, list: seq<Tag>, ghost job: Job)
      returns (ok: bool)
      requires job.main == main && job.subs == subs && job.version == version && job.order == order
      modifies this
      ensures Progress(tags, budget, ok) == Promoted(Progress(old(tags), old(budget), true), list, job)
    {
      ok := CheckProdTagRequirements(list, main.commit, version);
      if ok {
        NamesAreIds(version, 0);
        ok := CreateTag(main, "v" + version);
        if ok {
          ok := PromoteSubrepos(subs, version);
        }
      }
    }

    method ApplyVersionTags(stage: Stage, main: Context, subs: seq<Context>, version: string) returns (ok: bool)
      modifies this
      ensures Progress(tags, budget, ok) == Applied(old(tags), Job(stage, main, subs, version, order, old(budget)))
    {
      if stage.Dev? {
        return true;
      }
      if version == WIP {
        return false;
      }
      var listed, list := TagList(main.repo);
      if !listed {
        return false;
      }
      var final := TagListContainsFinalVersion(list, version);
      if final {
        return true;
      }
      if stage.Qa? {
        var _, _, num := LatestReleaseCandidate(list, version);
        NamesAreIds(version, Increment(num));
        ok := TagCandidates([main] + subs, "v" + version + "-rc." + Itoa(Increment(num)));
      } else {
        ok := Promote(main, subs, version, list, Job(stage, main, subs, version, order, old(budget)));
      }
    }
  }
}
