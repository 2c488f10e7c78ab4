/** What tagging guarantees over any run of jobs, with failures between any two API calls. */
module ReleaseGuarantees {
  import opened Decimal
  import opened ReleaseTags

  /* ---- Candidates are fresh ---- */

  lemma OwnNumber(version: string, n: int)
    requires MIN_INT <= n <= MAX_INT
    ensures CandidateNumber(CandidateId(version, n), version) == Number(n)
  {
    RoundTrip(n);
    assert CandidateId(version, n)[|CandidatePrefix(version)|..] == Itoa(n);
  }

  /** The number of the next candidate exceeds every candidate's exactly if the highest is not the
      largest integer: there the number wraps around. */
  lemma NextCandidateIsHighest(list: seq<Tag>, tags: RepoTags, version: string)
    requires ListsTags(list, tags, version)
    ensures var next := CandidateNumber(CandidateId(version, Increment(Highest(list, version))), version);
      && next == Number(if Highest(list, version) < MAX_INT then Highest(list, version) + 1 else MIN_INT)
      && ((forall id | id in tags && CandidateNumber(id, version).Number? ::
             CandidateNumber(id, version).value < next.value)
          <==> Highest(list, version) < MAX_INT)
  {
    var h := Highest(list, version);
    HighestMeaning(list, version);
    OwnNumber(version, Increment(h));
    forall id | id in tags && CandidateNumber(id, version).Number? ensures CandidateNumber(id, version).value <= h {
      assert Tag(id, tags[id]) in list;
    }
    if h == MAX_INT {
      var t :| t in list && CandidateNumber(t.id, version) == Number(h);
      assert t.id in tags;
    }
  }

  /** And so it is not taken. */
  lemma NextCandidateIsFree(list: seq<Tag>, tags: RepoTags, version: string)
    requires ListsTags(list, tags, version) && Highest(list, version) < MAX_INT
    ensures CandidateId(version, Increment(Highest(list, version))) !in tags
  {
    NextCandidateIsHighest(list, tags, version);
  }

  /* ---- What a call changes, and what it never does ---- */

  /** Tags are only ever added: one id per call, to the repositories named, never moved. */
  ghost predicate Extends(tags: Tags, tags': Tags) {
    forall repo, id | id in TagsOf(tags, repo) ::
      id in TagsOf(tags', repo) && TagsOf(tags', repo)[id] == TagsOf(tags, repo)[id]
  }

  /** `tags'` has no ids that `tags` lacks except `id`. */
  ghost predicate AddsOnly(tags: Tags, tags': Tags, id: string) {
    forall repo, i | i in TagsOf(tags', repo) && i !in TagsOf(tags, repo) :: i == id
  }

  lemma {:induction false} CreateInAllEffect(p: Progress, ctxts: seq<Context>, id: string)
    ensures Extends(p.tags, CreateInAll(p, ctxts, id).tags)
    ensures AddsOnly(p.tags, CreateInAll(p, ctxts, id).tags, id)
    ensures CreateInAll(p, ctxts, id).ok && p.ok ==> forall c | c in ctxts ::
      id in TagsOf(CreateInAll(p, ctxts, id).tags, c.repo)
    decreases |ctxts|
  {
    if ctxts != [] {
      var next := Create(p, ctxts[0], id);
      if next.ok {
        CreateInAllEffect(next, ctxts[1..], id);
      }
    }
  }

  lemma {:induction false} PromoteInAllEffect(p: Progress, ctxts: seq<Context>, version: string, order: Order)
    ensures Extends(p.tags, PromoteInAll(p, ctxts, version, order).tags)
    ensures AddsOnly(p.tags, PromoteInAll(p, ctxts, version, order).tags, FinalId(version))
    decreases |ctxts|
  {
    if ctxts != [] {
      var listed := Call(p);
      if listed.ok && MayPromote(order(ctxts[0].repo, TagsOf(p.tags, ctxts[0].repo)), version, ctxts[0].commit) {
        var next := Create(listed, ctxts[0], FinalId(version));
        if next.ok {
          PromoteInAllEffect(next, ctxts[1..], version, order);
        }
      }
    }
  }

  /** The only id a job may add: the next candidate in QA, the final tag in PROD. */
  function JobId(tags: Tags, job: Job): string {
    if job.stage.Qa? then
      CandidateId(job.version, Increment(Highest(job.order(job.main.repo, TagsOf(tags, job.main.repo)), job.version)))
    else
      FinalId(job.version)
  }

  /** `id` is all that is new in `tags'`, and if anything is new, `id` is new in `main`. */
  ghost predicate TagsMainFirst(tags: Tags, tags': Tags, main: string, id: string) {
    && Extends(tags, tags')
    && AddsOnly(tags, tags', id)
    && (tags' != tags ==> id in TagsOf(tags', main) && id !in TagsOf(tags, main))
  }

  lemma CandidatedEffect(p: Progress, list: seq<Tag>, job: Job)
    ensures TagsMainFirst(p.tags, Candidated(p, list, job).tags, job.main.repo,
                          CandidateId(job.version, Increment(Highest(list, job.version))))
  {
    var id := CandidateId(job.version, Increment(Highest(list, job.version)));
    var ctxts, first := [job.main] + job.subs, Create(p, job.main, id);
    assert ctxts[0] == job.main && ctxts[1..] == job.subs;
    if first.ok {
      CreateInAllEffect(first, job.subs, id);
    }
  }

  lemma PromotedEffect(p: Progress, list: seq<Tag>, job: Job)
    ensures TagsMainFirst(p.tags, Promoted(p, list, job).tags, job.main.repo, FinalId(job.version))
  {
    var first := Create(p, job.main, FinalId(job.version));
    if MayPromote(list, job.version, job.main.commit) && first.ok {
      PromoteInAllEffect(first, job.subs, job.version, job.order);
    }
  }

  /** Main is tagged before any subrepository, so what is new anywhere is new in main. */
  lemma AppliedEffect(tags: Tags, job: Job)
    ensures TagsMainFirst(tags, Applied(tags, job).tags, job.main.repo, JobId(tags, job))
  {
    var listed := Call(Progress(tags, job.budget, true));
    var list := job.order(job.main.repo, TagsOf(tags, job.main.repo));
    if job.stage.Qa? {
      CandidatedEffect(listed, list, job);
    } else {
      PromotedEffect(listed, list, job);
    }
  }

  /* ---- One job, exactly ---- */

  /** The repositories a job tags, in this order. */
  function ContextsOf(job: Job): seq<Context> {
    [job.main] + job.subs
  }

  ghost predicate AreDistinct(ctxts: seq<Context>) {
    forall i, j | 0 <= i < j < |ctxts| :: ctxts[i].repo != ctxts[j].repo
  }

  /** The first `m` repositories have got the tag `id`, new in each, on their own commit; nothing else
      has changed. */
  ghost predicate TaggedUpTo(tags: Tags, tags': Tags, ctxts: seq<Context>, m: nat, id: string)
    requires m <= |ctxts|
  {
    && (forall k | 0 <= k < m ::
          && id !in TagsOf(tags, ctxts[k].repo)
          && TagsOf(tags', ctxts[k].repo) == TagsOf(tags, ctxts[k].repo)[id := ctxts[k].commit])
    && (forall repo | (forall k | 0 <= k < m :: ctxts[k].repo != repo) :: TagsOf(tags', repo) == TagsOf(tags, repo))
  }

  /** The version is final by the list read from the umbrella repository. */
  ghost predicate IsFinal(tags: Tags, job: Job) {
    exists t | t in job.order(job.main.repo, TagsOf(tags, job.main.repo)) :: t.id == FinalId(job.version)
  }

  /** The `k`th repository can be tagged: the id is free there, in PROD the last tag listed there is on
      its commit and a positive candidate is listed, and the calls up to it succeed: one to list and
      one a creation in QA, two a repository in PROD. */
  ghost predicate IsReady(tags: Tags, job: Job, k: nat)
    requires k < |ContextsOf(job)|
  {
    var ctxt := ContextsOf(job)[k];
    var list := job.order(ctxt.repo, TagsOf(tags, ctxt.repo));
    && JobId(tags, job) !in TagsOf(tags, ctxt.repo)
    && (job.stage.Prod? ==> Highest(list, job.version) > 0 && list != [] && list[|list| - 1].commit == ctxt.commit)
    && job.budget >= if job.stage.Qa? then k + 2 else 2 * (k + 1)
  }

  lemma TaggedFirst(tags: Tags, next: Tags, end: Tags, ctxts: seq<Context>, m: nat, id: string)
    requires ctxts != [] && AreDistinct(ctxts) && m < |ctxts| && id !in TagsOf(tags, ctxts[0].repo)
    requires next == tags[ctxts[0].repo := TagsOf(tags, ctxts[0].repo)[id := ctxts[0].commit]]
    requires TaggedUpTo(next, end, ctxts[1..], m, id)
    ensures TaggedUpTo(tags, end, ctxts, m + 1, id)
  {
    forall k | 0 <= k < m + 1
      ensures id !in TagsOf(tags, ctxts[k].repo)
      ensures TagsOf(end, ctxts[k].repo) == TagsOf(tags, ctxts[k].repo)[id := ctxts[k].commit]
    {
      if k > 0 {
        assert ctxts[k] == ctxts[1..][k - 1] && ctxts[k].repo != ctxts[0].repo;
      }
    }
    forall repo | (forall k | 0 <= k < m + 1 :: ctxts[k].repo != repo) ensures TagsOf(end, repo) == TagsOf(tags, repo) {
      assert forall k | 0 <= k < m :: ctxts[1..][k] == ctxts[k + 1];
    }
  }

  /** The first repository is tagged, the others are as they were. */
  lemma RestUntouched(tags: Tags, next: Tags, ctxts: seq<Context>, id: string)
    requires ctxts != [] && AreDistinct(ctxts)
    requires next == tags[ctxts[0].repo := TagsOf(tags, ctxts[0].repo)[id := ctxts[0].commit]]
    ensures AreDistinct(ctxts[1..])
    ensures forall k | 1 <= k < |ctxts| ::
      ctxts[1..][k - 1] == ctxts[k] && TagsOf(next, ctxts[k].repo) == TagsOf(tags, ctxts[k].repo)
  {
  }

  /** What CreateInAll is with one repository more. */
  lemma CreatedFirst(p: Progress, ctxts: seq<Context>, id: string)
    requires ctxts != [] && p.ok
    ensures var next := Create(p, ctxts[0], id);
      if p.budget >= 1 && id !in TagsOf(p.tags, ctxts[0].repo) then
        && next.ok && next.budget == p.budget - 1
        && next.tags == p.tags[ctxts[0].repo := TagsOf(p.tags, ctxts[0].repo)[id := ctxts[0].commit]]
        && CreateInAll(p, ctxts, id) == CreateInAll(next, ctxts[1..], id)
      else
        CreateInAll(p, ctxts, id).tags == p.tags && !CreateInAll(p, ctxts, id).ok
  {
  }

  /** From `p` to `end` the first `m` repositories have been tagged, and the next one cannot be. */
  ghost predicate CreatedUpTo(p: Progress, end: Progress, ctxts: seq<Context>, m: nat, id: string) {
    && m <= |ctxts| && m <= p.budget
    && TaggedUpTo(p.tags, end.tags, ctxts, m, id)
    && (end.ok <==> m == |ctxts|)
    && (m < |ctxts| ==> id in TagsOf(p.tags, ctxts[m].repo) || m >= p.budget)
  }

  lemma CreatedOneMore(p: Progress, next: Progress, end: Progress, ctxts: seq<Context>, n: nat, id: string)
    requires ctxts != [] && AreDistinct(ctxts) && p.budget >= 1 && id !in TagsOf(p.tags, ctxts[0].repo)
    requires next.budget == p.budget - 1
    requires next.tags == p.tags[ctxts[0].repo := TagsOf(p.tags, ctxts[0].repo)[id := ctxts[0].commit]]
    requires CreatedUpTo(next, end, ctxts[1..], n, id)
    ensures CreatedUpTo(p, end, ctxts, n + 1, id)
  {
    RestUntouched(p.tags, next.tags, ctxts, id);
    TaggedFirst(p.tags, next.tags, end.tags, ctxts, n, id);
    assert n + 1 < |ctxts| ==> ctxts[1..][n] == ctxts[n + 1];
  }

  lemma {:induction false} CreatedInOrder(p: Progress, ctxts: seq<Context>, id: string) returns (m: nat)
    requires p.ok && AreDistinct(ctxts)
    ensures CreatedUpTo(p, CreateInAll(p, ctxts, id), ctxts, m, id)
    decreases |ctxts|
  {
    m := 0;
    if ctxts != [] {
      CreatedFirst(p, ctxts, id);
      if p.budget >= 1 && id !in TagsOf(p.tags, ctxts[0].repo) {
        var next := Create(p, ctxts[0], id);
        assert AreDistinct(ctxts[1..]);
        var n := CreatedInOrder(next, ctxts[1..], id);
        CreatedOneMore(p, next, CreateInAll(p, ctxts, id), ctxts, n, id);
        m := n + 1;
      }
    }
  }

  /** The final tag is free there, and the check accepts. */
  predicate IsPromotable(tags: Tags, ctxt: Context, version: string, order: Order) {
    FinalId(version) !in TagsOf(tags, ctxt.repo) &&
    MayPromote(order(ctxt.repo, TagsOf(tags, ctxt.repo)), version, ctxt.commit)
  }

  /** What PromoteInAll is with one repository more. */
  lemma PromotedFirst(p: Progress, ctxts: seq<Context>, version: string, order: Order)
    requires ctxts != [] && p.ok
    ensures var next := Create(Call(p), ctxts[0], FinalId(version));
      if p.budget >= 2 && IsPromotable(p.tags, ctxts[0], version, order) then
        && next.ok && next.budget == p.budget - 2
        && next.tags == p.tags[ctxts[0].repo := TagsOf(p.tags, ctxts[0].repo)[FinalId(version) := ctxts[0].commit]]
        && PromoteInAll(p, ctxts, version, order) == PromoteInAll(next, ctxts[1..], version, order)
      else
        PromoteInAll(p, ctxts, version, order).tags == p.tags && !PromoteInAll(p, ctxts, version, order).ok
  {
  }

  lemma SamePromotable(tags: Tags, next: Tags, ctxts: seq<Context>, version: string, order: Order, k: nat)
    requires 1 <= k < |ctxts| && ctxts[1..][k - 1] == ctxts[k]
    requires TagsOf(next, ctxts[k].repo) == TagsOf(tags, ctxts[k].repo)
    ensures IsPromotable(next, ctxts[1..][k - 1], version, order) <==> IsPromotable(tags, ctxts[k], version, order)
  {
  }

  /** From `p` to `end` the first `m` repositories have been tagged, and the next one cannot be. */
  ghost predicate PromotedUpTo(p: Progress, end: Progress, ctxts: seq<Context>, m: nat, version: string, order: Order) {
    && m <= |ctxts| && 2 * m <= p.budget
    && TaggedUpTo(p.tags, end.tags, ctxts, m, FinalId(version))
    && (end.ok <==> m == |ctxts|)
    && (forall k | 0 <= k < m :: IsPromotable(p.tags, ctxts[k], version, order))
    && (m < |ctxts| ==> !IsPromotable(p.tags, ctxts[m], version, order) || 2 * m + 2 > p.budget)
  }

  lemma PromotableRest(tags: Tags, next: Tags, ctxts: seq<Context>, version: string, order: Order)
    requires ctxts != [] && AreDistinct(ctxts)
    requires next == tags[ctxts[0].repo := TagsOf(tags, ctxts[0].repo)[FinalId(version) := ctxts[0].commit]]
    ensures forall k | 1 <= k < |ctxts| ::
      IsPromotable(next, ctxts[1..][k - 1], version, order) <==> IsPromotable(tags, ctxts[k], version, order)
  {
    RestUntouched(tags, next, ctxts, FinalId(version));
    forall k | 1 <= k < |ctxts|
      ensures IsPromotable(next, ctxts[1..][k - 1], version, order) <==> IsPromotable(tags, ctxts[k], version, order)
    {
      SamePromotable(tags, next, ctxts, version, order, k);
    }
  }

  lemma PromotedOneMore(p: Progress, next: Progress, end: Progress, ctxts: seq<Context>, n: nat,
                        version: string, order: Order)
    requires ctxts != [] && AreDistinct(ctxts) && p.budget >= 2 && IsPromotable(p.tags, ctxts[0], version, order)
    requires next.budget == p.budget - 2
    requires next.tags == p.tags[ctxts[0].repo := TagsOf(p.tags, ctxts[0].repo)[FinalId(version) := ctxts[0].commit]]
    requires PromotedUpTo(next, end, ctxts[1..], n, version, order)
    ensures PromotedUpTo(p, end, ctxts, n + 1, version, order)
  {
    PromotableRest(p.tags, next.tags, ctxts, version, order);
    TaggedFirst(p.tags, next.tags, end.tags, ctxts, n, FinalId(version));
    forall k | 0 <= k < n + 1 ensures IsPromotable(p.tags, ctxts[k], version, order) {
      assert k > 0 ==> IsPromotable(next.tags, ctxts[1..][k - 1], version, order);
    }
    assert n + 1 < |ctxts| ==> ctxts[1..][n] == ctxts[n + 1];
  }

  lemma {:induction false} PromotedInOrder(p: Progress, ctxts: seq<Context>, version: string, order: Order)
    returns (m: nat)
    requires p.ok && AreDistinct(ctxts)
    ensures PromotedUpTo(p, PromoteInAll(p, ctxts, version, order), ctxts, m, version, order)
    decreases |ctxts|
  {
    m := 0;
    if ctxts != [] {
      PromotedFirst(p, ctxts, version, order);
      if p.budget >= 2 && IsPromotable(p.tags, ctxts[0], version, order) {
        var next := Create(Call(p), ctxts[0], FinalId(version));
        assert AreDistinct(ctxts[1..]);
        var n := PromotedInOrder(next, ctxts[1..], version, order);
        PromotedOneMore(p, next, PromoteInAll(p, ctxts, version, order), ctxts, n, version, order);
        m := n + 1;
      }
    }
  }

  /** A job that gets to tagging tags its repositories in order, up to the first that is not ready, and
      succeeds exactly if all are. */
  lemma TagsInOrder(tags: Tags, job: Job) returns (m: nat)
    requires AreDistinct(ContextsOf(job)) && !job.stage.Dev? && job.version != WIP && job.budget >= 1
    requires !IsFinal(tags, job)
    ensures m <= |ContextsOf(job)| && TaggedUpTo(tags, Applied(tags, job).tags, ContextsOf(job), m, JobId(tags, job))
    ensures Applied(tags, job).ok <==> m == |ContextsOf(job)|
    ensures forall k | 0 <= k < m :: IsReady(tags, job, k)
    ensures m < |ContextsOf(job)| ==> !IsReady(tags, job, m)
  {
    var listed := Call(Progress(tags, job.budget, true));
    if job.stage.Qa? {
      m := CreatedInOrder(listed, ContextsOf(job), JobId(tags, job));
    } else {
      m := PromotedMainFirst(tags, job);
    }
  }

  lemma PromotedMainFirst(tags: Tags, job: Job) returns (m: nat)
    requires AreDistinct(ContextsOf(job)) && job.stage.Prod? && job.version != WIP && job.budget >= 1
    requires !IsFinal(tags, job)
    ensures m <= |ContextsOf(job)| && TaggedUpTo(tags, Applied(tags, job).tags, ContextsOf(job), m, JobId(tags, job))
    ensures Applied(tags, job).ok <==> m == |ContextsOf(job)|
    ensures forall k | 0 <= k < m :: IsReady(tags, job, k)
    ensures m < |ContextsOf(job)| ==> !IsReady(tags, job, m)
  {
    // the list of the umbrella repository has been read by the first call
    var whole := Progress(tags, job.budget, true);
    PromotedIsInAll(tags, job);
    m := PromotedInOrder(whole, ContextsOf(job), job.version, job.order);
    forall k | 0 <= k < |ContextsOf(job)|
      ensures IsReady(tags, job, k) <==>
        IsPromotable(tags, ContextsOf(job)[k], job.version, job.order) && 2 * k + 2 <= job.budget
    {
    }
  }

  /** In PROD the umbrella repository is treated like the first of them all. */
  lemma PromotedIsInAll(tags: Tags, job: Job)
    requires job.stage.Prod? && job.version != WIP && job.budget >= 1 && !IsFinal(tags, job)
    ensures var all := PromoteInAll(Progress(tags, job.budget, true), ContextsOf(job), job.version, job.order);
      Applied(tags, job).tags == all.tags && Applied(tags, job).ok == all.ok
  {
    assert ContextsOf(job)[0] == job.main && ContextsOf(job)[1..] == job.subs;
    PromotedFirst(Progress(tags, job.budget, true), ContextsOf(job), job.version, job.order);
  }

  /** After a successful job of a version not final before, the umbrella repository and every
      subrepository have exactly one more tag, the job's, on their own commit. */
  lemma SuccessTagsEverything(tags: Tags, job: Job)
    requires AreDistinct(ContextsOf(job)) && !job.stage.Dev? && !IsFinal(tags, job) && Applied(tags, job).ok
    ensures TaggedUpTo(tags, Applied(tags, job).tags, ContextsOf(job), |ContextsOf(job)|, JobId(tags, job))
  {
    var m := TagsInOrder(tags, job);
  }

  /** Exactly when a job succeeds. */
  lemma JobSucceedsWhen(tags: Tags, job: Job)
    requires AreDistinct(ContextsOf(job))
    ensures Applied(tags, job).ok <==>
      || job.stage.Dev?
      || (&& job.version != WIP && job.budget >= 1
          && (IsFinal(tags, job) || forall k | 0 <= k < |ContextsOf(job)| :: IsReady(tags, job, k)))
  {
    if !job.stage.Dev? && job.version != WIP && job.budget >= 1 && !IsFinal(tags, job) {
      var m := TagsInOrder(tags, job);
    }
  }

  /** Whatever happens, a job has tagged some first part of its repositories. */
  lemma JobTagsPrefix(tags: Tags, job: Job)
    requires AreDistinct(ContextsOf(job))
    ensures exists m | 0 <= m <= |ContextsOf(job)| ::
      TaggedUpTo(tags, Applied(tags, job).tags, ContextsOf(job), m, JobId(tags, job))
    ensures job.stage.Dev? || IsFinal(tags, job) ==> Applied(tags, job).tags == tags
  {
    if !job.stage.Dev? && job.version != WIP && job.budget >= 1 && !IsFinal(tags, job) {
      var m := TagsInOrder(tags, job);
    } else {
      assert TaggedUpTo(tags, Applied(tags, job).tags, ContextsOf(job), 0, JobId(tags, job));
    }
  }

  /* ---- Runs of jobs ---- */

  /** The tags after the jobs, one after the other, successful or not. */
  ghost function AppliedAll(tags: Tags, jobs: seq<Job>): Tags {
    if jobs == [] then tags else Applied(AppliedAll(tags, jobs[..|jobs| - 1]), jobs[|jobs| - 1]).tags
  }

  /** Every tag of `version` in any repository exists by name in `main`. */
  ghost predicate MainKnows(tags: Tags, main: string, version: string) {
    forall repo, id | id in TagsOf(tags, repo) && IsTagOf(id, version) :: id in TagsOf(tags, main)
  }

  /** When only jobs of one umbrella repository tag, every tag of a version in a subrepository exists
      by name in the umbrella repository, wherever the jobs failed. */
  lemma {:induction false} SubrepoTagsExistInMain(tags: Tags, main: string, version: string, jobs: seq<Job>)
    requires MainKnows(tags, main, version)
    requires forall i | 0 <= i < |jobs| :: jobs[i].main.repo == main
    ensures MainKnows(AppliedAll(tags, jobs), main, version)
  {
    if jobs != [] {
      var init, job := jobs[..|jobs| - 1], jobs[|jobs| - 1];
      SubrepoTagsExistInMain(tags, main, version, init);
      var before := AppliedAll(tags, init);
      var after := Applied(before, job).tags;
      AppliedEffect(before, job);
      forall repo, id | id in TagsOf(after, repo) && IsTagOf(id, version) ensures id in TagsOf(after, main) {
        if id !in TagsOf(before, repo) {
          assert id == JobId(before, job);
        }
      }
    }
  }

  /* ---- When versions share tags ---- */

  predicate MarkAt(s: string, j: nat) {
    j + 4 <= |s| && s[j..j + 4] == "-rc."
  }

  /** Version `w` is named like a candidate of version `v`, whatever follows the mark. */
  predicate IsNamedUnder(w: string, v: string) {
    v + "-rc." <= w
  }

  lemma MarksDoNotOverlap(s: string, i: nat, j: nat)
    requires i < j && MarkAt(s, i) && MarkAt(s, j)
    ensures i + 4 <= j
  {
    assert s[i + 1] == s[i..i + 4][1] == 'r' && s[i + 2] == s[i..i + 4][2] == 'c' && s[i + 3] == s[i..i + 4][3] == '.';
    assert s[j] == s[j..j + 4][0] == '-';
  }

  /** A number holds no mark. */
  lemma NoMarkInNumber(s: string, n: int, i: nat, j: nat)
    requires i + |Itoa(n)| == |s| && s[i..] == Itoa(n) && MarkAt(s, j)
    ensures j < i
  {
    PrintedCharacters(n);
    assert s[j + 1] == s[j..j + 4][1] == 'r';
    forall k | i <= k < |s| ensures s[k] != 'r' {
      assert s[i..][k - i] == s[k] && s[k] in Itoa(n);
    }
  }

  /** A candidate's label starts with another version and a mark only if the version's name does. */
  lemma MarkedPrefix(v: string, w: string, n: int)
    requires v != w
    ensures v + "-rc." <= w + "-rc." + Itoa(n) <==> IsNamedUnder(w, v)
  {
    var s := w + "-rc." + Itoa(n);
    assert s[|w|..|w| + 4] == "-rc." && s[..|w|] == w && s[|w| + 4..] == Itoa(n);
    if v + "-rc." <= s {
      assert (v + "-rc.")[|v|..|v| + 4] == "-rc." && (v + "-rc.")[..|v|] == v;
      assert MarkAt(s, |v|) && s[..|v|] == v;
      if |v| < |w| {
        MarksDoNotOverlap(s, |v|, |w|);
      } else if |w| < |v| {
        MarksDoNotOverlap(s, |w|, |v|);
        NoMarkInNumber(s, n, |w| + 4, |v|);
      }
    }
    if IsNamedUnder(w, v) {
      assert w <= s;
    }
  }

  /** Tags of a version by the name they are printed for. */
  lemma TagsByLabel(v: string, name: string)
    ensures IsTagOf(FinalId(name), v) <==> name == v || v + "-rc." <= name
  {
    var id := FinalId(name);
    assert id[11..] == name && FinalId(v)[11..] == v;
    assert CandidatePrefix(v) == "refs/tags/v" + (v + "-rc.") && CandidatePrefix(v)[11..] == v + "-rc.";
    if CandidatePrefix(v) <= id {
      assert id[..|CandidatePrefix(v)|][11..] == id[11..][..|v| + 4];
    }
    if v + "-rc." <= name {
      assert id == CandidatePrefix(v) + name[|v| + 4..];
    }
  }

  /** When the tags that jobs of one version make are tags of another. */
  lemma VersionsApart(v: string, w: string, n: int)
    requires v != w
    ensures IsTagOf(FinalId(w), v) <==> IsNamedUnder(w, v)
    ensures IsTagOf(CandidateId(w, n), v) <==> v == w + "-rc." + Itoa(n) || IsNamedUnder(w, v)
  {
    TagsByLabel(v, w);
    TagsByLabel(v, w + "-rc." + Itoa(n));
    assert CandidateId(w, n) == FinalId(w + "-rc." + Itoa(n));
    MarkedPrefix(v, w, n);
  }

  /** The tags of `version` are the same in every repository. */
  ghost predicate SameTagsOf(tags: Tags, tags': Tags, version: string) {
    forall repo, id | IsTagOf(id, version) ::
      && (id in TagsOf(tags, repo) <==> id in TagsOf(tags', repo))
      && (id in TagsOf(tags, repo) ==> TagsOf(tags, repo)[id] == TagsOf(tags', repo)[id])
  }

  /** A job leaves a version alone exactly if it does nothing or the tag it makes is not one of it. */
  lemma TouchesVersionWhen(tags: Tags, job: Job, version: string)
    ensures SameTagsOf(tags, Applied(tags, job).tags, version) <==>
            Applied(tags, job).tags == tags || !IsTagOf(JobId(tags, job), version)
  {
    AppliedEffect(tags, job);
    if Applied(tags, job).tags != tags && IsTagOf(JobId(tags, job), version) {
      assert JobId(tags, job) !in TagsOf(tags, job.main.repo);
    }
  }

  /** A job of another version can make a tag of `version`. */
  ghost predicate Collides(job: Job, version: string) {
    && !job.stage.Dev?
    && (IsNamedUnder(job.version, version) || (job.stage.Qa? && exists n :: version == job.version + "-rc." + Itoa(n)))
  }

  lemma OtherVersionsJob(tags: Tags, job: Job, version: string)
    requires job.version != version && !Collides(job, version)
    ensures SameTagsOf(tags, Applied(tags, job).tags, version)
  {
    TouchesVersionWhen(tags, job, version);
    var list := job.order(job.main.repo, TagsOf(tags, job.main.repo));
    VersionsApart(version, job.version, Increment(Highest(list, job.version)));
  }

  /* ---- A final tag freezes its version ---- */

  /** The list a job reads from its umbrella repository is complete. */
  ghost predicate ReadsAll(tags: Tags, job: Job) {
    ListsTags(job.order(job.main.repo, TagsOf(tags, job.main.repo)), TagsOf(tags, job.main.repo), job.version)
  }

  lemma FinalVersionsJob(tags: Tags, job: Job)
    requires FinalId(job.version) in TagsOf(tags, job.main.repo) && ReadsAll(tags, job)
    ensures Applied(tags, job).tags == tags
  {
    var own := TagsOf(tags, job.main.repo);
    assert Tag(FinalId(job.version), own[FinalId(job.version)]) in job.order(job.main.repo, own);
  }

  /** Once a version is final in the umbrella repository, a job of any version that changes anything
      touches the final version exactly if its own version is named like a candidate of it. */
  lemma FinalIsFrozenWhen(tags: Tags, job: Job, version: string)
    requires FinalId(version) in TagsOf(tags, job.main.repo)
    requires job.version == version ==> ReadsAll(tags, job)
    ensures SameTagsOf(tags, Applied(tags, job).tags, version) <==>
            Applied(tags, job).tags == tags || !IsNamedUnder(job.version, version)
  {
    TouchesVersionWhen(tags, job, version);
    AppliedEffect(tags, job);
    if job.version == version {
      FinalVersionsJob(tags, job);
    } else {
      var n := Increment(Highest(job.order(job.main.repo, TagsOf(tags, job.main.repo)), job.version));
      VersionsApart(version, job.version, n);
      assert version == job.version + "-rc." + Itoa(n) ==> FinalId(version) == CandidateId(job.version, n);
    }
  }

  /** Jobs of one umbrella repository; what those of `version` read is complete. */
  ghost predicate AreJobsOf(tags: Tags, jobs: seq<Job>, main: string, version: string) {
    forall i | 0 <= i < |jobs| ::
      jobs[i].main.repo == main && (jobs[i].version == version ==> ReadsAll(AppliedAll(tags, jobs[..i]), jobs[i]))
  }

  lemma AreJobsPrefix(tags: Tags, jobs: seq<Job>, main: string, version: string)
    requires AreJobsOf(tags, jobs, main, version) && jobs != []
    ensures AreJobsOf(tags, jobs[..|jobs| - 1], main, version)
  {
    assert forall i | 0 <= i < |jobs| - 1 :: jobs[..|jobs| - 1][..i] == jobs[..i];
  }

  lemma SameTagsTransitive(tags: Tags, mid: Tags, tags': Tags, version: string)
    requires SameTagsOf(tags, mid, version) && SameTagsOf(mid, tags', version)
    ensures SameTagsOf(tags, tags', version)
  {
  }

  /** So no job, of it or of another version not named like a candidate of it, adds, removes or moves
      a tag of it in any repository. */
  lemma {:induction false} FinalFreezesVersion(tags: Tags, main: string, version: string, jobs: seq<Job>)
    requires FinalId(version) in TagsOf(tags, main) && AreJobsOf(tags, jobs, main, version)
    requires forall i | 0 <= i < |jobs| :: !IsNamedUnder(jobs[i].version, version)
    ensures SameTagsOf(tags, AppliedAll(tags, jobs), version)
  {
    if jobs != [] {
      var init, job := jobs[..|jobs| - 1], jobs[|jobs| - 1];
      AreJobsPrefix(tags, jobs, main, version);
      FinalFreezesVersion(tags, main, version, init);
      assert IsTagOf(FinalId(version), version);
      FinalIsFrozenWhen(AppliedAll(tags, init), job, version);
      SameTagsTransitive(tags, AppliedAll(tags, init), AppliedAll(tags, jobs), version);
    }
  }

  /** Version 1.0 is final; a QA job of a version called 1.0-rc.1 then makes a tag that counts as a
      candidate of 1.0. */
  const RELEASED: Tags := map["main" := map["refs/tags/v1.0" := "c"]]

  const TOUCHING := Job(Qa, Context("main", "d"), [], "1.0-rc.1", (repo: string, tags: RepoTags) => [], 2)

  lemma FrozenVersionTouched()
    ensures ReadsAll(RELEASED, TOUCHING) && FinalId("1.0") in TagsOf(RELEASED, TOUCHING.main.repo)
    ensures !SameTagsOf(RELEASED, Applied(RELEASED, TOUCHING).tags, "1.0")
  {
    var job := TOUCHING;
    var made := CandidateId("1.0-rc.1", 1);
    assert FinalId("1.0") == "refs/tags/v1.0" && FinalId("1.0") < FinalId("1.0-rc.1");
    assert |made| > |FinalId("1.0")|;
    var list := job.order("main", TagsOf(RELEASED, "main"));
    assert list == [] && Highest(list, "1.0-rc.1") == 0 && !HasFinal(list, "1.0-rc.1");
    var listed := Call(Progress(RELEASED, 2, true));
    var first := Create(listed, job.main, made);
    assert ([job.main] + job.subs)[1..] == [];
    assert Candidated(listed, list, job) == CreateInAll(listed, [job.main] + job.subs, made) == first;
    assert Applied(RELEASED, job).tags == first.tags && first.tags["main"][made] == "d";
    assert "1.0" + "-rc." <= "1.0-rc.1";
    FinalIsFrozenWhen(RELEASED, job, "1.0");
  }

  /** A promotion that fails after tagging main is never completed: a subrepository left without the
      final tag stays without it. */
  lemma InterruptedPromotionStays(tags: Tags, job: Job, later: seq<Job>, sub: string)
    requires job.stage.Prod? && AreJobsOf(Applied(tags, job).tags, later, job.main.repo, job.version)
    requires forall i | 0 <= i < |later| :: !IsNamedUnder(later[i].version, job.version)
    requires Applied(tags, job).tags != tags && FinalId(job.version) !in TagsOf(Applied(tags, job).tags, sub)
    ensures FinalId(job.version) !in TagsOf(AppliedAll(Applied(tags, job).tags, later), sub)
  {
    AppliedEffect(tags, job);
    FinalFreezesVersion(Applied(tags, job).tags, job.main.repo, job.version, later);
    assert IsTagOf(FinalId(job.version), job.version);
  }

  /* ---- The sequence of candidates ---- */

  function CandidateIds(tags: RepoTags, version: string): set<string> {
    set id | id in tags && CandidatePrefix(version) <= id
  }

  function FirstCandidates(version: string, m: nat): set<string> {
    set k | 1 <= k <= m :: CandidateId(version, k)
  }

  /** The jobs of `version` for which the server answered the list and the first create call. */
  function TagsMade(jobs: seq<Job>, version: string): nat {
    if jobs == [] then 0
    else
      var last := jobs[|jobs| - 1];
      TagsMade(jobs[..|jobs| - 1], version) + if last.version == version && last.budget >= 2 then 1 else 0
  }

  lemma HighestOfFirst(list: seq<Tag>, tags: RepoTags, version: string, m: nat)
    requires ListsTags(list, tags, version)
    requires CandidateIds(tags, version) == FirstCandidates(version, m) && m <= MAX_INT
    ensures Highest(list, version) == m
  {
    HighestMeaning(list, version);
    forall k | 1 <= k <= m ensures CandidateNumber(CandidateId(version, k), version) == Number(k) {
      OwnNumber(version, k);
    }
    forall t | t in list && CandidateNumber(t.id, version).Number?
      ensures exists k :: 1 <= k <= m && CandidateNumber(t.id, version) == Number(k)
    {
      assert t.id in CandidateIds(tags, version);
      var k :| 1 <= k <= m && t.id == CandidateId(version, k);
    }
    if m > 0 {
      var top := CandidateId(version, m);
      assert top in FirstCandidates(version, m);
      assert Tag(top, tags[top]) in list;
    }
  }

  lemma FinalIsNoCandidate(version: string, n: int)
    ensures CandidateId(version, n) != FinalId(version)
  {
    assert |CandidateId(version, n)| > |FinalId(version)|;
  }

  /** From no candidates, QA jobs of a version make exactly rc.1 to rc.m in the umbrella repository,
      m being the number of them that got as far as tagging it; jobs of other versions in between
      make no difference unless they share tags with it. */
  lemma {:induction false} CandidatesAreConsecutive(tags: Tags, main: string, version: string, jobs: seq<Job>)
    requires version != WIP && |jobs| < MAX_INT && AreJobsOf(tags, jobs, main, version)
    requires forall i | 0 <= i < |jobs| ::
      if jobs[i].version == version then jobs[i].stage.Qa? else !Collides(jobs[i], version)
    requires CandidateIds(TagsOf(tags, main), version) == {} && FinalId(version) !in TagsOf(tags, main)
    ensures TagsMade(jobs, version) <= |jobs|
    ensures CandidateIds(TagsOf(AppliedAll(tags, jobs), main), version) ==
      FirstCandidates(version, TagsMade(jobs, version))
    ensures FinalId(version) !in TagsOf(AppliedAll(tags, jobs), main)
  {
    if jobs == [] {
      assert FirstCandidates(version, 0) == {};
    } else {
      var init, job := jobs[..|jobs| - 1], jobs[|jobs| - 1];
      AreJobsPrefix(tags, jobs, main, version);
      CandidatesAreConsecutive(tags, main, version, init);
      var before := AppliedAll(tags, init);
      if job.version == version {
        OneMoreCandidate(before, job, TagsMade(init, version));
      } else {
        OtherVersionsJob(before, job, version);
        SameCandidates(before, Applied(before, job).tags, main, version);
      }
    }
  }

  lemma SameCandidates(tags: Tags, tags': Tags, main: string, version: string)
    requires SameTagsOf(tags, tags', version)
    ensures CandidateIds(TagsOf(tags', main), version) == CandidateIds(TagsOf(tags, main), version)
    ensures FinalId(version) in TagsOf(tags', main) <==> FinalId(version) in TagsOf(tags, main)
  {
    assert IsTagOf(FinalId(version), version);
    forall id
      ensures id in CandidateIds(TagsOf(tags', main), version) <==> id in CandidateIds(TagsOf(tags, main), version)
    {
      if CandidatePrefix(version) <= id {
        assert IsTagOf(id, version);
      }
    }
  }

  /** Two successful calls are enough to tag the umbrella repository. */
  lemma CandidateMade(tags: Tags, job: Job, list: seq<Tag>, id: string)
    requires job.stage.Qa? && job.version != WIP && job.budget >= 2
    requires list == job.order(job.main.repo, TagsOf(tags, job.main.repo)) && !HasFinal(list, job.version)
    requires id == CandidateId(job.version, Increment(Highest(list, job.version))) && id !in TagsOf(tags, job.main.repo)
    ensures id in TagsOf(Applied(tags, job).tags, job.main.repo)
  {
    var listed := Call(Progress(tags, job.budget, true));
    var first := Create(listed, job.main, id);
    assert ([job.main] + job.subs)[0] == job.main && ([job.main] + job.subs)[1..] == job.subs;
    CreateInAllEffect(first, job.subs, id);
    assert Applied(tags, job) == Candidated(listed, list, job);
  }

  lemma CandidateIdsGrow(tags: Tags, tags': Tags, main: string, version: string, id: string)
    requires TagsMainFirst(tags, tags', main, id) && id in TagsOf(tags', main) && CandidatePrefix(version) <= id
    ensures CandidateIds(TagsOf(tags', main), version) == CandidateIds(TagsOf(tags, main), version) + {id}
    ensures FinalId(version) in TagsOf(tags', main) ==> FinalId(version) in TagsOf(tags, main).Keys + {id}
  {
  }

  /** The tag of a QA job, when the candidates so far are the first `m`. */
  lemma NextOfFirst(tags: Tags, job: Job, m: nat)
    requires job.stage.Qa? && ReadsAll(tags, job) && m < MAX_INT
    requires CandidateIds(TagsOf(tags, job.main.repo), job.version) == FirstCandidates(job.version, m)
    requires FinalId(job.version) !in TagsOf(tags, job.main.repo)
    ensures var list := job.order(job.main.repo, TagsOf(tags, job.main.repo));
      && !HasFinal(list, job.version)
      && JobId(tags, job) == CandidateId(job.version, Increment(Highest(list, job.version)))
      && JobId(tags, job) == CandidateId(job.version, m + 1)
      && JobId(tags, job) !in TagsOf(tags, job.main.repo)
  {
    var own := TagsOf(tags, job.main.repo);
    var list := job.order(job.main.repo, own);
    HighestOfFirst(list, own, job.version, m);
    NextCandidateIsFree(list, own, job.version);
  }

  lemma MakesNextOfFirst(tags: Tags, job: Job, m: nat)
    requires job.stage.Qa? && job.version != WIP && job.budget >= 2 && ReadsAll(tags, job) && m < MAX_INT
    requires CandidateIds(TagsOf(tags, job.main.repo), job.version) == FirstCandidates(job.version, m)
    requires FinalId(job.version) !in TagsOf(tags, job.main.repo)
    ensures var id, tags' := CandidateId(job.version, m + 1), Applied(tags, job).tags;
      id in TagsOf(tags', job.main.repo) && TagsMainFirst(tags, tags', job.main.repo, id)
  {
    NextOfFirst(tags, job, m);
    AppliedEffect(tags, job);
    CandidateMade(tags, job, job.order(job.main.repo, TagsOf(tags, job.main.repo)), CandidateId(job.version, m + 1));
  }

  lemma OneMoreCandidate(tags: Tags, job: Job, m: nat)
    requires job.stage.Qa? && job.version != WIP && ReadsAll(tags, job) && m < MAX_INT
    requires CandidateIds(TagsOf(tags, job.main.repo), job.version) == FirstCandidates(job.version, m)
    requires FinalId(job.version) !in TagsOf(tags, job.main.repo)
    ensures var own := TagsOf(Applied(tags, job).tags, job.main.repo);
      && CandidateIds(own, job.version) == FirstCandidates(job.version, m + if job.budget >= 2 then 1 else 0)
      && FinalId(job.version) !in own
  {
    if job.budget >= 2 {
      var version, id := job.version, CandidateId(job.version, m + 1);
      FinalIsNoCandidate(version, m + 1);
      MakesNextOfFirst(tags, job, m);
      CandidateIdsGrow(tags, Applied(tags, job).tags, job.main.repo, version, id);
      assert FirstCandidates(version, m + 1) == FirstCandidates(version, m) + {id};
    } else {
      assert Applied(tags, job).tags == tags;
    }
  }

  /* ---- Promotion only of the highest candidate ---- */

  /** `commit` carries a candidate of `version` that no other candidate exceeds. */
  ghost predicate OnHighestCandidate(tags: RepoTags, version: string, commit: string) {
    exists id | id in tags ::
      && CandidateNumber(id, version).Number?
      && CandidateNumber(id, version).value > 0
      && tags[id] == commit
      && forall i | i in tags && CandidateNumber(i, version).Number? ::
           CandidateNumber(i, version).value <= CandidateNumber(id, version).value
  }

  lemma FinalIsNoNumber(tags: RepoTags, version: string, final: string, commit: string)
    requires FinalId(version) !in tags
    ensures OnHighestCandidate(tags[FinalId(version) := final], version, commit) <==>
      OnHighestCandidate(tags, version, commit)
  {
    assert CandidateNumber(FinalId(version), version) == NotANumber;
    var tags' := tags[FinalId(version) := final];
    if OnHighestCandidate(tags', version, commit) {
      var id :| id in tags' && CandidateNumber(id, version).Number? && CandidateNumber(id, version).value > 0
        && tags'[id] == commit && forall i | i in tags' && CandidateNumber(i, version).Number? ::
                                    CandidateNumber(i, version).value <= CandidateNumber(id, version).value;
      assert id in tags && tags[id] == commit;
    }
  }

  /** `after` is `before` with the final tag on the commit of the list's last entry. */
  ghost predicate FinalOnLast(before: RepoTags, after: RepoTags, list: seq<Tag>, version: string) {
    && Highest(list, version) > 0 && list != []
    && after == before[FinalId(version) := list[|list| - 1].commit]
  }

  /** A checked creation, and what later creations leave of it. */
  lemma CheckedStays(p: Progress, ctxt: Context, list: seq<Tag>, rest: seq<Context>, version: string, order: Order)
    requires FinalId(version) !in TagsOf(p.tags, ctxt.repo) && MayPromote(list, version, ctxt.commit)
    requires Create(p, ctxt, FinalId(version)).ok
    ensures var end := PromoteInAll(Create(p, ctxt, FinalId(version)), rest, version, order);
      FinalOnLast(TagsOf(p.tags, ctxt.repo), TagsOf(end.tags, ctxt.repo), list, version)
  {
    var next := Create(p, ctxt, FinalId(version));
    PromoteInAllEffect(next, rest, version, order);
    assert TagsOf(PromoteInAll(next, rest, version, order).tags, ctxt.repo) == TagsOf(next.tags, ctxt.repo);
  }

  lemma {:induction false} PromotedSubrepos(p: Progress, ctxts: seq<Context>, version: string, order: Order,
                                            repo: string)
    requires FinalId(version) !in TagsOf(p.tags, repo)
    requires FinalId(version) in TagsOf(PromoteInAll(p, ctxts, version, order).tags, repo)
    ensures FinalOnLast(TagsOf(p.tags, repo), TagsOf(PromoteInAll(p, ctxts, version, order).tags, repo),
                        order(repo, TagsOf(p.tags, repo)), version)
    decreases |ctxts|
  {
    var listed := Call(p);
    var list := order(ctxts[0].repo, TagsOf(p.tags, ctxts[0].repo));
    var next := Create(listed, ctxts[0], FinalId(version));
    assert listed.ok && MayPromote(list, version, ctxts[0].commit) && next.ok;
    if ctxts[0].repo == repo {
      CheckedStays(listed, ctxts[0], list, ctxts[1..], version, order);
    } else {
      PromotedSubrepos(next, ctxts[1..], version, order, repo);
    }
  }

  lemma PromotedFinal(tags: Tags, job: Job, repo: string)
    requires job.stage.Prod? && FinalId(job.version) !in TagsOf(tags, repo)
    requires FinalId(job.version) in TagsOf(Applied(tags, job).tags, repo)
    ensures FinalOnLast(TagsOf(tags, repo), TagsOf(Applied(tags, job).tags, repo), job.order(repo, TagsOf(tags, repo)),
                        job.version)
  {
    var listed := Call(Progress(tags, job.budget, true));
    var list := job.order(job.main.repo, TagsOf(tags, job.main.repo));
    var promoted := Create(listed, job.main, FinalId(job.version));
    if job.main.repo == repo {
      CheckedStays(listed, job.main, list, job.subs, job.version, job.order);
    } else {
      PromotedSubrepos(promoted, job.subs, job.version, job.order, repo);
    }
  }

  /** A final tag that a PROD job makes, in the umbrella repository or in a subrepository, is on the
      commit of the highest candidate there exactly if the last entry of the list it read there is. */
  lemma FinalOnlyOnHighestCandidate(tags: Tags, job: Job, repo: string)
    requires job.stage.Prod? && FinalId(job.version) !in TagsOf(tags, repo)
    requires FinalId(job.version) in TagsOf(Applied(tags, job).tags, repo)
    ensures var list, after := job.order(repo, TagsOf(tags, repo)), TagsOf(Applied(tags, job).tags, repo);
      && list != []
      && (OnHighestCandidate(after, job.version, after[FinalId(job.version)]) <==>
          OnHighestCandidate(TagsOf(tags, repo), job.version, list[|list| - 1].commit))
  {
    PromotedFinal(tags, job, repo);
    var list := job.order(repo, TagsOf(tags, repo));
    FinalIsNoNumber(TagsOf(tags, repo), job.version, list[|list| - 1].commit, list[|list| - 1].commit);
  }

  /** In a complete list that commit is one of an entry with the list's highest number. */
  lemma HighestCandidateListed(list: seq<Tag>, tags: RepoTags, version: string, commit: string)
    requires ListsTags(list, tags, version)
    ensures OnHighestCandidate(tags, version, commit) <==>
      && Highest(list, version) > 0
      && exists t | t in list :: CandidateNumber(t.id, version) == Number(Highest(list, version)) && t.commit == commit
  {
    HighestMeaning(list, version);
    assert forall id | id in tags && CandidateNumber(id, version).Number? :: Tag(id, tags[id]) in list;
    if OnHighestCandidate(tags, version, commit) {
      var id :| id in tags && CandidateNumber(id, version).Number? && tags[id] == commit &&
        forall i | i in tags && CandidateNumber(i, version).Number? ::
          CandidateNumber(i, version).value <= CandidateNumber(id, version).value;
      var top :| top in list && CandidateNumber(top.id, version) == Number(Highest(list, version));
      assert top.id in tags && Tag(id, tags[id]) in list;
    }
    if Highest(list, version) > 0 {
      if t :| t in list && CandidateNumber(t.id, version) == Number(Highest(list, version)) && t.commit == commit {
        assert t.id in tags && tags[t.id] == commit;
      }
    }
  }
}
