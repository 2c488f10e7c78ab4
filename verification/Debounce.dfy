/** The pruner's trigger loop (internal/manager/prune.go, `run`): a trigger plans a prune of its
    repository after `delay`, unless one is planned already. Each iteration reads the clock up to
    three times: to check the plan, to record it, and when the timer is armed. */
module Debounce {

  datatype Trigger = Trigger(repo: string, check: int, mark: int, arm: int)

  /** A prune the timer will start at `at`; `due` is what the map remembers of it. */
  datatype Planned = Planned(repo: string, due: int, at: int)

  datatype Plan = Plan(upcoming: map<string, int>, prunes: seq<Planned>)

  function Handle(p: Plan, t: Trigger, delay: int): Plan {
    if t.repo in p.upcoming && p.upcoming[t.repo] > t.check then p
    else Plan(p.upcoming[t.repo := t.mark + delay], p.prunes + [Planned(t.repo, t.mark + delay, t.arm + delay)])
  }

  function HandleAll(triggers: seq<Trigger>, delay: int): Plan {
    if triggers == [] then Plan(map[], [])
    else Handle(HandleAll(triggers[..|triggers| - 1], delay), triggers[|triggers| - 1], delay)
  }

  class PruneLoop {
    var upcoming: map<string, int>
    var prunes: seq<Planned>

    constructor ()
      ensures upcoming == map[] && prunes == []
    {
      upcoming, prunes := map[], [];
    }

    /** The loop over the triggers received so far. */
    method Run(triggers: seq<Trigger>, delay: int)
      modifies this
      ensures Plan(upcoming, prunes) == HandleAll(triggers, delay)
    {
      upcoming, prunes := map[], [];
      for i := 0 to |triggers|
        invariant Plan(upcoming, prunes) == HandleAll(triggers[..i], delay)
      {
        var t := triggers[i];
        assert triggers[..i + 1][..i] == triggers[..i];
        if t.repo in upcoming && upcoming[t.repo] > t.check {
          continue;
        }
        upcoming := upcoming[t.repo := t.mark + delay];
        prunes := prunes + [Planned(t.repo, t.mark + delay, t.arm + delay)];
      }
      assert triggers[..|triggers|] == triggers;
    }
  }

  /** The clock never goes back, and recording and arming are at most `skew` apart. */
  ghost predicate IsClocked(triggers: seq<Trigger>, skew: int) {
    && (forall i | 0 <= i < |triggers| ::
        triggers[i].check <= triggers[i].mark <= triggers[i].arm <= triggers[i].mark + skew)
    && (forall i, j | 0 <= i < j < |triggers| :: triggers[i].arm <= triggers[j].check)
  }

  ghost predicate PlanInv(p: Plan, now: int, delay: int, skew: int) {
    && (forall i | 0 <= i < |p.prunes| ::
          && p.prunes[i].repo in p.upcoming
          && p.prunes[i].due <= p.upcoming[p.prunes[i].repo]
          && p.prunes[i].due <= p.prunes[i].at <= p.prunes[i].due + skew
          && p.prunes[i].at <= now + delay)
    && (forall r | r in p.upcoming :: exists i | 0 <= i < |p.prunes| ::
        p.prunes[i].repo == r && p.prunes[i].due == p.upcoming[r])
    && Spaced(p.prunes, delay - skew)
  }

  ghost predicate Spaced(prunes: seq<Planned>, gap: int) {
    forall i, j | 0 <= i < j < |prunes| :: prunes[i].repo == prunes[j].repo ==> prunes[j].at - prunes[i].at >= gap
  }

  lemma PlanStep(p: Plan, now: int, t: Trigger, delay: int, skew: int)
    requires PlanInv(p, now, delay, skew) && now <= t.check <= t.mark <= t.arm <= t.mark + skew && 0 <= delay
    ensures PlanInv(Handle(p, t, delay), t.arm, delay, skew)
  {
    if Handle(p, t, delay) != p {
      NewPlanIsSpaced(p, now, t, delay, skew);
      NewPlanIsKnown(p, now, t, delay, skew);
    }
  }

  lemma NewPlanIsSpaced(p: Plan, now: int, t: Trigger, delay: int, skew: int)
    requires PlanInv(p, now, delay, skew) && now <= t.check <= t.mark <= t.arm && Handle(p, t, delay) != p
    ensures Spaced(Handle(p, t, delay).prunes, delay - skew)
  {
    var p', k := Handle(p, t, delay), |p.prunes|;
    assert p'.prunes[k] == Planned(t.repo, t.mark + delay, t.arm + delay);
    assert forall i | 0 <= i < k :: p'.prunes[i] == p.prunes[i];
    forall i | 0 <= i < k && p.prunes[i].repo == t.repo ensures p'.prunes[k].at - p'.prunes[i].at >= delay - skew {
      assert p.prunes[i].due <= p.upcoming[t.repo] <= t.check;
    }
  }

  lemma NewPlanIsKnown(p: Plan, now: int, t: Trigger, delay: int, skew: int)
    requires PlanInv(p, now, delay, skew) && Handle(p, t, delay) != p
    ensures var p' := Handle(p, t, delay);
      forall r | r in p'.upcoming :: exists i | 0 <= i < |p'.prunes| ::
        p'.prunes[i].repo == r && p'.prunes[i].due == p'.upcoming[r]
  {
    var p', k := Handle(p, t, delay), |p.prunes|;
    assert p'.prunes[k] == Planned(t.repo, t.mark + delay, t.arm + delay);
    forall r | r in p'.upcoming
      ensures exists i | 0 <= i < |p'.prunes| :: p'.prunes[i].repo == r && p'.prunes[i].due == p'.upcoming[r]
    {
      if r != t.repo {
        var i :| 0 <= i < k && p.prunes[i].repo == r && p.prunes[i].due == p.upcoming[r];
        assert p'.prunes[i] == p.prunes[i];
      }
    }
  }

  lemma {:induction false} PlanInvHolds(triggers: seq<Trigger>, delay: int, skew: int)
    requires IsClocked(triggers, skew) && 0 <= delay
    ensures triggers == [] ==> HandleAll(triggers, delay) == Plan(map[], [])
    ensures triggers != [] ==> PlanInv(HandleAll(triggers, delay), triggers[|triggers| - 1].arm, delay, skew)
  {
    if triggers != [] {
      var init, last := triggers[..|triggers| - 1], triggers[|triggers| - 1];
      PlanInvHolds(init, delay, skew);
      PlanStep(HandleAll(init, delay), if init == [] then last.check else init[|init| - 1].arm, last, delay, skew);
    }
  }

  /** Prunes of one repository start at least `delay` apart, up to the time that passes between
      recording a plan and arming its timer. */
  lemma PrunesAreSpaced(triggers: seq<Trigger>, delay: int, skew: int)
    requires IsClocked(triggers, skew) && 0 <= delay
    ensures Spaced(HandleAll(triggers, delay).prunes, delay - skew)
  {
    PlanInvHolds(triggers, delay, skew);
  }

  /** Every prune has been planned for a trigger of its repository, `delay` after the readings of its
      iteration. */
  lemma {:induction false} EveryPruneHasTrigger(triggers: seq<Trigger>, delay: int)
    ensures forall p | p in HandleAll(triggers, delay).prunes ::
      exists t | t in triggers :: p == Planned(t.repo, t.mark + delay, t.arm + delay)
  {
    if triggers != [] {
      var init, last := triggers[..|triggers| - 1], triggers[|triggers| - 1];
      EveryPruneHasTrigger(init, delay);
      assert triggers == init + [last];
      forall p | p in HandleAll(triggers, delay).prunes
        ensures exists t | t in triggers :: p == Planned(t.repo, t.mark + delay, t.arm + delay)
      {
        if p in HandleAll(init, delay).prunes {
          var t :| t in init && p == Planned(t.repo, t.mark + delay, t.arm + delay);
          assert t in triggers;
        } else {
          assert last in triggers;
        }
      }
    }
  }

  lemma {:induction false} PrunesOnlyGrow(triggers: seq<Trigger>, k: nat, delay: int)
    requires k <= |triggers|
    ensures HandleAll(triggers[..k], delay).prunes <= HandleAll(triggers, delay).prunes
  {
    if k < |triggers| {
      var init := triggers[..|triggers| - 1];
      assert init[..k] == triggers[..k];
      PrunesOnlyGrow(init, k, delay);
    } else {
      assert triggers[..k] == triggers;
    }
  }

  lemma HandledTriggerIsServed(p: Plan, now: int, t: Trigger, delay: int, skew: int)
    requires (PlanInv(p, now, delay, skew) || p == Plan(map[], [])) && now <= t.check <= t.mark <= t.arm && 0 < delay
    ensures exists i | 0 <= i < |Handle(p, t, delay).prunes| ::
      var q := Handle(p, t, delay).prunes[i];
      q.repo == t.repo && t.check < q.at <= t.arm + delay
  {
    var p' := Handle(p, t, delay);
    if p' == p {
      var i :| 0 <= i < |p.prunes| && p.prunes[i].repo == t.repo && p.prunes[i].due == p.upcoming[t.repo];
      assert p'.prunes[i].at > t.check;
    } else {
      assert p'.prunes[|p.prunes|] == Planned(t.repo, t.mark + delay, t.arm + delay);
    }
  }

  /** Every trigger is followed by a prune of its repository: strictly after the trigger and at most
      `delay` after the end of its iteration. */
  lemma EveryTriggerIsServed(triggers: seq<Trigger>, k: nat, delay: int, skew: int)
    requires IsClocked(triggers, skew) && 0 < delay && k < |triggers|
    ensures exists p | p in HandleAll(triggers, delay).prunes ::
      p.repo == triggers[k].repo && triggers[k].check < p.at <= triggers[k].arm + delay
  {
    var upTo, t := triggers[..k], triggers[k];
    PlanInvHolds(upTo, delay, skew);
    assert triggers[..k + 1][..k] == upTo;
    HandledTriggerIsServed(HandleAll(upTo, delay), if k == 0 then t.check else upTo[k - 1].arm, t, delay, skew);
    PrunesOnlyGrow(triggers, k + 1, delay);
    var prunes := HandleAll(triggers[..k + 1], delay).prunes;
    var i :| 0 <= i < |prunes| && prunes[i].repo == t.repo && t.check < prunes[i].at <= t.arm + delay;
    assert prunes[i] == HandleAll(triggers, delay).prunes[i];
    assert prunes[i] in HandleAll(triggers, delay).prunes;
  }
}
