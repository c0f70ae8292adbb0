/** The campaign controller's slot and retry guards over its finalized attempts. */
module CampaignSlots {
  import opened Wrappers
  import opened Admission

  datatype Outcome = Success | Error | Timeout | PrepareError | Aborted

  predicate Technical(o: Outcome) {
    o != Outcome.Success
  }

  predicate Final(o: Outcome) {
    o == Outcome.Success
  }

  /** Some attempt succeeded, or the last allowed retry failed. */
  ghost predicate Settled(attempts: seq<Attempt<Outcome>>, maximum: nat) {
    exists a :: a in attempts && (a.event == Outcome.Success || (a.retry == maximum && Technical(a.event)))
  }

  method SlotIsComplete(attempts: seq<Attempt<Outcome>>, maximum: nat) returns (complete: bool)
    ensures complete <==> Settled(attempts, maximum)
  {
    if exists a :: a in attempts && a.event == Outcome.Success {
      return true;
    }
    complete := exists a :: a in attempts && a.retry == maximum && Technical(a.event);
  }

  lemma CompleteByLast(a: seq<Attempt<Outcome>>, maximum: nat)
    requires Tidy(a, maximum, Final)
    ensures Complete(a, maximum, Final) <==> Settled(a, maximum)
  {
    if a != [] {
      assert a[|a| - 1] in a;
    }
  }

  /** On a tidy slot the last attempt decides: a success settles it, and any other outcome
      leaves exactly the next retry open as long as the maximum is not reached. */
  lemma LastDecides(a: seq<Attempt<Outcome>>, maximum: nat, retry: nat)
    requires Tidy(a, maximum, Final)
    ensures Settled(a, maximum) <==> a != [] && (a[|a| - 1].event == Outcome.Success || |a| == maximum)
    ensures 1 <= retry <= maximum && RetryOpen(a, retry) <==>
            retry == |a| + 1 <= maximum
            && (a != [] ==> a[|a| - 1].event in {Outcome.Error, Outcome.Timeout, Outcome.PrepareError, Outcome.Aborted})
  {
    CompleteByLast(a, maximum);
    if 1 <= retry <= |a| {
      NumberUsed(a, maximum, Final, retry - 1);
    }
    if retry == |a| + 1 && a != [] && a[|a| - 1].event != Outcome.Success {
      assert Preceding(a, |a| - 1, retry);
    }
  }

  /** The only attempt with the preceding number ended in a technical failure. */
  ghost predicate Preceding(a: seq<Attempt<Outcome>>, m: nat, retry: nat)
    requires m < |a|
  {
    && a[m].retry == retry - 1 && Technical(a[m].event)
    && forall i :: 0 <= i < |a| && i != m ==> a[i].retry != retry - 1
  }

  /** Retry numbering within the slot. Unlike the diagnostic guard there is no separate
      clause for a first attempt: an existing first attempt is a duplicate. */
  ghost predicate RetryOpen(current: seq<Attempt<Outcome>>, retry: nat) {
    && (forall a :: a in current ==> a.retry != retry)
    && (retry > 1 ==> exists m :: 0 <= m < |current| && Preceding(current, m, retry))
  }

  /** Earlier slots are settled and later slots untouched. */
  ghost predicate OrderKept(h: seq<Attempt<Outcome>>, plan: seq<string>, maximum: nat, k: nat) {
    && (forall i :: 0 <= i < k && i < |plan| ==> Settled(Of(h, plan[i]), maximum))
    && (forall i :: k < i < |plan| ==> Of(h, plan[i]) == [])
  }

  /** What the guard demands of a request, whatever the history. */
  ghost predicate Admits(h: seq<Attempt<Outcome>>, plan: seq<string>, maximum: nat, slot: string, retry: nat) {
    && 1 <= retry <= maximum
    && RetryOpen(Of(h, slot), retry)
    && (exists k :: 0 <= k < |plan| && OnlyAt(plan, slot, k) && OrderKept(h, plan, maximum, k))
  }

  /** On a well-run history the guard's order clause is the one stated by completion. */
  lemma OrderAgrees(h: seq<Attempt<Outcome>>, plan: seq<string>, maximum: nat, k: nat)
    requires WellRun(h, plan, maximum, Final) && k < |plan|
    ensures OrderKept(h, plan, maximum, k) <==> InOrder(h, plan, maximum, Final, k)
  {
    hide Of, Complete, Settled, PlanOrder;
    forall i | 0 <= i < |plan| ensures Settled(Of(h, plan[i]), maximum) <==> Complete(Of(h, plan[i]), maximum, Final) {
      assert Tidy(Of(h, plan[i]), maximum, Final);
      CompleteByLast(Of(h, plan[i]), maximum);
    }
  }

  method CheckRetry(current: seq<Attempt<Outcome>>, retry: nat) returns (ok: bool)
    ensures ok <==> RetryOpen(current, retry)
  {
    if exists a :: a in current && a.retry == retry {
      return false;
    }
    if retry <= 1 {
      return true;
    }
    var previous: seq<nat> := [];
    for i := 0 to |current|
      invariant forall k :: 0 <= k < |previous| ==> previous[k] < i && current[previous[k]].retry == retry - 1
      invariant forall k :: 0 <= k < i && current[k].retry == retry - 1 ==> k in previous
      invariant forall k, m :: 0 <= k < m < |previous| ==> previous[k] < previous[m]
    {
      if current[i].retry == retry - 1 {
        previous := previous + [i];
      }
    }
    if |previous| != 1 {
      if |previous| > 1 {
        var k, m := previous[0], previous[1];
        assert current[k].retry == current[m].retry == retry - 1;
      }
      return false;
    }
    ok := Technical(current[previous[0]].event);
    assert ok ==> Preceding(current, previous[0], retry);
  }

  // ---------- The frozen plan ----------

  /** What a slot prescribes and a request must repeat. */
  datatype Settings = Settings(block: string, attemptNumber: int, session: string, relay: string, location: string,
                               group: string, ingress: Option<int>, freshness: string, fallback: bool)

  datatype ExecutionPlan = ExecutionPlan(campaign: string, mode: string, session: string, date: string, maximum: nat,
                                         pins: string, hash: string, slots: seq<Slot<Settings>>)

  datatype Request = Request(campaign: string, mode: string, session: string, slot: string, retry: nat, settings: Settings)

  /** The day, pin file and retry limit in force, and the plan hashes of the campaign's attempts. */
  datatype Setting = Setting(today: string, pins: string, maximum: nat, hashes: set<string>)

  const PLANNED_MODES := {"rehearsal", "campaign"}

  predicate Applies(plan: ExecutionPlan, r: Request, s: Setting) {
    && plan.campaign == r.campaign && plan.mode == r.mode && plan.session == r.session
    && plan.date == s.today && plan.maximum == s.maximum && plan.pins == s.pins && s.hashes <= {plan.hash}
  }

  /** The request repeats the settings of its slot. */
  ghost predicate AsPlanned(plan: ExecutionPlan, r: Request) {
    exists k :: 0 <= k < |plan.slots| && OnlyAt(Ids(plan.slots), r.slot, k) && plan.slots[k].terms == r.settings
  }

  /** Everything demanded of a request; only modes without a plan may go without one. */
  ghost predicate Accepts(h: seq<Attempt<Outcome>>, plan: Option<ExecutionPlan>, r: Request, s: Setting) {
    if plan.None? then
      1 <= r.retry <= s.maximum && RetryOpen(Of(h, r.slot), r.retry) && r.mode !in PLANNED_MODES
    else
      && Applies(plan.value, r, s) && AsPlanned(plan.value, r)
      && Admits(h, Ids(plan.value.slots), s.maximum, r.slot, r.retry)
  }

  /** Checks the retry, then the plan, its slot and the order of the campaign's attempts. */
  method ValidateSlot(h: seq<Attempt<Outcome>>, plan: Option<ExecutionPlan>, r: Request, s: Setting) returns (ok: bool)
    ensures ok <==> Accepts(h, plan, r, s)
    ensures ok ==> match plan
                   case None => r.mode != "rehearsal" && r.mode != "campaign"
                   case Some(p) =>
                     && p.campaign == r.campaign && p.mode == r.mode && p.session == r.session
                     && p.date == s.today && p.pins == s.pins && p.maximum == s.maximum
                     && forall hash :: hash in s.hashes ==> hash == p.hash
  {
    hide Of, OrderKept, RetryOpen;
    if !(1 <= r.retry <= s.maximum) {
      return false;
    }
    var open := CheckRetry(Of(h, r.slot), r.retry);
    if !open {
      return false;
    }
    if plan.None? {
      return r.mode !in PLANNED_MODES;
    }
    if !Applies(plan.value, r, s) {
      return false;
    }
    var slots := plan.value.slots;
    var ids := Ids(slots);
    var matches := Matches(ids, r.slot);
    if |matches| != 1 {
      NotOnce(ids, r.slot, matches);
      return false;
    }
    var index := matches[0];
    assert index in matches;
    forall k | 0 <= k < |ids| && ids[k] == r.slot ensures k == index {
      assert k in matches;
    }
    assert OnlyAt(ids, r.slot, index);
    if slots[index].terms != r.settings {
      return false;
    }
    var bySlot := GroupBySlot(h);
    ok := CheckOrder(h, bySlot, ids, s.maximum, index);
  }

  ghost predicate Groups(bySlot: map<string, seq<Attempt<Outcome>>>, h: seq<Attempt<Outcome>>) {
    forall s :: Of(h, s) == (if s in bySlot then bySlot[s] else []) && (s in bySlot ==> bySlot[s] != [])
  }

  method GroupBySlot(h: seq<Attempt<Outcome>>) returns (bySlot: map<string, seq<Attempt<Outcome>>>)
    ensures Groups(bySlot, h)
  {
    bySlot := map[];
    for i := 0 to |h|
      invariant Groups(bySlot, h[..i])
    {
      assert h[..i + 1] == h[..i] + [h[i]];
      var s := h[i].slot;
      bySlot := bySlot[s := (if s in bySlot then bySlot[s] else []) + [h[i]]];
    }
    assert h[..|h|] == h;
  }

  method CheckOrder(h: seq<Attempt<Outcome>>, bySlot: map<string, seq<Attempt<Outcome>>>, plan: seq<string>, maximum: nat, index: nat)
    returns (ok: bool)
    requires index < |plan| && Groups(bySlot, h)
    ensures ok <==> OrderKept(h, plan, maximum, index)
  {
    hide Of, Settled;
    for i := 0 to index
      invariant forall k :: 0 <= k < i ==> Settled(Of(h, plan[k]), maximum)
    {
      var complete := SlotIsComplete(if plan[i] in bySlot then bySlot[plan[i]] else [], maximum);
      if !complete {
        return false;
      }
    }
    for i := index + 1 to |plan|
      invariant forall k :: index < k < i ==> Of(h, plan[k]) == []
    {
      if plan[i] in bySlot {
        return false;
      }
    }
    ok := true;
  }

  /** The campaign guard, too, admits exactly the next request. */
  lemma AdmitsExactlyNext(h: seq<Attempt<Outcome>>, plan: seq<string>, maximum: nat, slot: string, retry: nat)
    requires Plan(plan) && WellRun(h, plan, maximum, Final) && maximum >= 1
    ensures Admits(h, plan, maximum, slot, retry) <==> IsNext(h, plan, maximum, Final, slot, retry)
  {
    var f := FirstIncomplete(h, plan, maximum, Final, 0);
    hide Of, OrderKept;
    if Admits(h, plan, maximum, slot, retry) {
      var k :| 0 <= k < |plan| && OnlyAt(plan, slot, k) && OrderKept(h, plan, maximum, k);
      assert Tidy(Of(h, plan[k]), maximum, Final);
      OrderAgrees(h, plan, maximum, k);
      AdmittedIsNext(Of(h, slot), maximum, retry);
      OnlyFirstIncomplete(h, plan, maximum, Final, k);
    }
    if IsNext(h, plan, maximum, Final, slot, retry) {
      assert Tidy(Of(h, plan[f]), maximum, Final) && OnlyAt(plan, slot, f);
      OrderAgrees(h, plan, maximum, f);
      OnlyFirstIncomplete(h, plan, maximum, Final, f);
      NextIsAdmitted(Of(h, slot), maximum, retry);
    }
  }

  /** Under a plan that applies, the one accepted request is the first incomplete slot with its
      next retry and its own settings. */
  lemma AcceptsExactlyNext(h: seq<Attempt<Outcome>>, plan: ExecutionPlan, r: Request, s: Setting)
    requires Plan(Ids(plan.slots)) && WellRun(h, Ids(plan.slots), s.maximum, Final) && s.maximum >= 1
    requires plan.campaign == r.campaign && plan.mode == r.mode && plan.session == r.session
    requires plan.date == s.today && plan.pins == s.pins && plan.maximum == s.maximum
    requires forall hash :: hash in s.hashes ==> hash == plan.hash
    ensures Accepts(h, Some(plan), r, s) <==>
            IsNext(h, Ids(plan.slots), s.maximum, Final, r.slot, r.retry)
            && plan.slots[FirstIncomplete(h, Ids(plan.slots), s.maximum, Final, 0)].terms == r.settings
  {
    hide Of, WellRun, Admits;
    var ids := Ids(plan.slots);
    var f := FirstIncomplete(h, ids, s.maximum, Final, 0);
    AdmitsExactlyNext(h, ids, s.maximum, r.slot, r.retry);
    if IsNext(h, ids, s.maximum, Final, r.slot, r.retry) {
      assert OnlyAt(ids, r.slot, f);
    }
  }

  lemma AdmittedIsNext(a: seq<Attempt<Outcome>>, maximum: nat, retry: nat)
    requires 1 <= retry <= maximum && Tidy(a, maximum, Final) && RetryOpen(a, retry)
    ensures retry == |a| + 1 && !Complete(a, maximum, Final)
  {
    if retry <= |a| {
      NumberUsed(a, maximum, Final, retry - 1);
    }
    if retry > 1 {
      var m :| 0 <= m < |a| && Preceding(a, m, retry);
      assert a[m].retry == m + 1;
    }
  }

  lemma NextIsAdmitted(a: seq<Attempt<Outcome>>, maximum: nat, retry: nat)
    requires Tidy(a, maximum, Final) && !Complete(a, maximum, Final) && retry == |a| + 1 && maximum >= 1
    ensures 1 <= retry <= maximum && RetryOpen(a, retry)
  {
    if retry > 1 {
      assert Preceding(a, |a| - 1, retry);
    }
  }

  ghost predicate Reachable(h: seq<Attempt<Outcome>>, plan: seq<string>, maximum: nat) {
    h != [] ==>
      var n := |h| - 1;
      Reachable(h[..n], plan, maximum) && Admits(h[..n], plan, maximum, h[n].slot, h[n].retry)
  }

  /** Every history the campaign controller can produce under one plan is well run. */
  lemma {:induction false} ReachableWellRun(h: seq<Attempt<Outcome>>, plan: seq<string>, maximum: nat)
    requires Plan(plan) && maximum >= 1 && Reachable(h, plan, maximum)
    ensures WellRun(h, plan, maximum, Final)
    ensures |h| <= |plan| * maximum
  {
    hide WellRun, Admits, FirstIncomplete, Plan;
    if h != [] {
      var n := |h| - 1;
      ReachableWellRun(h[..n], plan, maximum);
      AdmitsExactlyNext(h[..n], plan, maximum, h[n].slot, h[n].retry);
      NextKeepsWellRun(h[..n], plan, maximum, Final, h[n]);
      assert h == h[..n] + [h[n]];
    }
    EmptyWellRun<Outcome>(plan, maximum, Final);
    AttemptsBounded(h, plan, maximum, Final);
  }
}
