/** The diagnostic controller's slot and retry guards over its finalized attempts. */
module DiagnosticSlots {
  import opened Admission

  datatype Outcome =
    | Success | Timeout | PrivateRelayUnavailable | AlternativeIngress | DirectBypass
    | MultipleDestinations | Aborted | OperatorCompletionTimeout
    | MechanicalFailure | PrepareError

  /** A recorded end of an attempt. `bypass` is what its response evidence shows,
      `unreadable` that the evidence could not be read. */
  datatype Event = Event(outcome: Outcome, retryAuthorized: bool, conditionChanged: bool, safetyStop: bool,
                         bypass: bool, unreadable: bool)

  predicate Failed(o: Outcome) {
    o == MechanicalFailure || o == PrepareError
  }

  predicate Scientific(o: Outcome) {
    !Failed(o)
  }

  /** The event a finished attempt records: `retryAuthorized` comes in as whether the
      mechanical-failure code is an allowed one, and holds only after a failure. */
  function Finalized(e: Event): Event {
    e.(retryAuthorized := Failed(e.outcome) && e.retryAuthorized)
  }

  predicate Stops(e: Event) {
    e.outcome == DirectBypass || e.bypass || e.unreadable || e.conditionChanged || e.safetyStop
  }

  predicate Final(e: Event) {
    Scientific(e.outcome) || !e.retryAuthorized
  }

  // ---------- The guards ----------

  /** Some attempt was a network outcome or a failure without a retry, or the last allowed
      retry failed. */
  ghost predicate Settled(attempts: seq<Attempt<Event>>, maximum: nat) {
    || (exists a :: a in attempts && (Scientific(a.event.outcome) || !a.event.retryAuthorized))
    || (exists a :: a in attempts && a.retry == maximum && Failed(a.event.outcome))
  }

  method SlotComplete(attempts: seq<Attempt<Event>>, maximum: nat) returns (complete: bool)
    ensures complete <==> Settled(attempts, maximum)
  {
    for i := 0 to |attempts|
      invariant forall a :: a in attempts[..i] ==> Failed(a.event.outcome) && a.event.retryAuthorized
    {
      assert attempts[..i + 1] == attempts[..i] + [attempts[i]];
      assert attempts[i] in attempts;
      if Scientific(attempts[i].event.outcome) {
        return true;
      }
      if Failed(attempts[i].event.outcome) && !attempts[i].event.retryAuthorized {
        return true;
      }
    }
    assert attempts[..|attempts|] == attempts;
    complete := exists a :: a in attempts && a.retry == maximum && Failed(a.event.outcome);
  }

  /** On a tidy slot the scan of all attempts decides by the last one. */
  lemma CompleteByLast(a: seq<Attempt<Event>>, maximum: nat)
    requires Tidy(a, maximum, Final)
    ensures Complete(a, maximum, Final) <==> Settled(a, maximum)
  {
    if a != [] {
      assert a[|a| - 1] in a;
    }
  }

  method SafetyStopped(h: seq<Attempt<Event>>) returns (stopped: bool)
    ensures stopped <==> exists a :: a in h && Stops(a.event)
    ensures stopped <==> exists a :: a in h && (a.event.outcome == DirectBypass || a.event.bypass || a.event.unreadable
                                                || a.event.conditionChanged || a.event.safetyStop)
  {
    stopped := false;
    for i := 0 to |h|
      invariant stopped <==> exists a :: a in h[..i] && Stops(a.event)
    {
      assert h[..i + 1] == h[..i] + [h[i]];
      stopped := stopped || Stops(h[i].event);
    }
    assert h[..|h|] == h;
  }

  /** The failures after which a retry may be tried, if it is authorized. */
  predicate MayRetry(e: Event) {
    e.outcome in {MechanicalFailure, PrepareError} && e.retryAuthorized
  }

  /** On a tidy slot the last attempt decides: anything but an authorized failure settles it,
      and that leaves exactly the next retry open as long as the maximum is not reached. */
  lemma LastDecides(a: seq<Attempt<Event>>, maximum: nat, retry: nat)
    requires Tidy(a, maximum, Final)
    ensures Settled(a, maximum) <==> a != [] && (!MayRetry(a[|a| - 1].event) || |a| == maximum)
    ensures 1 <= retry <= maximum && RetryOpen(a, retry) <==>
            retry == |a| + 1 <= maximum && (a != [] ==> MayRetry(a[|a| - 1].event))
  {
    CompleteByLast(a, maximum);
    if 1 <= retry <= |a| {
      NumberUsed(a, maximum, Final, retry - 1);
    }
    if retry == |a| + 1 && a != [] && MayRetry(a[|a| - 1].event) {
      assert Preceding(a, |a| - 1, retry);
    }
  }

  /** Retry numbering within the requested slot. */
  ghost predicate RetryOpen(current: seq<Attempt<Event>>, retry: nat) {
    && (forall a :: a in current ==> a.retry != retry)
    && (retry == 1 ==> current == [])
    && (retry > 1 ==> exists m :: 0 <= m < |current| && Preceding(current, m, retry))
  }

  /** Earlier slots are settled and later slots untouched. */
  ghost predicate OrderKept(h: seq<Attempt<Event>>, slots: seq<Slot<string>>, maximum: nat, k: nat) {
    && (forall i :: 0 <= i < k && i < |slots| ==> Settled(Of(h, slots[i].id), maximum))
    && (forall i :: k < i < |slots| ==> Of(h, slots[i].id) == [])
  }

  /** What the guard demands of a request, whatever the history. */
  ghost predicate Admits(h: seq<Attempt<Event>>, slots: seq<Slot<string>>, maximum: nat, slot: string, retry: nat, condition: string) {
    && 1 <= retry <= maximum
    && (exists k :: 0 <= k < |slots| && OnlyAt(Ids(slots), slot, k) && slots[k].terms == condition && OrderKept(h, slots, maximum, k))
    && RetryOpen(Of(h, slot), retry)
  }

  /** On a well-run history the guard's order clause is the one stated by completion. */
  lemma OrderAgrees(h: seq<Attempt<Event>>, slots: seq<Slot<string>>, maximum: nat, k: nat)
    requires WellRun(h, Ids(slots), maximum, Final) && k < |slots|
    ensures OrderKept(h, slots, maximum, k) <==> InOrder(h, Ids(slots), maximum, Final, k)
  {
    hide Of, Complete, Settled, PlanOrder;
    var ids := Ids(slots);
    forall i | 0 <= i < |slots| ensures Settled(Of(h, slots[i].id), maximum) <==> Complete(Of(h, ids[i]), maximum, Final) {
      assert Tidy(Of(h, ids[i]), maximum, Final);
      CompleteByLast(Of(h, ids[i]), maximum);
    }
    assert forall i :: 0 <= i < |slots| ==> Of(h, ids[i]) == Of(h, slots[i].id);
  }

  /** The attempt at m is the only one with the preceding number, failed and retryable. */
  ghost predicate Preceding(a: seq<Attempt<Event>>, m: nat, retry: nat)
    requires m < |a|
  {
    && a[m].retry == retry - 1 && Failed(a[m].event.outcome) && a[m].event.retryAuthorized
    && forall i :: 0 <= i < |a| && i != m ==> a[i].retry != retry - 1
  }

  method FindPreceding(a: seq<Attempt<Event>>, retry: nat) returns (ok: bool)
    requires retry > 1
    ensures ok <==> exists m :: 0 <= m < |a| && Preceding(a, m, retry)
  {
    var found: nat, at: nat := 0, 0;
    for i := 0 to |a|
      invariant found == 0 ==> forall k :: 0 <= k < i ==> a[k].retry != retry - 1
      invariant found > 0 ==> at < i && a[at].retry == retry - 1
      invariant found == 1 ==> forall k :: 0 <= k < i && k != at ==> a[k].retry != retry - 1
      invariant found > 1 ==> exists k, m :: 0 <= k < m < i && a[k].retry == a[m].retry == retry - 1
    {
      if a[i].retry == retry - 1 {
        if found > 0 {
          assert a[at].retry == a[i].retry == retry - 1;
        }
        found, at := found + 1, i;
      }
    }
    if found != 1 {
      if found > 1 {
        var k, m :| 0 <= k < m < |a| && a[k].retry == a[m].retry == retry - 1;
      }
      return false;
    }
    ok := Failed(a[at].event.outcome) && a[at].event.retryAuthorized;
    if ok {
      assert Preceding(a, at, retry);
    }
  }

  method CheckRetry(current: seq<Attempt<Event>>, retry: nat) returns (ok: bool)
    ensures ok <==> RetryOpen(current, retry)
  {
    if exists a :: a in current && a.retry == retry {
      return false;
    }
    if retry == 1 && current != [] {
      return false;
    }
    ok := true;
    if retry > 1 {
      ok := FindPreceding(current, retry);
    }
  }

  method CheckOrder(h: seq<Attempt<Event>>, slots: seq<Slot<string>>, maximum: nat, index: nat) returns (ok: bool)
    requires index < |slots|
    ensures ok <==> OrderKept(h, slots, maximum, index)
  {
    hide Of, Settled;
    for i := 0 to index
      invariant forall k :: 0 <= k < i ==> Settled(Of(h, slots[k].id), maximum)
    {
      var complete := SlotComplete(Of(h, slots[i].id), maximum);
      if !complete {
        return false;
      }
    }
    for i := index + 1 to |slots|
      invariant forall k :: index < k < i ==> Of(h, slots[k].id) == []
    {
      if Of(h, slots[i].id) != [] {
        return false;
      }
    }
    ok := true;
  }

  /** Checks a request against the frozen plan and every finalized attempt. */
  method ValidateSlotRequest(h: seq<Attempt<Event>>, slots: seq<Slot<string>>, maximum: nat, slot: string, retry: nat, condition: string)
    returns (ok: bool)
    ensures ok <==> Admits(h, slots, maximum, slot, retry, condition)
  {
    hide Of, OrderKept, RetryOpen;
    if retry < 1 || maximum < retry {
      return false;
    }
    var matches := Matches(Ids(slots), slot);
    if |matches| != 1 {
      NotOnce(Ids(slots), slot, matches);
      return false;
    }
    var index := matches[0];
    assert index in matches;
    forall k | 0 <= k < |slots| && slots[k].id == slot ensures k == index {
      assert k in matches;
    }
    assert OnlyAt(Ids(slots), slot, index);
    if slots[index].terms != condition {
      return false;
    }
    var open := CheckRetry(Of(h, slot), retry);
    if !open {
      return false;
    }
    ok := CheckOrder(h, slots, maximum, index);
  }

  // ---------- Every reachable history ----------

  /** In a well-run history the guard admits exactly one request, the next one; when the
      plan is complete it admits none. */
  lemma AdmitsExactlyNext(h: seq<Attempt<Event>>, slots: seq<Slot<string>>, maximum: nat, slot: string, retry: nat, condition: string)
    requires Plan(Ids(slots)) && WellRun(h, Ids(slots), maximum, Final) && maximum >= 1
    ensures Admits(h, slots, maximum, slot, retry, condition) <==>
            IsNext(h, Ids(slots), maximum, Final, slot, retry)
            && slots[FirstIncomplete(h, Ids(slots), maximum, Final, 0)].terms == condition
  {
    var ids := Ids(slots);
    var f := FirstIncomplete(h, ids, maximum, Final, 0);
    hide Of, OrderKept;
    if Admits(h, slots, maximum, slot, retry, condition) {
      var k :| 0 <= k < |slots| && OnlyAt(Ids(slots), slot, k) && slots[k].terms == condition && OrderKept(h, slots, maximum, k);
      assert ids[k] == slot && Tidy(Of(h, ids[k]), maximum, Final);
      OrderAgrees(h, slots, maximum, k);
      AdmittedIsNext(Of(h, slot), maximum, retry);
      OnlyFirstIncomplete(h, ids, maximum, Final, k);
    }
    if IsNext(h, ids, maximum, Final, slot, retry) && slots[f].terms == condition {
      assert slots[f].id == ids[f] == slot && Tidy(Of(h, ids[f]), maximum, Final);
      assert OnlyAt(Ids(slots), slot, f) by {
        forall i | 0 <= i < |slots| && slots[i].id == slot ensures i == f {
          assert ids[i] == ids[f];
        }
      }
      OrderAgrees(h, slots, maximum, f);
      OnlyFirstIncomplete(h, ids, maximum, Final, f);
      NextIsAdmitted(Of(h, slot), maximum, retry);
    }
  }

  lemma AdmittedIsNext(a: seq<Attempt<Event>>, maximum: nat, retry: nat)
    requires 1 <= retry <= maximum
    requires Tidy(a, maximum, Final)
    requires RetryOpen(a, retry)
    ensures retry == |a| + 1 && !Complete(a, maximum, Final)
  {
    if retry <= |a| {
      NumberUsed(a, maximum, Final, retry - 1);
    }
    if retry > 1 {
      var m :| 0 <= m < |a| && Preceding(a, m, retry);
      assert a[m].retry == m + 1;
    }
  }

  lemma NextIsAdmitted(a: seq<Attempt<Event>>, maximum: nat, retry: nat)
    requires Tidy(a, maximum, Final) && !Complete(a, maximum, Final) && retry == |a| + 1 && maximum >= 1
    ensures 1 <= retry <= maximum
    ensures RetryOpen(a, retry)
  {
    if retry > 1 {
      assert Preceding(a, |a| - 1, retry);
    }
  }

  /** An unfinished plan has an admissible request, and never two. */
  lemma OneRequest(h: seq<Attempt<Event>>, slots: seq<Slot<string>>, maximum: nat)
    requires Plan(Ids(slots)) && WellRun(h, Ids(slots), maximum, Final) && maximum >= 1
    ensures (exists k :: 0 <= k < |slots| && !Complete(Of(h, Ids(slots)[k]), maximum, Final)) <==>
            exists slot, retry, condition :: Admits(h, slots, maximum, slot, retry, condition)
    ensures forall s, r, c, s', r', c' ::
              Admits(h, slots, maximum, s, r, c) && Admits(h, slots, maximum, s', r', c') ==> s == s' && r == r' && c == c'
  {
    hide Admits;
    var f := FirstIncomplete(h, Ids(slots), maximum, Final, 0);
    forall s, r, c | Admits(h, slots, maximum, s, r, c)
      ensures f < |slots| && s == slots[f].id && r == |Of(h, slots[f].id)| + 1 && c == slots[f].terms
    {
      AdmitsExactlyNext(h, slots, maximum, s, r, c);
    }
    if f < |slots| {
      AdmitsExactlyNext(h, slots, maximum, slots[f].id, |Of(h, slots[f].id)| + 1, slots[f].terms);
    }
  }

  /** Every attempt was admitted by the guard with no safety stop on record. */
  ghost predicate Reachable(h: seq<Attempt<Event>>, slots: seq<Slot<string>>, maximum: nat) {
    h != [] ==>
      var n := |h| - 1;
      && Reachable(h[..n], slots, maximum)
      && (forall a :: a in h[..n] ==> !Stops(a.event))
      && exists c :: Admits(h[..n], slots, maximum, h[n].slot, h[n].retry, c)
  }

  /** In every reachable history retries are numbered 1..k, follow the plan without
      backfill, are bounded in total, and a safety stop can only be the last event. */
  lemma {:induction false} ReachableWellRun(h: seq<Attempt<Event>>, slots: seq<Slot<string>>, maximum: nat)
    requires Plan(Ids(slots)) && maximum >= 1 && Reachable(h, slots, maximum)
    ensures WellRun(h, Ids(slots), maximum, Final)
    ensures |h| <= |slots| * maximum
    ensures forall i :: 0 <= i < |h| - 1 ==> !Stops(h[i].event)
  {
    hide WellRun, Admits, FirstIncomplete, Plan;
    assert maximum >= 1;
    if h != [] {
      var n := |h| - 1;
      ReachableWellRun(h[..n], slots, maximum);
      var c :| Admits(h[..n], slots, maximum, h[n].slot, h[n].retry, c);
      AdmitsExactlyNext(h[..n], slots, maximum, h[n].slot, h[n].retry, c);
      NextKeepsWellRun(h[..n], Ids(slots), maximum, Final, h[n]);
      assert h == h[..n] + [h[n]];
      forall i | 0 <= i < n ensures !Stops(h[i].event) {
        assert h[..n][i] in h[..n];
      }
    }
    EmptyWellRun<Event>(Ids(slots), maximum, Final);
    AttemptsBounded(h, Ids(slots), maximum, Final);
  }

  // ---------- The controller ----------

  class Controller {
    const slots: seq<Slot<string>>
    const maximum: nat
    var history: seq<Attempt<Event>>

    ghost predicate Valid()
      reads this
    {
      Plan(Ids(slots)) && maximum >= 1 && Reachable(history, slots, maximum)
    }

    constructor (slots: seq<Slot<string>>, maximum: nat)
      requires Plan(Ids(slots)) && maximum >= 1
      ensures Valid() && history == [] && this.slots == slots && this.maximum == maximum
    {
      this.slots, this.maximum, history := slots, maximum, [];
    }

    /** One attempt: admitted, run, and finalized with whatever event it ends with. */
    method Attempt(slot: string, retry: nat, condition: string, event: Event) returns (admitted: bool)
      requires Valid()
      modifies this
      ensures Valid()
      ensures admitted <==>
                && (forall a :: a in old(history) ==>
                      && a.event.outcome != DirectBypass && !a.event.bypass && !a.event.unreadable
                      && !a.event.conditionChanged && !a.event.safetyStop)
                && Admits(old(history), slots, maximum, slot, retry, condition)
      ensures !admitted ==> history == old(history)
      ensures admitted ==>
                history == old(history) + [Admission.Attempt(slot, retry,
                  event.(retryAuthorized := event.retryAuthorized && event.outcome in {MechanicalFailure, PrepareError}))]
    {
      hide WellRun, Admits, Of;
      ReachableWellRun(history, slots, maximum);
      var stopped := SafetyStopped(history);
      if stopped {
        return false;
      }
      var ok := ValidateSlotRequest(history, slots, maximum, slot, retry, condition);
      if !ok {
        return false;
      }
      ghost var before := history;
      history := history + [Admission.Attempt(slot, retry, Finalized(event))];
      assert history[..|before|] == before;
      ghost var last := history[|before|];
      assert Admits(before, slots, maximum, last.slot, last.retry, condition);
      admitted := true;
    }
  }
}
