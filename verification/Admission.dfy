/** Retry admission over an append-only history of finalized attempts, shared by the
    two controllers. `final` says which finished attempts forbid another retry. */
module Admission {

  datatype Attempt<E> = Attempt(slot: string, retry: nat, event: E)

  ghost predicate Plan(plan: seq<string>) {
    forall i, j :: 0 <= i < j < |plan| ==> plan[i] != plan[j]
  }

  /** The attempts of one slot, in the order they were finalized. */
  function Of<E>(h: seq<Attempt<E>>, slot: string): seq<Attempt<E>> {
    if h == [] then []
    else
      var n := |h| - 1;
      Of(h[..n], slot) + if h[n].slot == slot then [h[n]] else []
  }

  lemma OfAppend<E>(h: seq<Attempt<E>>, a: Attempt<E>, slot: string)
    ensures Of(h + [a], slot) == Of(h, slot) + if a.slot == slot then [a] else []
  {
    assert (h + [a])[..|h|] == h;
  }

  lemma {:induction false} OfElements<E>(h: seq<Attempt<E>>, slot: string)
    ensures forall a :: a in Of(h, slot) <==> a in h && a.slot == slot
  {
    if h != [] {
      var n := |h| - 1;
      OfElements(h[..n], slot);
      assert h == h[..n] + [h[n]];
    }
  }

  // ---------- What a well-run history looks like ----------

  /** Retry numbers are 1..k with k at most the maximum, and every attempt but the last
      left a retry open. */
  ghost predicate Tidy<E>(a: seq<Attempt<E>>, max: nat, final: E -> bool) {
    && |a| <= max
    && (forall i :: 0 <= i < |a| ==> a[i].retry == i + 1)
    && (forall i :: 0 <= i < |a| - 1 ==> !final(a[i].event))
  }

  lemma NumberUsed<E>(a: seq<Attempt<E>>, max: nat, final: E -> bool, k: nat)
    requires Tidy(a, max, final) && k < |a|
    ensures exists x :: x in a && x.retry == k + 1
  {
    assert a[k] in a;
  }

  ghost predicate Complete<E>(a: seq<Attempt<E>>, max: nat, final: E -> bool) {
    a != [] && (final(a[|a| - 1].event) || |a| == max)
  }

  ghost predicate PlanOrder<E>(h: seq<Attempt<E>>, plan: seq<string>) {
    forall m, n, i, j ::
      0 <= m < n < |h| && 0 <= i < |plan| && 0 <= j < |plan| && h[m].slot == plan[i] && h[n].slot == plan[j] ==> i <= j
  }

  /** Attempts follow the plan: no slot starts before all earlier ones are complete, and
      none is filled in afterwards. */
  ghost predicate WellRun<E>(h: seq<Attempt<E>>, plan: seq<string>, max: nat, final: E -> bool) {
    && (forall a :: a in h ==> a.slot in plan)
    && (forall k :: 0 <= k < |plan| ==> Tidy(Of(h, plan[k]), max, final))
    && (forall i, j :: 0 <= i < j < |plan| && Of(h, plan[j]) != [] ==> Complete(Of(h, plan[i]), max, final))
    && PlanOrder(h, plan)
  }

  // ---------- The one admissible request ----------

  /** The first slot that is not complete, or the plan's length. */
  ghost function FirstIncomplete<E>(h: seq<Attempt<E>>, plan: seq<string>, max: nat, final: E -> bool, from: nat): (k: nat)
    requires from <= |plan|
    ensures from <= k <= |plan|
    ensures forall i :: from <= i < k ==> Complete(Of(h, plan[i]), max, final)
    ensures k < |plan| ==> !Complete(Of(h, plan[k]), max, final)
    decreases |plan| - from
  {
    if from == |plan| || !Complete(Of(h, plan[from]), max, final) then from
    else FirstIncomplete(h, plan, max, final, from + 1)
  }

  /** The next request: the first incomplete slot with its next retry number. */
  ghost predicate IsNext<E>(h: seq<Attempt<E>>, plan: seq<string>, max: nat, final: E -> bool, slot: string, retry: nat) {
    var k := FirstIncomplete(h, plan, max, final, 0);
    k < |plan| && slot == plan[k] && retry == |Of(h, slot)| + 1
  }

  /** The order clause of both guards: earlier slots complete, later slots untouched. */
  ghost predicate InOrder<E>(h: seq<Attempt<E>>, plan: seq<string>, max: nat, final: E -> bool, k: nat) {
    && (forall i :: 0 <= i < k && i < |plan| ==> Complete(Of(h, plan[i]), max, final))
    && (forall i :: k < i < |plan| ==> Of(h, plan[i]) == [])
  }

  /** Only the first incomplete slot is both in order and still open. */
  lemma OnlyFirstIncomplete<E>(h: seq<Attempt<E>>, plan: seq<string>, max: nat, final: E -> bool, k: nat)
    requires WellRun(h, plan, max, final) && k < |plan|
    ensures InOrder(h, plan, max, final, k) && !Complete(Of(h, plan[k]), max, final)
            <==> k == FirstIncomplete(h, plan, max, final, 0)
  {
    LaterEmpty(h, plan, max, final);
  }

  lemma LaterEmpty<E>(h: seq<Attempt<E>>, plan: seq<string>, max: nat, final: E -> bool)
    requires WellRun(h, plan, max, final)
    ensures var k := FirstIncomplete(h, plan, max, final, 0);
            forall j :: k < j < |plan| ==> Of(h, plan[j]) == []
  {
  }

  lemma ServeSlot<E>(h: seq<Attempt<E>>, plan: seq<string>, a: Attempt<E>, k: nat)
    requires Plan(plan) && k < |plan| && a.slot == plan[k]
    ensures forall i :: 0 <= i < |plan| ==> Of(h + [a], plan[i]) == if i == k then Of(h, plan[i]) + [a] else Of(h, plan[i])
  {
    forall i | 0 <= i < |plan| ensures Of(h + [a], plan[i]) == if i == k then Of(h, plan[i]) + [a] else Of(h, plan[i]) {
      OfAppend(h, a, plan[i]);
      assert i < k ==> plan[i] != plan[k];
      assert k < i ==> plan[k] != plan[i];
    }
  }

  lemma ServeKeepsOrder<E>(h: seq<Attempt<E>>, plan: seq<string>, a: Attempt<E>, k: nat)
    requires Plan(plan) && k < |plan| && a.slot == plan[k] && PlanOrder(h, plan)
    requires forall j :: k < j < |plan| ==> Of(h, plan[j]) == []
    ensures PlanOrder(h + [a], plan)
  {
    var h' := h + [a];
    forall m, n, i, j | 0 <= m < n < |h'| && 0 <= i < |plan| && 0 <= j < |plan| && h'[m].slot == plan[i] && h'[n].slot == plan[j]
      ensures i <= j
    {
      assert h'[m] == h[m];
      if n == |h| {
        OfElements(h, plan[i]);
        assert h[m] in Of(h, plan[i]);
      } else {
        assert h'[n] == h[n];
      }
    }
  }

  /** Serving the next request keeps a history well run. */
  lemma NextKeepsWellRun<E>(h: seq<Attempt<E>>, plan: seq<string>, max: nat, final: E -> bool, a: Attempt<E>)
    requires Plan(plan) && WellRun(h, plan, max, final) && max >= 1
    requires IsNext(h, plan, max, final, a.slot, a.retry)
    ensures WellRun(h + [a], plan, max, final)
  {
    hide Of, Plan, PlanOrder, Complete;
    var k, h' := FirstIncomplete(h, plan, max, final, 0), h + [a];
    LaterEmpty(h, plan, max, final);
    ServeSlot(h, plan, a, k);
    ServeKeepsOrder(h, plan, a, k);
    OneMoreTidy(Of(h, plan[k]), a, max, final);
    forall i, j | 0 <= i < j < |plan| && Of(h', plan[j]) != [] ensures Complete(Of(h', plan[i]), max, final) {
      assert j <= k;
      assert Of(h', plan[i]) == Of(h, plan[i]);
    }
    forall i | 0 <= i < |plan| ensures Tidy(Of(h', plan[i]), max, final) {
      assert Tidy(Of(h, plan[i]), max, final);
    }
    forall b | b in h' ensures b.slot in plan {
      assert b in h || b == a;
    }
  }

  lemma OneMoreTidy<E>(before: seq<Attempt<E>>, a: Attempt<E>, max: nat, final: E -> bool)
    requires Tidy(before, max, final) && !Complete(before, max, final) && max >= 1
    requires a.retry == |before| + 1
    ensures Tidy(before + [a], max, final)
  {
  }

  // ---------- Bounded progress ----------

  ghost function TotalOf<E>(h: seq<Attempt<E>>, plan: seq<string>): nat {
    if plan == [] then 0 else |Of(h, plan[0])| + TotalOf(h, plan[1..])
  }

  lemma {:induction false} TotalAppend<E>(h: seq<Attempt<E>>, a: Attempt<E>, plan: seq<string>)
    requires Plan(plan)
    ensures TotalOf(h + [a], plan) == TotalOf(h, plan) + if a.slot in plan then 1 else 0
  {
    if plan != [] {
      OfAppend(h, a, plan[0]);
      TotalAppend(h, a, plan[1..]);
      assert plan == [plan[0]] + plan[1..];
      assert plan[0] !in plan[1..];
    }
  }

  lemma {:induction false} TotalIsLength<E>(h: seq<Attempt<E>>, plan: seq<string>)
    requires Plan(plan) && forall a :: a in h ==> a.slot in plan
    ensures TotalOf(h, plan) == |h|
  {
    if h == [] {
      EmptyTotal<E>(plan);
    } else {
      var n := |h| - 1;
      TotalIsLength(h[..n], plan);
      TotalAppend(h[..n], h[n], plan);
      assert h == h[..n] + [h[n]];
      assert h[n] in h;
    }
  }

  lemma {:induction false} EmptyTotal<E>(plan: seq<string>)
    ensures TotalOf<E>([], plan) == 0
  {
    if plan != [] {
      EmptyTotal<E>(plan[1..]);
    }
  }

  lemma {:induction false} TotalBounded<E>(h: seq<Attempt<E>>, plan: seq<string>, max: nat)
    requires forall s :: s in plan ==> |Of(h, s)| <= max
    ensures TotalOf(h, plan) <= |plan| * max
  {
    hide Of;
    if plan != [] {
      assert plan[0] in plan;
      TotalBounded(h, plan[1..], max);
      OneMoreTimes(|plan| - 1, max);
    }
  }

  lemma OneMoreTimes(n: nat, max: nat)
    ensures (n + 1) * max == n * max + max
  {
  }

  lemma AttemptsBounded<E>(h: seq<Attempt<E>>, plan: seq<string>, max: nat, final: E -> bool)
    requires Plan(plan) && WellRun(h, plan, max, final)
    ensures |h| <= |plan| * max
  {
    TotalIsLength(h, plan);
    TotalBounded(h, plan, max);
  }

  lemma AnotherThan(k: nat, matches: seq<nat>) returns (other: nat)
    requires |matches| > 1 && forall i, j :: 0 <= i < j < |matches| ==> matches[i] != matches[j]
    ensures other in matches && other != k
  {
    other := if matches[0] == k then matches[1] else matches[0];
  }

  lemma EmptyWellRun<E>(plan: seq<string>, max: nat, final: E -> bool)
    ensures WellRun<E>([], plan, max, final)
  {
  }

  // ---------- Finding a slot in a plan ----------

  /** A planned slot with the terms its attempts must meet. */
  datatype Slot<S> = Slot(id: string, terms: S)

  function Ids<S>(slots: seq<Slot<S>>): (ids: seq<string>)
    ensures |ids| == |slots| && forall i :: 0 <= i < |slots| ==> ids[i] == slots[i].id
  {
    seq(|slots|, i requires 0 <= i < |slots| => slots[i].id)
  }

  ghost predicate OnlyAt(plan: seq<string>, slot: string, k: nat) {
    k < |plan| && plan[k] == slot && forall i :: 0 <= i < |plan| && plan[i] == slot ==> i == k
  }

  /** The positions of a slot in the plan. */
  method Matches(plan: seq<string>, slot: string) returns (matches: seq<nat>)
    ensures forall k :: k in matches <==> 0 <= k < |plan| && plan[k] == slot
    ensures forall i, j :: 0 <= i < j < |matches| ==> matches[i] != matches[j]
  {
    matches := [];
    for k := 0 to |plan|
      invariant forall m :: m in matches <==> 0 <= m < k && plan[m] == slot
      invariant forall i, j :: 0 <= i < j < |matches| ==> matches[i] != matches[j]
    {
      if plan[k] == slot {
        assert forall i :: 0 <= i < |matches| ==> matches[i] in matches;
        matches := matches + [k];
      }
    }
  }

  lemma NotOnce(plan: seq<string>, slot: string, matches: seq<nat>)
    requires |matches| != 1 && forall k :: k in matches <==> 0 <= k < |plan| && plan[k] == slot
    requires forall i, j :: 0 <= i < j < |matches| ==> matches[i] != matches[j]
    ensures forall k :: !OnlyAt(plan, slot, k)
  {
    if |matches| > 1 {
      forall k ensures !OnlyAt(plan, slot, k) {
        var other := AnotherThan(k, matches);
      }
    } else {
      forall k ensures !OnlyAt(plan, slot, k) {
        assert OnlyAt(plan, slot, k) ==> k in matches;
      }
    }
  }
}
