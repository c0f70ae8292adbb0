/** Durable effects carried out one by one by a process that may die between any two. */
module CrashPlans {
  import opened Wrappers

  datatype Plan<E, O> = Stop(outcome: O) | Then(effect: E, rest: Plan<E, O>)

  /** The durable state when the process dies after `budget` effects, or ends. */
  function Run<D, E, O>(exec: (D, E) -> D, d: D, p: Plan<E, O>, budget: nat): D {
    if p.Stop? || budget == 0 then d else Run(exec, exec(d, p.effect), p.rest, budget - 1)
  }

  function Length<E, O>(p: Plan<E, O>): (n: nat)
    ensures n == 0 <==> p.Stop?
  {
    if p.Stop? then 0 else 1 + Length(p.rest)
  }

  function Outcome<E, O>(p: Plan<E, O>): O {
    if p.Stop? then p.outcome else Outcome(p.rest)
  }

  /** The durable state when the process is not interrupted. */
  function Finish<D, E, O>(exec: (D, E) -> D, d: D, p: Plan<E, O>): D {
    if p.Stop? then d else Finish(exec, exec(d, p.effect), p.rest)
  }

  /** What one effect more means for where an uninterrupted process ends. */
  lemma FinishStarts<D, E, O>(exec: (D, E) -> D, d: D, p: Plan<E, O>)
    ensures Finish(exec, d, p) == if p.Stop? then d else Finish(exec, exec(d, p.effect), p.rest)
    ensures Outcome(p) == if p.Stop? then p.outcome else Outcome(p.rest)
    ensures Length(p) == if p.Stop? then 0 else 1 + Length(p.rest)
  {
  }

  lemma {:induction false} UninterruptedRun<D, E, O>(exec: (D, E) -> D, d: D, p: Plan<E, O>, budget: nat)
    requires Length(p) <= budget
    ensures Run(exec, d, p, budget) == Finish(exec, d, p)
  {
    if p.Then? {
      UninterruptedRun(exec, exec(d, p.effect), p.rest, budget - 1);
    }
  }

  /** The property holds before, between and after all effects of the plan. */
  ghost predicate Always<D, E, O>(exec: (D, E) -> D, holds: D -> bool, d: D, p: Plan<E, O>) {
    holds(d) && (p.Then? ==> Always(exec, holds, exec(d, p.effect), p.rest))
  }

  lemma {:induction false} AlwaysAtAnyCut<D, E, O>(exec: (D, E) -> D, holds: D -> bool, d: D, p: Plan<E, O>, budget: nat)
    requires Always(exec, holds, d, p)
    ensures holds(Run(exec, d, p, budget))
    ensures holds(Finish(exec, d, p))
  {
    if p.Then? {
      if budget > 0 {
        AlwaysAtAnyCut(exec, holds, exec(d, p.effect), p.rest, budget - 1);
      } else {
        AlwaysAtAnyCut(exec, holds, exec(d, p.effect), p.rest, 0);
      }
    }
  }

  // ---------- Carrying out a plan step by step ----------

  /** A process given the budget for a plan left this state, and returned the plan's outcome
      exactly when the budget was enough. */
  ghost predicate Carried<D, E, O>(exec: (D, E) -> D, before: D, after: D, p: Plan<E, O>, budget: nat, result: Option<O>) {
    after == Run(exec, before, p, budget) && result == if Length(p) <= budget then Some(Outcome(p)) else None
  }

  /** What is left of a plan, at a later state, with what is left of the budget. */
  ghost predicate Reached<D, E, O>(exec: (D, E) -> D, before: D, p: Plan<E, O>, budget: nat, d: D, rest: Plan<E, O>, left: nat) {
    && Run(exec, before, p, budget) == Run(exec, d, rest, left)
    && Outcome(p) == Outcome(rest) && (Length(p) <= budget <==> Length(rest) <= left)
  }

  lemma Begins<D, E, O>(exec: (D, E) -> D, d: D, p: Plan<E, O>, budget: nat)
    ensures Reached(exec, d, p, budget, d, p, budget)
  {
  }

  lemma Advances<D, E, O>(exec: (D, E) -> D, before: D, p: Plan<E, O>, budget: nat, d: D, rest: Plan<E, O>, left: nat)
    requires Reached(exec, before, p, budget, d, rest, left) && rest.Then? && left > 0
    ensures Reached(exec, before, p, budget, exec(d, rest.effect), rest.rest, left - 1)
  {
  }

  /** The process dies when the budget is used up before the plan is. */
  lemma Dies<D, E, O>(exec: (D, E) -> D, before: D, p: Plan<E, O>, budget: nat, d: D, rest: Plan<E, O>)
    requires Reached(exec, before, p, budget, d, rest, 0) && rest.Then?
    ensures Carried(exec, before, d, p, budget, None)
  {
  }

  lemma Ends<D, E, O>(exec: (D, E) -> D, before: D, p: Plan<E, O>, budget: nat, d: D, rest: Plan<E, O>, left: nat)
    requires Reached(exec, before, p, budget, d, rest, left) && rest.Stop?
    ensures Carried(exec, before, d, p, budget, Some(rest.outcome))
  {
  }

  lemma HandsOver<D, E, O>(exec: (D, E) -> D, before: D, p: Plan<E, O>, budget: nat, d: D, rest: Plan<E, O>, left: nat,
                           after: D, result: Option<O>)
    requires Reached(exec, before, p, budget, d, rest, left) && Carried(exec, d, after, rest, left, result)
    ensures Carried(exec, before, after, p, budget, result)
  {
  }

  /** A carried plan keeps what holds throughout it, and finishes it when it returns. */
  lemma CarriedKeeps<D, E, O>(exec: (D, E) -> D, holds: D -> bool, before: D, after: D, p: Plan<E, O>, budget: nat, result: Option<O>)
    requires Carried(exec, before, after, p, budget, result) && Always(exec, holds, before, p)
    ensures holds(after)
    ensures result.Some? ==> result.value == Outcome(p) && after == Finish(exec, before, p)
  {
    AlwaysAtAnyCut(exec, holds, before, p, budget);
    if result.Some? {
      UninterruptedRun(exec, before, p, budget);
    }
  }
}
