/** The concurrent, checkpointed scanner: workers run ahead of an in-order commit loop,
    and the committed state is that of the sequential scan. */
module EcsScanner {
  import opened Wrappers
  import opened Counting
  import opened EcsLog
  import opened EcsScan

  // ---------- One query task ----------

  /** The retry loop of a query task: stops at the first success. */
  method QueryWithRetries(tries: seq<Option<Answer>>, retries: nat) returns (o: Outcome)
    requires 1 <= retries <= |tries|
    ensures o.answer.Some? <==> exists i :: 0 <= i < retries && tries[i].Some?
    ensures 1 <= o.attempts <= retries
    ensures o.answer.Some? ==> o.errors == o.attempts - 1 && o.answer == tries[o.attempts - 1]
    ensures o.answer.None? ==> o.errors == o.attempts == retries
    ensures forall i :: 0 <= i < o.errors ==> tries[i].None?
  {
    var attempts, errors := 0, 0;
    for i := 0 to retries
      invariant attempts == errors == i
      invariant forall k :: 0 <= k < i ==> tries[k].None?
    {
      attempts := attempts + 1;
      if tries[i].None? {
        errors := errors + 1;
        continue;
      }
      return Outcome(attempts, errors, tries[i]);
    }
    o := Outcome(attempts, errors, None);
  }

  // ---------- The queue of submitted tasks ----------

  /** A queued prefix; `result` is None when submission already saw it skipped. */
  datatype Task = Task(prefix: int, result: Option<Outcome>)

  /** The queue holds the inputs from `head` up to `cursor`, each with the oracle's
      outcome unless it lies under the skip mark. */
  ghost predicate QueueOf(queue: seq<Task>, inputs: seq<int>, head: nat, cursor: nat, skip: int, oracle: Oracle) {
    && head <= |inputs| && cursor <= |inputs|
    && (if cursor <= head then queue == [] else |queue| == cursor - head)
    && (forall k :: 0 <= k < |queue| ==> queue[k].prefix == inputs[head + k])
    && (forall k :: 0 <= k < |queue| ==>
          if queue[k].result.None? then queue[k].prefix <= skip else queue[k].result.value == oracle(queue[k].prefix))
  }

  predicate IsDoomed(t: Task, skip: int) {
    t.result.Some? && t.prefix <= skip
  }

  /** Submitted tasks that the skip mark has overtaken. */
  function Doomed(queue: seq<Task>, skip: int): (n: nat)
    ensures n <= |queue|
  {
    if queue == [] then 0
    else (if IsDoomed(queue[0], skip) then 1 else 0) + Doomed(queue[1..], skip)
  }

  lemma {:induction false} DoomedAppend(queue: seq<Task>, t: Task, skip: int)
    ensures Doomed(queue + [t], skip) == Doomed(queue, skip) + if IsDoomed(t, skip) then 1 else 0
  {
    if queue != [] {
      DoomedAppend(queue[1..], t, skip);
      assert (queue + [t])[1..] == queue[1..] + [t];
    } else {
      assert (queue + [t])[1..] == [];
    }
  }

  lemma {:induction false} NoneDoomed(queue: seq<Task>, skip: int)
    requires forall k :: 0 <= k < |queue| ==> skip < queue[k].prefix
    ensures Doomed(queue, skip) == 0
  {
    if queue != [] {
      NoneDoomed(queue[1..], skip);
    }
  }

  // ---------- What concurrency may and may not change ----------

  /** `s` is the sequential state plus the attempts of the wasted tasks. */
  ghost predicate Refines(s: State, sequential: State, wasted: seq<int>, oracle: Oracle) {
    && SameScan(s, sequential)
    && s.queries == sequential.queries + AttemptsOf(wasted, oracle)
    && s.errors == sequential.errors + ErrorsOf(wasted, oracle)
  }

  /** The sequential step plus, for a wasted task, its attempts: refinement is kept. */
  lemma StepRefines(before: State, after: State, p: int, oracle: Oracle, waste: seq<int>)
    requires waste == [] || waste == [p]
    requires var t := Step(before, p, oracle);
             after == t.(queries := t.queries + (if waste == [] then 0 else oracle(p).attempts),
                         errors := t.errors + (if waste == [] then 0 else oracle(p).errors))
    ensures forall sequential, wasted :: Refines(before, sequential, wasted, oracle) ==>
              Refines(after, Step(sequential, p, oracle), wasted + waste, oracle)
  {
    hide ScopeLast;
    forall sequential, wasted | Refines(before, sequential, wasted, oracle)
      ensures Refines(after, Step(sequential, p, oracle), wasted + waste, oracle)
    {
      assert wasted + [] == wasted;
    }
  }

  datatype Status = Running | Stopped | StoppedEarly | CompletedWithPending | Completed

  class Scanner {
    var log: seq<Entry>
    var pending: set<int>
    var skipUntil: int
    var lastPrefix: int
    var processed: nat
    var scopeSkips: nat
    var addresses: set<int>
    var failures: nat
    var queries: nat
    var errors: nat
    var status: Status

    ghost function Now(): State
      reads this
    {
      State(log, pending, skipUntil, lastPrefix, processed, scopeSkips, addresses, failures, queries, errors)
    }

    /** Starts a run from a checkpoint and the addresses found in the log. */
    constructor (from: State)
      ensures Now() == from.(failures := 0) && status == Running
    {
      log, pending, skipUntil, lastPrefix := from.log, from.pending, from.skipUntil, from.lastPrefix;
      processed, scopeSkips, addresses := from.processed, from.scopeSkips, from.addresses;
      queries, errors, failures, status := from.queries, from.errors, 0, Running;
    }

    method RecordOutcome(p: int, o: Outcome)
      modifies this
      ensures Now() == Recorded(old(Now()), p, o) && status == old(status)
    {
      queries := queries + o.attempts;
      errors := errors + o.errors;
      if o.answer.None? {
        return;
      }
      log := log + Rows(p, o.answer.value);
      addresses := addresses + AddressSet(o.answer.value.addresses);
    }

    /** Submits prefixes until `concurrency` tasks wait, deciding with the current mark. */
    method FillQueue(inputs: seq<int>, oracle: Oracle, concurrency: nat, cursor0: nat, queue0: seq<Task>, ghost head: nat)
      returns (cursor: nat, queue: seq<Task>)
      requires Increasing(inputs) && |queue0| <= concurrency && head == Position(inputs, lastPrefix)
      requires QueueOf(queue0, inputs, head, cursor0, skipUntil, oracle)
      ensures QueueOf(queue, inputs, head, cursor, skipUntil, oracle)
      ensures queue0 <= queue && |queue| <= concurrency && (|queue| < concurrency ==> cursor == |inputs|)
      ensures Doomed(queue, skipUntil) == Doomed(queue0, skipUntil)
    {
      PositionSplits(inputs, lastPrefix);
      cursor, queue := cursor0, queue0;
      while |queue| < concurrency && cursor < |inputs|
        invariant QueueOf(queue, inputs, head, cursor, skipUntil, oracle)
        invariant queue0 <= queue && |queue| <= concurrency
        invariant Doomed(queue, skipUntil) == Doomed(queue0, skipUntil)
      {
        var p := inputs[cursor];
        cursor := cursor + 1;
        if p <= lastPrefix {
          continue;
        }
        var t := Task(p, if p <= skipUntil then None else Some(oracle(p)));
        DoomedAppend(queue, t, skipUntil);
        queue := queue + [t];
      }
    }

    /** Commits the head of the queue; the skip decision is taken again here. */
    method CommitHead(task: Task, oracle: Oracle) returns (ghost waste: seq<int>)
      requires if task.result.None? then task.prefix <= skipUntil else task.result.value == oracle(task.prefix)
      modifies this
      ensures status == old(status)
      ensures waste == if IsDoomed(task, old(skipUntil)) then [task.prefix] else []
      ensures old(skipUntil) <= skipUntil && (task.prefix <= old(skipUntil) ==> skipUntil == old(skipUntil))
      ensures lastPrefix == task.prefix && processed == old(processed) + 1
      ensures forall sequential, wasted :: Refines(old(Now()), sequential, wasted, oracle) ==>
                Refines(Now(), Step(sequential, task.prefix, oracle), wasted + waste, oracle)
    {
      hide ScopeLast, AttemptsOf, ErrorsOf;
      waste := [];
      var p := task.prefix;
      if p <= skipUntil {
        if task.result.Some? {
          queries := queries + task.result.value.attempts;
          errors := errors + task.result.value.errors;
          waste := [p];
        }
        scopeSkips := scopeSkips + 1;
      } else {
        var o := task.result.value;
        RecordOutcome(p, o);
        if o.answer.None? {
          pending := pending + {p};
          failures := failures + 1;
        } else {
          pending := pending - {p};
          failures := 0;
          var scope := o.answer.value.scope;
          if scope.Some? && scope.value < 24 {
            var covered := ScopeLast(p, scope.value);
            skipUntil := if skipUntil < covered then covered else skipUntil;
          }
        }
      }
      processed := processed + 1;
      lastPrefix := p;
      StepRefines(old(Now()), Now(), p, oracle, waste);
    }

    /** The commit loop at any concurrency, cut after `budget` commits. It commits what the
        sequential scan commits; only attempts of overtaken tasks are added to the counters,
        and every rise of the skip mark wastes at most `concurrency - 1` tasks. */
    method ScanLoop(inputs: seq<int>, oracle: Oracle, concurrency: nat, limit: nat, budget: nat)
      returns (exhausted: bool, ghost wasted: seq<int>)
      requires Increasing(inputs) && concurrency >= 1 && failures < limit && status == Running
      modifies this
      ensures var rest := inputs[Position(inputs, old(lastPrefix))..];
              && Refines(Now(), Scan(old(Now()), rest, oracle, limit, budget), wasted, oracle)
              && |wasted| <= (concurrency - 1) * Extensions(old(Now()), rest, oracle, limit, budget)
              && (status == Running <==> failures < limit)
              && exhausted == Exhausts(old(Now()), rest, oracle, limit, budget)
      ensures status == Running || (status == Stopped && !exhausted)
    {
      hide Scan, Extensions, Exhausts, QueueOf, Doomed, Step, Position, Increasing, AttemptsOf, ErrorsOf;
      ghost var start := Position(inputs, lastPrefix);
      ghost var from := Now();
      ghost var sequential := Now();
      ghost var head, extensions := start, 0;
      wasted := [];
      assert Refines(Now(), sequential, wasted, oracle) by { NothingWasted(oracle); }
      var cursor, queue := FillQueue(inputs, oracle, concurrency, 0, [], head);
      var left := budget;
      while |queue| > 0 && left > 0
        invariant status == Running && failures < limit
        invariant head == Position(inputs, lastPrefix)
        invariant QueueOf(queue, inputs, head, cursor, skipUntil, oracle)
        invariant |queue| <= concurrency && (queue == [] ==> cursor == |inputs|)
        invariant Refines(Now(), sequential, wasted, oracle)
        invariant Ahead(from, start, sequential, head, inputs, oracle, limit, budget, left, extensions)
        invariant |wasted| + Doomed(queue, skipUntil) <= (concurrency - 1) * extensions
        decreases left
      {
        var task := queue[0];
        QueueHead(queue, inputs, head, cursor, skipUntil, oracle);
        AheadStep(from, start, sequential, head, inputs, oracle, limit, budget, left, extensions);
        ghost var oldSkip, oldQueue := skipUntil, queue;
        ghost var next := Step(sequential, task.prefix, oracle);
        var waste := CommitHead(task, oracle);
        assert Refines(Now(), next, wasted + waste, oracle);
        queue := queue[1..];
        PotentialStep(oldQueue, inputs, head, oldSkip, skipUntil, concurrency, |wasted|, |waste|, extensions);
        extensions := extensions + if oldSkip < skipUntil then 1 else 0;
        wasted := wasted + waste;
        sequential := next;
        left := left - 1;
        if limit <= failures {
          status := Stopped;
          return false, wasted;
        }
        PositionNext(inputs, head);
        QueueTail(oldQueue, inputs, head, cursor, oldSkip, skipUntil, oracle);
        head := head + 1;
        cursor, queue := FillQueue(inputs, oracle, concurrency, cursor, queue, head);
      }
      QueueEnd(queue, inputs, head, cursor, skipUntil, oracle);
      AheadEnd(from, start, sequential, head, inputs, oracle, limit, budget, left, extensions);
      exhausted := |queue| == 0;
    }

    /** Retries the prefixes an earlier run left pending, in address order. */
    method RetryPending(oracle: Oracle, limit: nat, budget: nat) returns (done: bool, left: nat)
      requires failures < limit && status == Running
      modifies this
      ensures Now() == Retry(old(Now()), SortedList(old(pending)), oracle, limit, budget)
      ensures status == if limit <= failures then Stopped else Running
      ensures done <==> status == Running && |SortedList(old(pending))| <= budget
      ensures done ==> left == budget - |SortedList(old(pending))|
    {
      hide Retry, SortedList;
      var todo := SortElements(pending);
      SortedUnique(todo, SortedList(pending));
      var i := 0;
      assert todo[0..] == todo;
      while i < |todo| && i < budget
        invariant 0 <= i <= |todo| && i <= budget
        invariant status == Running && failures < limit
        invariant Retry(old(Now()), todo, oracle, limit, budget) == Retry(Now(), todo[i..], oracle, limit, budget - i)
      {
        var p := todo[i];
        RetryUnfold(Now(), todo, i, oracle, limit, budget - i);
        var o := oracle(p);
        RecordOutcome(p, o);
        if o.answer.None? {
          failures := failures + 1;
          if limit <= failures {
            status := Stopped;
            return false, 0;
          }
        } else {
          pending := pending - {p};
          failures := 0;
        }
        i := i + 1;
      }
      RetryUnfold(Now(), todo, i, oracle, limit, budget - i);
      done, left := i == |todo|, budget - i;
    }

    /** One whole run, cut after `budget` committed tasks. */
    method Run(inputs: seq<int>, oracle: Oracle, concurrency: nat, limit: nat, budget: nat) returns (ghost wasted: seq<int>)
      requires Increasing(inputs) && concurrency >= 1 && failures == 0 < limit && status == Running
      modifies this
      ensures Refines(Now(), RunFrom(old(Now()), inputs, oracle, limit, budget), wasted, oracle)
      ensures status == StatusOf(old(Now()), inputs, oracle, limit, budget)
      ensures ScanInput(inputs) && UsableScopes(oracle) ==> Logs(old(Now()), Now(), status, wasted, inputs, oracle, limit, budget)
    {
      hide Scan, Retry, Extensions, Exhausts, SortedList, Position, AttemptsOf, ErrorsOf, Logs, UsableScopes;
      wasted := [];
      NothingWasted(oracle);
      var done, left := RetryPending(oracle, limit, budget);
      if done {
        var exhausted;
        exhausted, wasted := ScanLoop(inputs, oracle, concurrency, limit, left);
        if exhausted {
          status := if pending == {} then Completed else CompletedWithPending;
        }
      }
      if status == Running {
        status := StoppedEarly;
      }
      if ScanInput(inputs) && UsableScopes(oracle) {
        RunLogs(old(Now()), Now(), wasted, inputs, oracle, limit, budget);
      }
    }
  }

  /** The status a run ends with, from the sequential run alone: `StoppedEarly` when it was
      interrupted before the end of its input. */
  ghost function StatusOf(from: State, inputs: seq<int>, oracle: Oracle, limit: nat, budget: nat): Status {
    var end := RunFrom(from, inputs, oracle, limit, budget);
    if limit <= end.failures then Stopped
    else if !Finishes(from, inputs, oracle, limit, budget) then StoppedEarly
    else if end.pending == {} then Completed
    else CompletedWithPending
  }

  /** What a run leaves, from the answers alone: the laws of its log, with the attempts of the
      wasted tasks added to the counters, and the status of the place where it ended. */
  ghost predicate Logs(from: State, to: State, status: Status, wasted: seq<int>, inputs: seq<int>, oracle: Oracle,
                       limit: nat, budget: nat) {
    exists t :: LogsBy(t, from, to, status, wasted, inputs, oracle, limit, budget)
  }

  ghost predicate LogsBy(t: Trace, from: State, to: State, status: Status, wasted: seq<int>, inputs: seq<int>,
                         oracle: Oracle, limit: nat, budget: nat) {
    && Answers(t.All(), from, to, oracle) && Commits(t.asked, t.done, from, to, oracle)
    && Goes(t, from, to, inputs, oracle, limit, budget)
    && to.queries == from.queries + AttemptsOf(t.All(), oracle) + AttemptsOf(wasted, oracle)
    && to.errors == from.errors + ErrorsOf(t.All(), oracle) + ErrorsOf(wasted, oracle)
    && status == if limit <= to.failures then Stopped
                 else if !Whole(t, from, inputs) then StoppedEarly
                 else if to.pending == {} then Completed
                 else CompletedWithPending
  }

  lemma RunLogs(from: State, to: State, wasted: seq<int>, inputs: seq<int>, oracle: Oracle, limit: nat, budget: nat)
    requires ScanInput(inputs) && UsableScopes(oracle) && from.failures < limit
    requires Refines(to, RunFrom(from, inputs, oracle, limit, budget), wasted, oracle)
    ensures Logs(from, to, StatusOf(from, inputs, oracle, limit, budget), wasted, inputs, oracle, limit, budget)
  {
    hide Answers, Commits, Goes, Whole, RunFrom, Finishes, AttemptsOf, ErrorsOf, UsableScopes;
    var t := RunFollows(from, inputs, oracle, limit, budget);
    var end := RunFrom(from, inputs, oracle, limit, budget);
    SameAnswers(t, from, end, to, oracle);
    SameGoes(t, from, end, to, inputs, oracle, limit, budget);
    assert LogsBy(t, from, to, StatusOf(from, inputs, oracle, limit, budget), wasted, inputs, oracle, limit, budget);
  }

  lemma SameAnswers(t: Trace, from: State, a: State, b: State, oracle: Oracle)
    requires SameScan(a, b) && Answers(t.All(), from, a, oracle) && Commits(t.asked, t.done, from, a, oracle)
    ensures Answers(t.All(), from, b, oracle) && Commits(t.asked, t.done, from, b, oracle)
    ensures a.failures == b.failures && a.pending == b.pending
  {
    hide RowsOf, MarkOf, AddressesIn, Streak, Covered, Increasing;
  }

  lemma SameGoes(t: Trace, from: State, a: State, b: State, inputs: seq<int>, oracle: Oracle, limit: nat, budget: nat)
    requires SameScan(a, b) && Goes(t, from, a, inputs, oracle, limit, budget)
    ensures Goes(t, from, b, inputs, oracle, limit, budget)
  {
    hide Whole, Timely, SortedList, Position;
  }

  lemma RetryUnfold(s: State, todo: seq<int>, i: nat, oracle: Oracle, limit: nat, budget: nat)
    requires i <= |todo|
    ensures i == |todo| || budget == 0 ==> Retry(s, todo[i..], oracle, limit, budget) == s
    ensures i < |todo| && budget > 0 ==>
              var t := Retried(s, todo[i], oracle(todo[i]));
              Retry(s, todo[i..], oracle, limit, budget)
              == if limit <= t.failures then t else Retry(t, todo[i + 1..], oracle, limit, budget - 1)
  {
    if i < |todo| {
      assert todo[i..][1..] == todo[i + 1..];
    }
  }

  lemma NothingWasted(oracle: Oracle)
    ensures AttemptsOf([], oracle) == 0 && ErrorsOf([], oracle) == 0
  {
  }

  lemma QueueHead(queue: seq<Task>, inputs: seq<int>, head: nat, cursor: nat, skip: int, oracle: Oracle)
    requires QueueOf(queue, inputs, head, cursor, skip, oracle) && queue != []
    ensures head + |queue| <= |inputs| && forall k :: 0 <= k < |queue| ==> queue[k].prefix == inputs[head + k]
    ensures queue[0].prefix == inputs[head]
    ensures if queue[0].result.None? then queue[0].prefix <= skip else queue[0].result.value == oracle(queue[0].prefix)
  {
  }

  lemma QueueTail(queue: seq<Task>, inputs: seq<int>, head: nat, cursor: nat, skip: int, skip': int, oracle: Oracle)
    requires QueueOf(queue, inputs, head, cursor, skip, oracle) && queue != [] && skip <= skip'
    ensures QueueOf(queue[1..], inputs, head + 1, cursor, skip', oracle)
  {
  }

  lemma QueueEnd(queue: seq<Task>, inputs: seq<int>, head: nat, cursor: nat, skip: int, oracle: Oracle)
    requires QueueOf(queue, inputs, head, cursor, skip, oracle)
    requires queue == [] ==> cursor == |inputs|
    ensures head <= |inputs| && (queue == [] <==> head == |inputs|)
  {
  }

  /** The run from `start` has become the run from `head` with `left` commits to go. */
  ghost predicate Ahead(from: State, start: nat, sequential: State, head: nat, inputs: seq<int>, oracle: Oracle,
                        limit: nat, budget: nat, left: nat, extensions: nat) {
    && start <= |inputs| && head <= |inputs|
    && Scan(from, inputs[start..], oracle, limit, budget) == Scan(sequential, inputs[head..], oracle, limit, left)
    && Extensions(from, inputs[start..], oracle, limit, budget)
       == extensions + Extensions(sequential, inputs[head..], oracle, limit, left)
    && Exhausts(from, inputs[start..], oracle, limit, budget) == Exhausts(sequential, inputs[head..], oracle, limit, left)
  }

  lemma AheadStep(from: State, start: nat, sequential: State, head: nat, inputs: seq<int>, oracle: Oracle,
                  limit: nat, budget: nat, left: nat, extensions: nat)
    requires Ahead(from, start, sequential, head, inputs, oracle, limit, budget, left, extensions)
    requires head < |inputs| && left > 0
    ensures var next := Step(sequential, inputs[head], oracle);
            var extensions' := extensions + if sequential.skipUntil < next.skipUntil then 1 else 0;
            if limit <= next.failures then
              && Scan(from, inputs[start..], oracle, limit, budget) == next
              && Extensions(from, inputs[start..], oracle, limit, budget) == extensions'
              && !Exhausts(from, inputs[start..], oracle, limit, budget)
            else
              Ahead(from, start, next, head + 1, inputs, oracle, limit, budget, left - 1, extensions')
  {
    assert inputs[head..][0] == inputs[head];
    assert inputs[head..][1..] == inputs[head + 1..];
  }

  lemma AheadEnd(from: State, start: nat, sequential: State, head: nat, inputs: seq<int>, oracle: Oracle,
                 limit: nat, budget: nat, left: nat, extensions: nat)
    requires Ahead(from, start, sequential, head, inputs, oracle, limit, budget, left, extensions)
    requires head == |inputs| || left == 0
    ensures Scan(from, inputs[start..], oracle, limit, budget) == sequential
    ensures Extensions(from, inputs[start..], oracle, limit, budget) == extensions
    ensures Exhausts(from, inputs[start..], oracle, limit, budget) <==> head == |inputs|
  {
  }

  /** Committing the head moves at most its own doom into the waste; only a rise of the
      mark, which finds no task overtaken yet, can doom the tasks behind it. */
  lemma PotentialStep(queue: seq<Task>, inputs: seq<int>, head: nat, skip: int, skip': int,
                      concurrency: nat, wasted: nat, waste: nat, extensions: nat)
    requires Increasing(inputs) && 0 < |queue| <= concurrency && head + |queue| <= |inputs|
    requires forall k :: 0 <= k < |queue| ==> queue[k].prefix == inputs[head + k]
    requires skip <= skip' && (queue[0].prefix <= skip ==> skip' == skip)
    requires waste == if IsDoomed(queue[0], skip) then 1 else 0
    requires wasted + Doomed(queue, skip) <= (concurrency - 1) * extensions
    ensures wasted + waste + Doomed(queue[1..], skip')
         <= (concurrency - 1) * (extensions + if skip < skip' then 1 else 0)
  {
    if skip < skip' {
      forall k | 0 <= k < |queue| ensures skip < queue[k].prefix {
        assert k > 0 ==> inputs[head] < inputs[head + k];
      }
      NoneDoomed(queue, skip);
      assert (concurrency - 1) * (extensions + 1) == (concurrency - 1) * extensions + (concurrency - 1);
    }
  }
}
