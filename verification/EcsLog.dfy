/** What a scan means in terms of its log alone: which prefixes it asks about, and what the
    answers leave behind. */
module EcsLog {
  import opened Wrappers
  import opened Blocks
  import opened Counting
  import opened EcsScan

  /** The prefix lies inside the returned scope of the entry. */
  predicate Shadows(e: Entry, p: int) {
    e.scope.Some? && e.scope.value < 24 && WithinScope(p, e.prefix, e.scope.value)
  }

  /** The prefix is not beyond an earlier mark, or lies inside the scope of a row of a smaller
      prefix. */
  ghost predicate Covered(p: int, mark: int, rows: seq<Entry>) {
    p <= mark || exists e :: e in rows && e.prefix < p && Shadows(e, p)
  }

  // ---------- What the answers to a list of queries leave ----------

  function RowsOf(asked: seq<int>, oracle: Oracle): seq<Entry> {
    if asked == [] then []
    else
      var n := |asked| - 1;
      RowsOf(asked[..n], oracle) + match oracle(asked[n]).answer
                                   case None => []
                                   case Some(answer) => Rows(asked[n], answer)
  }

  function AttemptsOf(asked: seq<int>, oracle: Oracle): nat {
    if asked == [] then 0 else AttemptsOf(asked[..|asked| - 1], oracle) + oracle(asked[|asked| - 1]).attempts
  }

  function ErrorsOf(asked: seq<int>, oracle: Oracle): nat {
    if asked == [] then 0 else ErrorsOf(asked[..|asked| - 1], oracle) + oracle(asked[|asked| - 1]).errors
  }

  predicate Failed(p: int, oracle: Oracle) {
    oracle(p).answer.None?
  }

  /** The failure count after the queries: those since the last answer. */
  ghost predicate Streak(asked: seq<int>, oracle: Oracle, before: nat, failures: nat) {
    if forall p :: p in asked ==> Failed(p, oracle) then failures == before + |asked|
    else
      && failures < |asked| && !Failed(asked[|asked| - 1 - failures], oracle)
      && forall i :: |asked| - failures <= i < |asked| ==> Failed(asked[i], oracle)
  }

  ghost predicate AddressesIn(addresses: set<int>, before: set<int>, rows: seq<Entry>) {
    forall a :: a in addresses <==> a in before || exists e :: e in rows && e.address == Some(a)
  }

  /** Rows, addresses, pending set and failure count follow from the queries and answers. */
  ghost predicate Answers(asked: seq<int>, from: State, to: State, oracle: Oracle) {
    && to.log == from.log + RowsOf(asked, oracle)
    && AddressesIn(to.addresses, from.addresses, RowsOf(asked, oracle))
    && (forall p :: p in to.pending <==> if p in asked then Failed(p, oracle) else p in from.pending)
    && Streak(asked, oracle, from.failures, to.failures)
  }

  ghost predicate Counters(asked: seq<int>, from: State, to: State, oracle: Oracle) {
    to.queries == from.queries + AttemptsOf(asked, oracle) && to.errors == from.errors + ErrorsOf(asked, oracle)
  }

  /** The mark is the greatest of the earlier mark and the ends of the scopes below 24. */
  ghost predicate MarkOf(mark: int, before: int, rows: seq<Entry>) {
    && before <= mark
    && (mark == before || exists e :: e in rows && Ends(e, mark))
    && forall e, x :: e in rows && Ends(e, x) ==> x <= mark
  }

  predicate Ends(e: Entry, x: int) {
    e.scope.Some? && e.scope.value < 24 && ScopeLast(e.prefix, e.scope.value) == x
  }

  /** Of the committed prefixes exactly those not covered were asked about, in order, and each
      of the others counts as one skip. */
  ghost predicate Commits(asked: seq<int>, done: seq<int>, from: State, to: State, oracle: Oracle) {
    var rows := RowsOf(asked, oracle);
    && Increasing(asked) && (forall p :: p in asked <==> p in done && !Covered(p, from.skipUntil, rows))
    && to.scopeSkips + |asked| == from.scopeSkips + |done|
    && to.processed == from.processed + |done|
    && to.lastPrefix == (if done == [] then from.lastPrefix else done[|done| - 1])
    && MarkOf(to.skipUntil, from.skipUntil, rows)
  }

  /** What a run did: the pending prefixes it retried, the inputs it committed, and those of
      them it asked about. */
  datatype Trace = Trace(retried: seq<int>, asked: seq<int>, done: seq<int>) {
    function All(): seq<int> {
      retried + asked
    }
  }

  ghost predicate Follows(t: Trace, from: State, to: State, oracle: Oracle) {
    && Answers(t.All(), from, to, oracle) && Counters(t.All(), from, to, oracle)
    && Commits(t.asked, t.done, from, to, oracle)
  }

  /** The failure count stays below the limit until the last query. */
  ghost predicate Timely(asked: seq<int>, before: nat, oracle: Oracle, limit: nat) {
    forall k :: 0 <= k < |asked| ==> Below(asked[..k], before, oracle, limit)
  }

  ghost predicate Below(asked: seq<int>, before: nat, oracle: Oracle, limit: nat) {
    exists failures: nat :: failures < limit && Streak(asked, oracle, before, failures)
  }

  /** The run goes through the pending prefixes and then through the inputs behind the last
      prefix. It ends with the query that reaches the limit, or else with the budget or the
      input. */
  ghost predicate Goes(t: Trace, from: State, to: State, inputs: seq<int>, oracle: Oracle, limit: nat, budget: nat) {
    var todo, rest := SortedList(from.pending), inputs[Position(inputs, from.lastPrefix)..];
    && t.retried <= todo && t.done <= rest && (t.done != [] ==> t.retried == todo)
    && |t.retried| + |t.done| <= budget
    && Timely(t.All(), from.failures, oracle, limit)
    && (if limit <= to.failures then t.All() != [] && (t.done != [] ==> t.done[|t.done| - 1] in t.asked)
        else |t.retried| + |t.done| == budget || Whole(t, from, inputs))
  }

  ghost predicate Whole(t: Trace, from: State, inputs: seq<int>) {
    t.retried == SortedList(from.pending) && t.done == inputs[Position(inputs, from.lastPrefix)..]
  }

  // ---------- Rows ----------

  /** One row per address in order, or a single row without one. */
  lemma RowsInOrder(p: int, answer: Answer)
    ensures var rows := Rows(p, answer);
            && (answer.addresses == [] ==> rows == [Entry(p, answer.scope, None)])
            && (answer.addresses != [] ==> |rows| == |answer.addresses|)
            && forall i :: 0 <= i < |answer.addresses| ==> rows[i] == Entry(p, answer.scope, Some(answer.addresses[i]))
  {
  }

  lemma {:induction false} RowPrefixes(asked: seq<int>, oracle: Oracle)
    ensures forall e :: e in RowsOf(asked, oracle) ==> e.prefix in asked && oracle(e.prefix).answer.Some?
                                                       && e.scope == oracle(e.prefix).answer.value.scope
    ensures forall p :: p in asked && !Failed(p, oracle) ==> exists e :: e in RowsOf(asked, oracle) && e.prefix == p
  {
    if asked != [] {
      var n := |asked| - 1;
      RowPrefixes(asked[..n], oracle);
      assert asked == asked[..n] + [asked[n]];
      if !Failed(asked[n], oracle) {
        var rows := Rows(asked[n], oracle(asked[n]).answer.value);
        assert rows[0] in rows && rows[0] in RowsOf(asked, oracle);
      }
    }
  }

  // ---------- One more query ----------

  lemma AskOne(asked: seq<int>, p: int, oracle: Oracle)
    ensures RowsOf(asked + [p], oracle)
         == RowsOf(asked, oracle) + (if Failed(p, oracle) then [] else Rows(p, oracle(p).answer.value))
    ensures AttemptsOf(asked + [p], oracle) == AttemptsOf(asked, oracle) + oracle(p).attempts
    ensures ErrorsOf(asked + [p], oracle) == ErrorsOf(asked, oracle) + oracle(p).errors
  {
    assert (asked + [p])[..|asked|] == asked;
  }

  lemma StreakOne(asked: seq<int>, p: int, oracle: Oracle, before: nat, failures: nat)
    requires Streak(asked, oracle, before, failures)
    ensures Streak(asked + [p], oracle, before, if Failed(p, oracle) then failures + 1 else 0)
  {
    var all := asked + [p];
    assert all[|asked|] == p && p in all;
    forall q | q in asked ensures q in all {
    }
    if Failed(p, oracle) && !(forall q :: q in asked ==> Failed(q, oracle)) {
      assert all[|all| - 1 - (failures + 1)] == asked[|asked| - 1 - failures];
      assert asked[|asked| - 1 - failures] in asked;
    }
  }

  lemma AddressesOne(addresses: set<int>, before: set<int>, rows: seq<Entry>, p: int, answer: Answer)
    requires AddressesIn(addresses, before, rows)
    ensures AddressesIn(addresses + AddressSet(answer.addresses), before, rows + Rows(p, answer))
  {
    var more := Rows(p, answer);
    RowsInOrder(p, answer);
    forall a | a in AddressSet(answer.addresses) ensures exists e :: e in rows + more && e.address == Some(a) {
      var i :| 0 <= i < |answer.addresses| && answer.addresses[i] == a;
      assert more[i] in more;
    }
    forall e | e in more && e.address.Some? ensures e.address.value in answer.addresses {
      var i :| 0 <= i < |more| && more[i] == e;
    }
  }

  /** A query, first or repeated, has exactly these effects. */
  lemma AnswersOne(asked: seq<int>, from: State, s: State, p: int, oracle: Oracle, to: State)
    requires Answers(asked, from, s, oracle) && Counters(asked, from, s, oracle)
    requires to.log == Recorded(s, p, oracle(p)).log && to.addresses == Recorded(s, p, oracle(p)).addresses
    requires to.queries == s.queries + oracle(p).attempts && to.errors == s.errors + oracle(p).errors
    requires to.failures == if Failed(p, oracle) then s.failures + 1 else 0
    requires to.pending == if Failed(p, oracle) then s.pending + {p} else s.pending - {p}
    ensures Answers(asked + [p], from, to, oracle) && Counters(asked + [p], from, to, oracle)
  {
    hide RowsOf, AttemptsOf, ErrorsOf, Streak, AddressesIn, Rows;
    AskOne(asked, p, oracle);
    StreakOne(asked, p, oracle, from.failures, s.failures);
    if Failed(p, oracle) {
      assert RowsOf(asked + [p], oracle) == RowsOf(asked, oracle);
    } else {
      var more := Rows(p, oracle(p).answer.value);
      AddressesOne(s.addresses, from.addresses, RowsOf(asked, oracle), p, oracle(p).answer.value);
      assert from.log + RowsOf(asked, oracle) + more == from.log + (RowsOf(asked, oracle) + more);
    }
  }

  // ---------- One more committed prefix ----------

  /** On the way, the mark covers exactly what rows and earlier mark cover. */
  lemma MarkCovers(p: int, mark: int, before: int, asked: seq<int>, oracle: Oracle)
    requires UsableScopes(oracle) && p % 256 == 0 && forall q :: q in asked ==> q < p
    requires MarkOf(mark, before, RowsOf(asked, oracle))
    ensures p <= mark <==> Covered(p, before, RowsOf(asked, oracle))
  {
    hide ScopeLast, ScopeFirst, RowsOf;
    RowPrefixes(asked, oracle);
    var rows := RowsOf(asked, oracle);
    if p <= mark && before < p {
      var e :| e in rows && Ends(e, mark);
      LaterWithinScope(p, e.prefix, e.scope.value);
      assert Shadows(e, p);
    }
    if e :| e in rows && e.prefix < p && Shadows(e, p) {
      assert Ends(e, ScopeLast(e.prefix, e.scope.value));
    }
  }

  /** Rows of later prefixes cover no earlier one. */
  lemma CoveredStays(q: int, mark: int, rows: seq<Entry>, more: seq<Entry>)
    requires forall e :: e in more ==> q <= e.prefix
    ensures Covered(q, mark, rows + more) <==> Covered(q, mark, rows)
  {
  }

  lemma MarkOne(mark: int, before: int, rows: seq<Entry>, p: int, answer: Answer)
    requires MarkOf(mark, before, rows)
    ensures MarkOf(SkipMark(mark, p, answer), before, rows + Rows(p, answer))
  {
    hide ScopeLast, ScopeFirst;
    var more, raised := Rows(p, answer), SkipMark(mark, p, answer);
    assert more[0] in more;
    if raised != mark {
      assert more[0] in rows + more && Ends(more[0], raised);
    }
  }

  lemma SkipOne(t: Trace, from: State, s: State, p: int, oracle: Oracle)
    requires Follows(t, from, s, oracle) && UsableScopes(oracle)
    requires p <= s.skipUntil && p % 256 == 0 && forall q :: q in t.done ==> q < p
    ensures Follows(t.(done := t.done + [p]), from, Step(s, p, oracle), oracle)
  {
    hide ScopeLast, ScopeFirst, RowsOf, AttemptsOf, ErrorsOf, Streak, AddressesIn, Covered, MarkOf;
    forall q | q in t.asked ensures q < p {
    }
    MarkCovers(p, s.skipUntil, from.skipUntil, t.asked, oracle);
  }

  lemma QueryOne(t: Trace, from: State, s: State, p: int, oracle: Oracle)
    requires Follows(t, from, s, oracle) && UsableScopes(oracle)
    requires s.skipUntil < p && p % 256 == 0 && forall q :: q in t.done ==> q < p
    ensures Follows(Trace(t.retried, t.asked + [p], t.done + [p]), from, Step(s, p, oracle), oracle)
  {
    hide ScopeLast, ScopeFirst, RowsOf, Answers, Counters, Covered, MarkOf, Rows;
    forall q | q in t.asked ensures q < p {
    }
    MarkCovers(p, s.skipUntil, from.skipUntil, t.asked, oracle);
    var next := Step(s, p, oracle);
    AnswersOne(t.All(), from, s, p, oracle, next);
    assert t.retried + (t.asked + [p]) == t.All() + [p];
    AskOne(t.asked, p, oracle);
    var rows := RowsOf(t.asked, oracle);
    var more := if Failed(p, oracle) then [] else Rows(p, oracle(p).answer.value);
    forall q | q in t.done + [p] ensures Covered(q, from.skipUntil, rows + more) <==> Covered(q, from.skipUntil, rows) {
      CoveredStays(q, from.skipUntil, rows, more);
    }
    if Failed(p, oracle) {
      assert rows + more == rows;
    } else {
      MarkOne(s.skipUntil, from.skipUntil, rows, p, oracle(p).answer.value);
    }
    assert p !in t.asked;
    assert forall i :: 0 <= i < |t.asked| ==> t.asked[i] in t.asked;
  }

  /** One query more is in time as long as the count before it is below the limit. */
  lemma TimelyOne(asked: seq<int>, p: int, before: nat, failures: nat, oracle: Oracle, limit: nat)
    requires Timely(asked, before, oracle, limit) && Streak(asked, oracle, before, failures) && failures < limit
    ensures Timely(asked + [p], before, oracle, limit)
  {
    hide Streak;
    forall k | 0 <= k < |asked + [p]| ensures Below((asked + [p])[..k], before, oracle, limit) {
      assert (asked + [p])[..k] == asked[..k];
      if k == |asked| {
        assert asked[..k] == asked;
      }
    }
  }

  // ---------- Whole scans ----------

  /** The scan continues the trace: it commits prefixes up to the end, the budget, or the query
      that reaches the limit. */
  lemma {:induction false} ScanFollows(t: Trace, from: State, s: State, prefixes: seq<int>, oracle: Oracle, limit: nat, budget: nat)
    returns (t': Trace)
    requires Increasing(prefixes) && (forall p :: p in prefixes ==> p % 256 == 0) && UsableScopes(oracle)
    requires Follows(t, from, s, oracle) && Timely(t.All(), from.failures, oracle, limit) && s.failures < limit
    requires t.done <= prefixes
    ensures var end := Scan(s, prefixes[|t.done|..], oracle, limit, budget);
            && Follows(t', from, end, oracle) && Timely(t'.All(), from.failures, oracle, limit)
            && t'.retried == t.retried && t.done <= t'.done <= prefixes && |t'.done| - |t.done| <= budget
            && (if limit <= end.failures then t'.done != [] && t'.done[|t'.done| - 1] in t'.asked
                else t'.done == prefixes || |t'.done| - |t.done| == budget)
            && (Exhausts(s, prefixes[|t.done|..], oracle, limit, budget) <==> end.failures < limit && t'.done == prefixes)
    decreases |prefixes| - |t.done|
  {
    hide Step, Follows, Timely, UsableScopes;
    t' := t;
    var n := |t.done|;
    if n < |prefixes| && budget > 0 {
      var p := prefixes[n];
      assert prefixes[n..][0] == p && prefixes[n..][1..] == prefixes[n + 1..] && p in prefixes;
      assert forall q :: q in t.done ==> q < p;
      var next := Step(s, p, oracle);
      t' := Committed(t, from, s, p, oracle, limit);
      if next.failures < limit {
        t' := ScanFollows(t', from, next, prefixes, oracle, limit, budget - 1);
      }
    }
  }

  lemma Committed(t: Trace, from: State, s: State, p: int, oracle: Oracle, limit: nat) returns (t': Trace)
    requires Follows(t, from, s, oracle) && Timely(t.All(), from.failures, oracle, limit) && s.failures < limit
    requires UsableScopes(oracle) && p % 256 == 0 && forall q :: q in t.done ==> q < p
    ensures t'.retried == t.retried && t'.done == t.done + [p]
    ensures Follows(t', from, Step(s, p, oracle), oracle) && Timely(t'.All(), from.failures, oracle, limit)
    ensures limit <= Step(s, p, oracle).failures ==> p in t'.asked
  {
    hide Commits, Timely, Counters, UsableScopes;
    t' := t.(done := t.done + [p]);
    if p <= s.skipUntil {
      SkipOne(t, from, s, p, oracle);
    } else {
      t' := t'.(asked := t.asked + [p]);
      QueryOne(t, from, s, p, oracle);
      assert t'.All() == t.All() + [p];
      TimelyOne(t.All(), p, from.failures, s.failures, oracle, limit);
    }
  }

  lemma {:induction false} RetryFollows(t: Trace, from: State, s: State, todo: seq<int>, oracle: Oracle, limit: nat, budget: nat)
    returns (t': Trace)
    requires t.asked == t.done == [] && t.retried <= todo
    requires Increasing(todo) && forall p :: p in todo ==> p in from.pending
    requires Follows(t, from, s, oracle) && Timely(t.All(), from.failures, oracle, limit) && s.failures < limit
    ensures var end := Retry(s, todo[|t.retried|..], oracle, limit, budget);
            && Follows(t', from, end, oracle) && Timely(t'.All(), from.failures, oracle, limit)
            && t'.asked == t'.done == [] && t.retried <= t'.retried <= todo && |t'.retried| - |t.retried| <= budget
            && (if limit <= end.failures then t'.retried != []
                else t'.retried == todo || |t'.retried| - |t.retried| == budget)
    decreases |todo| - |t.retried|
  {
    hide Follows, Timely, Retried;
    t' := t;
    var n := |t.retried|;
    if n < |todo| && budget > 0 {
      var p := todo[n];
      assert todo[n..][0] == p && todo[n..][1..] == todo[n + 1..];
      var next := Retried(s, p, oracle(p));
      t' := RetriedOne(t, from, s, p, oracle, limit);
      if next.failures < limit {
        t' := RetryFollows(t', from, next, todo, oracle, limit, budget - 1);
      }
    }
  }

  lemma RetriedOne(t: Trace, from: State, s: State, p: int, oracle: Oracle, limit: nat) returns (t': Trace)
    requires t.asked == t.done == [] && p !in t.retried && p in from.pending
    requires Follows(t, from, s, oracle) && Timely(t.All(), from.failures, oracle, limit) && s.failures < limit
    ensures t' == Trace(t.retried + [p], [], [])
    ensures Follows(t', from, Retried(s, p, oracle(p)), oracle) && Timely(t'.All(), from.failures, oracle, limit)
  {
    hide Timely, RowsOf, Counters, MarkOf, AddressesIn;
    t' := Trace(t.retried + [p], [], []);
    assert t.All() == t.retried && t'.All() == t.All() + [p];
    var next := Retried(s, p, oracle(p));
    assert p in s.pending;
    assert s.pending + {p} == s.pending;
    AnswersOne(t.All(), from, s, p, oracle, next);
    TimelyOne(t.All(), p, from.failures, s.failures, oracle, limit);
  }

  /** Every run follows the laws: from its queries and their answers alone come its rows, the
      skip mark, every counter, and where it ended. */
  lemma RunFollows(from: State, inputs: seq<int>, oracle: Oracle, limit: nat, budget: nat) returns (t: Trace)
    requires ScanInput(inputs) && UsableScopes(oracle) && from.failures < limit
    ensures var end := RunFrom(from, inputs, oracle, limit, budget);
            && Follows(t, from, end, oracle) && Goes(t, from, end, inputs, oracle, limit, budget)
            && (Finishes(from, inputs, oracle, limit, budget) <==> end.failures < limit && Whole(t, from, inputs))
  {
    hide Scan, Retry, Exhausts, SortedList, Position, UsableScopes, Follows, Timely, Increasing;
    var todo := SortedList(from.pending);
    NothingYet(from, oracle, limit);
    assert todo[0..] == todo;
    t := RetryFollows(Trace([], [], []), from, from, todo, oracle, limit, budget);
    var r := Retry(from, todo, oracle, limit, budget);
    InPlace(t, from, r, oracle);
    if r.failures < limit && |todo| <= budget {
      var rest := inputs[Position(inputs, from.lastPrefix)..];
      Behind(inputs, Position(inputs, from.lastPrefix));
      assert rest[0..] == rest;
      t := ScanFollows(t, from, r, rest, oracle, limit, budget - |todo|);
    }
  }

  lemma InPlace(t: Trace, from: State, r: State, oracle: Oracle)
    requires Follows(t, from, r, oracle) && t.done == []
    ensures r.lastPrefix == from.lastPrefix
  {
  }

  lemma Behind(inputs: seq<int>, n: nat)
    requires ScanInput(inputs) && n <= |inputs|
    ensures Increasing(inputs[n..]) && forall p :: p in inputs[n..] ==> p % 256 == 0
  {
  }

  lemma NothingYet(from: State, oracle: Oracle, limit: nat)
    ensures var t := Trace([], [], []);
            Follows(t, from, from, oracle) && Timely(t.All(), from.failures, oracle, limit)
  {
  }

  // ---------- What follows from the laws ----------

  /** No row of a run lies in the scope of an earlier one. */
  lemma NoRowShadowed(t: Trace, from: State, to: State, oracle: Oracle)
    requires Follows(t, from, to, oracle)
    ensures forall e, f :: e in RowsOf(t.asked, oracle) && f in RowsOf(t.asked, oracle) && e.prefix < f.prefix
                           ==> !Shadows(e, f.prefix)
    ensures forall f :: f in RowsOf(t.asked, oracle) ==> from.skipUntil < f.prefix
  {
    RowPrefixes(t.asked, oracle);
  }

  /** A run that stops does so on as many failures in a row as the limit, the last queries it
      made. */
  lemma StoppedOnFailures(t: Trace, from: State, to: State, oracle: Oracle, limit: nat)
    requires Follows(t, from, to, oracle) && from.failures == 0 && limit <= to.failures
    ensures limit <= |t.All()| && forall i :: |t.All()| - limit <= i < |t.All()| ==> Failed(t.All()[i], oracle)
  {
    hide Commits, Counters;
  }
}
