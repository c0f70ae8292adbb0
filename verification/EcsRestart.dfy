/** Coverage over crash and restart: whatever is cut, nothing already scanned is lost. */
module EcsRestart {
  import opened Wrappers
  import opened Blocks
  import opened Counting
  import opened EcsLog
  import opened EcsScan

  /** `p` was answered successfully, or lies inside the scope of an answer in the log. */
  ghost predicate Served(log: seq<Entry>, p: int) {
    exists e :: e in log && (e.prefix == p || Shadows(e, p))
  }

  /** The skip mark is the end of the scope of some logged answer to a processed prefix. */
  ghost predicate Marked(log: seq<Entry>, mark: int, last: int) {
    mark == -1 || exists e :: e in log && Marks(e, mark, last)
  }

  predicate Marks(e: Entry, mark: int, last: int) {
    e.scope.Some? && e.scope.value < 24 && e.prefix <= last && ScopeLast(e.prefix, e.scope.value) == mark
  }

  ghost predicate UsableLog(log: seq<Entry>, inputs: seq<int>) {
    forall e :: e in log ==> e.prefix in inputs && (e.scope.Some? ==> e.scope.value <= 24)
  }

  function AddressesOf(log: seq<Entry>): set<int> {
    set e | e in log && e.address.Some? :: e.address.value
  }

  /** What holds after every committed task of every run. */
  ghost predicate Consistent(s: State, inputs: seq<int>) {
    && s.processed == Position(inputs, s.lastPrefix)
    && (forall p :: p in s.pending ==> p in inputs[..s.processed])
    && (forall p :: p in inputs[..s.processed] ==> p in s.pending || Served(s.log, p))
    && Marked(s.log, s.skipUntil, s.lastPrefix)
    && UsableLog(s.log, inputs)
    && s.addresses == AddressesOf(s.log)
  }

  // ---------- Growing the log ----------

  lemma RowAddresses(log: seq<Entry>, p: int, answer: Answer)
    ensures AddressesOf(log + Rows(p, answer)) == AddressesOf(log) + AddressSet(answer.addresses)
  {
    var rows := Rows(p, answer);
    forall a ensures a in AddressesOf(rows) <==> a in AddressSet(answer.addresses) {
      if a in answer.addresses {
        var i :| 0 <= i < |answer.addresses| && answer.addresses[i] == a;
        assert rows[i] in rows && rows[i].address == Some(a);
      }
    }
    forall a ensures a in AddressesOf(log + rows) <==> a in AddressesOf(log) || a in AddressesOf(rows) {
    }
  }

  lemma RecordedConsistent(s: State, p: int, o: Outcome, inputs: seq<int>)
    requires Consistent(s, inputs) && p in inputs
    requires o.answer.Some? && o.answer.value.scope.Some? ==> o.answer.value.scope.value <= 24
    ensures var r := Recorded(s, p, o);
            && Consistent(r, inputs) && s.log <= r.log
            && (o.answer.Some? ==> Served(r.log, p))
  {
    var r := Recorded(s, p, o);
    if o.answer.Some? {
      RowAddresses(s.log, p, o.answer.value);
      var rows := Rows(p, o.answer.value);
      assert rows[0] in rows && rows[0] in r.log;
    }
  }

  // ---------- Each committed task ----------

  lemma RetriedConsistent(s: State, p: int, oracle: Oracle, inputs: seq<int>)
    requires Consistent(s, inputs) && UsableScopes(oracle) && p in s.pending
    ensures var t := Retried(s, p, oracle(p));
            Consistent(t, inputs) && s.log <= t.log && s.pending - {p} <= t.pending <= s.pending
  {
    assert p in inputs[..s.processed] && p in inputs;
    RecordedConsistent(s, p, oracle(p), inputs);
  }

  lemma Advance(inputs: seq<int>, n: nat)
    requires Increasing(inputs) && n < |inputs|
    ensures Position(inputs, inputs[n]) == n + 1
    ensures inputs[..n + 1] == inputs[..n] + [inputs[n]]
  {
    PositionNext(inputs, n);
  }

  /** A skipped prefix lies wholly inside the scope of an earlier successful answer. */
  lemma SkippedIsShadowed(s: State, inputs: seq<int>) returns (e: Entry)
    requires ScanInput(inputs) && Consistent(s, inputs) && s.processed < |inputs|
    requires inputs[s.processed] <= s.skipUntil
    ensures e in s.log && e.prefix < inputs[s.processed] && Shadows(e, inputs[s.processed])
  {
    var p := inputs[s.processed];
    PositionSplits(inputs, s.lastPrefix);
    e :| e in s.log && Marks(e, s.skipUntil, s.lastPrefix);
    LaterWithinScope(p, e.prefix, e.scope.value);
  }

  lemma StepConsistent(s: State, oracle: Oracle, inputs: seq<int>)
    requires ScanInput(inputs) && Consistent(s, inputs) && UsableScopes(oracle) && s.processed < |inputs|
    ensures var t := Step(s, inputs[s.processed], oracle);
            Consistent(t, inputs) && t.processed == s.processed + 1 && s.log <= t.log && s.skipUntil <= t.skipUntil
  {
    hide Position, UsableLog, AddressesOf;
    var p := inputs[s.processed];
    var t := Step(s, p, oracle);
    PositionSplits(inputs, s.lastPrefix);
    Advance(inputs, s.processed);
    if p <= s.skipUntil {
      var e := SkippedIsShadowed(s, inputs);
      assert Served(s.log, p);
    } else {
      RecordedConsistent(s, p, oracle(p), inputs);
      var r := Recorded(s, p, oracle(p));
      if oracle(p).answer.Some? && t.skipUntil != s.skipUntil {
        var rows := Rows(p, oracle(p).answer.value);
        assert rows[0] in rows && rows[0] in r.log && Marks(rows[0], t.skipUntil, p);
      }
    }
  }

  // ---------- Whole runs ----------

  lemma ProcessedBounded(s: State, inputs: seq<int>)
    requires Consistent(s, inputs)
    ensures s.processed == Position(inputs, s.lastPrefix) <= |inputs|
  {
  }

  lemma {:induction false} ScanConsistent(s: State, n: nat, oracle: Oracle, limit: nat, budget: nat, inputs: seq<int>)
    requires ScanInput(inputs) && Consistent(s, inputs) && UsableScopes(oracle) && n == s.processed
    ensures n <= |inputs|
    ensures var t := Scan(s, inputs[n..], oracle, limit, budget);
            && Consistent(t, inputs) && s.log <= t.log
            && (Exhausts(s, inputs[n..], oracle, limit, budget) ==> t.processed == |inputs|)
    decreases |inputs| - n
  {
    hide Step, Consistent, UsableScopes, ScanInput;
    ProcessedBounded(s, inputs);
    if n < |inputs| && budget > 0 {
      StepConsistent(s, oracle, inputs);
      assert inputs[n..][0] == inputs[n] && inputs[n..][1..] == inputs[n + 1..];
      var t := Step(s, inputs[n], oracle);
      if t.failures < limit {
        ScanConsistent(t, n + 1, oracle, limit, budget - 1, inputs);
      }
    }
  }

  lemma {:induction false} RetryConsistent(s: State, todo: seq<int>, oracle: Oracle, limit: nat, budget: nat, inputs: seq<int>)
    requires Consistent(s, inputs) && UsableScopes(oracle)
    requires Increasing(todo) && forall p :: p in todo ==> p in s.pending
    ensures var t := Retry(s, todo, oracle, limit, budget);
            Consistent(t, inputs) && s.log <= t.log && t.processed == s.processed
    decreases |todo|
  {
    if todo != [] && budget > 0 {
      RetriedConsistent(s, todo[0], oracle, inputs);
      var t := Retried(s, todo[0], oracle(todo[0]));
      if t.failures < limit {
        forall p | p in todo[1..] ensures p in t.pending {
          var i :| 0 < i < |todo| && todo[i] == p;
        }
        RetryConsistent(t, todo[1..], oracle, limit, budget - 1, inputs);
      }
    }
  }

  /** Every commit boundary of every run from a consistent state is consistent, and a run
      that finishes has processed the whole input. */
  lemma RunConsistent(s: State, oracle: Oracle, limit: nat, budget: nat, inputs: seq<int>)
    requires ScanInput(inputs) && Consistent(s, inputs) && UsableScopes(oracle)
    ensures var t := RunFrom(s, inputs, oracle, limit, budget);
            && Consistent(t, inputs) && s.log <= t.log
            && (Finishes(s, inputs, oracle, limit, budget) ==> t.processed == |inputs|)
  {
    hide Consistent, Scan, Retry, Exhausts;
    var todo := SortedList(s.pending);
    RetryConsistent(s, todo, oracle, limit, budget, inputs);
    var r := Retry(s, todo, oracle, limit, budget);
    if r.failures < limit && |todo| <= budget {
      ProcessedBounded(r, inputs);
      ScanConsistent(r, r.processed, oracle, limit, budget - |todo|, inputs);
    }
  }

  // ---------- Crashes and restarts ----------

  /** What is on disk: the last checkpointed counters and marks, and the result log. */
  datatype Disk = Disk(checkpoint: State, log: seq<Entry>)

  /** A restart reads the counters from the summary and the addresses from the log. */
  function Resume(d: Disk): State {
    d.checkpoint.(log := d.log, addresses := AddressesOf(d.log), failures := 0)
  }

  const FRESH := Disk(State([], {}, -1, -1, 0, 0, {}, 0, 0, 0), [])

  /** One run was cut: its last checkpoint was after `saved` tasks, it died after `cut`,
      and at least the checkpointed rows of its log survived. The counters of queries and
      errors are those of any concurrency. */
  ghost predicate CutRun(d: Disk, d': Disk, inputs: seq<int>) {
    exists oracle, limit, saved: nat, cut: nat :: CutAt(d, d', inputs, oracle, limit, saved, cut)
  }

  ghost predicate CutAt(d: Disk, d': Disk, inputs: seq<int>, oracle: Oracle, limit: nat, saved: nat, cut: nat) {
    var atSave, atCut := RunFrom(Resume(d), inputs, oracle, limit, saved), RunFrom(Resume(d), inputs, oracle, limit, cut);
    && UsableScopes(oracle) && saved <= cut
    && SameScan(d'.checkpoint, atSave)
    && atSave.log <= d'.log <= atCut.log
  }

  lemma CutConsistent(d: Disk, d': Disk, inputs: seq<int>)
    requires ScanInput(inputs) && Consistent(Resume(d), inputs) && CutRun(d, d', inputs)
    ensures Consistent(Resume(d'), inputs) && d.log <= d'.log
  {
    var oracle, limit, saved: nat, cut: nat :| CutAt(d, d', inputs, oracle, limit, saved, cut);
    RunConsistent(Resume(d), oracle, limit, saved, inputs);
    RunConsistent(Resume(d), oracle, limit, cut, inputs);
    var atSave, atCut := RunFrom(Resume(d), inputs, oracle, limit, saved), RunFrom(Resume(d), inputs, oracle, limit, cut);
    forall e | e in d'.log ensures e in atCut.log {
    }
  }

  lemma {:induction false} NonePositioned(inputs: seq<int>, last: int)
    requires forall i :: 0 <= i < |inputs| ==> last < inputs[i]
    ensures Position(inputs, last) == 0
  {
    if inputs != [] {
      NonePositioned(inputs[..|inputs| - 1], last);
    }
  }

  lemma FreshConsistent(inputs: seq<int>)
    requires ScanInput(inputs)
    ensures Consistent(Resume(FRESH), inputs)
  {
    NonePositioned(inputs, -1);
  }

  ghost predicate CutRuns(disks: seq<Disk>, inputs: seq<int>) {
    disks != [] && disks[0] == FRESH
    && forall i :: 0 <= i < |disks| - 1 ==> CutRun(disks[i], disks[i + 1], inputs)
  }

  lemma {:induction false} RestartsConsistent(disks: seq<Disk>, inputs: seq<int>)
    requires ScanInput(inputs) && CutRuns(disks, inputs)
    ensures Consistent(Resume(disks[|disks| - 1]), inputs)
  {
    var n := |disks| - 1;
    if n == 0 {
      FreshConsistent(inputs);
    } else {
      RestartsConsistent(disks[..n], inputs);
      CutConsistent(disks[n - 1], disks[n], inputs);
    }
  }

  // ---------- Resuming where a run stopped ----------

  /** A scan cut in two commits what it commits in one piece. */
  lemma {:induction false} ScanSplits(s: State, n: nat, oracle: Oracle, limit: nat, first: nat, more: nat, inputs: seq<int>)
    requires ScanInput(inputs) && Consistent(s, inputs) && UsableScopes(oracle) && n == s.processed <= |inputs|
    ensures var t := Scan(s, inputs[n..], oracle, limit, first);
            && t.processed <= |inputs|
            && (s.failures < limit && t.failures < limit ==>
                  Scan(s, inputs[n..], oracle, limit, first + more) == Scan(t, inputs[t.processed..], oracle, limit, more))
    decreases |inputs| - n
  {
    hide Step, Consistent, UsableScopes, ScanInput;
    if n < |inputs| && first > 0 {
      StepConsistent(s, oracle, inputs);
      assert inputs[n..][0] == inputs[n] && inputs[n..][1..] == inputs[n + 1..];
      var t := Step(s, inputs[n], oracle);
      if t.failures < limit {
        ScanSplits(t, n + 1, oracle, limit, first - 1, more, inputs);
      }
    } else if n == |inputs| {
      assert inputs[n..] == [];
    }
  }

  lemma {:induction false} AnsweredScan(s: State, prefixes: seq<int>, oracle: Oracle, limit: nat, budget: nat)
    requires (forall p :: oracle(p).answer.Some?) && s.pending == {} && s.failures == 0
    ensures var t := Scan(s, prefixes, oracle, limit, budget); t.pending == {} && t.failures == 0
    decreases |prefixes|
  {
    if prefixes != [] && budget > 0 {
      AnsweredScan(Step(s, prefixes[0], oracle), prefixes[1..], oracle, limit, budget - 1);
    }
  }

  lemma RunWithoutPending(s: State, inputs: seq<int>, oracle: Oracle, limit: nat, budget: nat)
    requires Consistent(s, inputs) && s.pending == {} && s.failures < limit
    ensures s.processed <= |inputs|
    ensures RunFrom(s, inputs, oracle, limit, budget) == Scan(s, inputs[s.processed..], oracle, limit, budget)
  {
    assert SortedList(s.pending) == [];
    ProcessedBounded(s, inputs);
  }

  /** If no query fails, stopping at a checkpoint and resuming from it is as if the run had
      never stopped: the same rows, mark, skips, counters and addresses. */
  lemma ResumeContinues(s: State, oracle: Oracle, limit: nat, saved: nat, more: nat, inputs: seq<int>)
    requires ScanInput(inputs) && Consistent(s, inputs) && UsableScopes(oracle) && limit >= 1
    requires (forall p :: oracle(p).answer.Some?) && s.pending == {} && s.failures == 0
    ensures var at := RunFrom(s, inputs, oracle, limit, saved);
            RunFrom(Resume(Disk(at, at.log)), inputs, oracle, limit, more) == RunFrom(s, inputs, oracle, limit, saved + more)
  {
    hide RunFrom, Scan, Position, UsableScopes;
    var at := RunFrom(s, inputs, oracle, limit, saved);
    RunConsistent(s, oracle, limit, saved, inputs);
    RunWithoutPending(s, inputs, oracle, limit, saved);
    RunWithoutPending(s, inputs, oracle, limit, saved + more);
    AnsweredScan(s, inputs[s.processed..], oracle, limit, saved);
    assert Resume(Disk(at, at.log)) == at;
    RunWithoutPending(at, inputs, oracle, limit, more);
    ScanSplits(s, s.processed, oracle, limit, saved, more, inputs);
  }

  /** After any number of cut runs, a run that ends `completed` leaves every input answered
      in the log or inside the scope of an answer, keeps every row logged before, and counts
      every input as processed. */
  lemma CompletedCovers(disks: seq<Disk>, inputs: seq<int>, oracle: Oracle, limit: nat, budget: nat)
    requires ScanInput(inputs) && CutRuns(disks, inputs) && UsableScopes(oracle)
    requires Finishes(Resume(disks[|disks| - 1]), inputs, oracle, limit, budget)
    ensures var d := disks[|disks| - 1];
            var end := RunFrom(Resume(d), inputs, oracle, limit, budget);
            && d.log <= end.log && end.processed == |inputs|
            && end.addresses == AddressesOf(end.log)
            && (forall p :: p in inputs ==> p in end.pending || Served(end.log, p))
            && (end.pending == {} ==> forall p :: p in inputs ==> Served(end.log, p))
  {
    RestartsConsistent(disks, inputs);
    RunConsistent(Resume(disks[|disks| - 1]), oracle, limit, budget, inputs);
    assert inputs[..|inputs|] == inputs;
  }

  /** At every commit boundary of every run, `processed` is the number of inputs up to the
      last processed prefix. */
  lemma ProcessedCounts(disks: seq<Disk>, inputs: seq<int>, oracle: Oracle, limit: nat, budget: nat)
    requires ScanInput(inputs) && CutRuns(disks, inputs) && UsableScopes(oracle)
    ensures var s := RunFrom(Resume(disks[|disks| - 1]), inputs, oracle, limit, budget);
            s.processed == |set p | p in inputs && p <= s.lastPrefix|
  {
    RestartsConsistent(disks, inputs);
    RunConsistent(Resume(disks[|disks| - 1]), oracle, limit, budget, inputs);
    var s := RunFrom(Resume(disks[|disks| - 1]), inputs, oracle, limit, budget);
    PositionSplits(inputs, s.lastPrefix);
    forall p ensures p in inputs && p <= s.lastPrefix <==> p in inputs[..s.processed] {
      if p in inputs && p <= s.lastPrefix {
        var i :| 0 <= i < |inputs| && inputs[i] == p;
        assert inputs[..s.processed][i] == p;
      }
    }
    assert (set p | p in inputs && p <= s.lastPrefix) == set p | p in inputs[..s.processed];
    ElementCount(inputs[..s.processed]);
  }

  lemma {:induction false} ElementCount(s: seq<int>)
    requires Increasing(s)
    ensures |set p | p in s| == |s|
  {
    if s != [] {
      var n := |s| - 1;
      ElementCount(s[..n]);
      assert s == s[..n] + [s[n]];
      assert (set p | p in s) == (set p | p in s[..n]) + {s[n]};
    }
  }
}
