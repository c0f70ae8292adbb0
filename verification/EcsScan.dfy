/** The sequential meaning of an ECS scan: one prefix after another, each either
    skipped under the current skip mark or queried and recorded. */
module EcsScan {
  import opened Wrappers
  import opened Blocks
  import opened Counting

  // A prefix is the network address of an IPv4 /24. A usable scope is at most 24.
  datatype Answer = Answer(scope: Option<nat>, addresses: seq<int>)

  /** One query task: attempts made, attempts failed, and the answer if one succeeded. */
  datatype Outcome = Outcome(attempts: nat, errors: nat, answer: Option<Answer>)

  type Oracle = int -> Outcome

  /** One row of the append-only result log. */
  datatype Entry = Entry(prefix: int, scope: Option<nat>, address: Option<int>)

  datatype State = State(log: seq<Entry>, pending: set<int>, skipUntil: int, lastPrefix: int, processed: nat,
                         scopeSkips: nat, addresses: set<int>, failures: nat, queries: nat, errors: nat)

  /** A scanner input: strictly increasing /24 network addresses. */
  ghost predicate ScanInput(inputs: seq<int>) {
    Increasing(inputs) && forall i :: 0 <= i < |inputs| ==> 0 <= inputs[i] && inputs[i] % 256 == 0
  }

  ghost predicate UsableScopes(oracle: Oracle) {
    forall p :: oracle(p).answer.Some? && oracle(p).answer.value.scope.Some? ==> oracle(p).answer.value.scope.value <= 24
  }

  /** Everything but the query and error counters. */
  ghost predicate SameScan(a: State, b: State) {
    a.(queries := 0, errors := 0) == b.(queries := 0, errors := 0)
  }

  // ---------- Scopes ----------

  function ScopeSize(scope: nat): nat
    requires scope <= 32
  {
    Pow2(32 - scope)
  }

  function ScopeFirst(p: int, scope: nat): int
    requires scope <= 32
  {
    p - p % ScopeSize(scope)
  }

  /** The last address of the network a returned scope stands for. */
  function ScopeLast(p: int, scope: nat): int
    requires scope <= 32
  {
    ScopeFirst(p, scope) + ScopeSize(scope) - 1
  }

  /** The whole /24 at `p` lies in the scope returned for the /24 at `q`. */
  predicate WithinScope(p: int, q: int, scope: nat)
    requires scope <= 32
  {
    ScopeFirst(q, scope) <= p && p + 255 <= ScopeLast(q, scope)
  }

  lemma AlignedDown(q: int, size: int)
    requires size > 0
    ensures (q - q % size) % size == 0 && (q - q % size + size) % size == 0
  {
    MultipleMod(q - q % size, size, q / size);
    MultipleMod(q - q % size + size, size, q / size + 1);
  }

  lemma Pow2Of8()
    ensures Pow2(8) == 256
  {
    assert Pow2(4) == 16;
  }

  lemma ScopeAligned(q: int, scope: nat)
    requires scope <= 24
    ensures ScopeFirst(q, scope) % 256 == 0 && (ScopeLast(q, scope) + 1) % 256 == 0
    ensures ScopeFirst(q, scope) <= q <= ScopeLast(q, scope)
    ensures ScopeFirst(q, scope) % Pow2(32 - scope) == 0 && ScopeLast(q, scope) - ScopeFirst(q, scope) + 1 == Pow2(32 - scope)
  {
    Pow2Of8();
    hide Pow2;
    AlignedDown(q, ScopeSize(scope));
    CoarserIsMultiple(ScopeFirst(q, scope), 8, 32 - scope);
    CoarserIsMultiple(ScopeFirst(q, scope) + ScopeSize(scope), 8, 32 - scope);
  }

  /** A later /24 not beyond the scope's last address lies wholly inside the scope. */
  lemma LaterWithinScope(p: int, q: int, scope: nat)
    requires scope <= 24 && p % 256 == 0 && q <= p <= ScopeLast(q, scope)
    ensures WithinScope(p, q, scope)
  {
    ScopeAligned(q, scope);
    MultiplesApart(p, ScopeLast(q, scope) + 1, 256);
  }

  // ---------- The sequential scan ----------

  function Rows(p: int, answer: Answer): (rows: seq<Entry>)
    ensures rows != [] && forall e :: e in rows ==> e.prefix == p && e.scope == answer.scope
  {
    if answer.addresses == [] then
      [Entry(p, answer.scope, None)]
    else
      seq(|answer.addresses|, i requires 0 <= i < |answer.addresses| => Entry(p, answer.scope, Some(answer.addresses[i])))
  }

  function AddressSet(addresses: seq<int>): set<int> {
    set a | a in addresses
  }

  function Recorded(s: State, p: int, o: Outcome): State {
    var counted := s.(queries := s.queries + o.attempts, errors := s.errors + o.errors);
    match o.answer
    case None => counted
    case Some(answer) =>
      counted.(log := s.log + Rows(p, answer), addresses := s.addresses + AddressSet(answer.addresses))
  }

  function SkipMark(mark: int, p: int, answer: Answer): int {
    if answer.scope.Some? && answer.scope.value < 24 && mark < ScopeLast(p, answer.scope.value) then
      ScopeLast(p, answer.scope.value)
    else
      mark
  }

  function Queried(s: State, p: int, o: Outcome): State {
    var r := Recorded(s, p, o);
    match o.answer
    case None => r.(pending := r.pending + {p}, failures := r.failures + 1)
    case Some(answer) =>
      r.(pending := r.pending - {p}, failures := 0, skipUntil := SkipMark(r.skipUntil, p, answer))
  }

  /** One prefix: skipped under the mark or queried, then counted as processed. */
  function Step(s: State, p: int, oracle: Oracle): State {
    var t := if p <= s.skipUntil then s.(scopeSkips := s.scopeSkips + 1) else Queried(s, p, oracle(p));
    t.(processed := t.processed + 1, lastPrefix := p)
  }

  /** Scans prefixes in order until they run out, the failure limit is reached, or the
      process is cut after `budget` commits. */
  function Scan(s: State, prefixes: seq<int>, oracle: Oracle, limit: nat, budget: nat): State
    decreases |prefixes|
  {
    if prefixes == [] || budget == 0 then
      s
    else
      var t := Step(s, prefixes[0], oracle);
      if limit <= t.failures then t else Scan(t, prefixes[1..], oracle, limit, budget - 1)
  }

  /** How many commits of that scan raise the skip mark. */
  function Extensions(s: State, prefixes: seq<int>, oracle: Oracle, limit: nat, budget: nat): nat
    decreases |prefixes|
  {
    if prefixes == [] || budget == 0 then
      0
    else
      var t := Step(s, prefixes[0], oracle);
      (if s.skipUntil < t.skipUntil then 1 else 0)
      + if limit <= t.failures then 0 else Extensions(t, prefixes[1..], oracle, limit, budget - 1)
  }

  /** Each rise of the mark has its own rows in the log. */
  lemma {:induction false} RisesAreLogged(s: State, prefixes: seq<int>, oracle: Oracle, limit: nat, budget: nat)
    ensures |s.log| + Extensions(s, prefixes, oracle, limit, budget) <= |Scan(s, prefixes, oracle, limit, budget).log|
    decreases |prefixes|
  {
    hide ScopeLast, ScopeFirst;
    if prefixes != [] && budget > 0 {
      var t := Step(s, prefixes[0], oracle);
      if t.failures < limit {
        RisesAreLogged(t, prefixes[1..], oracle, limit, budget - 1);
      }
    }
  }

  /** A retry of a prefix left pending by an earlier run: it can only leave the pending set. */
  function Retried(s: State, p: int, o: Outcome): State {
    var r := Recorded(s, p, o);
    match o.answer
    case None => r.(failures := r.failures + 1)
    case Some(_) => r.(pending := r.pending - {p}, failures := 0)
  }

  function Retry(s: State, prefixes: seq<int>, oracle: Oracle, limit: nat, budget: nat): State
    decreases |prefixes|
  {
    if prefixes == [] || budget == 0 then
      s
    else
      var t := Retried(s, prefixes[0], oracle(prefixes[0]));
      if limit <= t.failures then t else Retry(t, prefixes[1..], oracle, limit, budget - 1)
  }

  /** Whether a scan reaches the end of its prefixes. */
  predicate Exhausts(s: State, prefixes: seq<int>, oracle: Oracle, limit: nat, budget: nat)
    decreases |prefixes|
  {
    prefixes == []
    || (budget > 0 && var t := Step(s, prefixes[0], oracle);
                      t.failures < limit && Exhausts(t, prefixes[1..], oracle, limit, budget - 1))
  }

  // ---------- A whole run ----------

  /** How many inputs are at most `last`. */
  function Position(inputs: seq<int>, last: int): (n: nat)
    ensures n <= |inputs|
  {
    if inputs == [] then 0
    else if inputs[|inputs| - 1] <= last then |inputs|
    else Position(inputs[..|inputs| - 1], last)
  }

  lemma {:induction false} PositionSplits(inputs: seq<int>, last: int)
    requires Increasing(inputs)
    ensures var n := Position(inputs, last);
            && (forall i :: 0 <= i < n ==> inputs[i] <= last)
            && (forall i :: n <= i < |inputs| ==> last < inputs[i])
  {
    if inputs != [] && last < inputs[|inputs| - 1] {
      PositionSplits(inputs[..|inputs| - 1], last);
    }
  }

  lemma PositionNext(inputs: seq<int>, head: nat)
    requires Increasing(inputs) && head < |inputs|
    ensures Position(inputs, inputs[head]) == head + 1
  {
    PositionSplits(inputs, inputs[head]);
  }

  /** A run from a resumed state: the pending prefixes first, then the inputs not yet
      processed, cut after `budget` tasks. */
  ghost function RunFrom(s: State, inputs: seq<int>, oracle: Oracle, limit: nat, budget: nat): State {
    var todo := SortedList(s.pending);
    var r := Retry(s, todo, oracle, limit, budget);
    if limit <= r.failures || budget < |todo| then
      r
    else
      Scan(r, inputs[Position(inputs, r.lastPrefix)..], oracle, limit, budget - |todo|)
  }

  /** The run retries everything pending and reaches the end of the inputs. */
  ghost predicate Finishes(s: State, inputs: seq<int>, oracle: Oracle, limit: nat, budget: nat) {
    var todo := SortedList(s.pending);
    var r := Retry(s, todo, oracle, limit, budget);
    && r.failures < limit && |todo| <= budget
    && Exhausts(r, inputs[Position(inputs, r.lastPrefix)..], oracle, limit, budget - |todo|)
  }
}
