/** Pinning and restoring the hosts file: external effects interleaved with durable
    records, with a crash possible between any two. */
module HostsPin {
  import opened Wrappers
  import opened CrashPlans

  type Bytes = seq<char>

  datatype Cache = Directory | Responder | Proxy

  const CACHES := {Directory, Responder, Proxy}

  /** The persisted record of one attempt; the flags are the recorded completion times. */
  datatype Record = Record(previous: Bytes, applied: Bytes, installed: bool, installInferred: bool,
                           restoreInferred: bool, hostsRestored: bool, restored: bool)

  /** Everything that survives a crash. `stale` are the caches that may still hold the pin. */
  datatype Disk = Disk(hosts: Bytes, baseline: Option<Bytes>, appliedFile: Option<Bytes>,
                       record: Option<Record>, stale: set<Cache>)

  datatype Effect =
    | WriteBaseline(content: Bytes)
    | WriteApplied(content: Bytes)
    | WriteRecord(r: Record)
    | InstallApplied
    | InstallBaseline
    | Flush(cache: Cache)

  datatype Result = Refused | NothingToDo | Applied | Restored

  function Exec(d: Disk, e: Effect): Disk {
    match e
    case WriteBaseline(c) => d.(baseline := Some(c))
    case WriteApplied(c) => d.(appliedFile := Some(c))
    case WriteRecord(r) => d.(record := Some(r))
    case InstallApplied => if d.appliedFile.Some? then d.(hosts := d.appliedFile.value, stale := CACHES) else d
    case InstallBaseline => if d.baseline.Some? then d.(hosts := d.baseline.value) else d
    case Flush(c) =>
      // While the pin is installed a flushed cache fills with it again.
      if d.record.Some? && d.hosts == d.record.value.applied then d else d.(stale := d.stale - {c})
  }

  // ---------- Plans ----------

  function FlushAll(next: Plan<Effect, Result>): Plan<Effect, Result> {
    Then(Flush(Directory), Then(Flush(Responder), Then(Flush(Proxy), next)))
  }

  /** Installing, recording the completion, then flushing and looking the names up. */
  function InstallPlan(r: Record, lookupsOk: bool): Plan<Effect, Result> {
    var done := r.(installed := true);
    Then(InstallApplied, Then(WriteRecord(done),
      FlushAll(Then(WriteRecord(done), Stop(if lookupsOk then Applied else Refused)))))
  }

  /** Applying the pin: artifacts and record first, so that the install can be undone. */
  function ApplyPlan(hosts: Bytes, rendered: Option<Bytes>, lookupsOk: bool): Plan<Effect, Result> {
    if rendered.None? then
      Stop(Refused)
    else
      var r := Record(hosts, rendered.value, false, false, false, false, false);
      Then(WriteBaseline(hosts), Then(WriteApplied(rendered.value), Then(WriteRecord(r), InstallPlan(r, lookupsOk))))
  }

  function CompleteRestore(r: Record): Plan<Effect, Result> {
    Then(WriteRecord(r.(restored := true)), Stop(Restored))
  }

  function ReinstallPlan(d: Disk, r: Record): Plan<Effect, Result> {
    if d.baseline != Some(r.previous) then
      Stop(Refused)
    else
      Then(InstallBaseline, FlushAll(CompleteRestore(r.(hostsRestored := true))))
  }

  /** Restoring: what the record and the current hosts content together allow. */
  function RestorePlan(d: Disk): Plan<Effect, Result> {
    match d.record
    case None => Stop(NothingToDo)
    case Some(r) =>
      if r.restored then
        Stop(if d.hosts == r.previous then NothingToDo else Refused)
      else if d.hosts == r.applied then
        if r.installed then ReinstallPlan(d, r)
        else Then(WriteRecord(r.(installInferred := true)), ReinstallPlan(d, r.(installInferred := true)))
      else if d.hosts != r.previous then
        Stop(Refused)
      else if r.installed then
        Then(WriteRecord(r.(restoreInferred := true)), FlushAll(CompleteRestore(r.(restoreInferred := true))))
      else
        CompleteRestore(r)
  }

  // ---------- What every crash leaves ----------

  /** Without another writer: hosts is the baseline or the pinned content, and whenever it
      may be pinned the record and the baseline artifact to undo it are on disk. */
  ghost predicate Recoverable(d: Disk, base: Bytes, pinned: Bytes) {
    match d.record
    case None => d.hosts == base && d.stale == {}
    case Some(r) =>
      && r.previous == base && r.applied == pinned
      && d.baseline == Some(base) && d.appliedFile == Some(pinned)
      && (d.hosts == base || (d.hosts == pinned && !r.restored))
      && (d.hosts == pinned ==> d.stale == CACHES)
      && (r.restored && r.installed ==> d.stale == {})
  }

  ghost function Keeps(base: Bytes, pinned: Bytes): Disk -> bool {
    d => Recoverable(d, base, pinned)
  }

  function Clean(base: Bytes): Disk {
    Disk(base, None, None, None, {})
  }

  lemma ApplyKeeps(base: Bytes, pinned: Bytes, lookupsOk: bool)
    requires pinned != base
    ensures Always(Exec, Keeps(base, pinned), Clean(base), ApplyPlan(base, Some(pinned), lookupsOk))
  {
    var p0 := ApplyPlan(base, Some(pinned), lookupsOk);
    var d0 := Clean(base);
    var d1, p1 := Exec(d0, p0.effect), p0.rest;
    var d2, p2 := Exec(d1, p1.effect), p1.rest;
    var d3, p3 := Exec(d2, p2.effect), p2.rest;
    var d4, p4 := Exec(d3, p3.effect), p3.rest;
    var d5, p5 := Exec(d4, p4.effect), p4.rest;
    FlushAllKeeps(d5, base, pinned, p5.rest.rest.rest);
    assert Always(Exec, Keeps(base, pinned), d4, p4);
    assert Always(Exec, Keeps(base, pinned), d3, p3);
    assert Always(Exec, Keeps(base, pinned), d2, p2);
    assert Always(Exec, Keeps(base, pinned), d1, p1);
  }

  ghost function Flushed(d: Disk): Disk {
    Exec(Exec(Exec(d, Flush(Directory)), Flush(Responder)), Flush(Proxy))
  }

  lemma FlushAllKeeps(d: Disk, base: Bytes, pinned: Bytes, next: Plan<Effect, Result>)
    requires Recoverable(d, base, pinned) && d.record.Some? && pinned != base
    requires Always(Exec, Keeps(base, pinned), Flushed(d), next)
    ensures Always(Exec, Keeps(base, pinned), d, FlushAll(next))
  {
    var d1 := Exec(d, Flush(Directory));
    var d2 := Exec(d1, Flush(Responder));
    assert Always(Exec, Keeps(base, pinned), d2, Then(Flush(Proxy), next));
    assert Always(Exec, Keeps(base, pinned), d1, Then(Flush(Responder), Then(Flush(Proxy), next)));
  }

  lemma ReinstallKeeps(d: Disk, base: Bytes, pinned: Bytes, r: Record)
    requires Recoverable(d, base, pinned) && d.record == Some(r) && pinned != base && d.hosts == pinned
    ensures Always(Exec, Keeps(base, pinned), d, ReinstallPlan(d, r))
    ensures var end := Finish(Exec, d, ReinstallPlan(d, r)); end.hosts == base && end.stale == {}
    ensures Outcome(ReinstallPlan(d, r)) == Restored
  {
    var d1 := Exec(d, InstallBaseline);
    var next := CompleteRestore(r.(hostsRestored := true));
    FlushAllKeeps(d1, base, pinned, next);
    FlushAllFinishes(d1, next);
  }

  lemma FlushAllFinishes(d: Disk, next: Plan<Effect, Result>)
    ensures Finish(Exec, d, FlushAll(next)) == Finish(Exec, Flushed(d), next)
    ensures Outcome(FlushAll(next)) == Outcome(next) && Length(FlushAll(next)) == 3 + Length(next)
    ensures d.record.Some? && d.hosts != d.record.value.applied && d.stale <= CACHES ==> Flushed(d).stale == {}
  {
    hide Finish, Outcome, Length;
    var d1 := Exec(d, Flush(Directory));
    var d2 := Exec(d1, Flush(Responder));
    FinishStarts(Exec, d, FlushAll(next));
    FinishStarts(Exec, d1, Then(Flush(Responder), Then(Flush(Proxy), next)));
    FinishStarts(Exec, d2, Then(Flush(Proxy), next));
  }

  /** After a restore runs to its end: the baseline is back, and the caches are clean unless
      the install had left no trace but the caches themselves. */
  ghost predicate RestoredFrom(before: Disk, after: Disk, base: Bytes) {
    && after.hosts == base
    && (before.record.Some? && !before.record.value.restored ==>
          (after.stale == {} <==> before.stale == {} || before.hosts != base || before.record.value.installed))
  }

  /** From any recoverable state, restoring keeps it recoverable at every crash point, is
      never refused, and when it ends the hosts file is the baseline again. */
  lemma RestoreRecovers(d: Disk, base: Bytes, pinned: Bytes)
    requires Recoverable(d, base, pinned) && pinned != base && d.stale <= CACHES
    ensures Always(Exec, Keeps(base, pinned), d, RestorePlan(d))
    ensures Outcome(RestorePlan(d)) != Refused
    ensures RestoredFrom(d, Finish(Exec, d, RestorePlan(d)), base)
  {
    if d.record.Some? && !d.record.value.restored {
      var r := d.record.value;
      if d.hosts == pinned {
        var d1 := Exec(d, WriteRecord(r.(installInferred := true)));
        ReinstallKeeps(d, base, pinned, r);
        ReinstallKeeps(d1, base, pinned, r.(installInferred := true));
      } else if r.installed {
        var r1 := r.(restoreInferred := true);
        var d1 := Exec(d, WriteRecord(r1));
        FlushAllKeeps(d1, base, pinned, CompleteRestore(r1));
        FlushAllFinishes(d1, CompleteRestore(r1));
      }
    }
  }

  // ---------- Every crash schedule ----------

  function RestoreAll(d: Disk, budgets: seq<nat>): Disk
    decreases |budgets|
  {
    if budgets == [] then d
    else RestoreAll(Run(Exec, d, RestorePlan(d), budgets[0]), budgets[1..])
  }

  /** An attempt applied once and restored repeatedly, each cut at its own point. */
  function Attempt(base: Bytes, rendered: Option<Bytes>, lookupsOk: bool, applyBudget: nat, budgets: seq<nat>): Disk {
    RestoreAll(Run(Exec, Clean(base), ApplyPlan(base, rendered, lookupsOk), applyBudget), budgets)
  }

  ghost function KnownCaches(): Disk -> bool {
    (d: Disk) => d.stale <= CACHES
  }

  lemma {:induction false} CachesKnown(d: Disk, p: Plan<Effect, Result>)
    requires d.stale <= CACHES
    ensures Always(Exec, KnownCaches(), d, p)
    decreases p
  {
    if p.Then? {
      CachesKnown(Exec(d, p.effect), p.rest);
    }
  }

  lemma {:induction false} RestoreAllKeeps(d: Disk, base: Bytes, pinned: Bytes, budgets: seq<nat>)
    requires Recoverable(d, base, pinned) && pinned != base && d.stale <= CACHES
    ensures Recoverable(RestoreAll(d, budgets), base, pinned) && RestoreAll(d, budgets).stale <= CACHES
    decreases |budgets|
  {
    if budgets != [] {
      RestoreRecovers(d, base, pinned);
      AlwaysAtAnyCut(Exec, Keeps(base, pinned), d, RestorePlan(d), budgets[0]);
      CachesKnown(d, RestorePlan(d));
      AlwaysAtAnyCut(Exec, KnownCaches(), d, RestorePlan(d), budgets[0]);
      RestoreAllKeeps(Run(Exec, d, RestorePlan(d), budgets[0]), base, pinned, budgets[1..]);
    }
  }

  /** However often applying and restoring were interrupted, the hosts file is the baseline
      or the pinned content, and one more restore, left alone, brings the baseline back. */
  lemma EveryScheduleRecovers(base: Bytes, pinned: Bytes, lookupsOk: bool, applyBudget: nat, budgets: seq<nat>)
    requires pinned != base
    ensures var d := Attempt(base, Some(pinned), lookupsOk, applyBudget, budgets);
            && (d.hosts == base || d.hosts == pinned)
            && Outcome(RestorePlan(d)) != Refused
            && RestoredFrom(d, Finish(Exec, d, RestorePlan(d)), base)
  {
    ApplyKeeps(base, pinned, lookupsOk);
    AlwaysAtAnyCut(Exec, Keeps(base, pinned), Clean(base), ApplyPlan(base, Some(pinned), lookupsOk), applyBudget);
    CachesKnown(Clean(base), ApplyPlan(base, Some(pinned), lookupsOk));
    AlwaysAtAnyCut(Exec, KnownCaches(), Clean(base), ApplyPlan(base, Some(pinned), lookupsOk), applyBudget);
    var applied := Run(Exec, Clean(base), ApplyPlan(base, Some(pinned), lookupsOk), applyBudget);
    RestoreAllKeeps(applied, base, pinned, budgets);
    RestoreRecovers(RestoreAll(applied, budgets), base, pinned);
  }

  /** Content that is neither the baseline nor the pin is never overwritten, at any crash point. */
  lemma ThirdContentUntouched(d: Disk, budget: nat)
    requires d.record.Some? && d.hosts != d.record.value.previous && d.hosts != d.record.value.applied
    ensures Outcome(RestorePlan(d)) == Refused && Run(Exec, d, RestorePlan(d), budget) == d
  {
  }

  /** A refused restore has changed no byte of the hosts file. */
  lemma RefusedLeavesHosts(d: Disk, budget: nat)
    requires Outcome(RestorePlan(d)) == Refused
    ensures Run(Exec, d, RestorePlan(d), budget).hosts == d.hosts
  {
    var p := RestorePlan(d);
    if d.record.Some? && d.hosts == d.record.value.applied {
      var r := d.record.value;
      FlushAllFinishes(d, CompleteRestore(r.(hostsRestored := true)));
      FlushAllFinishes(d, CompleteRestore(r.(installInferred := true, hostsRestored := true)));
      assert p.Stop? || p.rest.Stop?;
    } else if d.record.Some? {
      FlushAllFinishes(d, CompleteRestore(d.record.value.(restoreInferred := true)));
    }
  }

  /** Cache flushing is not guaranteed: the process dies right after the install and, while
      restoring, right after putting the baseline back. The next restore succeeds and
      leaves every cache stale. */
  lemma StaleCachesPossible(base: Bytes, pinned: Bytes)
    requires pinned != base
    ensures var d := Attempt(base, Some(pinned), true, 4, [2]);
            Outcome(RestorePlan(d)) == Restored && Finish(Exec, d, RestorePlan(d)).stale == CACHES
  {
    var p := ApplyPlan(base, Some(pinned), true);
    var d0 := Clean(base);
    var d1, p1 := Exec(d0, p.effect), p.rest;
    var d2, p2 := Exec(d1, p1.effect), p1.rest;
    var d3, p3 := Exec(d2, p2.effect), p2.rest;
    var d4, p4 := Exec(d3, p3.effect), p3.rest;
    assert Run(Exec, d2, p2, 2) == Run(Exec, d3, p3, 1) == Run(Exec, d4, p4, 0) == d4;
    assert Run(Exec, d0, p, 4) == Run(Exec, d1, p1, 3) == d4;
    var q := RestorePlan(d4);
    var d5, q1 := Exec(d4, q.effect), q.rest;
    var d6 := Exec(d5, q1.effect);
    assert Run(Exec, d4, q, 2) == Run(Exec, d5, q1, 1) == Run(Exec, d6, q1.rest, 0) == d6;
    assert [2][1..] == [];
    assert RestoreAll(d4, [2]) == RestoreAll(d6, []) == d6;
  }

  // ---------- A recorded install ----------

  /** Every record the plan writes tells of the completed install. */
  predicate WritesInstalled(p: Plan<Effect, Result>) {
    p.Then? ==> (p.effect.WriteRecord? ==> p.effect.r.installed) && WritesInstalled(p.rest)
  }

  ghost function KnownInstall(): Disk -> bool {
    (d: Disk) => d.record.Some? && d.record.value.installed
  }

  lemma {:induction false} InstallStaysKnown(d: Disk, p: Plan<Effect, Result>)
    requires WritesInstalled(p) && KnownInstall()(d)
    ensures Always(Exec, KnownInstall(), d, p)
    decreases p
  {
    if p.Then? {
      InstallStaysKnown(Exec(d, p.effect), p.rest);
    }
  }

  lemma RestoreWritesInstalled(d: Disk)
    requires KnownInstall()(d)
    ensures WritesInstalled(RestorePlan(d))
  {
    var r := d.record.value;
    FlushWritesInstalled(CompleteRestore(r.(hostsRestored := true)));
    FlushWritesInstalled(CompleteRestore(r.(restoreInferred := true)));
  }

  lemma FlushWritesInstalled(next: Plan<Effect, Result>)
    ensures WritesInstalled(FlushAll(next)) == WritesInstalled(next)
  {
    assert WritesInstalled(Then(Flush(Responder), Then(Flush(Proxy), next))) == WritesInstalled(Then(Flush(Proxy), next));
  }

  lemma {:induction false} RestoresKeepInstall(d: Disk, budgets: seq<nat>)
    requires KnownInstall()(d)
    ensures KnownInstall()(RestoreAll(d, budgets))
    decreases |budgets|
  {
    if budgets != [] {
      RestoreWritesInstalled(d);
      InstallStaysKnown(d, RestorePlan(d));
      AlwaysAtAnyCut(Exec, KnownInstall(), d, RestorePlan(d), budgets[0]);
      RestoresKeepInstall(Run(Exec, d, RestorePlan(d), budgets[0]), budgets[1..]);
    }
  }

  /** Once an apply has returned, no cut of any number of restores loses the caches: the
      restore that returns leaves the baseline and every cache clean. */
  lemma ReturnedApplyIsUndone(base: Bytes, pinned: Bytes, lookupsOk: bool, applyBudget: nat, budgets: seq<nat>)
    requires pinned != base && applyBudget >= 9
    ensures var d := Attempt(base, Some(pinned), lookupsOk, applyBudget, budgets);
            && Outcome(RestorePlan(d)) in {Restored, NothingToDo}
            && var end := Finish(Exec, d, RestorePlan(d)); end.hosts == base && end.stale == {}
  {
    hide RestorePlan, ApplyPlan;
    ApplyEnds(Clean(base), pinned, lookupsOk);
    var p := ApplyPlan(base, Some(pinned), lookupsOk);
    UninterruptedRun(Exec, Clean(base), p, applyBudget);
    ApplyKeeps(base, pinned, lookupsOk);
    AlwaysAtAnyCut(Exec, Keeps(base, pinned), Clean(base), p, applyBudget);
    var applied := Pinned(base, pinned);
    RestoresKeepInstall(applied, budgets);
    RestoreAllKeeps(applied, base, pinned, budgets);
    var d := RestoreAll(applied, budgets);
    RestoreEnds(d);
    RestoreRecovers(d, base, pinned);
    FinishStarts(Exec, d, RestorePlan(d));
    if d.record.value.restored {
      NothingLeft(d);
    }
  }

  lemma NothingLeft(d: Disk)
    requires d.record.Some? && d.record.value.restored
    ensures Finish(Exec, d, RestorePlan(d)) == d
  {
  }

  // ---------- The operations on the live system ----------

  /** An uninterrupted apply of a rendered pin leaves exactly this. */
  function Pinned(base: Bytes, pinned: Bytes): Disk {
    Disk(pinned, Some(base), Some(pinned), Some(Record(base, pinned, true, false, false, false, false)), CACHES)
  }

  lemma ApplyEnds(d: Disk, pinned: Bytes, lookupsOk: bool)
    ensures var p := ApplyPlan(d.hosts, Some(pinned), lookupsOk);
            && Finish(Exec, d, p) == Pinned(d.hosts, pinned) && Length(p) == 9
            && Outcome(p) == if lookupsOk then Applied else Refused
  {
    hide FlushAll, Finish, Outcome, Length;
    var p := ApplyPlan(d.hosts, Some(pinned), lookupsOk);
    var d1 := Exec(d, p.effect);
    FinishStarts(Exec, d, p);
    var d2, p2 := Exec(d1, p.rest.effect), p.rest.rest;
    FinishStarts(Exec, d1, p.rest);
    var d3, p3 := Exec(d2, p2.effect), p2.rest;
    FinishStarts(Exec, d2, p2);
    var d4, p4 := Exec(d3, p3.effect), p3.rest;
    FinishStarts(Exec, d3, p3);
    FinishStarts(Exec, d4, p4);
    var d5, last := Exec(d4, p4.effect), Then(p4.effect, Stop(if lookupsOk then Applied else Refused));
    FlushAllFinishes(d5, last);
    FinishStarts(Exec, Flushed(d5), last);
    FinishStarts(Exec, Exec(Flushed(d5), last.effect), last.rest);
  }

  lemma ApplyAnswers(before: Disk, after: Disk, rendered: Option<Bytes>, lookupsOk: bool, budget: nat, result: Option<Result>)
    requires Carried(Exec, before, after, ApplyPlan(before.hosts, rendered, lookupsOk), budget, result)
    ensures rendered.None? ==> after == before && result == Some(Refused)
    ensures rendered.Some? ==> if budget < 9 then result == None
                               else result == Some(if lookupsOk then Applied else Refused)
                                    && after == Pinned(before.hosts, rendered.value)
  {
    hide Finish, Outcome, Length, FlushAll, Pinned;
    var p := ApplyPlan(before.hosts, rendered, lookupsOk);
    FinishStarts(Exec, before, p);
    if rendered.Some? {
      ApplyEnds(before, rendered.value, lookupsOk);
      if result.Some? {
        UninterruptedRun(Exec, before, p, budget);
      }
    }
  }

  /** In any state at all, why a restore is refused. */
  predicate Conflict(d: Disk) {
    d.record.Some? && var r := d.record.value;
                      if r.restored then d.hosts != r.previous
                      else if d.hosts == r.applied then d.baseline != Some(r.previous)
                      else d.hosts != r.previous
  }

  /** The recorded baseline is back, and the caches are flushed if the pin was installed. */
  ghost predicate Undone(d: Disk, after: Disk) {
    && d.record.Some? && after.record.Some? && after.record.value.restored
    && after.hosts == d.record.value.previous && after.baseline == d.baseline && after.appliedFile == d.appliedFile
    && (d.stale <= CACHES && after.hosts != d.record.value.applied ==>
          after.stale == if d.record.value.installed || d.hosts == d.record.value.applied then {} else d.stale)
  }

  /** In any state at all: what a restore answers, and what a successful one leaves. */
  lemma RestoreEnds(d: Disk)
    ensures var p := RestorePlan(d);
            && (Outcome(p) == NothingToDo <==> d.record.None? || (d.record.value.restored && d.hosts == d.record.value.previous))
            && (Outcome(p) == Refused <==> Conflict(d))
            && (Outcome(p) == Restored ==> !d.record.value.restored && Undone(d, Finish(Exec, d, p)))
            && Outcome(p) != Applied && Length(p) <= 6
  {
    hide FlushAll, Finish, Outcome, Length;
    var p := RestorePlan(d);
    FinishStarts(Exec, d, p);
    if p.Then? {
      var r := d.record.value;
      FinishStarts(Exec, Exec(d, p.effect), p.rest);
      if d.hosts == r.applied {
        var r1 := if r.installed then r else r.(installInferred := true);
        var d1 := if r.installed then d else Exec(d, WriteRecord(r1));
        if d.baseline == Some(r.previous) {
          FinishStarts(Exec, d1, ReinstallPlan(d, r1));
          UndoneEnds(Exec(d1, InstallBaseline), r1.(hostsRestored := true));
        }
      } else if r.installed {
        UndoneEnds(Exec(d, p.effect), r.(restoreInferred := true));
      }
    }
  }

  lemma UndoneEnds(d: Disk, r: Record)
    ensures var p := FlushAll(CompleteRestore(r));
            && Outcome(p) == Restored && Length(p) == 4
            && Finish(Exec, d, p) == Flushed(d).(record := Some(r.(restored := true)))
    ensures d.record.Some? && d.hosts != d.record.value.applied && d.stale <= CACHES ==> Flushed(d).stale == {}
    ensures Flushed(d).(stale := {}) == d.(stale := {})
  {
    var next := CompleteRestore(r);
    FlushAllFinishes(d, next);
    FinishStarts(Exec, Flushed(d), next);
  }

  /** What a restore, wherever it dies, does to a recoverable state. */
  lemma CarriedRestore(before: Disk, after: Disk, budget: nat, result: Option<Result>, base: Bytes, pinned: Bytes)
    requires Carried(Exec, before, after, RestorePlan(before), budget, result)
    requires Recoverable(before, base, pinned) && pinned != base && before.stale <= CACHES
    ensures Recoverable(after, base, pinned) && after.stale <= CACHES
    ensures result.Some? ==> result.value != Refused && RestoredFrom(before, after, base)
  {
    RestoreRecovers(before, base, pinned);
    CarriedKeeps(Exec, Keeps(base, pinned), before, after, RestorePlan(before), budget, result);
    CachesKnown(before, RestorePlan(before));
    CarriedKeeps(Exec, KnownCaches(), before, after, RestorePlan(before), budget, result);
  }

  /** What the answer of a restore says about the state before and behind it. */
  ghost predicate Answered(before: Disk, after: Disk, result: Option<Result>) {
    && (result == Some(NothingToDo) ==>
          after == before && (before.record.None? || (before.record.value.restored && before.hosts == before.record.value.previous)))
    && (result == Some(Refused) ==> Conflict(before) && after.hosts == before.hosts)
    && (result == Some(Restored) ==>
          before.record.Some? && !before.record.value.restored && !Conflict(before) && Undone(before, after))
    && result != Some(Applied)
  }

  lemma RestoreAnswers(before: Disk, after: Disk, budget: nat, result: Option<Result>)
    requires Carried(Exec, before, after, RestorePlan(before), budget, result)
    ensures Answered(before, after, result) && (budget >= 6 ==> result.Some?)
  {
    hide Undone, Conflict, FlushAll, ReinstallPlan;
    RestoreEnds(before);
    if result == Some(Refused) {
      RefusedLeavesHosts(before, budget);
    } else if result.Some? {
      UninterruptedRun(Exec, before, RestorePlan(before), budget);
    }
  }

  class System {
    var hosts: Bytes
    var baseline: Option<Bytes>
    var appliedFile: Option<Bytes>
    var record: Option<Record>
    var stale: set<Cache>

    ghost function Now(): Disk
      reads this
    {
      Disk(hosts, baseline, appliedFile, record, stale)
    }

    method WriteJson(r: Record)
      modifies `record
      ensures Now() == Exec(old(Now()), WriteRecord(r))
    {
      record := Some(r);
    }

    method InstallFrom(content: Option<Bytes>)
      modifies `hosts
      ensures content.Some? ==> Now() == old(Now()).(hosts := content.value)
      ensures content.None? ==> Now() == old(Now())
    {
      if content.Some? {
        hosts := content.value;
      }
    }

    /** Flushes one cache, which while the pin is installed only fills it with the pin again. */
    method FlushCache(cache: Cache)
      modifies `stale
      ensures Now() == Exec(old(Now()), Flush(cache))
    {
      if !(record.Some? && hosts == record.value.applied) {
        stale := stale - {cache};
      }
    }

    /** Flushes the three caches in turn, unless the process dies first. */
    method FlushCaches(budget: nat, ghost next: Plan<Effect, Result>) returns (left: Option<nat>)
      modifies `stale
      ensures left.Some? ==> Reached(Exec, old(Now()), FlushAll(next), budget, Now(), next, left.value)
      ensures left.None? ==> Carried(Exec, old(Now()), Now(), FlushAll(next), budget, None)
    {
      hide Reached, Carried, Exec;
      var caches := [Directory, Responder, Proxy];
      ghost var d0, p0 := Now(), FlushAll(next);
      ghost var p := p0;
      Begins(Exec, d0, p0, budget);
      for i := 0 to 3
        invariant i <= budget && Reached(Exec, d0, p0, budget, Now(), p, budget - i)
        invariant p == match i case 0 => p0 case 1 => Then(Flush(Responder), Then(Flush(Proxy), next))
                               case 2 => Then(Flush(Proxy), next) case _ => next
      {
        if i == budget {
          Dies(Exec, d0, p0, budget, Now(), p);
          return None;
        }
        Advances(Exec, d0, p0, budget, Now(), p, budget - i);
        FlushCache(caches[i]);
        p := p.rest;
      }
      left := Some(budget - 3);
    }

    method Install(r: Record, lookupsOk: bool, budget: nat) returns (result: Option<Result>)
      modifies this
      ensures Carried(Exec, old(Now()), Now(), InstallPlan(r, lookupsOk), budget, result)
    {
      hide Reached, Carried;
      ghost var d0, p0 := Now(), InstallPlan(r, lookupsOk);
      Begins(Exec, d0, p0, budget);
      if budget == 0 { Dies(Exec, d0, p0, budget, Now(), p0); return None; }
      Advances(Exec, d0, p0, budget, Now(), p0, budget);
      if appliedFile.Some? {
        InstallFrom(appliedFile);
        stale := CACHES;
      }
      if budget == 1 { Dies(Exec, d0, p0, budget, Now(), p0.rest); return None; }
      Advances(Exec, d0, p0, budget, Now(), p0.rest, budget - 1);
      var done := r.(installed := true);
      WriteJson(done);
      ghost var next := Then(WriteRecord(done), Stop(if lookupsOk then Applied else Refused));
      ghost var d2 := Now();
      var left := FlushCaches(budget - 2, next);
      if left.None? { HandsOver(Exec, d0, p0, budget, d2, FlushAll(next), budget - 2, Now(), None); return None; }
      Chains(d0, p0, budget, d2, FlushAll(next), budget - 2, Now(), next, left.value);
      if left.value == 0 { Dies(Exec, d0, p0, budget, Now(), next); return None; }
      Advances(Exec, d0, p0, budget, Now(), next, left.value);
      WriteJson(done);
      result := Some(if lookupsOk then Applied else Refused);
      Ends(Exec, d0, p0, budget, Now(), next.rest, left.value - 1);
    }

    /** Applies the pin; `None` when the process died after `budget` effects. It succeeds
        exactly when the pin can be rendered and the lookups show it, and on return has left
        exactly the recorded pin. From a clean start the pin can be undone wherever it died. */
    method Apply(rendered: Option<Bytes>, lookupsOk: bool, budget: nat) returns (result: Option<Result>)
      modifies this
      ensures Carried(Exec, old(Now()), Now(), ApplyPlan(old(hosts), rendered, lookupsOk), budget, result)
      ensures rendered.None? ==> Now() == old(Now()) && result == Some(Refused)
      ensures rendered.Some? ==> (result.Some? <==> budget >= 9)
      ensures rendered.Some? && result.Some? ==>
                result == Some(if lookupsOk then Applied else Refused) && Now() == Pinned(old(hosts), rendered.value)
      ensures old(Now()) == Clean(old(hosts)) && rendered.Some? && rendered.value != old(hosts) ==>
                Recoverable(Now(), old(hosts), rendered.value)
    {
      hide Reached, Carried, Recoverable, InstallPlan, Pinned;
      ghost var d0, p0 := Now(), ApplyPlan(hosts, rendered, lookupsOk);
      result := ApplySteps(rendered, lookupsOk, budget);
      ApplyAnswers(d0, Now(), rendered, lookupsOk, budget, result);
      if d0 == Clean(d0.hosts) && rendered.Some? && rendered.value != d0.hosts {
        ApplyKeeps(d0.hosts, rendered.value, lookupsOk);
        CarriedKeeps(Exec, Keeps(d0.hosts, rendered.value), d0, Now(), p0, budget, result);
      }
    }

    method ApplySteps(rendered: Option<Bytes>, lookupsOk: bool, budget: nat) returns (result: Option<Result>)
      modifies this
      ensures Carried(Exec, old(Now()), Now(), ApplyPlan(old(hosts), rendered, lookupsOk), budget, result)
    {
      hide Reached, Carried, InstallPlan;
      ghost var d0, p0 := Now(), ApplyPlan(hosts, rendered, lookupsOk);
      Begins(Exec, d0, p0, budget);
      if rendered.None? {
        Ends(Exec, d0, p0, budget, Now(), p0, budget);
        return Some(Refused);
      }
      var r := Record(hosts, rendered.value, false, false, false, false, false);
      if budget == 0 { Dies(Exec, d0, p0, budget, Now(), p0); return None; }
      Advances(Exec, d0, p0, budget, Now(), p0, budget);
      baseline := Some(hosts);
      if budget == 1 { Dies(Exec, d0, p0, budget, Now(), p0.rest); return None; }
      Advances(Exec, d0, p0, budget, Now(), p0.rest, budget - 1);
      appliedFile := Some(rendered.value);
      if budget == 2 { Dies(Exec, d0, p0, budget, Now(), p0.rest.rest); return None; }
      Advances(Exec, d0, p0, budget, Now(), p0.rest.rest, budget - 2);
      WriteJson(r);
      ghost var d3 := Now();
      result := Install(r, lookupsOk, budget - 3);
      HandsOver(Exec, d0, p0, budget, d3, p0.rest.rest.rest, budget - 3, Now(), result);
    }

    /** Flush and completion shared by the restore paths. */
    method FlushAndComplete(r: Record, budget: nat) returns (result: Option<Result>)
      modifies `stale, `record
      ensures Carried(Exec, old(Now()), Now(), FlushAll(CompleteRestore(r)), budget, result)
    {
      hide Reached, Carried, FlushAll;
      ghost var d0, p0, next := Now(), FlushAll(CompleteRestore(r)), CompleteRestore(r);
      var left := FlushCaches(budget, next);
      if left.None? { return None; }
      if left.value == 0 { Dies(Exec, d0, p0, budget, Now(), next); return None; }
      Advances(Exec, d0, p0, budget, Now(), next, left.value);
      WriteJson(r.(restored := true));
      result := Some(Restored);
      Ends(Exec, d0, p0, budget, Now(), next.rest, left.value - 1);
    }

    method Reinstall(r: Record, budget: nat) returns (result: Option<Result>)
      modifies this
      ensures Carried(Exec, old(Now()), Now(), ReinstallPlan(old(Now()), r), budget, result)
    {
      hide Reached, Carried, FlushAll;
      ghost var d0, p0 := Now(), ReinstallPlan(Now(), r);
      Begins(Exec, d0, p0, budget);
      if baseline != Some(r.previous) {
        Ends(Exec, d0, p0, budget, Now(), p0, budget);
        return Some(Refused);
      }
      if budget == 0 { Dies(Exec, d0, p0, budget, Now(), p0); return None; }
      Advances(Exec, d0, p0, budget, Now(), p0, budget);
      InstallFrom(baseline);
      ghost var d1 := Now();
      result := FlushAndComplete(r.(hostsRestored := true), budget - 1);
      HandsOver(Exec, d0, p0, budget, d1, p0.rest, budget - 1, Now(), result);
    }

    /** Restores what a previous apply may have changed; can itself be interrupted. In any state
        the answer says what was found and what is left; from a recoverable state it stays recoverable, and when it returns hosts is the baseline. */
    method Restore(budget: nat) returns (result: Option<Result>)
      modifies this
      ensures Carried(Exec, old(Now()), Now(), RestorePlan(old(Now())), budget, result)
      ensures Answered(old(Now()), Now(), result) && (budget >= 6 ==> result.Some?)
      ensures forall base, pinned ::
                Recoverable(old(Now()), base, pinned) && pinned != base && old(stale) <= CACHES ==>
                  && Recoverable(Now(), base, pinned) && stale <= CACHES
                  && (result.Some? ==> result.value != Refused && hosts == base && RestoredFrom(old(Now()), Now(), base))
    {
      hide Carried, Recoverable, RestorePlan, Answered;
      ghost var d0 := Now();
      result := RestoreSteps(budget);
      RestoreAnswers(d0, Now(), budget, result);
      forall base, pinned | Recoverable(d0, base, pinned) && pinned != base && d0.stale <= CACHES
        ensures Recoverable(Now(), base, pinned) && stale <= CACHES
        ensures result.Some? ==> result.value != Refused && RestoredFrom(d0, Now(), base)
      {
        CarriedRestore(d0, Now(), budget, result, base, pinned);
      }
    }

    method RestoreSteps(budget: nat) returns (result: Option<Result>)
      modifies this
      ensures Carried(Exec, old(Now()), Now(), RestorePlan(old(Now())), budget, result)
    {
      hide Reached, Carried, FlushAll, ReinstallPlan;
      ghost var d0, p0 := Now(), RestorePlan(Now());
      Begins(Exec, d0, p0, budget);
      if record.None? {
        Ends(Exec, d0, p0, budget, Now(), p0, budget);
        return Some(NothingToDo);
      }
      var r := record.value;
      if r.restored {
        Ends(Exec, d0, p0, budget, Now(), p0, budget);
        return Some(if hosts == r.previous then NothingToDo else Refused);
      }
      var recorded := r.installed;
      if hosts == r.applied && recorded {
        result := Reinstall(r, budget);
        return;
      }
      if hosts != r.applied && hosts != r.previous {
        Ends(Exec, d0, p0, budget, Now(), p0, budget);
        return Some(Refused);
      }
      if budget == 0 { Dies(Exec, d0, p0, budget, Now(), p0); return None; }
      Advances(Exec, d0, p0, budget, Now(), p0, budget);
      if hosts == r.applied {
        r := r.(installInferred := true);
        WriteJson(r);
        ghost var d1 := Now();
        ReinstallSame(d0, d1, r);
        result := Reinstall(r, budget - 1);
        HandsOver(Exec, d0, p0, budget, d1, p0.rest, budget - 1, Now(), result);
      } else if recorded {
        r := r.(restoreInferred := true);
        WriteJson(r);
        ghost var d1 := Now();
        result := FlushAndComplete(r, budget - 1);
        HandsOver(Exec, d0, p0, budget, d1, p0.rest, budget - 1, Now(), result);
      } else {
        WriteJson(r.(restored := true));
        result := Some(Restored);
        Ends(Exec, d0, p0, budget, Now(), p0.rest, budget - 1);
      }
    }
  }

  lemma ReinstallSame(d: Disk, d': Disk, r: Record)
    requires d.baseline == d'.baseline
    ensures ReinstallPlan(d, r) == ReinstallPlan(d', r)
  {
  }

  lemma Chains(d0: Disk, p0: Plan<Effect, Result>, budget: nat, d1: Disk, p1: Plan<Effect, Result>, left1: nat,
               d2: Disk, p2: Plan<Effect, Result>, left2: nat)
    requires Reached(Exec, d0, p0, budget, d1, p1, left1) && Reached(Exec, d1, p1, left1, d2, p2, left2)
    ensures Reached(Exec, d0, p0, budget, d2, p2, left2)
  {
  }
}
