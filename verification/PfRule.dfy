/** Preparing and clearing the diagnostic packet-filter rule and its enable reference. */
module PfRule {
  import opened Wrappers
  import opened CrashPlans

  type Text = string

  /** The file that catches the output of the enable command. */
  datatype Output = Absent | Empty | Shows(token: nat)

  datatype Record = Record(enableRequired: bool, enableStarted: bool, outputSaved: Option<Output>, token: Option<nat>,
                           exactRule: Option<Text>, loadStarted: bool, ruleLoaded: bool, snapshot: Text,
                           clearStarted: bool, releaseStarted: bool, released: bool, restored: bool)

  /** What survives a crash: the anchor's rules as the packet filter prints them, the enable
      references this attempt holds, its artifacts, and the history of two external actions. */
  datatype Disk = Disk(anchor: Text, held: set<nat>, output: Output, record: Option<Record>,
                       releases: seq<nat>, flushed: seq<Text>)

  datatype Effect =
    | Save(r: Record)
    | TouchOutput
    | Enable(token: nat)
    | ShowToken(token: nat)
    | Load(printed: Text)
    | FlushRules
    | Release(token: nat)

  datatype Result = Refused | NothingToDo | Prepared | Cleared

  function Exec(d: Disk, e: Effect): Disk {
    match e
    case Save(r) => d.(record := Some(r))
    case TouchOutput => d.(output := Empty)
    case Enable(t) => d.(held := d.held + {t})
    case ShowToken(t) => d.(output := Shows(t))
    case Load(printed) => d.(anchor := printed)
    case FlushRules => d.(anchor := "", flushed := d.flushed + [d.anchor])
    case Release(t) => d.(held := d.held - {t}, releases := d.releases + [t])
  }

  /** One attempt's circumstances: the condition, whether PF was already enabled, the exact
      rule and how PF prints it once loaded, the token an enable yields (none when the
      command fails), and whether the printed rule passes the final check. */
  datatype Env = Env(blocked: bool, wasEnabled: bool, rule: Text, printed: Text, grant: Option<nat>, exact: bool)

  type PfPlan = Plan<Effect, Result>

  // ---------- Preparing ----------

  /** Keeping what was loaded before checking that it is exactly the approved rule. */
  function CheckPlan(loaded: Record, env: Env): PfPlan {
    Then(Save(loaded),
      if env.exact then Then(Save(loaded.(ruleLoaded := true)), Stop(Prepared)) else Stop(Refused))
  }

  /** Recording a rule that has been loaded, and checking it. */
  function RecordLoadPlan(r: Record, env: Env): PfPlan {
    Then(Save(r), CheckPlan(r.(ruleLoaded := env.printed != "", snapshot := env.printed), env))
  }

  function LoadPlan(r: Record, env: Env): PfPlan {
    var started := r.(exactRule := Some(env.rule), loadStarted := true);
    Then(Save(started), Then(Load(env.printed), RecordLoadPlan(started, env)))
  }

  /** What the enable command does, its output reaching the artifact after the fact. */
  function GrantPlan(r: Record, env: Env): PfPlan {
    match env.grant
    case None => Then(Save(r.(outputSaved := Some(Empty))), Stop(Refused))
    case Some(t) =>
      var saved := r.(outputSaved := Some(Shows(t)));
      Then(Enable(t), Then(ShowToken(t), Then(Save(saved), LoadPlan(saved.(token := Some(t)), env))))
  }

  function EnablePlan(r: Record, env: Env): PfPlan {
    var started := r.(enableStarted := true);
    Then(Save(started), Then(TouchOutput, GrantPlan(started, env)))
  }

  function FirstRecord(env: Env): Record {
    Record(!env.wasEnabled, false, None, None, None, false, false, "", false, false, false, false)
  }

  function PreparePlan(d: Disk, env: Env): PfPlan {
    if d.anchor != "" then
      Stop(Refused)
    else
      var r := FirstRecord(env);
      Then(Save(r),
        if !env.blocked then Then(Save(r), Stop(Prepared))
        else if env.wasEnabled then LoadPlan(r, env)
        else EnablePlan(r, env))
  }

  // ---------- Clearing ----------

  /** The enable token as record and output file tell it; `None` when they disagree. */
  function KnownToken(d: Disk, r: Record): Option<Option<nat>> {
    match (r.token, d.output)
    case (Some(t), Shows(u)) => if t == u then Some(Some(t)) else None
    case (Some(t), _) => Some(Some(t))
    case (None, Shows(u)) => Some(Some(u))
    case (None, _) => Some(None)
  }

  function EvidenceBlocks(d: Disk, r: Record): bool {
    var known := KnownToken(d, r);
    || (r.outputSaved.Some? && d.output != Absent && r.outputSaved.value != d.output)
    || known.None?
    || (r.enableRequired && r.enableStarted && known.value.None?)
    || (r.enableRequired && r.loadStarted && !r.enableStarted)
    || (!r.enableRequired && known.value.Some?)
    || (r.releaseStarted && !r.released)
  }

  function ReleasePlan(r: Record, token: Option<nat>): PfPlan {
    match token
    case None => Then(Save(r.(restored := true)), Stop(Cleared))
    case Some(t) =>
      var releasing := r.(token := Some(t), releaseStarted := true);
      Then(Save(releasing), Then(Release(t), Then(Save(releasing.(released := true, restored := true)), Stop(Cleared))))
  }

  function ClearPlan(d: Disk, r: Record, token: Option<nat>): PfPlan {
    if d.anchor == "" then
      ReleasePlan(r, token)
    else
      var clearing := r.(clearStarted := true);
      Then(Save(clearing), Then(FlushRules, ReleasePlan(clearing, token)))
  }

  function RestorePlan(d: Disk, norm: Text -> Text): PfPlan {
    match d.record
    case None => Stop(NothingToDo)
    case Some(r) =>
      if r.restored then
        Stop(if d.anchor == "" then NothingToDo else Refused)
      else if EvidenceBlocks(d, r) then
        Stop(Refused)
      else
        var token := KnownToken(d, r).value;
        if r.ruleLoaded then
          if d.anchor != r.snapshot && !(d.anchor == "" && r.clearStarted) then Stop(Refused)
          else ClearPlan(d, r, token)
        else if d.anchor == "" then
          ClearPlan(d, r, token)
        else if !r.loadStarted || r.exactRule.None? || norm(d.anchor) != norm(r.exactRule.value) then
          Stop(Refused)
        else
          var inferred := r.(ruleLoaded := true, snapshot := d.anchor);
          Then(Save(inferred), ClearPlan(d, inferred, token))
  }

  // ---------- What every crash leaves ----------

  ghost predicate ReferencesSound(d: Disk, r: Record, env: Env) {
    && (r.enableStarted ==> env.blocked && !env.wasEnabled)
    && (d.output != Absent || d.held != {} ==> r.enableStarted)
    && (d.output.Shows? ==> env.grant == Some(d.output.token))
    && (r.token.Some? ==> d.output == Shows(r.token.value))
    && (r.outputSaved.Some? ==> r.outputSaved.value == d.output)
    && (r.releaseStarted ==> d.output.Shows? && d.anchor == "")
    && (r.released ==> r.releaseStarted && r.restored)
    && (if d.releases == [] then
          && !r.released
          && (d.held == {} || (env.grant.Some? && d.held == {env.grant.value}))
          && (d.output.Shows? ==> d.held == {d.output.token})
        else
          d.output.Shows? && d.releases == [d.output.token] && d.held == {} && r.releaseStarted)
    && (r.restored ==> d.anchor == "" && d.held == {})
  }

  ghost predicate RulesSound(d: Disk, r: Record, env: Env) {
    && r.enableRequired == !env.wasEnabled
    && (r.loadStarted ==> env.blocked && r.exactRule == Some(env.rule) && (env.wasEnabled || (r.enableStarted && d.output.Shows?)))
    && (d.anchor != "" ==> d.anchor == env.printed && r.loadStarted)
    && (r.ruleLoaded ==> r.loadStarted && r.snapshot == env.printed && env.printed != "")
    && (r.ruleLoaded && !r.clearStarted ==> d.anchor == env.printed)
    && (forall f :: f in d.flushed ==> f == env.printed)
  }

  /** What holds at every crash point of one attempt with no other writer. */
  ghost predicate Sound(d: Disk, env: Env) {
    match d.record
    case None => d == Clean()
    case Some(r) => ReferencesSound(d, r, env) && RulesSound(d, r, env)
  }

  function Clean(): Disk {
    Disk("", {}, Absent, None, [], [])
  }

  ghost function Keeps(env: Env): Disk -> bool {
    d => Sound(d, env)
  }

  lemma LoadKeeps(d: Disk, r: Record, env: Env)
    requires (env.exact ==> env.printed != "") && Sound(d, env) && d.record.Some? && d.anchor == "" && d.releases == []
    requires Sound(Exec(d, Save(r)), env) && !r.loadStarted && !r.ruleLoaded && !r.clearStarted && !r.releaseStarted && !r.restored
    requires env.blocked && (env.wasEnabled || (r.enableStarted && d.output.Shows?))
    ensures Always(Exec, Keeps(env), d, LoadPlan(r, env))
  {
    var p0 := LoadPlan(r, env);
    var d1, p1 := Exec(d, p0.effect), p0.rest;
    var d2, p2 := Exec(d1, p1.effect), p1.rest;
    var d3, p3 := Exec(d2, p2.effect), p2.rest;
    var d4, p4 := Exec(d3, p3.effect), p3.rest;
    assert Always(Exec, Keeps(env), d4, p4);
    assert Always(Exec, Keeps(env), d3, p3);
    assert Always(Exec, Keeps(env), d2, p2);
    assert Always(Exec, Keeps(env), d1, p1);
  }

  lemma EnableKeeps(d: Disk, env: Env)
    requires (env.exact ==> env.printed != "") && env.blocked && !env.wasEnabled && d == Exec(Clean(), Save(FirstRecord(env)))
    ensures Always(Exec, Keeps(env), d, EnablePlan(FirstRecord(env), env))
  {
    var p0 := EnablePlan(FirstRecord(env), env);
    var d1, p1 := Exec(d, p0.effect), p0.rest;
    var d2, p2 := Exec(d1, p1.effect), p1.rest;
    var d3, p3 := Exec(d2, p2.effect), p2.rest;
    if env.grant.Some? {
      var d4, p4 := Exec(d3, p3.effect), p3.rest;
      var d5, p5 := Exec(d4, p4.effect), p4.rest;
      LoadKeeps(d5, p4.effect.r.(token := env.grant), env);
      assert Always(Exec, Keeps(env), d4, p4);
    }
    assert Always(Exec, Keeps(env), d3, p3);
    assert Always(Exec, Keeps(env), d2, p2);
    assert Always(Exec, Keeps(env), d1, p1);
  }

  lemma PrepareKeeps(env: Env)
    requires env.exact ==> env.printed != ""
    ensures Always(Exec, Keeps(env), Clean(), PreparePlan(Clean(), env))
  {
    var r := FirstRecord(env);
    var d1 := Exec(Clean(), Save(r));
    if env.blocked {
      if env.wasEnabled {
        LoadKeeps(d1, r, env);
      } else {
        EnableKeeps(d1, env);
      }
    } else {
      assert Always(Exec, Keeps(env), d1, Then(Save(r), Stop(Prepared)));
    }
  }

  lemma ReleaseKeeps(d: Disk, r: Record, env: Env, token: Option<nat>)
    requires Sound(d, env) && d.record == Some(r) && d.anchor == "" && d.releases == []
    requires token == if d.output.Shows? then Some(d.output.token) else None
    requires token.None? ==> !r.enableStarted
    ensures Always(Exec, Keeps(env), d, ReleasePlan(r, token))
    ensures var end := Finish(Exec, d, ReleasePlan(r, token)); end.anchor == "" && end.held == {}
    ensures Outcome(ReleasePlan(r, token)) == Cleared
  {
    var p0 := ReleasePlan(r, token);
    if token.Some? {
      var d1, p1 := Exec(d, p0.effect), p0.rest;
      var d2, p2 := Exec(d1, p1.effect), p1.rest;
      assert Always(Exec, Keeps(env), d2, p2);
      assert Always(Exec, Keeps(env), d1, p1);
      assert Finish(Exec, d, p0) == Finish(Exec, d1, p1) == Finish(Exec, d2, p2);
      assert Finish(Exec, Exec(d2, p2.effect), p2.rest) == Exec(d2, p2.effect);
    }
    ReleaseSucceeds(r, token);
  }

  lemma ClearKeeps(d: Disk, r: Record, env: Env, token: Option<nat>)
    requires Sound(d, env) && d.record == Some(r) && d.releases == []
    requires d.anchor != "" ==> r.ruleLoaded
    requires !r.releaseStarted
    requires token == if d.output.Shows? then Some(d.output.token) else None
    requires token.None? ==> !r.enableStarted
    ensures Always(Exec, Keeps(env), d, ClearPlan(d, r, token))
    ensures var end := Finish(Exec, d, ClearPlan(d, r, token)); end.anchor == "" && end.held == {}
    ensures Outcome(ClearPlan(d, r, token)) == Cleared
  {
    if d.anchor == "" {
      ReleaseKeeps(d, r, env, token);
    } else {
      var clearing := r.(clearStarted := true);
      var d1 := Exec(d, Save(clearing));
      var d2 := Exec(d1, FlushRules);
      ReleaseKeeps(d2, clearing, env, token);
      assert Always(Exec, Keeps(env), d1, Then(FlushRules, ReleasePlan(clearing, token)));
    }
  }

  // ---------- Which crash points recover ----------

  /** The two windows the code declares ambiguous: an enable whose token was not captured,
      and a release that may or may not have happened. */
  ghost predicate Ambiguous(d: Disk) {
    d.record.Some? && !d.record.value.restored
    && var r := d.record.value;
       (r.enableStarted && !d.output.Shows?) || (r.releaseStarted && !r.released)
  }

  /** A rule was loaded but not yet recorded, and PF prints it differently from the exact rule. */
  ghost predicate UnrecognisedLoad(d: Disk, norm: Text -> Text) {
    d.record.Some? && !d.record.value.restored
    && var r := d.record.value;
       !r.ruleLoaded && d.anchor != "" && r.exactRule.Some? && norm(d.anchor) != norm(r.exactRule.value)
  }

  /** Clearing keeps the state sound at every crash point. It is refused exactly in an
      ambiguous window or when the loaded rule is not recognised; otherwise it ends with an
      empty anchor and no enable reference held. */
  lemma RestoreRecovers(d: Disk, env: Env, norm: Text -> Text)
    requires Sound(d, env)
    ensures Always(Exec, Keeps(env), d, RestorePlan(d, norm))
    ensures Outcome(RestorePlan(d, norm)) == Refused <==> Ambiguous(d) || UnrecognisedLoad(d, norm)
    ensures Outcome(RestorePlan(d, norm)) != Refused ==>
              var end := Finish(Exec, d, RestorePlan(d, norm)); end.anchor == "" && end.held == {}
    ensures Ambiguous(d) ==> d.anchor == ""
  {
    if d.record.Some? && !d.record.value.restored && !EvidenceBlocks(d, d.record.value) {
      var r := d.record.value;
      var token := KnownToken(d, r).value;
      if r.ruleLoaded || d.anchor == "" {
        ClearKeeps(d, r, env, token);
      } else if norm(d.anchor) == norm(r.exactRule.value) {
        var inferred := r.(ruleLoaded := true, snapshot := d.anchor);
        ClearKeeps(Exec(d, Save(inferred)), inferred, env, token);
      }
    }
  }

  function RestoreAll(d: Disk, norm: Text -> Text, budgets: seq<nat>): Disk
    decreases |budgets|
  {
    if budgets == [] then d
    else RestoreAll(Run(Exec, d, RestorePlan(d, norm), budgets[0]), norm, budgets[1..])
  }

  lemma {:induction false} RestoreAllKeeps(d: Disk, env: Env, norm: Text -> Text, budgets: seq<nat>)
    requires Sound(d, env)
    ensures Sound(RestoreAll(d, norm, budgets), env)
    decreases |budgets|
  {
    if budgets != [] {
      RestoreRecovers(d, env, norm);
      AlwaysAtAnyCut(Exec, Keeps(env), d, RestorePlan(d, norm), budgets[0]);
      RestoreAllKeeps(Run(Exec, d, RestorePlan(d, norm), budgets[0]), env, norm, budgets[1..]);
    }
  }

  /** Over every crash schedule: the enable token is released at most once, only the rule
      this attempt loaded is ever flushed, and one more clearing either succeeds with an
      empty anchor and no reference held, or the schedule stopped in an ambiguous window
      (with the anchor already empty) or on an unrecognised rule. */
  lemma EveryScheduleRecovers(env: Env, norm: Text -> Text, prepareBudget: nat, budgets: seq<nat>)
    requires env.exact ==> env.printed != ""
    ensures var d := RestoreAll(Run(Exec, Clean(), PreparePlan(Clean(), env), prepareBudget), norm, budgets);
            && |d.releases| <= 1
            && (forall f :: f in d.flushed ==> f == env.printed)
            && (Outcome(RestorePlan(d, norm)) == Refused <==> Ambiguous(d) || UnrecognisedLoad(d, norm))
            && (Ambiguous(d) ==> d.anchor == "")
            && (Outcome(RestorePlan(d, norm)) != Refused ==>
                  var end := Finish(Exec, d, RestorePlan(d, norm)); end.anchor == "" && end.held == {} && |end.releases| <= 1)
  {
    PrepareKeeps(env);
    AlwaysAtAnyCut(Exec, Keeps(env), Clean(), PreparePlan(Clean(), env), prepareBudget);
    var prepared := Run(Exec, Clean(), PreparePlan(Clean(), env), prepareBudget);
    RestoreAllKeeps(prepared, env, norm, budgets);
    var d := RestoreAll(prepared, norm, budgets);
    RestoreRecovers(d, env, norm);
    AlwaysAtAnyCut(Exec, Keeps(env), d, RestorePlan(d, norm), 0);
  }

  // ---------- The refusals really happen ----------

  /** The state after a prepare and any number of clearings, each cut at its own point. */
  function Schedule(env: Env, norm: Text -> Text, prepareBudget: nat, budgets: seq<nat>): Disk {
    RestoreAll(Run(Exec, Clean(), PreparePlan(Clean(), env), prepareBudget), norm, budgets)
  }

  /** PF is to block, the rule can be loaded, and PF prints it differently from the exact rule. */
  predicate PrintsDifferently(env: Env, norm: Text -> Text) {
    env.blocked && (env.wasEnabled || env.grant.Some?) && env.printed != "" && norm(env.printed) != norm(env.rule)
  }

  /** Dying right behind the load leaves a rule that no clearing recognises. */
  lemma DiesBehindLoad(env: Env, norm: Text -> Text) returns (prepareBudget: nat)
    requires PrintsDifferently(env, norm)
    ensures UnrecognisedLoad(Schedule(env, norm, prepareBudget, []), norm)
  {
    var r := FirstRecord(env);
    var d1, p1 := Exec(Clean(), Save(r)), PreparePlan(Clean(), env).rest;
    if env.wasEnabled {
      prepareBudget := 3;
      RunStarts(Clean(), PreparePlan(Clean(), env), 3);
      LoadReached(d1, r, env);
    } else {
      prepareBudget := 8;
      var r2 := r.(enableStarted := true);
      var r3 := r2.(outputSaved := Some(Shows(env.grant.value)));
      var d2 := Exec(d1, Save(r2));
      var d3 := Exec(d2, TouchOutput);
      var d4 := Exec(d3, Enable(env.grant.value));
      var d5 := Exec(d4, ShowToken(env.grant.value));
      RunStarts(Clean(), PreparePlan(Clean(), env), 8);
      RunStarts(d1, p1, 7);
      RunStarts(d2, p1.rest, 6);
      RunStarts(d3, p1.rest.rest, 5);
      RunStarts(d4, p1.rest.rest.rest, 4);
      RunStarts(d5, p1.rest.rest.rest.rest, 3);
      LoadReached(Exec(d5, Save(r3)), r3.(token := env.grant), env);
    }
  }

  lemma LoadReached(d: Disk, r: Record, env: Env)
    ensures Run(Exec, d, LoadPlan(r, env), 2)
         == d.(record := Some(r.(exactRule := Some(env.rule), loadStarted := true)), anchor := env.printed)
  {
    hide RecordLoadPlan;
    var p := LoadPlan(r, env);
    RunStarts(d, p, 2);
    RunStarts(Exec(d, p.effect), p.rest, 1);
    RunStarts(Exec(Exec(d, p.effect), p.rest.effect), p.rest.rest, 0);
  }

  /** Some crash schedule gets stuck on an unrecognised rule exactly when PF prints the rule
      differently; clearing is then refused. */
  lemma UnrecognisedIff(env: Env, norm: Text -> Text)
    requires env.exact ==> env.printed != ""
    ensures (exists prepareBudget, budgets :: UnrecognisedLoad(Schedule(env, norm, prepareBudget, budgets), norm))
            <==> PrintsDifferently(env, norm)
    ensures forall prepareBudget, budgets ::
              UnrecognisedLoad(Schedule(env, norm, prepareBudget, budgets), norm) ==>
                Outcome(RestorePlan(Schedule(env, norm, prepareBudget, budgets), norm)) == Refused
  {
    hide Schedule, RestorePlan;
    forall prepareBudget: nat, budgets | UnrecognisedLoad(Schedule(env, norm, prepareBudget, budgets), norm)
      ensures PrintsDifferently(env, norm)
      ensures Outcome(RestorePlan(Schedule(env, norm, prepareBudget, budgets), norm)) == Refused
    {
      ScheduleSound(env, norm, prepareBudget, budgets);
      RestoreRecovers(Schedule(env, norm, prepareBudget, budgets), env, norm);
    }
    if PrintsDifferently(env, norm) {
      var prepareBudget := DiesBehindLoad(env, norm);
    }
  }

  lemma ScheduleSound(env: Env, norm: Text -> Text, prepareBudget: nat, budgets: seq<nat>)
    requires env.exact ==> env.printed != ""
    ensures Sound(Schedule(env, norm, prepareBudget, budgets), env)
  {
    PrepareKeeps(env);
    AlwaysAtAnyCut(Exec, Keeps(env), Clean(), PreparePlan(Clean(), env), prepareBudget);
    RestoreAllKeeps(Run(Exec, Clean(), PreparePlan(Clean(), env), prepareBudget), env, norm, budgets);
  }

  /** Some crash schedule stops in the window of an enable without a token exactly when PF is
      to block and was not enabled. */
  lemma LostTokenIff(env: Env, norm: Text -> Text)
    requires env.exact ==> env.printed != ""
    ensures (exists prepareBudget, budgets :: Ambiguous(Schedule(env, norm, prepareBudget, budgets)))
            <==> env.blocked && !env.wasEnabled
  {
    hide Schedule;
    forall prepareBudget: nat, budgets | Ambiguous(Schedule(env, norm, prepareBudget, budgets))
      ensures env.blocked && !env.wasEnabled
    {
      ScheduleSound(env, norm, prepareBudget, budgets);
    }
    if env.blocked && !env.wasEnabled {
      LostTokenReached(env, norm);
    }
  }

  lemma LostTokenReached(env: Env, norm: Text -> Text)
    requires env.blocked && !env.wasEnabled
    ensures Ambiguous(Schedule(env, norm, 2, []))
  {
    var p := PreparePlan(Clean(), env);
    RunStarts(Clean(), p, 2);
    RunStarts(Exec(Clean(), p.effect), p.rest, 1);
    RunStarts(Exec(Exec(Clean(), p.effect), p.rest.effect), p.rest.rest, 0);
  }

  // ---------- Any other writer ----------

  /** In any state at all, a clearing that is refused or has nothing to do changes nothing. */
  lemma RefusedChangesNothing(d: Disk, norm: Text -> Text, budget: nat)
    requires Outcome(RestorePlan(d, norm)) in {Refused, NothingToDo}
    ensures Run(Exec, d, RestorePlan(d, norm), budget) == d
  {
    if d.record.Some? && RestorePlan(d, norm).Then? {
      var r := d.record.value;
      var token := KnownToken(d, r).value;
      ClearSucceeds(d, r, token);
      ClearSucceeds(d, r.(ruleLoaded := true, snapshot := d.anchor), token);
    }
  }

  lemma ClearSucceeds(d: Disk, r: Record, token: Option<nat>)
    ensures Outcome(ClearPlan(d, r, token)) == Cleared
  {
    ReleaseSucceeds(r, token);
    var clearing := r.(clearStarted := true);
    ReleaseSucceeds(clearing, token);
    assert Outcome(Then(FlushRules, ReleasePlan(clearing, token))) == Cleared;
  }

  lemma ReleaseSucceeds(r: Record, token: Option<nat>)
    ensures Outcome(ReleasePlan(r, token)) == Cleared
  {
    var p := ReleasePlan(r, token);
    assert token.Some? ==> Outcome(p.rest.rest) == Cleared && Outcome(p.rest) == Cleared;
  }

  /** The enable reference the attempt's record, or else its output file, tells of. */
  function Told(d: Disk, r: Record): Option<nat> {
    if r.token.Some? then r.token else if d.output.Shows? then Some(d.output.token) else None
  }

  /** Record and output file contradict each other or the expected references. */
  predicate Unclear(d: Disk, r: Record) {
    || (r.token.Some? && d.output.Shows? && r.token.value != d.output.token)
    || (r.outputSaved.Some? && d.output != Absent && d.output != r.outputSaved.value)
    || (if !r.enableRequired then Told(d, r).Some? else if r.enableStarted then Told(d, r).None? else r.loadStarted)
    || (r.releaseStarted && !r.released)
  }

  /** The anchor holds what this attempt cannot be told to have loaded, or lost its rule
      without a clearing. */
  predicate Foreign(d: Disk, r: Record, norm: Text -> Text) {
    if r.ruleLoaded then
      d.anchor != r.snapshot && (d.anchor == "" ==> !r.clearStarted)
    else
      d.anchor != "" && (r.loadStarted && r.exactRule.Some? ==> norm(d.anchor) != norm(r.exactRule.value))
  }

  /** In any state at all: what a clearing answers, and what a successful one leaves. */
  lemma RestoreEnds(d: Disk, norm: Text -> Text)
    ensures var p := RestorePlan(d, norm);
            && (Outcome(p) == NothingToDo <==> d.record.None? || (d.record.value.restored && d.anchor == ""))
            && (Outcome(p) == Refused <==>
                  d.record.Some? && var r := d.record.value;
                                    if r.restored then d.anchor != "" else Unclear(d, r) || Foreign(d, r, norm))
            && (Outcome(p) == Cleared ==> Cleaned(d, Finish(Exec, d, p)))
            && Outcome(p) != Prepared && Length(p) <= 6
  {
    hide ClearPlan, Finish, Outcome, Length, Cleaned;
    var p := RestorePlan(d, norm);
    FinishStarts(Exec, d, p);
    if d.record.Some? {
      var r := d.record.value;
      if r.restored {
      } else if Unclear(d, r) || Foreign(d, r, norm) {
      } else {
        assert KnownToken(d, r) == Some(Told(d, r)) && !EvidenceBlocks(d, r);
        ClearEnds(d, d, r, Told(d, r));
        var inferred := r.(ruleLoaded := true, snapshot := d.anchor);
        ClearEnds(d, Exec(d, Save(inferred)), inferred, Told(d, r));
        ClearSame(d, Exec(d, Save(inferred)), inferred, Told(d, r));
      }
    }
  }

  /** The anchor is empty, the told reference is released, and no more has happened. */
  ghost predicate Cleaned(d: Disk, after: Disk) {
    && d.record.Some? && after.record.Some? && after.record.value.restored
    && after.anchor == "" && after.output == d.output
    && after.flushed == d.flushed + (if d.anchor == "" then [] else [d.anchor])
    && match Told(d, d.record.value)
       case None => after.held == d.held && after.releases == d.releases
       case Some(t) => after.held == d.held - {t} && after.releases == d.releases + [t] && after.record.value.released
  }

  lemma ReleaseEnds(d: Disk, r: Record, token: Option<nat>)
    ensures var p := ReleasePlan(r, token);
            && Outcome(p) == Cleared && Length(p) <= 3
            && Finish(Exec, d, p) == match token
                                     case None => d.(record := Some(r.(restored := true)))
                                     case Some(t) => d.(held := d.held - {t}, releases := d.releases + [t],
                                       record := Some(r.(token := token, releaseStarted := true, released := true, restored := true)))
  {
    hide Finish, Outcome, Length;
    var p := ReleasePlan(r, token);
    FinishStarts(Exec, d, p);
    var d1 := Exec(d, p.effect);
    FinishStarts(Exec, d1, p.rest);
    if token.Some? {
      var d2 := Exec(d1, p.rest.effect);
      FinishStarts(Exec, d2, p.rest.rest);
      FinishStarts(Exec, Exec(d2, p.rest.rest.effect), p.rest.rest.rest);
    }
  }

  lemma ClearEnds(before: Disk, d: Disk, r: Record, token: Option<nat>)
    requires before.record.Some? && before.(record := None) == d.(record := None) && token == Told(before, before.record.value)
    ensures var p := ClearPlan(d, r, token); Outcome(p) == Cleared && Length(p) <= 5 && Cleaned(before, Finish(Exec, d, p))
  {
    hide ReleasePlan, Finish, Outcome, Length;
    if d.anchor == "" {
      ReleaseEnds(d, r, token);
    } else {
      var p := ClearPlan(d, r, token);
      var d1 := Exec(d, p.effect);
      FinishStarts(Exec, d, p);
      FinishStarts(Exec, d1, p.rest);
      ReleaseEnds(Exec(d1, p.rest.effect), p.effect.r, token);
    }
  }

  /** No rule but this one is flushed, and no reference but the told one is released. */
  ghost function Touches(before: Disk, allowed: bool, token: Option<nat>): Disk -> bool {
    (d: Disk) =>
      && (d.flushed == before.flushed || (allowed && d.flushed == before.flushed + [before.anchor]))
      && (d.releases == before.releases || (token.Some? && d.releases == before.releases + [token.value]))
  }

  /** In any state at all and wherever it dies, a clearing flushes nothing but a rule recorded
      for this attempt, and releases at most the reference its own evidence tells of. */
  lemma OnlyRecordedRulesFlushed(d: Disk, norm: Text -> Text, budget: nat)
    ensures var after := Run(Exec, d, RestorePlan(d, norm), budget);
            && (after.flushed != d.flushed ==>
                  && after.flushed == d.flushed + [d.anchor] && d.record.Some? && MayFlush(d, d.record.value, norm))
            && (after.releases != d.releases ==>
                  && d.record.Some? && !Unclear(d, d.record.value)
                  && Told(d, d.record.value).Some? && after.releases == d.releases + [Told(d, d.record.value).value])
  {
    hide ClearPlan, EvidenceBlocks, Unclear, Told, Always;
    if d.record.Some? {
      var allowed, token := MayFlush(d, d.record.value, norm), MayRelease(d, d.record.value);
      RestoreTouches(d, norm);
      AlwaysAtAnyCut(Exec, Touches(d, allowed, token), d, RestorePlan(d, norm), budget);
    }
  }

  predicate MayFlush(d: Disk, r: Record, norm: Text -> Text) {
    if r.ruleLoaded then d.anchor == r.snapshot
    else r.loadStarted && r.exactRule.Some? && norm(d.anchor) == norm(r.exactRule.value)
  }

  function MayRelease(d: Disk, r: Record): Option<nat> {
    if Unclear(d, r) then None else Told(d, r)
  }

  lemma RestoreTouches(d: Disk, norm: Text -> Text)
    requires d.record.Some?
    ensures Always(Exec, Touches(d, MayFlush(d, d.record.value, norm), MayRelease(d, d.record.value)), d, RestorePlan(d, norm))
  {
    hide ClearPlan;
    var r := d.record.value;
    if !r.restored && !Unclear(d, r) {
      var allowed, token := MayFlush(d, r, norm), Told(d, r);
      var inferred := r.(ruleLoaded := true, snapshot := d.anchor);
      if allowed || d.anchor == "" {
        ClearTouches(d, d, r, token, allowed);
        ClearTouches(d, Exec(d, Save(inferred)), inferred, token, allowed);
        ClearSame(d, Exec(d, Save(inferred)), inferred, token);
      }
    }
  }

  lemma ClearTouches(before: Disk, d: Disk, r: Record, token: Option<nat>, allowed: bool)
    requires d.flushed == before.flushed && d.releases == before.releases && d.anchor == before.anchor
    requires d.anchor != "" ==> allowed
    ensures Always(Exec, Touches(before, allowed, token), d, ClearPlan(d, r, token))
  {
    ReleaseTouches(before, d, r, token, allowed);
    var clearing := r.(clearStarted := true);
    var d1 := Exec(d, Save(clearing));
    var d2 := Exec(d1, FlushRules);
    if d.anchor != "" {
      ReleaseTouches(before, d2, clearing, token, allowed);
      assert Always(Exec, Touches(before, allowed, token), d1, Then(FlushRules, ReleasePlan(clearing, token)));
    }
  }

  lemma ReleaseTouches(before: Disk, d: Disk, r: Record, token: Option<nat>, allowed: bool)
    requires d.flushed == before.flushed || (allowed && d.flushed == before.flushed + [before.anchor])
    requires d.releases == before.releases
    ensures Always(Exec, Touches(before, allowed, token), d, ReleasePlan(r, token))
  {
    if token.Some? {
      var p0 := ReleasePlan(r, token);
      var d1, p1 := Exec(d, p0.effect), p0.rest;
      var d2, p2 := Exec(d1, p1.effect), p1.rest;
      assert Always(Exec, Touches(before, allowed, token), d2, p2);
      assert Always(Exec, Touches(before, allowed, token), d1, p1);
    }
  }

  lemma RunStarts(d: Disk, p: PfPlan, budget: nat)
    ensures Run(Exec, d, p, budget)
         == if p.Stop? || budget == 0 then d else Run(Exec, Exec(d, p.effect), p.rest, budget - 1)
  {
  }

  // ---------- Where a preparation ends ----------

  /** Whether the rule gets loaded. */
  predicate Loads(env: Env) {
    env.blocked && (env.wasEnabled || env.grant.Some?)
  }

  predicate Succeeds(env: Env) {
    !env.blocked || (env.exact && (env.wasEnabled || env.grant.Some?))
  }

  /** An uninterrupted preparation over an empty anchor leaves exactly this. */
  ghost predicate Leaves(d: Disk, after: Disk, env: Env) {
    var enables := env.blocked && !env.wasEnabled;
    var granted := if enables then env.grant else None;
    && after.anchor == (if Loads(env) then env.printed else "")
    && after.held == (if granted.Some? then d.held + {granted.value} else d.held)
    && after.output == (if !enables then d.output else if granted.Some? then Shows(granted.value) else Empty)
    && after.releases == d.releases && after.flushed == d.flushed
    && after.record == Some(Record(!env.wasEnabled, enables, if enables then Some(after.output) else None, granted,
                                   if Loads(env) then Some(env.rule) else None, Loads(env),
                                   Loads(env) && (env.exact || env.printed != ""), if Loads(env) then env.printed else "",
                                   false, false, false, false))
  }

  lemma CheckEnds(d: Disk, loaded: Record, env: Env)
    ensures var p := CheckPlan(loaded, env);
            && Finish(Exec, d, p) == d.(record := Some(if env.exact then loaded.(ruleLoaded := true) else loaded))
            && Outcome(p) == (if env.exact then Prepared else Refused) && Length(p) <= 2
  {
    var p := CheckPlan(loaded, env);
    var d1 := Exec(d, p.effect);
    FinishStarts(Exec, d, p);
    FinishStarts(Exec, d1, p.rest);
    if env.exact {
      FinishStarts(Exec, Exec(d1, p.rest.effect), p.rest.rest);
    }
  }

  lemma LoadEnds(d: Disk, r: Record, env: Env)
    ensures var p := LoadPlan(r, env);
            && Finish(Exec, d, p) == d.(anchor := env.printed, record := Some(r.(exactRule := Some(env.rule), loadStarted := true,
                                        ruleLoaded := env.exact || env.printed != "", snapshot := env.printed)))
            && Outcome(p) == (if env.exact then Prepared else Refused) && Length(p) <= 5
  {
    hide CheckPlan, Finish, Outcome, Length;
    var p := LoadPlan(r, env);
    var d1 := Exec(d, p.effect);
    var d2 := Exec(d1, p.rest.effect);
    FinishStarts(Exec, d, p);
    FinishStarts(Exec, d1, p.rest);
    FinishStarts(Exec, d2, p.rest.rest);
    CheckEnds(Exec(d2, p.rest.rest.effect), p.rest.rest.effect.r.(ruleLoaded := env.printed != "", snapshot := env.printed), env);
  }

  lemma GrantEnds(d: Disk, r: Record, env: Env)
    ensures var p := GrantPlan(r, env);
            && Outcome(p) == (if env.exact && env.grant.Some? then Prepared else Refused) && Length(p) <= 8
            && Finish(Exec, d, p) == match env.grant
                                     case None => d.(record := Some(r.(outputSaved := Some(Empty))))
                                     case Some(t) =>
                                       Finish(Exec, d.(held := d.held + {t}, output := Shows(t),
                                                       record := Some(r.(outputSaved := Some(Shows(t))))),
                                              LoadPlan(r.(outputSaved := Some(Shows(t)), token := Some(t)), env))
  {
    hide LoadPlan, Finish, Outcome, Length;
    var p := GrantPlan(r, env);
    FinishStarts(Exec, d, p);
    var d1 := Exec(d, p.effect);
    FinishStarts(Exec, d1, p.rest);
    if env.grant.Some? {
      var d2 := Exec(d1, p.rest.effect);
      FinishStarts(Exec, d2, p.rest.rest);
      LoadEnds(Exec(d2, p.rest.rest.effect), r.(outputSaved := Some(Shows(env.grant.value)), token := env.grant), env);
    }
  }

  lemma PrepareEnds(d: Disk, env: Env)
    requires d.anchor == ""
    ensures var p := PreparePlan(d, env);
            && Leaves(d, Finish(Exec, d, p), env) && Length(p) <= 11
            && Outcome(p) == if Succeeds(env) then Prepared else Refused
  {
    hide LoadPlan, GrantPlan, Finish, Outcome, Length;
    var p, r := PreparePlan(d, env), FirstRecord(env);
    var d1 := Exec(d, Save(r));
    FinishStarts(Exec, d, p);
    if !env.blocked {
      FinishStarts(Exec, d1, p.rest);
      FinishStarts(Exec, Exec(d1, p.rest.effect), p.rest.rest);
    } else if env.wasEnabled {
      LoadEnds(d1, r, env);
    } else {
      var started := r.(enableStarted := true);
      var d2 := Exec(d1, p.rest.effect);
      FinishStarts(Exec, d1, p.rest);
      FinishStarts(Exec, d2, p.rest.rest);
      var d3 := Exec(d2, p.rest.rest.effect);
      GrantEnds(d3, started, env);
      if env.grant.Some? {
        var t := env.grant.value;
        LoadEnds(d3.(held := d3.held + {t}, output := Shows(t), record := Some(started.(outputSaved := Some(Shows(t))))),
                 started.(outputSaved := Some(Shows(t)), token := Some(t)), env);
      }
    }
  }

  // ---------- The operations on the live system ----------

  /** What a clearing, wherever it dies, does to a sound state. */
  lemma CarriedRestore(before: Disk, after: Disk, norm: Text -> Text, budget: nat, result: Option<Result>, env: Env)
    requires Carried(Exec, before, after, RestorePlan(before, norm), budget, result) && Sound(before, env)
    ensures Sound(after, env)
    ensures result == Some(Refused) ==> Ambiguous(before) || UnrecognisedLoad(before, norm)
    ensures result.Some? && result.value != Refused ==> after.anchor == "" && after.held == {}
  {
    RestoreRecovers(before, env, norm);
    CarriedKeeps(Exec, Keeps(env), before, after, RestorePlan(before, norm), budget, result);
  }

  /** What the answer of a clearing says about the state before and behind it. */
  ghost predicate Answered(before: Disk, after: Disk, norm: Text -> Text, result: Option<Result>) {
    var told := before.record.Some?;
    && (result == Some(NothingToDo) ==> after == before && (told ==> before.record.value.restored && before.anchor == ""))
    && (result == Some(Refused) ==>
          && after == before && told
          && var r := before.record.value;
             if r.restored then before.anchor != "" else Unclear(before, r) || Foreign(before, r, norm))
    && (result == Some(Cleared) ==>
          told && !before.record.value.restored && Cleaned(before, after)
          && !Unclear(before, before.record.value) && !Foreign(before, before.record.value, norm))
    && result != Some(Prepared)
  }

  lemma RestoreAnswers(before: Disk, after: Disk, norm: Text -> Text, budget: nat, result: Option<Result>)
    requires Carried(Exec, before, after, RestorePlan(before, norm), budget, result)
    ensures Answered(before, after, norm, result) && (budget >= 6 ==> result.Some?)
  {
    hide Unclear, Foreign, Cleaned, RestorePlan;
    RestoreEnds(before, norm);
    if result == Some(NothingToDo) || result == Some(Refused) {
      RefusedChangesNothing(before, norm, budget);
    } else if result.Some? {
      UninterruptedRun(Exec, before, RestorePlan(before, norm), budget);
    }
  }

  lemma PrepareAnswers(before: Disk, after: Disk, env: Env, budget: nat, result: Option<Result>)
    requires Carried(Exec, before, after, PreparePlan(before, env), budget, result)
    ensures before.anchor != "" ==> after == before && result == Some(Refused)
    ensures before.anchor == "" && result.Some? ==>
              result == Some(if Succeeds(env) then Prepared else Refused) && Leaves(before, after, env)
    ensures budget >= 11 ==> result.Some?
  {
    hide Leaves;
    if before.anchor == "" {
      PrepareEnds(before, env);
      if result.Some? {
        UninterruptedRun(Exec, before, PreparePlan(before, env), budget);
      }
    }
  }

  class Firewall {
    var anchor: Text
    var held: set<nat>
    var output: Output
    var record: Option<Record>
    var releases: seq<nat>
    var flushed: seq<Text>

    ghost function Now(): Disk
      reads this
    {
      Disk(anchor, held, output, record, releases, flushed)
    }

    method WriteJson(r: Record)
      modifies `record
      ensures Now() == Exec(old(Now()), Save(r))
    {
      record := Some(r);
    }

    method CheckLoaded(loaded: Record, env: Env, budget: nat) returns (result: Option<Result>)
      modifies `record
      ensures Carried(Exec, old(Now()), Now(), CheckPlan(loaded, env), budget, result)
    {
      hide Reached, Carried, Exec;
      ghost var d0, p0 := Now(), CheckPlan(loaded, env);
      Begins(Exec, d0, p0, budget);
      if budget == 0 { Dies(Exec, d0, p0, budget, Now(), p0); return None; }
      Advances(Exec, d0, p0, budget, Now(), p0, budget);
      WriteJson(loaded);
      if !env.exact {
        Ends(Exec, d0, p0, budget, Now(), p0.rest, budget - 1);
        return Some(Refused);
      }
      if budget == 1 { Dies(Exec, d0, p0, budget, Now(), p0.rest); return None; }
      Advances(Exec, d0, p0, budget, Now(), p0.rest, budget - 1);
      WriteJson(loaded.(ruleLoaded := true));
      result := Some(Prepared);
      Ends(Exec, d0, p0, budget, Now(), p0.rest.rest, budget - 2);
    }

    method RecordLoad(r0: Record, env: Env, budget: nat) returns (result: Option<Result>)
      requires anchor == env.printed
      modifies `record
      ensures Carried(Exec, old(Now()), Now(), RecordLoadPlan(r0, env), budget, result)
    {
      hide Reached, Carried, Exec, CheckPlan;
      ghost var d0, p0 := Now(), RecordLoadPlan(r0, env);
      Begins(Exec, d0, p0, budget);
      if budget == 0 { Dies(Exec, d0, p0, budget, Now(), p0); return None; }
      Advances(Exec, d0, p0, budget, Now(), p0, budget);
      WriteJson(r0);
      ghost var d1 := Now();
      result := CheckLoaded(r0.(ruleLoaded := anchor != "", snapshot := anchor), env, budget - 1);
      HandsOver(Exec, d0, p0, budget, d1, p0.rest, budget - 1, Now(), result);
    }

    /** Loads the rule between two records of it; `None` when the process died. */
    method LoadRule(r0: Record, env: Env, budget: nat) returns (result: Option<Result>)
      modifies this
      ensures Carried(Exec, old(Now()), Now(), LoadPlan(r0, env), budget, result)
    {
      hide Reached, Carried, RecordLoadPlan;
      ghost var d0, p0 := Now(), LoadPlan(r0, env);
      Begins(Exec, d0, p0, budget);
      if budget == 0 { Dies(Exec, d0, p0, budget, Now(), p0); return None; }
      Advances(Exec, d0, p0, budget, Now(), p0, budget);
      var r := r0.(exactRule := Some(env.rule), loadStarted := true);
      WriteJson(r);
      if budget == 1 { Dies(Exec, d0, p0, budget, Now(), p0.rest); return None; }
      Advances(Exec, d0, p0, budget, Now(), p0.rest, budget - 1);
      anchor := env.printed;
      ghost var d2 := Now();
      result := RecordLoad(r, env, budget - 2);
      HandsOver(Exec, d0, p0, budget, d2, p0.rest.rest, budget - 2, Now(), result);
    }

    /** Runs the enable command and keeps its token before any rule is loaded. */
    method TakeGrant(r0: Record, env: Env, budget: nat) returns (result: Option<Result>)
      modifies this
      ensures Carried(Exec, old(Now()), Now(), GrantPlan(r0, env), budget, result)
    {
      hide Reached, Carried, LoadPlan;
      ghost var d0, p0 := Now(), GrantPlan(r0, env);
      Begins(Exec, d0, p0, budget);
      if budget == 0 { Dies(Exec, d0, p0, budget, Now(), p0); return None; }
      Advances(Exec, d0, p0, budget, Now(), p0, budget);
      if env.grant.None? {
        WriteJson(r0.(outputSaved := Some(Empty)));
        Ends(Exec, d0, p0, budget, Now(), p0.rest, budget - 1);
        return Some(Refused);
      }
      var t := env.grant.value;
      held := held + {t};
      if budget == 1 { Dies(Exec, d0, p0, budget, Now(), p0.rest); return None; }
      Advances(Exec, d0, p0, budget, Now(), p0.rest, budget - 1);
      output := Shows(t);
      if budget == 2 { Dies(Exec, d0, p0, budget, Now(), p0.rest.rest); return None; }
      Advances(Exec, d0, p0, budget, Now(), p0.rest.rest, budget - 2);
      var r := r0.(outputSaved := Some(output));
      WriteJson(r);
      ghost var d3 := Now();
      result := LoadRule(r.(token := Some(t)), env, budget - 3);
      HandsOver(Exec, d0, p0, budget, d3, p0.rest.rest.rest, budget - 3, Now(), result);
    }

    method EnableAndLoad(r0: Record, env: Env, budget: nat) returns (result: Option<Result>)
      modifies this
      ensures Carried(Exec, old(Now()), Now(), EnablePlan(r0, env), budget, result)
    {
      hide Reached, Carried, GrantPlan;
      ghost var d0, p0 := Now(), EnablePlan(r0, env);
      Begins(Exec, d0, p0, budget);
      if budget == 0 { Dies(Exec, d0, p0, budget, Now(), p0); return None; }
      Advances(Exec, d0, p0, budget, Now(), p0, budget);
      var r := r0.(enableStarted := true);
      WriteJson(r);
      if budget == 1 { Dies(Exec, d0, p0, budget, Now(), p0.rest); return None; }
      Advances(Exec, d0, p0, budget, Now(), p0.rest, budget - 1);
      output := Empty;
      ghost var d2 := Now();
      result := TakeGrant(r, env, budget - 2);
      HandsOver(Exec, d0, p0, budget, d2, p0.rest.rest, budget - 2, Now(), result);
    }

    /** Prepares the condition. An occupied anchor is left alone; over an empty one a finished
        preparation succeeds exactly when the condition can be had, and leaves exactly the
        documented state. From a clean start the record accounts for everything done, wherever
        it died. */
    method Prepare(env: Env, budget: nat) returns (result: Option<Result>)
      modifies this
      ensures Carried(Exec, old(Now()), Now(), PreparePlan(old(Now()), env), budget, result)
      ensures old(anchor) != "" ==> Now() == old(Now()) && result == Some(Refused)
      ensures old(anchor) == "" && result.Some? ==>
                result == Some(if Succeeds(env) then Prepared else Refused) && Leaves(old(Now()), Now(), env)
      ensures budget >= 11 ==> result.Some?
      ensures old(Now()) == Clean() && (env.exact ==> env.printed != "") ==> Sound(Now(), env)
    {
      hide Carried, Sound, PreparePlan, Leaves;
      ghost var d0 := Now();
      result := PrepareSteps(env, budget);
      if d0 == Clean() && (env.exact ==> env.printed != "") {
        PrepareKeeps(env);
        CarriedKeeps(Exec, Keeps(env), d0, Now(), PreparePlan(d0, env), budget, result);
      }
      PrepareAnswers(d0, Now(), env, budget, result);
    }

    method PrepareSteps(env: Env, budget: nat) returns (result: Option<Result>)
      modifies this
      ensures Carried(Exec, old(Now()), Now(), PreparePlan(old(Now()), env), budget, result)
    {
      hide Reached, Carried, LoadPlan, EnablePlan;
      ghost var d0, p0 := Now(), PreparePlan(Now(), env);
      Begins(Exec, d0, p0, budget);
      if anchor != "" {
        Ends(Exec, d0, p0, budget, Now(), p0, budget);
        return Some(Refused);
      }
      if budget == 0 { Dies(Exec, d0, p0, budget, Now(), p0); return None; }
      Advances(Exec, d0, p0, budget, Now(), p0, budget);
      var r := FirstRecord(env);
      WriteJson(r);
      ghost var d1 := Now();
      if env.blocked {
        if env.wasEnabled {
          result := LoadRule(r, env, budget - 1);
        } else {
          result := EnableAndLoad(r, env, budget - 1);
        }
        HandsOver(Exec, d0, p0, budget, d1, p0.rest, budget - 1, Now(), result);
        return;
      }
      if budget == 1 { Dies(Exec, d0, p0, budget, Now(), p0.rest); return None; }
      Advances(Exec, d0, p0, budget, Now(), p0.rest, budget - 1);
      WriteJson(r);
      result := Some(Prepared);
      Ends(Exec, d0, p0, budget, Now(), p0.rest.rest, budget - 2);
    }

    method ReleaseReference(r0: Record, token: Option<nat>, budget: nat) returns (result: Option<Result>)
      modifies this
      ensures Carried(Exec, old(Now()), Now(), ReleasePlan(r0, token), budget, result)
    {
      hide Reached, Carried;
      ghost var d0, p0 := Now(), ReleasePlan(r0, token);
      Begins(Exec, d0, p0, budget);
      if budget == 0 { Dies(Exec, d0, p0, budget, Now(), p0); return None; }
      Advances(Exec, d0, p0, budget, Now(), p0, budget);
      if token.None? {
        WriteJson(r0.(restored := true));
        result := Some(Cleared);
        Ends(Exec, d0, p0, budget, Now(), p0.rest, budget - 1);
        return;
      }
      var r := r0.(token := token, releaseStarted := true);
      WriteJson(r);
      if budget == 1 { Dies(Exec, d0, p0, budget, Now(), p0.rest); return None; }
      Advances(Exec, d0, p0, budget, Now(), p0.rest, budget - 1);
      held, releases := held - {token.value}, releases + [token.value];
      if budget == 2 { Dies(Exec, d0, p0, budget, Now(), p0.rest.rest); return None; }
      Advances(Exec, d0, p0, budget, Now(), p0.rest.rest, budget - 2);
      WriteJson(r.(released := true, restored := true));
      result := Some(Cleared);
      Ends(Exec, d0, p0, budget, Now(), p0.rest.rest.rest, budget - 3);
    }

    method Clear(r0: Record, token: Option<nat>, budget: nat) returns (result: Option<Result>)
      modifies this
      ensures Carried(Exec, old(Now()), Now(), ClearPlan(old(Now()), r0, token), budget, result)
    {
      hide Reached, Carried, ReleasePlan;
      if anchor == "" {
        result := ReleaseReference(r0, token, budget);
        return;
      }
      ghost var d0, p0 := Now(), ClearPlan(Now(), r0, token);
      Begins(Exec, d0, p0, budget);
      if budget == 0 { Dies(Exec, d0, p0, budget, Now(), p0); return None; }
      Advances(Exec, d0, p0, budget, Now(), p0, budget);
      var r := r0.(clearStarted := true);
      WriteJson(r);
      if budget == 1 { Dies(Exec, d0, p0, budget, Now(), p0.rest); return None; }
      Advances(Exec, d0, p0, budget, Now(), p0.rest, budget - 1);
      anchor, flushed := "", flushed + [anchor];
      ghost var d2 := Now();
      result := ReleaseReference(r, token, budget - 2);
      HandsOver(Exec, d0, p0, budget, d2, p0.rest.rest, budget - 2, Now(), result);
    }

    /** Clears the rule and the enable reference an earlier prepare may have left, in any state
        at all: with nothing to do or a refusal nothing changes, otherwise what was told of is
        cleaned up. A sound state stays sound, and on return the anchor is empty and nothing is
        held, unless the clearing was refused in one of the known windows. */
    method Restore(norm: Text -> Text, budget: nat) returns (result: Option<Result>)
      modifies this
      ensures Carried(Exec, old(Now()), Now(), RestorePlan(old(Now()), norm), budget, result)
      ensures Answered(old(Now()), Now(), norm, result) && (budget >= 6 ==> result.Some?)
      ensures forall env :: Sound(old(Now()), env) ==>
                && Sound(Now(), env)
                && (result == Some(Refused) ==> Ambiguous(old(Now())) || UnrecognisedLoad(old(Now()), norm))
                && (result.Some? && result.value != Refused ==> anchor == "" && held == {})
    {
      hide Carried, Sound, RestorePlan, Ambiguous, UnrecognisedLoad, Answered;
      ghost var d0 := Now();
      result := RestoreSteps(norm, budget);
      RestoreAnswers(d0, Now(), norm, budget, result);
      forall env | Sound(d0, env)
        ensures Sound(Now(), env)
        ensures result == Some(Refused) ==> Ambiguous(d0) || UnrecognisedLoad(d0, norm)
        ensures result.Some? && result.value != Refused ==> anchor == "" && held == {}
      {
        CarriedRestore(d0, Now(), norm, budget, result, env);
      }
    }

    method RestoreSteps(norm: Text -> Text, budget: nat) returns (result: Option<Result>)
      modifies this
      ensures Carried(Exec, old(Now()), Now(), RestorePlan(old(Now()), norm), budget, result)
    {
      hide Reached, Carried, ClearPlan;
      ghost var d0, p0 := Now(), RestorePlan(Now(), norm);
      Begins(Exec, d0, p0, budget);
      if record.None? {
        Ends(Exec, d0, p0, budget, Now(), p0, budget);
        return Some(NothingToDo);
      }
      var r, current := record.value, anchor;
      if r.restored {
        Ends(Exec, d0, p0, budget, Now(), p0, budget);
        return Some(if current == "" then NothingToDo else Refused);
      }
      if EvidenceBlocks(Disk(anchor, held, output, record, releases, flushed), r) {
        Ends(Exec, d0, p0, budget, Now(), p0, budget);
        return Some(Refused);
      }
      var token := if r.token.Some? then r.token else if output.Shows? then Some(output.token) else None;
      if r.ruleLoaded {
        if current != r.snapshot && !(current == "" && r.clearStarted) {
          Ends(Exec, d0, p0, budget, Now(), p0, budget);
          return Some(Refused);
        }
      } else if current != "" {
        if !r.loadStarted || r.exactRule.None? || norm(current) != norm(r.exactRule.value) {
          Ends(Exec, d0, p0, budget, Now(), p0, budget);
          return Some(Refused);
        }
        if budget == 0 { Dies(Exec, d0, p0, budget, Now(), p0); return None; }
        Advances(Exec, d0, p0, budget, Now(), p0, budget);
        r := r.(ruleLoaded := true, snapshot := current);
        WriteJson(r);
        ghost var d1 := Now();
        ClearSame(d0, d1, r, token);
        result := Clear(r, token, budget - 1);
        HandsOver(Exec, d0, p0, budget, d1, p0.rest, budget - 1, Now(), result);
        return;
      }
      result := Clear(r, token, budget);
    }
  }

  lemma ClearSame(d: Disk, d': Disk, r: Record, token: Option<nat>)
    requires d.anchor == d'.anchor
    ensures ClearPlan(d, r, token) == ClearPlan(d', r, token)
  {
  }

  lemma CarriedFinishes(before: Disk, after: Disk, p: PfPlan, budget: nat, result: Option<Result>)
    requires Carried(Exec, before, after, p, budget, result) && result.Some?
    ensures after == Finish(Exec, before, p) && result.value == Outcome(p)
  {
    UninterruptedRun(Exec, before, p, budget);
  }
}
