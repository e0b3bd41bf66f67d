/** What one validation run must report and do, as a function of how its dependencies answer. The run
    itself, internal/orchestrator/orchestrator.go, is in module Orchestrator. */
module RunSpec {
  import opened MavenRunner
  import opened RulesGate
  import opened Text

  datatype StepName = InputCheck | Preflight | CloneRepo | EngineGuard | Overlay | ContainerStart | ReadinessProbe
    | SchemaSetup | PomDriverInject | PropertiesPatch | PreSyncValidate | Sync | FirstTag | Rollback | Cleanup

  datatype Status = Passed | Failed | UsageError

  datatype Step = Step(name: StepName, status: StepStatus)

  /** A progress event: the start of a step, or its end. */
  datatype Event = Event(name: StepName, done: bool, failed: bool)

  /** What is wired in: the optional dependencies of the run. */
  datatype Config = Config(sqlInput: bool, overlayer: bool, networked: bool, validator: bool)

  /** The answers of the dependencies, and the unique tag each Maven run makes up. */
  datatype Env = Env(
    inputHasSql: bool, preflightOk: bool, cloneOk: bool, engineOk: bool, overlayOk: bool,
    networkOk: bool, startOk: bool,
    readyOk: bool, schemaFound: bool, lbUserOk: bool, rolesFound: bool, rolesOk: bool, pomOk: bool, patchOk: bool,
    validation: Validation, sync: Maven, syncTag: string, tag: Found<string>, rollback: Maven, rollbackTag: string)

  /** The fixed order of the steps. */
  function Pipeline(cfg: Config): seq<StepName> {
    if cfg.overlayer then
      [Preflight, CloneRepo, EngineGuard, Overlay, ContainerStart, ReadinessProbe, SchemaSetup, PomDriverInject,
       PropertiesPatch, PreSyncValidate, Sync, FirstTag, Rollback]
    else
      [Preflight, CloneRepo, EngineGuard, ContainerStart, ReadinessProbe, SchemaSetup, PomDriverInject,
       PropertiesPatch, PreSyncValidate, Sync, FirstTag, Rollback]
  }

  predicate GateOpen(cfg: Config, v: Validation) {
    !cfg.validator ||
    (v.rulesetThere && !v.runFails && ReportOnHost(v.copied).Parsed? && Passes(ReportOnHost(v.copied).report))
  }

  /** The gate in plain terms: with a validator wired, its ruleset is there, its container ran, and the report
      on the host says PASS or INFO: the unpacked one, else the one that was there, else the container's own. */
  lemma {:induction false} GateOpenIff(cfg: Config, v: Validation)
    ensures var file := if v.copied.zipped != NoFile then v.copied.zipped
                        else if v.copied.stale != NoFile then v.copied.stale else v.copied.direct;
      GateOpen(cfg, v) <==>
      (cfg.validator ==> v.rulesetThere && !v.runFails && file.Parsed? &&
                         (file.report.status == "PASS" || file.report.status == "INFO"))
  {
  }

  /** What a step reports, given that it is reached. */
  function Verdict(cfg: Config, env: Env, name: StepName): StepStatus {
    var ok := match name
      case InputCheck => !cfg.sqlInput || env.inputHasSql
      case Preflight => env.preflightOk
      case CloneRepo => env.cloneOk
      case EngineGuard => env.engineOk
      case Overlay => env.overlayOk
      case ContainerStart => (!cfg.networked || env.networkOk) && env.startOk
      case ReadinessProbe => env.readyOk
      case SchemaSetup => !env.schemaFound || (env.lbUserOk && (!env.rolesFound || env.rolesOk))
      case PomDriverInject => env.pomOk
      case PropertiesPatch => env.patchOk
      case PreSyncValidate => GateOpen(cfg, env.validation)
      case FirstTag => env.tag.Present?
      case _ => true;
    match name
    case Sync => MavenStatus(env.sync)
    case Rollback => MavenStatus(env.rollback)
    case _ => if ok then StepPassed else StepFailed
  }

  predicate PassesAt(cfg: Config, env: Env, i: nat)
    requires i < |Pipeline(cfg)|
  {
    Verdict(cfg, env, Pipeline(cfg)[i]) == StepPassed
  }

  /** The number of steps that pass before one does not. */
  function PassedFrom(cfg: Config, env: Env, k: nat): (n: nat)
    requires k <= |Pipeline(cfg)|
    ensures k <= n <= |Pipeline(cfg)|
    ensures forall i :: k <= i < n ==> PassesAt(cfg, env, i)
    ensures n < |Pipeline(cfg)| ==> !PassesAt(cfg, env, n)
    decreases |Pipeline(cfg)| - k
  {
    if k == |Pipeline(cfg)| || !PassesAt(cfg, env, k) then k else PassedFrom(cfg, env, k + 1)
  }

  lemma {:induction false} StopsAt(cfg: Config, env: Env, k: nat)
    requires k <= |Pipeline(cfg)| && forall i :: 0 <= i < k ==> PassesAt(cfg, env, i)
    requires k < |Pipeline(cfg)| ==> !PassesAt(cfg, env, k)
    ensures PassedFrom(cfg, env, 0) == k
  {
    hide Pipeline, Verdict, PassesAt;
    var n := PassedFrom(cfg, env, 0);
    var atN, atK := n < |Pipeline(cfg)| && PassesAt(cfg, env, n), k < |Pipeline(cfg)| && PassesAt(cfg, env, k);
  }

  predicate InputOk(cfg: Config, env: Env) {
    Verdict(cfg, env, InputCheck) == StepPassed
  }

  /** The first `k` steps of the pipeline, passed. */
  function PassedSteps(cfg: Config, k: nat): seq<Step>
    requires k <= |Pipeline(cfg)|
  {
    seq(k, i requires 0 <= i < k => Step(Pipeline(cfg)[i], StepPassed))
  }

  /** All steps of the report but the cleanup. */
  function ReportedSteps(cfg: Config, env: Env): seq<Step> {
    if !InputOk(cfg, env) then [Step(InputCheck, StepFailed)] else
      var k := PassedFrom(cfg, env, 0);
      if k == |Pipeline(cfg)| then PassedSteps(cfg, k)
      else PassedSteps(cfg, k) + [Step(Pipeline(cfg)[k], Verdict(cfg, env, Pipeline(cfg)[k]))]
  }

  function FinalStatus(cfg: Config, env: Env): Status {
    if !InputOk(cfg, env) then UsageError
    else if PassedFrom(cfg, env, 0) == |Pipeline(cfg)| then Passed
    else Failed
  }

  /** The events of the first `k` steps, each begun and then ended well. */
  function PassedEvents(cfg: Config, k: nat): seq<Event>
    requires k <= |Pipeline(cfg)|
  {
    if k == 0 then [] else
      PassedEvents(cfg, k - 1) + [Event(Pipeline(cfg)[k - 1], false, false), Event(Pipeline(cfg)[k - 1], true, false)]
  }

  /** All events but the cleanup's. When no network can be created, the container step ends without having
      begun; the input check never begins. */
  function ReportedEvents(cfg: Config, env: Env): seq<Event> {
    if !InputOk(cfg, env) then [Event(InputCheck, true, true)] else
      var k := PassedFrom(cfg, env, 0);
      if k == |Pipeline(cfg)| then PassedEvents(cfg, k)
      else
        var name := Pipeline(cfg)[k];
        PassedEvents(cfg, k) +
        (if name == ContainerStart && cfg.networked && !env.networkOk then [] else [Event(name, false, false)]) +
        [Event(name, true, true)]
  }

  predicate AllPassBelow(cfg: Config, env: Env, k: nat)
    requires k <= |Pipeline(cfg)|
  {
    InputOk(cfg, env) && forall i :: 0 <= i < k ==> PassesAt(cfg, env, i)
  }

  /** What is reported when the step at `k` is the first that does not pass. */
  lemma {:induction false} StoppedReport(cfg: Config, env: Env, k: nat)
    requires k < |Pipeline(cfg)| && AllPassBelow(cfg, env, k) && !PassesAt(cfg, env, k)
    ensures var name := Pipeline(cfg)[k];
      ReportedSteps(cfg, env) == PassedSteps(cfg, k) + [Step(name, Verdict(cfg, env, name))] &&
      ReportedEvents(cfg, env) ==
        PassedEvents(cfg, k) +
        (if name == ContainerStart && cfg.networked && !env.networkOk then [] else [Event(name, false, false)]) +
        [Event(name, true, true)] &&
      FinalStatus(cfg, env) == Failed && Tried(cfg, env) == k + 1
  {
    hide Pipeline, Verdict, PassesAt, PassedSteps, PassedEvents;
    StopsAt(cfg, env, k);
  }

  lemma {:induction false} CompleteReport(cfg: Config, env: Env)
    requires AllPassBelow(cfg, env, |Pipeline(cfg)|)
    ensures var k := |Pipeline(cfg)|;
      ReportedSteps(cfg, env) == PassedSteps(cfg, k) && ReportedEvents(cfg, env) == PassedEvents(cfg, k) &&
      FinalStatus(cfg, env) == Passed && Tried(cfg, env) == k
  {
    hide Pipeline, Verdict, PassesAt, PassedSteps, PassedEvents;
    StopsAt(cfg, env, |Pipeline(cfg)|);
  }

  lemma {:induction false} NextPassed(cfg: Config, env: Env, k: nat)
    requires k < |Pipeline(cfg)| && AllPassBelow(cfg, env, k) && PassesAt(cfg, env, k)
    ensures AllPassBelow(cfg, env, k + 1)
    ensures PassedSteps(cfg, k + 1) == PassedSteps(cfg, k) + [Step(Pipeline(cfg)[k], StepPassed)]
    ensures PassedEvents(cfg, k + 1) ==
      PassedEvents(cfg, k) + [Event(Pipeline(cfg)[k], false, false), Event(Pipeline(cfg)[k], true, false)]
  {
    hide Pipeline, Verdict, PassesAt;
  }

  lemma {:induction false} PassedUpTo(cfg: Config, env: Env, k: nat)
    requires k <= |Pipeline(cfg)|
    ensures InputOk(cfg, env) && k <= PassedFrom(cfg, env, 0) <==> AllPassBelow(cfg, env, k)
  {
    hide Pipeline, Verdict, PassesAt;
    var n := PassedFrom(cfg, env, 0);
    assert n < k ==> !PassesAt(cfg, env, n);
  }

  /** Past the input check, the report has every step that is begun, with its verdict. */
  lemma {:induction false} ReportedAre(cfg: Config, env: Env)
    requires InputOk(cfg, env)
    ensures var steps := ReportedSteps(cfg, env);
      |steps| == Tried(cfg, env) &&
      forall j :: 0 <= j < |steps| ==> steps[j] == Step(Pipeline(cfg)[j], Verdict(cfg, env, Pipeline(cfg)[j]))
  {
    hide Pipeline, Verdict;
    var k := PassedFrom(cfg, env, 0);
    assert forall j :: 0 <= j < k ==> PassesAt(cfg, env, j) && PassedSteps(cfg, k)[j].status == StepPassed;
  }

  /** A step is in the report with a status exactly when all before it pass and that status is its verdict. */
  lemma {:induction false} StepReportedIff(cfg: Config, env: Env, name: StepName, status: StepStatus)
    requires name != InputCheck && name != Cleanup && (name == Overlay ==> cfg.overlayer)
    ensures Step(name, status) in ReportedSteps(cfg, env) <==>
      AllPassBelow(cfg, env, Position(cfg, name)) && Verdict(cfg, env, name) == status
  {
    hide Pipeline, Verdict, Position, PassesAt;
    var i, steps := Position(cfg, name), ReportedSteps(cfg, env);
    TriedIff(cfg, env, i);
    if InputOk(cfg, env) {
      hide ReportedSteps;
      ReportedAre(cfg, env);
      forall j | 0 <= j < |steps| && steps[j].name == name ensures j == i {
        StepAt(cfg, j, name);
      }
      assert i < |steps| ==> steps[i] == Step(name, Verdict(cfg, env, name));
    }
  }

  lemma {:induction false} NextStepPassedIff(cfg: Config, env: Env, name: StepName, next: StepName, status: StepStatus)
    requires name != InputCheck && name != Cleanup && (name == Overlay ==> cfg.overlayer)
    requires next != InputCheck && next != Cleanup && (next == Overlay ==> cfg.overlayer)
    requires Position(cfg, next) == Position(cfg, name) + 1
    ensures Step(next, status) in ReportedSteps(cfg, env) <==>
      Step(name, StepPassed) in ReportedSteps(cfg, env) && Verdict(cfg, env, next) == status
  {
    hide Pipeline, Verdict, ReportedSteps, Position;
    StepReportedIff(cfg, env, name, StepPassed);
    StepReportedIff(cfg, env, next, status);
    PassBelowNext(cfg, env, Position(cfg, name));
  }

  /** Which answers let which step pass: every step up to the container. */
  lemma {:induction false} PreparationPassesIff(cfg: Config, env: Env)
    ensures var steps := ReportedSteps(cfg, env);
      (FinalStatus(cfg, env) == UsageError <==> cfg.sqlInput && !env.inputHasSql) &&
      (Step(Preflight, StepPassed) in steps <==> (cfg.sqlInput ==> env.inputHasSql) && env.preflightOk) &&
      (Step(CloneRepo, StepPassed) in steps <==> Step(Preflight, StepPassed) in steps && env.cloneOk) &&
      (Step(EngineGuard, StepPassed) in steps <==> Step(CloneRepo, StepPassed) in steps && env.engineOk) &&
      (Step(ContainerStart, StepPassed) in steps <==>
        Step(EngineGuard, StepPassed) in steps && (cfg.overlayer ==> env.overlayOk) &&
        (cfg.networked ==> env.networkOk) && env.startOk)
    ensures cfg.overlayer ==>
      (Step(Overlay, StepPassed) in ReportedSteps(cfg, env) <==>
        Step(EngineGuard, StepPassed) in ReportedSteps(cfg, env) && env.overlayOk)
  {
    hide Pipeline, ReportedSteps;
    StepReportedIff(cfg, env, Preflight, StepPassed);
    NextStepPassedIff(cfg, env, Preflight, CloneRepo, StepPassed);
    NextStepPassedIff(cfg, env, CloneRepo, EngineGuard, StepPassed);
    if cfg.overlayer {
      NextStepPassedIff(cfg, env, EngineGuard, Overlay, StepPassed);
      NextStepPassedIff(cfg, env, Overlay, ContainerStart, StepPassed);
    } else {
      NextStepPassedIff(cfg, env, EngineGuard, ContainerStart, StepPassed);
    }
  }

  /** From the container to the gate. The gate is passed with no validator wired, or with its ruleset there,
      its container run, and a report on the host that says PASS or INFO: the unpacked one, else the one that
      was there, else the container's own. */
  lemma {:induction false} SetUpPassesIff(cfg: Config, env: Env)
    ensures var steps, v := ReportedSteps(cfg, env), env.validation;
      var file := if v.copied.zipped != NoFile then v.copied.zipped
                  else if v.copied.stale != NoFile then v.copied.stale else v.copied.direct;
      (Step(ReadinessProbe, StepPassed) in steps <==> Step(ContainerStart, StepPassed) in steps && env.readyOk) &&
      (Step(SchemaSetup, StepPassed) in steps <==>
        Step(ReadinessProbe, StepPassed) in steps &&
        (env.schemaFound ==> env.lbUserOk && (env.rolesFound ==> env.rolesOk))) &&
      (Step(PomDriverInject, StepPassed) in steps <==> Step(SchemaSetup, StepPassed) in steps && env.pomOk) &&
      (Step(PropertiesPatch, StepPassed) in steps <==> Step(PomDriverInject, StepPassed) in steps && env.patchOk) &&
      (Step(PreSyncValidate, StepPassed) in steps <==>
        Step(PropertiesPatch, StepPassed) in steps &&
        (cfg.validator ==> v.rulesetThere && !v.runFails && file.Parsed? &&
                           (file.report.status == "PASS" || file.report.status == "INFO")))
  {
    hide Pipeline, ReportedSteps;
    NextStepPassedIff(cfg, env, ContainerStart, ReadinessProbe, StepPassed);
    NextStepPassedIff(cfg, env, ReadinessProbe, SchemaSetup, StepPassed);
    NextStepPassedIff(cfg, env, SchemaSetup, PomDriverInject, StepPassed);
    NextStepPassedIff(cfg, env, PomDriverInject, PropertiesPatch, StepPassed);
    NextStepPassedIff(cfg, env, PropertiesPatch, PreSyncValidate, StepPassed);
  }

  /** A Maven container that ended well. */
  ghost predicate EndedWell(m: Maven) {
    m.Exited? && !m.contextDone && m.code == 0 && forall i :: !OccursAt(m.output, "BUILD FAILURE", i)
  }

  /** From sync to the end: the run is PASSED exactly when rollback passes, which takes two Maven containers
      that end well and a tag between them; a goal is aborted exactly when it is reached and the context is
      done when its container has ended. */
  lemma {:induction false} MigrationPassesIff(cfg: Config, env: Env)
    ensures var steps := ReportedSteps(cfg, env);
      (Step(Sync, StepPassed) in steps <==> Step(PreSyncValidate, StepPassed) in steps && EndedWell(env.sync)) &&
      (Step(Sync, StepAborted) in steps <==>
        Step(PreSyncValidate, StepPassed) in steps && env.sync.Exited? && env.sync.contextDone) &&
      (Step(FirstTag, StepPassed) in steps <==> Step(Sync, StepPassed) in steps && env.tag.Present?) &&
      (Step(Rollback, StepPassed) in steps <==> Step(FirstTag, StepPassed) in steps && EndedWell(env.rollback)) &&
      (Step(Rollback, StepAborted) in steps <==>
        Step(FirstTag, StepPassed) in steps && env.rollback.Exited? && env.rollback.contextDone) &&
      (FinalStatus(cfg, env) == Passed <==> Step(Rollback, StepPassed) in steps)
  {
    hide Pipeline, ReportedSteps, MavenStatus;
    NextStepPassedIff(cfg, env, PreSyncValidate, Sync, StepPassed);
    NextStepPassedIff(cfg, env, PreSyncValidate, Sync, StepAborted);
    NextStepPassedIff(cfg, env, Sync, FirstTag, StepPassed);
    NextStepPassedIff(cfg, env, FirstTag, Rollback, StepPassed);
    NextStepPassedIff(cfg, env, FirstTag, Rollback, StepAborted);
    GoalPassesIff(env.sync);
    GoalPassesIff(env.rollback);
    StepReportedIff(cfg, env, Rollback, StepPassed);
    PassedUpTo(cfg, env, |Pipeline(cfg)|);
    PassBelowNext(cfg, env, Position(cfg, Rollback));
    LastIsRollback(cfg);
  }

  lemma {:induction false} LastIsRollback(cfg: Config)
    ensures Position(cfg, Rollback) + 1 == |Pipeline(cfg)|
  {
  }

  /** The step names that end events carry, with their outcome. */
  function DoneEvents(events: seq<Event>): seq<(StepName, bool)> {
    if events == [] then [] else
      var last := events[|events| - 1];
      DoneEvents(events[..|events| - 1]) + (if last.done then [(last.name, last.failed)] else [])
  }

  function Outcomes(steps: seq<Step>): seq<(StepName, bool)> {
    seq(|steps|, i requires 0 <= i < |steps| => (steps[i].name, steps[i].status != StepPassed))
  }

  lemma {:induction false} DoneEventsSplit(a: seq<Event>, b: seq<Event>)
    ensures DoneEvents(a + b) == DoneEvents(a) + DoneEvents(b)
    decreases |b|
  {
    if b == [] {
      assert a + b == a;
    } else {
      var n := |b| - 1;
      assert (a + b)[..|a + b| - 1] == a + b[..n];
      DoneEventsSplit(a, b[..n]);
    }
  }

  lemma {:induction false} DoneOfPair(x: Event, y: Event)
    requires !x.done && y.done
    ensures DoneEvents([x, y]) == [(y.name, y.failed)]
    ensures DoneEvents([y]) == [(y.name, y.failed)]
  {
    assert [x, y][..1] == [x] && [x][..0] == [] && [y][..0] == [];
    assert DoneEvents([x]) == [];
  }

  lemma {:induction false} PassedEventsDone(cfg: Config, k: nat)
    requires k <= |Pipeline(cfg)|
    ensures DoneEvents(PassedEvents(cfg, k)) == Outcomes(PassedSteps(cfg, k))
    decreases k
  {
    hide Pipeline;
    if k > 0 {
      var name := Pipeline(cfg)[k - 1];
      PassedEventsDone(cfg, k - 1);
      DoneEventsSplit(PassedEvents(cfg, k - 1), [Event(name, false, false), Event(name, true, false)]);
      DoneOfPair(Event(name, false, false), Event(name, true, false));
    }
  }

  lemma {:induction false} DoneAppend(events: seq<Event>, begun: bool, x: Event, y: Event)
    requires !x.done && y.done
    ensures DoneEvents(events + (if begun then [x] else []) + [y]) == DoneEvents(events) + [(y.name, y.failed)]
  {
    DoneOfPair(x, y);
    var last := (if begun then [x] else []) + [y];
    assert events + (if begun then [x] else []) + [y] == events + last;
    assert last == if begun then [x, y] else [y];
    DoneEventsSplit(events, last);
  }

  /** End events and report steps correspond one to one, failed exactly when not passed. */
  lemma {:induction false} EventsMatchReport(cfg: Config, env: Env)
    ensures DoneEvents(ReportedEvents(cfg, env)) == Outcomes(ReportedSteps(cfg, env))
  {
    hide Pipeline, Verdict, DoneEvents;
    var k := PassedFrom(cfg, env, 0);
    PassedEventsDone(cfg, k);
    DoneOfPair(Event(InputCheck, false, false), Event(InputCheck, true, true));
    if k < |Pipeline(cfg)| {
      var name := Pipeline(cfg)[k];
      DoneAppend(PassedEvents(cfg, k), !(name == ContainerStart && cfg.networked && !env.networkOk),
        Event(name, false, false), Event(name, true, true));
    }
  }

  /** And so they do with the cleanup at the end. */
  lemma {:induction false} AllEventsMatchReport(cfg: Config, env: Env, ok: bool)
    ensures DoneEvents(ReportedEvents(cfg, env) + [Event(Cleanup, false, false), Event(Cleanup, true, !ok)]) ==
            Outcomes(ReportedSteps(cfg, env) + [Step(Cleanup, if ok then StepPassed else StepFailed)])
  {
    hide ReportedEvents, ReportedSteps, DoneEvents;
    EventsMatchReport(cfg, env);
    var x, y := Event(Cleanup, false, false), Event(Cleanup, true, !ok);
    DoneAppend(ReportedEvents(cfg, env), true, x, y);
    assert ReportedEvents(cfg, env) + [x, y] == ReportedEvents(cfg, env) + [x] + [y];
  }

  lemma {:induction false} PassedEventsInPairs(cfg: Config, k: nat)
    requires k <= |Pipeline(cfg)|
    ensures |PassedEvents(cfg, k)| == 2 * k
    ensures forall i :: 0 <= i < k ==>
      PassedEvents(cfg, k)[2 * i] == Event(Pipeline(cfg)[i], false, false) &&
      PassedEvents(cfg, k)[2 * i + 1] == Event(Pipeline(cfg)[i], true, false)
    decreases k
  {
    hide Pipeline;
    if k > 0 {
      PassedEventsInPairs(cfg, k - 1);
    }
  }

  /** Every step that is begun has its two events at its own place, the start and then the end, but for the
      container step when no network could be had: that one has only its end. */
  lemma {:induction false} EventsInPairs(cfg: Config, env: Env, i: nat)
    requires i < Tried(cfg, env)
    ensures var name, events := Pipeline(cfg)[i], ReportedEvents(cfg, env);
      var failed := Verdict(cfg, env, name) != StepPassed;
      if name == ContainerStart && cfg.networked && !env.networkOk then
        |events| == 2 * i + 1 && events[2 * i] == Event(name, true, true)
      else
        |events| >= 2 * i + 2 && events[2 * i] == Event(name, false, false) &&
        events[2 * i + 1] == Event(name, true, failed) && (failed ==> |events| == 2 * i + 2)
  {
    hide Pipeline, Verdict, PassedEvents;
    var k := PassedFrom(cfg, env, 0);
    PassedEventsInPairs(cfg, k);
    TriedIff(cfg, env, i);
    assert i < k ==> PassesAt(cfg, env, i);
    if i < k {
      NetworkPasses(cfg, env, i);
    }
  }

  lemma {:induction false} NetworkPasses(cfg: Config, env: Env, i: nat)
    requires i < |Pipeline(cfg)| && PassesAt(cfg, env, i)
    ensures !(Pipeline(cfg)[i] == ContainerStart && cfg.networked && !env.networkOk)
  {
    hide Pipeline;
  }

  /** The report is a prefix of the fixed order, or a lone failed input check; all steps passed except
      possibly the last; the status is PASSED exactly when rollback was reached with every step passed,
      USAGE_ERROR exactly when the input check failed, and FAILED otherwise. */
  lemma {:induction false} ReportShape(cfg: Config, env: Env)
    ensures var steps, p := ReportedSteps(cfg, env), Pipeline(cfg);
      |steps| > 0 &&
      (forall i :: 0 <= i < |steps| - 1 ==> steps[i].status == StepPassed) &&
      (steps == [Step(InputCheck, StepFailed)] ||
       (|steps| <= |p| && forall i :: 0 <= i < |steps| ==> steps[i].name == p[i])) &&
      (FinalStatus(cfg, env) == Passed <==> steps[|steps| - 1] == Step(Rollback, StepPassed)) &&
      (FinalStatus(cfg, env) == UsageError <==> steps[0].name == InputCheck) &&
      (|steps| < |p| && steps[0].name != InputCheck ==> steps[|steps| - 1].status != StepPassed)
  {
    var p, k := Pipeline(cfg), PassedFrom(cfg, env, 0);
    assert p[|p| - 1] == Rollback;
    assert forall i :: 0 <= i < |p| - 1 ==> p[i] != Rollback && p[i] != InputCheck;
  }

  // ----- What the steps do -----

  datatype Goal = SyncGoal | RollbackGoal

  /** A call of a dependency. */
  datatype Effect = Asked(name: StepName) | NetworkAsked | ContainerAsked | ValidatorRan
    | MavenRun(goal: Goal, params: seq<string>)

  function EffectsOf(cfg: Config, env: Env, name: StepName): seq<Effect> {
    match name
    case ContainerStart =>
      (if cfg.networked then [NetworkAsked] else []) +
      (if cfg.networked && !env.networkOk then [] else [ContainerAsked])
    case PreSyncValidate => if cfg.validator && env.validation.rulesetThere then [ValidatorRan] else []
    case Sync => [MavenRun(SyncGoal, EnsureTag(SyncParams(), env.syncTag))]
    case Rollback =>
      var tag := if env.tag.Present? then env.tag.value else "";
      [MavenRun(RollbackGoal, EnsureTag(RollbackParams(tag), env.rollbackTag))]
    case _ => [Asked(name)]
  }

  /** The calls of the first `k` steps. */
  function EffectsUpTo(cfg: Config, env: Env, k: nat): seq<Effect>
    requires k <= |Pipeline(cfg)|
  {
    if k == 0 then [] else EffectsUpTo(cfg, env, k - 1) + EffectsOf(cfg, env, Pipeline(cfg)[k - 1])
  }

  datatype Resource = TempDir | Clone | Network | Container

  /** What a step acquires, in order, whether it then passes or not. */
  function Gains(cfg: Config, env: Env, name: StepName): seq<Resource> {
    match name
    case CloneRepo => [TempDir] + (if env.cloneOk then [Clone] else [])
    case ContainerStart =>
      (if cfg.networked && env.networkOk then [Network] else []) +
      (if (!cfg.networked || env.networkOk) && env.startOk then [Container] else [])
    case _ => []
  }

  function GainsUpTo(cfg: Config, env: Env, k: nat): seq<Resource>
    requires k <= |Pipeline(cfg)|
  {
    if k == 0 then [] else GainsUpTo(cfg, env, k - 1) + Gains(cfg, env, Pipeline(cfg)[k - 1])
  }

  /** How many steps are begun. */
  function Tried(cfg: Config, env: Env): (n: nat)
    ensures n <= |Pipeline(cfg)|
  {
    if !InputOk(cfg, env) then 0 else
      var k := PassedFrom(cfg, env, 0);
      if k == |Pipeline(cfg)| then k else k + 1
  }

  function Calls(cfg: Config, env: Env): seq<Effect> {
    EffectsUpTo(cfg, env, Tried(cfg, env))
  }

  function Acquired(cfg: Config, env: Env): seq<Resource> {
    GainsUpTo(cfg, env, Tried(cfg, env))
  }

  /** The position of a step in the pipeline. */
  function Position(cfg: Config, name: StepName): (i: nat)
    requires name != InputCheck && name != Cleanup && (name == Overlay ==> cfg.overlayer)
    ensures i < |Pipeline(cfg)| && Pipeline(cfg)[i] == name
  {
    var shift := if cfg.overlayer then 1 else 0;
    match name
    case Preflight => 0
    case CloneRepo => 1
    case EngineGuard => 2
    case Overlay => 3
    case ContainerStart => 3 + shift
    case ReadinessProbe => 4 + shift
    case SchemaSetup => 5 + shift
    case PomDriverInject => 6 + shift
    case PropertiesPatch => 7 + shift
    case PreSyncValidate => 8 + shift
    case Sync => 9 + shift
    case FirstTag => 10 + shift
    case Rollback => 11 + shift
  }

  /** A step is begun exactly when the input check and all steps before it pass. */
  lemma {:induction false} TriedIff(cfg: Config, env: Env, i: nat)
    requires i < |Pipeline(cfg)|
    ensures i < Tried(cfg, env) <==> InputOk(cfg, env) && forall j :: 0 <= j < i ==> PassesAt(cfg, env, j)
  {
    hide Pipeline, Verdict, PassesAt;
    var k := PassedFrom(cfg, env, 0);
    assert k < i ==> !PassesAt(cfg, env, k);
  }

  /** Every call belongs to one step that is begun, and comes after the calls of the steps before it. */
  lemma {:induction false} CallOfStep(cfg: Config, env: Env, n: nat, i: nat) returns (m: nat)
    requires n <= |Pipeline(cfg)| && i < |EffectsUpTo(cfg, env, n)|
    ensures m < n && |EffectsUpTo(cfg, env, m)| <= i
    ensures i < |EffectsUpTo(cfg, env, m)| + |EffectsOf(cfg, env, Pipeline(cfg)[m])|
    ensures EffectsUpTo(cfg, env, n)[i] == EffectsOf(cfg, env, Pipeline(cfg)[m])[i - |EffectsUpTo(cfg, env, m)|]
    ensures EffectsUpTo(cfg, env, m) <= EffectsUpTo(cfg, env, n)
    decreases n
  {
    hide Pipeline, EffectsOf;
    if i < |EffectsUpTo(cfg, env, n - 1)| {
      m := CallOfStep(cfg, env, n - 1, i);
    } else {
      m := n - 1;
    }
  }

  lemma {:induction false} EffectsGrow(cfg: Config, env: Env, m: nat, n: nat)
    requires m <= n <= |Pipeline(cfg)|
    ensures EffectsUpTo(cfg, env, m) <= EffectsUpTo(cfg, env, n)
    decreases n
  {
    hide Pipeline, EffectsOf;
    if m < n {
      EffectsGrow(cfg, env, m, n - 1);
    }
  }

  /** Which step makes which call. */
  lemma {:induction false} CallerOf(cfg: Config, env: Env, i: nat) returns (m: nat)
    requires i < |Calls(cfg, env)|
    ensures m < Tried(cfg, env) && |EffectsUpTo(cfg, env, m)| <= i && EffectsUpTo(cfg, env, m) <= Calls(cfg, env)
    ensures Calls(cfg, env)[i] in EffectsOf(cfg, env, Pipeline(cfg)[m])
    ensures Calls(cfg, env)[i].MavenRun? ==> |EffectsUpTo(cfg, env, m)| == i
    ensures var name := Pipeline(cfg)[m]; match Calls(cfg, env)[i]
      case Asked(_) => true
      case NetworkAsked => name == ContainerStart
      case ContainerAsked => name == ContainerStart
      case ValidatorRan => name == PreSyncValidate
      case MavenRun(goal, _) => name == if goal == SyncGoal then Sync else Rollback
  {
    hide Pipeline, EffectsUpTo, Tried;
    m := CallOfStep(cfg, env, Tried(cfg, env), i);
  }

  /** A step that is begun comes after steps that pass, with their answers. */
  lemma {:induction false} BegunAfter(cfg: Config, env: Env, m: nat, earlier: StepName)
    requires m < Tried(cfg, env)
    requires earlier != InputCheck && earlier != Cleanup && (earlier == Overlay ==> cfg.overlayer)
    requires Position(cfg, earlier) < m
    ensures InputOk(cfg, env) && Verdict(cfg, env, earlier) == StepPassed
  {
    hide Verdict;
    TriedIff(cfg, env, m);
    assert PassesAt(cfg, env, Position(cfg, earlier));
  }

  lemma {:induction false} StepAt(cfg: Config, m: nat, name: StepName)
    requires m < |Pipeline(cfg)| && Pipeline(cfg)[m] == name
    ensures name != InputCheck && name != Cleanup && (name == Overlay ==> cfg.overlayer) && Position(cfg, name) == m
  {
  }

  /** Sync is invoked only behind an open gate, with the run's tag put in front of its parameters; and when
      a validator is wired, its container ran before. */
  lemma {:induction false} SyncIsGated(cfg: Config, env: Env, i: nat)
    requires i < |Calls(cfg, env)| && Calls(cfg, env)[i].MavenRun? && Calls(cfg, env)[i].goal == SyncGoal
    ensures cfg.validator ==>
      var v := env.validation;
      var file := if v.copied.zipped != NoFile then v.copied.zipped
                  else if v.copied.stale != NoFile then v.copied.stale else v.copied.direct;
      v.rulesetThere && !v.runFails && file.Parsed? && (file.report.status == "PASS" || file.report.status == "INFO")
    ensures cfg.validator ==> ValidatorRan in Calls(cfg, env)[..i]
    ensures Calls(cfg, env)[i].params == ["--TAG=" + env.syncTag, "--AUTHOR=validator-cli"]
  {
    hide Pipeline, Tried, EnsureTag, Calls, EffectsUpTo;
    var m := CallerOf(cfg, env, i);
    StepAt(cfg, m, Sync);
    TagOfGoals("", env.syncTag);
    var gate := Position(cfg, PreSyncValidate);
    assert gate < m;
    BegunAfter(cfg, env, m, PreSyncValidate);
    if cfg.validator {
      GateCall(cfg, env, gate);
      EffectsGrow(cfg, env, gate + 1, m);
      assert ValidatorRan in EffectsUpTo(cfg, env, m);
      assert EffectsUpTo(cfg, env, m) == Calls(cfg, env)[..i];
    }
  }

  /** What a step asks for once it is begun: the calls of the steps before it come first, and then its own. */
  lemma {:induction false} StepsAsk(cfg: Config, env: Env, i: nat)
    requires i < Tried(cfg, env)
    ensures var name := Pipeline(cfg)[i];
      var own := match name
        case ContainerStart =>
          if !cfg.networked then [ContainerAsked]
          else if env.networkOk then [NetworkAsked, ContainerAsked]
          else [NetworkAsked]
        case PreSyncValidate => if cfg.validator && env.validation.rulesetThere then [ValidatorRan] else []
        case Sync => [MavenRun(SyncGoal, ["--TAG=" + env.syncTag, "--AUTHOR=validator-cli"])]
        case Rollback => if env.tag.Present? then [MavenRun(RollbackGoal, ["--TAG=" + env.tag.value])] else []
        case _ => [Asked(name)];
      EffectsUpTo(cfg, env, i) + own <= Calls(cfg, env) && (name == Rollback ==> env.tag.Present?)
  {
    hide Pipeline, Tried, EnsureTag;
    var name := Pipeline(cfg)[i];
    EffectsGrow(cfg, env, i + 1, Tried(cfg, env));
    assert EffectsUpTo(cfg, env, i + 1) == EffectsUpTo(cfg, env, i) + EffectsOf(cfg, env, name);
    TagOfGoals("", env.syncTag);
    if name == Rollback {
      StepAt(cfg, i, Rollback);
      FirstTagBefore(cfg);
      BegunAfter(cfg, env, i, FirstTag);
      TagOfGoals(env.tag.value, env.rollbackTag);
    }
  }

  lemma {:induction false} FirstTagBefore(cfg: Config)
    ensures Position(cfg, FirstTag) < Position(cfg, Rollback)
  {
  }

  lemma {:induction false} GateCall(cfg: Config, env: Env, gate: nat)
    requires gate < |Pipeline(cfg)| && Pipeline(cfg)[gate] == PreSyncValidate
    requires cfg.validator && env.validation.rulesetThere
    ensures ValidatorRan in EffectsUpTo(cfg, env, gate + 1)
  {
    hide Pipeline;
    assert ValidatorRan in EffectsOf(cfg, env, PreSyncValidate);
  }

  /** Rollback is invoked at most once, after sync passed and a tag was found, and with exactly that tag. */
  lemma {:induction false} RollbackIsGated(cfg: Config, env: Env, i: nat)
    requires i < |Calls(cfg, env)| && Calls(cfg, env)[i].MavenRun? && Calls(cfg, env)[i].goal == RollbackGoal
    ensures MavenStatus(env.sync) == StepPassed && env.tag.Present?
    ensures Calls(cfg, env)[i].params == ["--TAG=" + env.tag.value]
    ensures i == |EffectsUpTo(cfg, env, Position(cfg, Rollback))|
  {
    hide Pipeline, Tried, EnsureTag, Calls, EffectsUpTo;
    var m := CallerOf(cfg, env, i);
    StepAt(cfg, m, Rollback);
    assert Position(cfg, Sync) < m && Position(cfg, FirstTag) < m;
    BegunAfter(cfg, env, m, Sync);
    BegunAfter(cfg, env, m, FirstTag);
    TagOfGoals(env.tag.value, env.rollbackTag);
  }

  /** The network is asked for only when the engine guard and the overlay, if wired, have passed. */
  lemma {:induction false} NetworkIsLazy(cfg: Config, env: Env, i: nat)
    requires i < |Calls(cfg, env)| && (Calls(cfg, env)[i].NetworkAsked? || Calls(cfg, env)[i].ContainerAsked?)
    ensures InputOk(cfg, env) && env.preflightOk && env.cloneOk && env.engineOk && (cfg.overlayer ==> env.overlayOk)
    ensures Calls(cfg, env)[i].NetworkAsked? ==> cfg.networked
    ensures Calls(cfg, env)[i].ContainerAsked? && cfg.networked ==> env.networkOk
  {
    hide Pipeline, Tried, EnsureTag, Calls, EffectsUpTo;
    var m := CallerOf(cfg, env, i);
    StepAt(cfg, m, ContainerStart);
    BegunAfter(cfg, env, m, Preflight);
    BegunAfter(cfg, env, m, CloneRepo);
    BegunAfter(cfg, env, m, EngineGuard);
    if cfg.overlayer {
      BegunAfter(cfg, env, m, Overlay);
    }
  }

  /** Up to container start, nothing depends on whether a network and a container can be had. */
  lemma {:induction false} SameBefore(cfg: Config, env: Env, env': Env, k: nat)
    requires k <= Position(cfg, ContainerStart)
    requires env' == env.(networkOk := env'.networkOk, startOk := env'.startOk)
    ensures AllPassBelow(cfg, env, k) == AllPassBelow(cfg, env', k)
    ensures EffectsUpTo(cfg, env, k) == EffectsUpTo(cfg, env', k) && GainsUpTo(cfg, env, k) == GainsUpTo(cfg, env', k)
    decreases k
  {
    hide Pipeline, Verdict, EffectsOf, Gains;
    SameStep(cfg, env, env', InputCheck);
    if k > 0 {
      SameBefore(cfg, env, env', k - 1);
      StepAt(cfg, k - 1, Pipeline(cfg)[k - 1]);
      SameStep(cfg, env, env', Pipeline(cfg)[k - 1]);
      PassBelowNext(cfg, env, k - 1);
      PassBelowNext(cfg, env', k - 1);
    }
  }

  lemma {:induction false} PassBelowNext(cfg: Config, env: Env, k: nat)
    requires k < |Pipeline(cfg)|
    ensures AllPassBelow(cfg, env, k + 1) <==> AllPassBelow(cfg, env, k) && PassesAt(cfg, env, k)
  {
    hide Pipeline, Verdict;
  }

  lemma {:induction false} SameStep(cfg: Config, env: Env, env': Env, name: StepName)
    requires name != ContainerStart && env' == env.(networkOk := env'.networkOk, startOk := env'.startOk)
    ensures Verdict(cfg, env, name) == Verdict(cfg, env', name)
    ensures EffectsOf(cfg, env, name) == EffectsOf(cfg, env', name) && Gains(cfg, env, name) == Gains(cfg, env', name)
  {
    hide Verdict, EffectsOf, Gains;
    SameVerdict(cfg, env, env', name);
    SameEffects(cfg, env, env', name);
    SameGains(cfg, env, env', name);
  }

  lemma {:induction false} SameVerdict(cfg: Config, env: Env, env': Env, name: StepName)
    requires name != ContainerStart && env' == env.(networkOk := env'.networkOk, startOk := env'.startOk)
    ensures Verdict(cfg, env, name) == Verdict(cfg, env', name)
  {
    hide GateOpen, MavenStatus;
  }

  lemma {:induction false} SameEffects(cfg: Config, env: Env, env': Env, name: StepName)
    requires name != ContainerStart && env' == env.(networkOk := env'.networkOk, startOk := env'.startOk)
    ensures EffectsOf(cfg, env, name) == EffectsOf(cfg, env', name)
  {
    hide EnsureTag, SyncParams, RollbackParams;
  }

  lemma {:induction false} SameGains(cfg: Config, env: Env, env': Env, name: StepName)
    requires name != ContainerStart && env' == env.(networkOk := env'.networkOk, startOk := env'.startOk)
    ensures Gains(cfg, env, name) == Gains(cfg, env', name)
  {
  }

  // ----- What the run acquires -----

  /** What the first `k` steps can have acquired: nothing is acquired but by clone and container start. */
  lemma {:induction false} GainsSoFar(cfg: Config, env: Env, k: nat)
    requires k <= |Pipeline(cfg)|
    ensures GainsUpTo(cfg, env, k) ==
      (if k > Position(cfg, CloneRepo) then Gains(cfg, env, CloneRepo) else []) +
      (if k > Position(cfg, ContainerStart) then Gains(cfg, env, ContainerStart) else [])
    decreases k
  {
    hide Pipeline;
    if k > 0 {
      GainsSoFar(cfg, env, k - 1);
      StepAt(cfg, k - 1, Pipeline(cfg)[k - 1]);
    }
  }

  /** Always in the order temporary directory, clone, network, container, each at most once: the directory
      as soon as cloning begins, the clone when cloning succeeds, the network and the container when they
      could be created. */
  lemma {:induction false} AcquiredInOrder(cfg: Config, env: Env)
    ensures var begun := InputOk(cfg, env) && env.preflightOk;
      var ready := begun && env.cloneOk && env.engineOk && (cfg.overlayer ==> env.overlayOk);
      var network := ready && cfg.networked && env.networkOk;
      Acquired(cfg, env) ==
        (if begun then [TempDir] else []) + (if begun && env.cloneOk then [Clone] else []) +
        (if network then [Network] else []) +
        (if ready && (cfg.networked ==> env.networkOk) && env.startOk then [Container] else [])
  {
    hide PassedFrom;
    TriedIff(cfg, env, Position(cfg, CloneRepo));
    TriedIff(cfg, env, Position(cfg, ContainerStart));
    assert PassesAt(cfg, env, 0) <==> env.preflightOk;
    assert PassesAt(cfg, env, 1) <==> env.cloneOk;
    assert PassesAt(cfg, env, 2) <==> env.engineOk;
    assert cfg.overlayer ==> (PassesAt(cfg, env, 3) <==> env.overlayOk);
    GainsSoFar(cfg, env, Tried(cfg, env));
  }
}
