/** internal/orchestrator/orchestrator.go: one validation run, from the input check to the last cleaner. */
module Orchestrator {
  import opened Containers
  import opened FileSys
  import opened MavenRunner
  import opened Registry
  import opened RunCleanup
  import opened RunSpec
  import opened Workspace
  import RulesGate

  // ----- The cleanup trace -----

  datatype TraceLine = ContainerRemoved | ContainerNever | NetworkRemoved | NetworkNever
    | NoClone | CloneRemoved | CloneRetained(runDir: MaybePath) | TeardownErrors(errs: seq<Cleaning>)

  function WorkspaceLine(cloneRoot: MaybePath, runDir: MaybePath, keep: bool, passed: bool): TraceLine {
    if cloneRoot.NoPath? then NoClone
    else if passed && !keep then CloneRemoved
    else CloneRetained(runDir)
  }

  function TraceOf(cs: CleanupState, passed: bool, errs: seq<Cleaning>): seq<TraceLine> {
    [if cs.containerRegistered then ContainerRemoved else ContainerNever,
     if cs.networkRegistered then NetworkRemoved else NetworkNever,
     WorkspaceLine(cs.cloneRoot, cs.runDir, cs.keepWorkspace, passed)] +
    (if errs == [] then [] else [TeardownErrors(errs)])
  }

  /** buildCleanupTrace. */
  method BuildCleanupTrace(cs: CleanupState, errs: seq<Cleaning>) returns (lines: seq<TraceLine>)
    ensures lines == TraceOf(cs, cs.finalStatus.status == Passed, errs)
  {
    lines := [];
    if cs.containerRegistered {
      lines := lines + [ContainerRemoved];
    } else {
      lines := lines + [ContainerNever];
    }
    if cs.networkRegistered {
      lines := lines + [NetworkRemoved];
    } else {
      lines := lines + [NetworkNever];
    }
    if cs.cloneRoot.NoPath? {
      lines := lines + [NoClone];
    } else if cs.finalStatus.status == Passed && !cs.keepWorkspace {
      lines := lines + [CloneRemoved];
    } else {
      lines := lines + [CloneRetained(cs.runDir)];
    }
    if |errs| > 0 {
      lines := lines + [TeardownErrors(errs)];
    }
  }

  // ----- The run -----

  /** The files that a row of calls leaves of the tree `t`: every dependency but Docker may write at and below
      the temporary directory `d`. */
  function LeftBy(t: Tree, calls: seq<Effect>, writes: nat -> Tree, d: Path): Tree {
    if calls == [] then t else
      var n := |calls| - 1;
      var before := LeftBy(t, calls[..n], writes, d);
      if calls[n].NetworkAsked? || calls[n].ContainerAsked? then before else Written(before, writes(n), d)
  }

  lemma {:induction false} LeftByNext(t: Tree, calls: seq<Effect>, e: Effect, writes: nat -> Tree, d: Path)
    ensures LeftBy(t, calls + [e], writes, d) ==
      var before := LeftBy(t, calls, writes, d);
      if e.NetworkAsked? || e.ContainerAsked? then before else Written(before, writes(|calls|), d)
  {
    assert (calls + [e])[..|calls|] == calls;
  }

  /** What became of the script report: no clone or run directory; no report in the clone; copied, or not. */
  datatype ReportCopy = NotDue | NotFound | CopyMade | CopyFailed

  function KindOf(c: Cleaner): Resource {
    match c
    case StopContainer => Container
    case RemoveNet(_) => Network
    case Dispose(_) => Clone
    case RemoveDir(_) => TempDir
  }

  function Kinds(entries: seq<Cleaner>): seq<Resource> {
    seq(|entries|, i requires 0 <= i < |entries| => KindOf(entries[i]))
  }

  lemma {:induction false} KindsAppend(entries: seq<Cleaner>, c: Cleaner)
    ensures Kinds(entries + [c]) == Kinds(entries) + [KindOf(c)]
  {
  }

  class ValidationRun {
    const cfg: Config
    const st: Settings
    const world: World
    const registry: CleanupRegistry
    const overallStatus: StatusCell
    /** What the dependencies write: call number `i` asks for the tree `writes(i)`. */
    const writes: nat -> Tree
    /** The answers of the dependencies; whether network and container could be had is settled on the way. */
    var env: Env
    var steps: seq<Step>
    var events: seq<Event>
    var calls: seq<Effect>
    var cs: CleanupState
    var trace: seq<TraceLine>
    /** The world when the run began and when its cleanup began, and the id of its network. */
    ghost const start: Snap
    ghost var cleanedFrom: Snap
    ghost var net: nat
    /** The files when the report is about to be built, and what became of the script report. */
    ghost var treeBefore: Tree
    /** How many operations had failed then, on files, and when the cleanup began, on files and in Docker. */
    ghost var failuresBefore: nat
    ghost var troublesBefore: nat
    var reportCopy: ReportCopy

    constructor (cfg: Config, st: Settings, env: Env, writes: nat -> Tree, world: World)
      requires world.Valid() && Separate(st) && world.host.provider.container == Nothing
      ensures this.cfg == cfg && this.st == st && this.world == world && this.env == env && this.writes == writes
      ensures start == world.Now() && Tracked()
      ensures Shape(0, false) <==> InputOk(cfg, env)
      ensures Sound() && Gained(0) && fresh(registry) && fresh(overallStatus) && registry.entries == []
      ensures steps == [] && events == [] && overallStatus.status == Passed
    {
      this.cfg, this.st, this.world, this.env, this.writes := cfg, st, world, env, writes;
      reportCopy := NotDue;
      registry := new CleanupRegistry();
      var cell := new StatusCell();
      overallStatus := cell;
      steps, events, calls, trace := [], [], [], [];
      cs := CleanupState(NoPath, st.runDir, st.keepWorkspace, cell, false, false);
      start := world.Now();
      net := world.host.docker.next;
      new;
      hide Pipeline, InputOk, AllPassBelow, PassedSteps, PassedEvents, EffectsUpTo, GainsUpTo, Balance, SameElsewhere,
        WorkspaceAsBefore, Separate, World.Valid, LeftBy;
      SameElsewhereRefl(st, start.tree);
      WorkspaceAsBeforeRefl(st, start.tree);
      NothingYet(cfg, env);
      BalancedAtStart(start, net);
      assert Kinds([]) == [];
    }

    ghost function Frame(): set<object>
      reads registry`entries
    {
      {this, registry, overallStatus, world.fs, world.host, world.host.docker, world.host.provider, world.ctx} +
      Flags(registry.entries)
    }

    /** An entry is what this run registers. */
    ghost predicate EntryOk(c: Cleaner)
      reads this`net, world.host.docker`next, if c.RemoveNet? then {c.cleanup} else {}
    {
      match c
      case StopContainer => true
      case RemoveNet(cleanup) => cleanup.id == net && !cleanup.removed && cleanup.id < world.host.docker.next
      case Dispose(captured) =>
        captured == CleanupState(At(st.cloneRoot), st.runDir, st.keepWorkspace, overallStatus, false, false)
      case RemoveDir(dir) => dir == st.destDir
    }

    /** The cleanup state as the registered resources determine it. */
    ghost predicate StateOk(kinds: seq<Resource>)
      reads this`cs
    {
      cs == CleanupState(if Clone in kinds then At(st.cloneRoot) else NoPath, st.runDir, st.keepWorkspace,
                         overallStatus, Network in kinds, Container in kinds)
    }

    ghost predicate Sound()
      reads this`cs, this`net, registry, world.fs, world.host.docker, world.host.provider, Flags(registry.entries)
    {
      world.Valid() && Separate(st) && !registry.ran && (forall c :: c in registry.entries ==> EntryOk(c)) &&
      StateOk(Kinds(registry.entries)) &&
      Balance(start, world.Now(), Network in Kinds(registry.entries), Container in Kinds(registry.entries), net) &&
      SameElsewhere(st, start.tree, world.fs.tree) && WorkspaceAsBefore(st, start.tree, world.fs.tree)
    }

    /** The files are what the calls so far have left of those at the start. */
    ghost predicate Tracked()
      reads this`calls, world.fs
    {
      world.fs.tree == LeftBy(start.tree, calls, writes, st.destDir)
    }

    /** `k` steps have passed, and the next may have begun. */
    ghost predicate Shape(k: nat, begun: bool)
      reads this, overallStatus
    {
      k <= |Pipeline(cfg)| && AllPassBelow(cfg, env, k) && overallStatus.status == Passed &&
        steps == PassedSteps(cfg, k) &&
      if begun then k < |Pipeline(cfg)| && events == PassedEvents(cfg, k) + [Event(Pipeline(cfg)[k], false, false)]
      else events == PassedEvents(cfg, k)
    }

    /** The calls made and the resources registered are those of the first `n` steps. */
    ghost predicate Gained(n: nat)
      reads this, registry
    {
      n <= |Pipeline(cfg)| && calls == EffectsUpTo(cfg, env, n) && Kinds(registry.entries) == GainsUpTo(cfg, env, n)
    }

    method Notify(name: StepName, done: bool, failed: bool)
      modifies this`events
      ensures events == old(events) + [Event(name, done, failed)]
    {
      events := events + [Event(name, done, failed)];
    }

    /** The dependency behind a step is asked; it may write below the temporary directory. */
    method Ask(e: Effect)
      requires Sound() && Tracked() && !e.NetworkAsked? && !e.ContainerAsked?
      modifies this`calls, world.fs
      ensures Sound() && Tracked() && calls == old(calls) + [e]
    {
      hide Balance, SameElsewhere, WorkspaceAsBefore, SameOutside, Separate, FileSys.Valid, LeftBy, Written;
      LeftByNext(start.tree, calls, e, writes, st.destDir);
      ghost var before := world.fs.tree;
      world.fs.Scribble(st.destDir, writes(|calls|));
      calls := calls + [e];
      BalanceIgnoresTree(start, world.Now().(tree := before), world.Now(), Network in Kinds(registry.entries),
                         Container in Kinds(registry.entries), net);
      WritesBelow(st, before, world.fs.tree);
      SameElsewhereTrans(st, start.tree, before, world.fs.tree);
      WritesMissWorkspace(st, before, world.fs.tree);
      WorkspaceAsBeforeTrans(st, start.tree, before, world.fs.tree);
    }

    /** Docker is asked for something. */
    method AskDocker(e: Effect)
      requires e.NetworkAsked? || e.ContainerAsked?
      modifies this`calls
      ensures old(Tracked()) ==> Tracked()
      ensures calls == old(calls) + [e]
    {
      hide LeftBy;
      LeftByNext(start.tree, calls, e, writes, st.destDir);
      calls := calls + [e];
    }

    method Pass(name: StepName, ghost k: nat)
      requires Shape(k, true) && Pipeline(cfg)[k] == name && PassesAt(cfg, env, k)
      modifies this`events, this`steps
      ensures Shape(k + 1, false)
    {
      hide Pipeline, Verdict, PassesAt, AllPassBelow, PassedSteps, PassedEvents, LeftBy;
      Notify(name, true, false);
      steps := steps + [Step(name, StepPassed)];
      NextPassed(cfg, env, k);
    }

    /** The report directory of the clone is copied; the clone and the workspace's place are left alone. */
    method CopyReport() returns (ok: bool)
      requires Sound() && st.runDir.At?
      modifies world.fs
      ensures Sound() && SameUnder(old(world.fs.tree), world.fs.tree, st.cloneRoot)
      ensures ok ==>
        Copied(old(world.fs.tree), st.cloneRoot + REPORT_SOURCE, world.fs.tree, ScriptReport(st.runDir.path))
      ensures world.fs.failures >= old(world.fs.failures) && (ok <==> world.fs.failures == old(world.fs.failures))
    {
      hide Balance, SameElsewhere, WorkspaceAsBefore, Separate, FileSys.Valid, Copied, FrameOf, SameUnder, Kinds;
      ghost var before, was := world.fs.tree, world.Now();
      CloneIsApart(st);
      ok := CopyTree(world.fs, st.cloneRoot + REPORT_SOURCE, ScriptReport(st.runDir.path));
      BalanceIgnoresTree(start, was, world.Now(), Network in Kinds(registry.entries),
                         Container in Kinds(registry.entries), net);
      ReportWrites(st, before, world.fs.tree);
      SameElsewhereTrans(st, start.tree, before, world.fs.tree);
      ReportMissesWorkspace(st, before, world.fs.tree);
      WorkspaceAsBeforeTrans(st, start.tree, before, world.fs.tree);
    }

    /** The script report of the clone, if there is one, is copied into the run directory. */
    method CopyScriptReport()
      requires Sound()
      modifies world.fs, this`treeBefore, this`failuresBefore, this`reportCopy
      ensures Sound() && SameUnder(treeBefore, world.fs.tree, st.cloneRoot) && ReportTold(cs.cloneRoot.At?)
      ensures treeBefore == old(world.fs.tree)
    {
      hide Balance, SameElsewhere, WorkspaceAsBefore, Separate, World.Valid, EntryOk, Kinds, Copied, SameUnder;
      treeBefore, failuresBefore, reportCopy := world.fs.tree, world.fs.failures, NotDue;
      SameUnderRefl(treeBefore, st.cloneRoot);
      ReportSourceSpelt();
      if cs.cloneRoot.At? && st.runDir.At? {
        var src := cs.cloneRoot.path + REPORT_SOURCE;
        reportCopy := NotFound;
        if src in world.fs.tree && world.fs.tree[src].Dir? {
          var ok := CopyReport();
          reportCopy := if ok then CopyMade else CopyFailed;
        }
      }
    }

    /** What became of the script report is told right: if it was copied it is in the run directory, and if the
        copy failed an operation did. */
    ghost predicate ReportTold(cloned: bool)
      reads this`treeBefore, this`failuresBefore, this`reportCopy, world.fs
    {
      var src := st.cloneRoot + ["src", "main", "resources", "Validator", "outputReport", "report"];
      (reportCopy == NotDue <==> !(cloned && st.runDir.At?)) &&
      (reportCopy == NotFound <==>
        cloned && st.runDir.At? && !(src in treeBefore && treeBefore[src].Dir?)) &&
      (reportCopy == CopyMade ==> Copied(treeBefore, src, world.fs.tree, st.runDir.path + ["script-report"])) &&
      (reportCopy == CopyFailed ==> world.fs.failures > failuresBefore)
    }

    /** The end of the report: the cleanup is its last step, and has no say in the status. */
    ghost predicate ReportDone()
      reads this, registry, overallStatus
    {
      var ok := AllOk(registry.log);
      steps == ReportedSteps(cfg, env) + [Step(Cleanup, if ok then StepPassed else StepFailed)] &&
      events == ReportedEvents(cfg, env) + [Event(Cleanup, false, false), Event(Cleanup, true, !ok)] &&
      overallStatus.status == FinalStatus(cfg, env) && calls == Calls(cfg, env)
    }

    /** The registered resources were those of the run, and each was cleaned up once, in reverse; what that
        achieved, and that an error of the cleanup means that an operation of it failed. */
    ghost predicate Cleared()
      reads this`treeBefore, this`failuresBefore, this`troublesBefore, this`reportCopy, this`env, this`net,
            this`cleanedFrom, registry, world.fs, world.host.docker, world.host.provider
    {
      var acquired, log, passed := Acquired(cfg, env), registry.log, FinalStatus(cfg, env) == Passed;
      Kinds(registry.entries) == acquired && CleansInReverse(log, acquired, st, passed, net) &&
      Balance(start, cleanedFrom, Network in acquired, Container in acquired, net) &&
      SameUnder(treeBefore, cleanedFrom.tree, st.cloneRoot) && Chain(log, cleanedFrom, world.Now()) &&
      NothingOutlives(start, world.Now(), Network in acquired, net, AllOk(log)) &&
      SameElsewhere(st, start.tree, world.fs.tree) && (AllOk(log) <==> world.Troubles() == troublesBefore) &&
      (AllOk(log) ==>
        CloneSettled(st, passed, start.tree, treeBefore, world.fs.tree, Clone in acquired, TempDir in acquired)) &&
      ReportTold(Clone in acquired)
    }

    /** And the trace says so. */
    ghost predicate Settled()
      reads this`treeBefore, this`failuresBefore, this`troublesBefore, this`reportCopy, this`env, this`cs, this`net,
            this`cleanedFrom, this`trace, registry, world.fs, world.host.docker, world.host.provider
    {
      Cleared() && StateOk(Acquired(cfg, env)) &&
      trace == TraceOf(cs, FinalStatus(cfg, env) == Passed, Failures(registry.log))
    }

    /** The registry has run, and running it again would be possible. */
    ghost predicate Closed()
      reads registry, world.fs, world.host.docker, world.host.provider
    {
      world.Valid() && registry.ran && forall c :: c in registry.entries ==> world.Runnable(c)
    }

    ghost predicate Reported()
      reads this, overallStatus
    {
      steps == ReportedSteps(cfg, env) && events == ReportedEvents(cfg, env) &&
      overallStatus.status == FinalStatus(cfg, env) && calls == Calls(cfg, env)
    }

    lemma {:induction false} EntryResolves(c: Cleaner)
      requires EntryOk(c) && Separate(st) && overallStatus.status == FinalStatus(cfg, env)
      ensures world.Runnable(c)
      ensures Resolve(c) == CleaningOf(KindOf(c), st, FinalStatus(cfg, env) == Passed, net)
    {
      hide Separate, FinalStatus, Apart, Disposal;
      if st.runDir.At? {
        CloneIsApart(st);
      }
      DirIsNotRoot(st);
    }

    lemma {:induction false} EntriesResolve()
      requires Sound() && Kinds(registry.entries) == Acquired(cfg, env) && overallStatus.status == FinalStatus(cfg, env)
      ensures forall c :: c in registry.entries ==> world.Runnable(c)
      ensures forall i :: 0 <= i < |registry.entries| ==>
        RunsOnce(registry.entries, i) &&
        Resolve(registry.entries[i]) == CleaningOf(Acquired(cfg, env)[i], st, FinalStatus(cfg, env) == Passed, net)
    {
      hide Balance, SameElsewhere, WorkspaceAsBefore, FinalStatus, Acquired, Separate, World.Valid, World.Runnable,
        EntryOk, Resolve, CleaningOf;
      var t, c, n, p := AcquiredForm(cfg, env);
      forall c | c in registry.entries
        ensures world.Runnable(c) && Resolve(c) == CleaningOf(KindOf(c), st, FinalStatus(cfg, env) == Passed, net)
      {
        EntryResolves(c);
      }
      var entries, kinds := registry.entries, Kinds(registry.entries);
      assert forall i :: 0 <= i < |entries| ==> kinds[i] == KindOf(entries[i]);
    }

    /** All cleaners are run: those of the acquired resources, the last acquired first. */
    method RunCleaners() returns (errs: seq<Cleaning>)
      requires Sound() && Kinds(registry.entries) == Acquired(cfg, env)
      requires overallStatus.status == FinalStatus(cfg, env)
      modifies registry`ran, registry`log, world.fs, world.host.docker, world.host.provider, Flags(registry.entries)
      ensures Closed() && Chain(registry.log, old(world.Now()), world.Now()) && errs == Failures(registry.log)
      ensures world.fs.failures >= old(world.fs.failures) && (errs == [] <==> world.Troubles() == old(world.Troubles()))
      ensures CleansInReverse(registry.log, Acquired(cfg, env), st, FinalStatus(cfg, env) == Passed, net)
    {
      hide Balance, SameElsewhere, WorkspaceAsBefore, Separate, World.Valid, World.Runnable, FinalStatus, Acquired,
        Chain, Cleans, CleaningOf, Resolve, RunsOnce, EntryOk, Disposal, Failures;
      EntriesResolve();
      errs := registry.RunAll(world);
    }

    method CleanUp() returns (errs: seq<Cleaning>)
      requires Sound() && Kinds(registry.entries) == Acquired(cfg, env)
      requires overallStatus.status == FinalStatus(cfg, env)
      requires SameUnder(treeBefore, world.fs.tree, st.cloneRoot) && ReportTold(cs.cloneRoot.At?)
      modifies registry`ran, registry`log, this`cleanedFrom, this`troublesBefore, world.fs, world.host.docker,
               world.host.provider, Flags(registry.entries)
      ensures Closed() && Cleared() && errs == Failures(registry.log) && (errs == [] <==> AllOk(registry.log))
    {
      hide Balance, SameElsewhere, WorkspaceAsBefore, Separate, World.Valid, World.Runnable, FinalStatus, Acquired,
        Chain, CleansInReverse, NothingOutlives, CloneSettled, Copied, SameUnder, EntryOk, Failures, World.Troubles;
      ReportSourceSpelt();
      cleanedFrom, troublesBefore := world.Now(), world.Troubles();
      errs := RunCleaners();
      NoFailures(registry.log);
      CleanedUp(cfg, env, st, registry.log, start, cleanedFrom, world.Now(), FinalStatus(cfg, env) == Passed, net,
                treeBefore, reportCopy == CopyMade);
    }

    /** runCleanupStep: all cleaners, then the trace. */
    method RunCleanupStep() returns (step: Step)
      requires Sound() && Kinds(registry.entries) == Acquired(cfg, env)
      requires overallStatus.status == FinalStatus(cfg, env)
      requires SameUnder(treeBefore, world.fs.tree, st.cloneRoot) && ReportTold(cs.cloneRoot.At?)
      modifies registry`ran, registry`log, this`cleanedFrom, this`troublesBefore, this`trace, world.fs,
               world.host.docker, world.host.provider, Flags(registry.entries)
      ensures Closed() && Settled()
      ensures step == Step(Cleanup, if AllOk(registry.log) then StepPassed else StepFailed)
    {
      hide Balance, SameElsewhere, WorkspaceAsBefore, Separate, World.Valid, World.Runnable, FinalStatus, Acquired,
        Cleared, ReportTold, SameUnder, EntryOk, TraceOf, Failures;
      var errs := CleanUp();
      trace := BuildCleanupTrace(cs, errs);
      step := Step(Cleanup, if |errs| > 0 then StepFailed else StepPassed);
    }

    /** The cleanup step, from its start event to its place in the report. */
    method ReportCleanup()
      requires Sound() && Reported() && Kinds(registry.entries) == Acquired(cfg, env)
      requires SameUnder(treeBefore, world.fs.tree, st.cloneRoot) && ReportTold(cs.cloneRoot.At?)
      modifies this`events, this`steps, this`cleanedFrom, this`troublesBefore, this`trace, registry`ran, registry`log,
               world.fs, world.host.docker, world.host.provider, Flags(registry.entries)
      ensures Closed() && ReportDone() && Settled()
    {
      hide Settled, Closed, ReportTold, FinalStatus, Acquired, ReportedSteps, ReportedEvents, Calls, AllOk, SameUnder,
        Kinds, Balance, SameElsewhere, WorkspaceAsBefore, Separate, World.Valid, EntryOk, StateOk;
      Notify(Cleanup, false, false);
      var step := RunCleanupStep();
      Notify(Cleanup, true, step.status != StepPassed);
      steps := steps + [step];
    }

    method AppendCleanupAndBuild()
      requires Sound() && Tracked() && Reported() && Kinds(registry.entries) == Acquired(cfg, env)
      modifies Frame()
      ensures env == old(env) && calls == old(calls)
      ensures world.host.outcomes == old(world.host.outcomes) && world.ctx.done == old(world.ctx.done)
      ensures treeBefore == LeftBy(start.tree, calls, writes, st.destDir)
      ensures Closed() && ReportDone() && Settled() && registry.entries == old(registry.entries)
    {
      hide Sound, Settled, Closed, ReportDone, ReportTold, FinalStatus, Acquired, ReportedSteps, ReportedEvents, Calls,
        SameUnder, Kinds;
      CopyScriptReport();
      ReportCleanup();
    }

    /** The run is over: the report is built, the resources are cleaned up. */
    ghost predicate Finished()
      reads this, registry, overallStatus, world.fs, world.host.docker, world.host.provider
    {
      Closed() && ReportDone() && Settled() && treeBefore == LeftBy(start.tree, calls, writes, st.destDir)
    }

    /** The `fail` and `failWithTrace` closures. */
    method Fail(name: StepName, ghost k: nat)
      requires Sound() && Tracked() && Gained(k + 1) &&
        Shape(k, !(name == ContainerStart && cfg.networked && !env.networkOk))
      requires Pipeline(cfg)[k] == name && Verdict(cfg, env, name) == StepFailed
      modifies Frame()
      ensures env == old(env)
      ensures world.host.outcomes == old(world.host.outcomes) && world.ctx.done == old(world.ctx.done)
      ensures Finished() && registry.entries == old(registry.entries)
    {
      hide Pipeline, Verdict, Sound, Settled, Closed, PassedSteps, PassedEvents, EffectsUpTo, GainsUpTo, FinalStatus,
        ReportedSteps, ReportedEvents, AllPassBelow, Tried, LeftBy;
      StoppedReport(cfg, env, k);
      Notify(name, true, true);
      steps := steps + [Step(name, StepFailed)];
      overallStatus.status := Failed;
      AppendCleanupAndBuild();
    }

    /** The `failUsage` closure. */
    method FailUsage(name: StepName)
      requires Sound() && Tracked() && Gained(0)
      requires name == InputCheck && !InputOk(cfg, env) && steps == [] && events == []
      modifies Frame()
      ensures env == old(env)
      ensures Finished() && registry.entries == old(registry.entries)
    {
      hide Pipeline, Verdict, Sound, Settled, Closed, LeftBy;
      Notify(name, true, true);
      steps := steps + [Step(name, StepFailed)];
      overallStatus.status := UsageError;
      AppendCleanupAndBuild();
    }

    /** Where `k` steps have passed and the next has not begun. */
    ghost predicate Ready(k: nat)
      reads this, registry, overallStatus, world.fs, world.host.docker, world.host.provider, Flags(registry.entries)
    {
      Sound() && Tracked() && Gained(k) && Shape(k, false)
    }

    /** Where the step at `k` has done what it does, and is about to be reported. */
    ghost predicate Acted(k: nat)
      reads this, registry, overallStatus, world.fs, world.host.docker, world.host.provider, Flags(registry.entries)
    {
      Sound() && Tracked() && Gained(k + 1) && Shape(k, true)
    }

    /** A step with one dependency and no resource begins. */
    method Begin(name: StepName, ghost k: nat)
      requires Ready(k) && k < |Pipeline(cfg)| && Pipeline(cfg)[k] == name
      requires IsSimple(name)
      modifies this`events, this`calls, world.fs
      ensures Acted(k)
    {
      hide Pipeline, Verdict, AllPassBelow, PassedSteps, PassedEvents, EffectsUpTo, GainsUpTo, Balance, SameElsewhere,
        WorkspaceAsBefore, Separate, World.Valid, EntryOk, LeftBy;
      assert Sound() && Tracked() && Gained(k) && Shape(k, false);
      SimpleCalls(cfg, env, k);
      Notify(name, false, false);
      Ask(Asked(name));
    }

    /** A step that was begun is reported as it ended. */
    method Conclude(name: StepName, ok: bool, ghost k: nat) returns (ended: bool)
      requires Acted(k) && Pipeline(cfg)[k] == name && Verdict(cfg, env, name) == if ok then StepPassed else StepFailed
      requires name == ContainerStart && cfg.networked ==> env.networkOk
      modifies Frame()
      ensures env == old(env)
      ensures world.host.outcomes == old(world.host.outcomes) && world.ctx.done == old(world.ctx.done)
      ensures ended == !ok && if ended then Finished() else Ready(k + 1)
      ensures registry.entries == old(registry.entries)
    {
      hide Pipeline, Verdict, AllPassBelow, PassedSteps, PassedEvents, Sound, Finished, GainsUpTo, EffectsUpTo, LeftBy;
      if !ok {
        Fail(name, k);
        return true;
      }
      Pass(name, k);
      ended := false;
    }

    /** A step with one dependency and no resource, from its start to its report. */
    method TakeStep(name: StepName, ok: bool, ghost k: nat) returns (ended: bool)
      requires Ready(k) && k < |Pipeline(cfg)| && Pipeline(cfg)[k] == name && IsSimple(name)
      requires Verdict(cfg, env, name) == if ok then StepPassed else StepFailed
      modifies Frame()
      ensures env == old(env)
      ensures ended == !ok && if ended then Finished() else Ready(k + 1)
      ensures registry.entries == old(registry.entries)
    {
      hide Pipeline, Ready, Acted, Finished, Verdict;
      Begin(name, k);
      ended := Conclude(name, ok, k);
    }

    method RegisterTempDir()
      requires Sound()
      modifies registry`entries
      ensures Sound() && Kinds(registry.entries) == old(Kinds(registry.entries)) + [TempDir]
      ensures Flags(registry.entries) == old(Flags(registry.entries))
    {
      hide Pipeline, Balance, SameElsewhere, WorkspaceAsBefore, Separate, World.Valid, Kinds;
      KindsAppend(registry.entries, RemoveDir(st.destDir));
      registry.Register(RemoveDir(st.destDir));
    }

    /** The disposal of the clone is registered with a copy of the cleanup state as it is now. */
    method RegisterClone()
      requires Sound() && Network !in Kinds(registry.entries) && Container !in Kinds(registry.entries)
      modifies registry`entries, this`cs
      ensures Sound() && Kinds(registry.entries) == old(Kinds(registry.entries)) + [Clone]
      ensures Flags(registry.entries) == old(Flags(registry.entries))
    {
      hide Pipeline, Balance, SameElsewhere, WorkspaceAsBefore, Separate, World.Valid, Kinds;
      cs := cs.(cloneRoot := At(st.cloneRoot));
      KindsAppend(registry.entries, Dispose(cs));
      registry.Register(Dispose(cs));
    }

    /** Step 2: the removal of the temporary directory is registered before cloning, the disposal of the
        clone after it. */
    method CloneStep() returns (ended: bool)
      requires Ready(Position(cfg, CloneRepo))
      modifies Frame()
      ensures env == old(env)
      ensures ended == !env.cloneOk
      ensures if ended then Finished() else Ready(Position(cfg, CloneRepo) + 1)
      ensures Flags(registry.entries) == old(Flags(registry.entries))
    {
      hide Pipeline, AllPassBelow, PassedSteps, PassedEvents, EffectsUpTo, GainsUpTo, Position, Verdict, Sound,
        Finished, Kinds, LeftBy;
      ghost var k := Position(cfg, CloneRepo);
      assert Sound() && Tracked() && Gained(k) && Shape(k, false);
      CloneCalls(cfg, env, k);
      Notify(CloneRepo, false, false);
      RegisterTempDir();
      Ask(Asked(CloneRepo));
      if env.cloneOk {
        RegisterClone();
      }
      ended := Conclude(CloneRepo, env.cloneOk, k);
    }

    /** Steps 1 to 3: preflight, clone, engine guard and overlay. */
    method PrepareClone() returns (ended: bool)
      requires Ready(0) && Flags(registry.entries) == {}
      modifies Frame()
      ensures env == old(env)
      ensures ended <==> !(env.preflightOk && env.cloneOk && env.engineOk && (cfg.overlayer ==> env.overlayOk))
      ensures if ended then Finished() else Ready(Position(cfg, ContainerStart))
      ensures Flags(registry.entries) == {}
    {
      hide Pipeline, Verdict, Ready, Finished;
      FirstVerdicts(cfg, env);
      ended := TakeStep(Preflight, env.preflightOk, Position(cfg, Preflight));
      if ended {
        return;
      }
      ended := CloneStep();
      if ended {
        return;
      }
      ended := TakeStep(EngineGuard, env.engineOk, Position(cfg, EngineGuard));
      if ended || !cfg.overlayer {
        return;
      }
      ended := TakeStep(Overlay, env.overlayOk, Position(cfg, Overlay));
    }

    /** Steps 0 to 3: the input check first. */
    method Prepare() returns (ended: bool)
      requires Sound() && Tracked() && Gained(0) && (Shape(0, false) <==> InputOk(cfg, env))
      requires steps == [] && events == [] && registry.entries == []
      modifies Frame()
      ensures env == old(env)
      ensures !ended <==>
        InputOk(cfg, env) && env.preflightOk && env.cloneOk && env.engineOk && (cfg.overlayer ==> env.overlayOk)
      ensures if ended then Finished() else Ready(Position(cfg, ContainerStart))
      ensures Flags(registry.entries) == {}
    {
      hide Pipeline, Finished, Sound, Tracked, Gained, Shape, InputOk, Position;
      InputOkIff(cfg, env);
      if cfg.sqlInput && !env.inputHasSql {
        FailUsage(InputCheck);
        return true;
      }
      ended := PrepareClone();
    }

    /** Between network and container: the network, if one is wired, has been created and its removal
        registered. */
    ghost predicate Linked(k: nat)
      reads this, registry, overallStatus, world.fs, world.host.docker, world.host.provider, Flags(registry.entries)
    {
      Sound() && Tracked() && Shape(k, false) && k == Position(cfg, ContainerStart) &&
      (cfg.networked ==> env.networkOk) &&
      calls == EffectsUpTo(cfg, env, k) + (if cfg.networked then [NetworkAsked] else []) &&
      Kinds(registry.entries) == GainsUpTo(cfg, env, k) + (if cfg.networked then [Network] else [])
    }

    /** Once it is known whether a network and a container could be had, what was done before them is still
        as it should be. */
    method Learn(networkOk: bool, startOk: bool, ghost begun: bool)
      requires Shape(Position(cfg, ContainerStart), begun)
      modifies this`env
      ensures Shape(Position(cfg, ContainerStart), begun)
      ensures env == old(env).(networkOk := networkOk, startOk := startOk)
      ensures var k := Position(cfg, ContainerStart);
        EffectsUpTo(cfg, env, k) == old(EffectsUpTo(cfg, env, k)) &&
          GainsUpTo(cfg, env, k) == old(GainsUpTo(cfg, env, k))
    {
      hide Pipeline, PassedSteps, PassedEvents, EffectsUpTo, GainsUpTo, AllPassBelow, Position, LeftBy;
      SameBefore(cfg, env, env.(networkOk := networkOk, startOk := startOk), Position(cfg, ContainerStart));
      env := env.(networkOk := networkOk, startOk := startOk);
    }

    /** Docker was tried three times, or the context is done. */
    ghost predicate Excused()
      reads world.host`outcomes, world.ctx
    {
      world.ctx.done || GaveUp(world.host.outcomes)
    }

    /** The network factory is called, and the removal of the network registered at once. */
    method AcquireNetwork() returns (ok: bool)
      requires Sound() && Network !in Kinds(registry.entries) && Container !in Kinds(registry.entries)
      requires Flags(registry.entries) == {}
      modifies this`net, this`cs, registry`entries, world.host, world.host.docker, world.host.provider, world.ctx
      ensures Sound() && fresh(Flags(registry.entries))
      ensures ok || Excused()
      ensures Kinds(registry.entries) == old(Kinds(registry.entries)) + (if ok then [Network] else [])
    {
      hide Pipeline, SameElsewhere, WorkspaceAsBefore, Separate, Balance, Kinds, FileSys.Valid;
      ghost var before := world.Now();
      var cleanup, tried := NewNetwork(world.ctx, world.host);
      ok := cleanup != null;
      NetworkBalance(start, before, world.Now(), net, if cleanup == null then {} else {cleanup.id});
      assert forall c :: c in registry.entries && c.RemoveNet? ==> c.cleanup in Flags(registry.entries);
      if ok {
        net := cleanup.id;
        cs := cs.(networkRegistered := true);
        KindsAppend(registry.entries, RemoveNet(cleanup));
        registry.Register(RemoveNet(cleanup));
        assert Flags(registry.entries) == {cleanup};
      }
    }

    /** Step 4, first half: without a network the step fails before it has begun. */
    method CreateNetwork() returns (ended: bool)
      requires Ready(Position(cfg, ContainerStart)) && Flags(registry.entries) == {}
      modifies Frame()
      ensures SameAnswers(old(env), env)
      ensures if ended then Excused() else cfg.networked ==> env.networkOk
      ensures if ended then Finished() else Linked(Position(cfg, ContainerStart))
      ensures fresh(Flags(registry.entries))
    {
      hide Pipeline, PassedSteps, PassedEvents, EffectsUpTo, GainsUpTo, AllPassBelow, Position, Verdict, Sound,
        Finished, Kinds, LeftBy;
      ghost var k := Position(cfg, ContainerStart);
      assert Sound() && Tracked() && Gained(k) && Shape(k, false);
      NoDockerYet(cfg, env, k);
      if !cfg.networked {
        return false;
      }
      AskDocker(NetworkAsked);
      var ok := AcquireNetwork();
      Learn(ok, env.startOk, false);
      ContainerCalls(cfg, env, k);
      if !ok {
        Fail(ContainerStart, k);
        return true;
      }
      ended := false;
    }

    /** The container is started, and its stop registered once it runs. */
    method AcquireContainer() returns (ok: bool)
      requires Sound() && Container !in Kinds(registry.entries)
      modifies this`cs, registry`entries, world.host, world.host.docker, world.host.provider, world.ctx
      ensures Sound() && Flags(registry.entries) == old(Flags(registry.entries))
      ensures ok || Excused()
      ensures Kinds(registry.entries) == old(Kinds(registry.entries)) + (if ok then [Container] else [])
    {
      hide Pipeline, SameElsewhere, WorkspaceAsBefore, Separate, Balance, Started, Kinds, FileSys.Valid;
      ghost var before := world.Now();
      ghost var tried;
      ok, tried := Start(world.ctx, world.host);
      ContainerBalance(start, before, world.Now(), Network in Kinds(registry.entries), net, ok);
      HeldIsLive(start, world.Now(), Network in Kinds(registry.entries), ok, net);
      if ok {
        cs := cs.(containerRegistered := true);
        KindsAppend(registry.entries, StopContainer);
        registry.Register(StopContainer);
      }
    }

    method LaunchContainer() returns (ok: bool)
      requires Linked(Position(cfg, ContainerStart))
      modifies this`events, this`calls, this`cs, registry`entries, world.host, world.host.docker,
               world.host.provider, world.ctx
      ensures Sound() && Tracked() && Shape(Position(cfg, ContainerStart), true)
      ensures ok || Excused()
      ensures Flags(registry.entries) == old(Flags(registry.entries))
      ensures calls == old(calls) + [ContainerAsked]
      ensures Kinds(registry.entries) == old(Kinds(registry.entries)) + (if ok then [Container] else [])
    {
      hide Pipeline, PassedSteps, PassedEvents, EffectsUpTo, GainsUpTo, AllPassBelow, Position, Verdict, Kinds,
        Balance, SameElsewhere, WorkspaceAsBefore, Separate, World.Valid, EntryOk, LeftBy;
      ghost var k := Position(cfg, ContainerStart);
      assert Sound() && Tracked() && Shape(k, false);
      NoDockerYet(cfg, env, k);
      Notify(ContainerStart, false, false);
      AskDocker(ContainerAsked);
      ok := AcquireContainer();
    }

    /** Step 4, second half. */
    method StartContainer() returns (ended: bool)
      requires Linked(Position(cfg, ContainerStart))
      modifies Frame()
      ensures SameAnswers(old(env), env)
      ensures env.networkOk == old(env.networkOk) && if ended then Excused() else env.startOk
      ensures if ended then Finished() else Ready(Position(cfg, ContainerStart) + 1)
      ensures Flags(registry.entries) == old(Flags(registry.entries))
    {
      hide Pipeline, PassedSteps, PassedEvents, EffectsUpTo, GainsUpTo, AllPassBelow, Position, Verdict, Sound, Shape,
        Finished, Kinds, LeftBy;
      ghost var k := Position(cfg, ContainerStart);
      var ok := LaunchContainer();
      Learn(env.networkOk, ok, true);
      ContainerCalls(cfg, env, k);
      ended := Conclude(ContainerStart, ok, k);
    }

    /** Step 4. */
    method StartResources() returns (ended: bool)
      requires Ready(Position(cfg, ContainerStart)) && Flags(registry.entries) == {}
      modifies Frame()
      ensures SameAnswers(old(env), env)
      ensures if ended then Excused() else env.startOk && (cfg.networked ==> env.networkOk)
      ensures if ended then Finished() else Ready(Position(cfg, ContainerStart) + 1)
      ensures fresh(Flags(registry.entries))
    {
      hide Ready, Linked, Finished, Position;
      ended := CreateNetwork();
      if !ended {
        ended := StartContainer();
      }
    }

    /** Step 6a: without a schema name nothing is set up; otherwise the user, and then the roles, if any. */
    method SchemaStep() returns (ended: bool)
      requires Ready(Position(cfg, SchemaSetup))
      modifies Frame()
      ensures env == old(env)
      ensures if ended then Finished() else Ready(Position(cfg, PomDriverInject))
      ensures registry.entries == old(registry.entries)
    {
      hide Pipeline, Ready, Acted, Finished, Verdict;
      ghost var k := Position(cfg, SchemaSetup);
      SetUpVerdicts(cfg, env);
      Begin(SchemaSetup, k);
      if env.schemaFound {
        if !env.lbUserOk {
          ended := Conclude(SchemaSetup, false, k);
          return;
        }
        if env.rolesFound && !env.rolesOk {
          ended := Conclude(SchemaSetup, false, k);
          return;
        }
      }
      ended := Conclude(SchemaSetup, true, k);
    }

    /** Steps 5 and 6: readiness, schema, driver and properties. */
    method SetUp() returns (ended: bool)
      requires Ready(Position(cfg, ReadinessProbe))
      modifies Frame()
      ensures env == old(env)
      ensures if ended then Finished() else Ready(Position(cfg, PreSyncValidate))
      ensures registry.entries == old(registry.entries)
    {
      hide Pipeline, Ready, Finished, Verdict;
      SetUpVerdicts(cfg, env);
      ended := TakeStep(ReadinessProbe, env.readyOk, Position(cfg, ReadinessProbe));
      if ended {
        return;
      }
      ended := SchemaStep();
      if ended {
        return;
      }
      ended := TakeStep(PomDriverInject, env.pomOk, Position(cfg, PomDriverInject));
      if ended {
        return;
      }
      ended := TakeStep(PropertiesPatch, env.patchOk, Position(cfg, PropertiesPatch));
    }

    /** The wired validator is asked, if there is one. */
    method AskValidator() returns (open: bool)
      requires Sound() && Tracked()
      modifies this`calls, world.fs
      ensures Sound() && Tracked()
      ensures var v := env.validation;
        var file := if v.copied.zipped != RulesGate.NoFile then v.copied.zipped
                    else if v.copied.stale != RulesGate.NoFile then v.copied.stale else v.copied.direct;
        open <==>
        (cfg.validator ==> v.rulesetThere && !v.runFails && file.Parsed? &&
                           (file.report.status == "PASS" || file.report.status == "INFO"))
      ensures calls == old(calls) + (if cfg.validator && env.validation.rulesetThere then [ValidatorRan] else [])
    {
      hide Balance, SameElsewhere, WorkspaceAsBefore, Separate, World.Valid, EntryOk, StateOk, Kinds, LeftBy;
      open := true;
      if cfg.validator {
        var log := new RulesGate.GateLog();
        var verdict := RulesGate.ValidatePreSync(env.validation, log);
        open := verdict.Allowed?;
        if log.ran {
          Ask(ValidatorRan);
        }
      }
    }

    /** So the gate of the run is open exactly when its validator lets it through. */
    method AskGate() returns (open: bool)
      requires Sound() && Tracked()
      modifies this`calls, world.fs
      ensures Sound() && Tracked() && (open <==> GateOpen(cfg, env.validation))
      ensures calls == old(calls) + (if cfg.validator && env.validation.rulesetThere then [ValidatorRan] else [])
    {
      hide Sound, Tracked, GateOpen, LeftBy;
      GateOpenIff(cfg, env.validation);
      open := AskValidator();
    }

    /** Step 6d: sync is let through only by a validator that allows it; without one, always. */
    method Gate() returns (ended: bool)
      requires Ready(Position(cfg, PreSyncValidate))
      modifies Frame()
      ensures env == old(env)
      ensures if ended then Finished() else Ready(Position(cfg, Sync))
      ensures registry.entries == old(registry.entries)
    {
      hide Pipeline, PassedSteps, PassedEvents, EffectsUpTo, GainsUpTo, AllPassBelow, Verdict, Sound, Finished, Kinds,
        LeftBy, GateOpen, EffectsOf, Gains, Position;
      ghost var k := Position(cfg, PreSyncValidate);
      assert Sound() && Tracked() && Gained(k) && Shape(k, false);
      GateCalls(cfg, env, k);
      Notify(PreSyncValidate, false, false);
      var open := AskGate();
      ended := Conclude(PreSyncValidate, open, k);
    }

    /** A Maven goal is run with the parameters the runner completes. */
    method BeginMaven(name: StepName, goal: Goal, params: seq<string>, uniqueTag: string, ghost k: nat)
      requires Ready(k) && k < |Pipeline(cfg)| && Pipeline(cfg)[k] == name && Gains(cfg, env, name) == []
      requires EffectsOf(cfg, env, name) == [MavenRun(goal, EnsureTag(params, uniqueTag))]
      modifies this`events, this`calls, world.fs
      ensures Acted(k)
    {
      hide Pipeline, Verdict, AllPassBelow, PassedSteps, PassedEvents, EffectsUpTo, GainsUpTo, Balance, SameElsewhere,
        WorkspaceAsBefore, Separate, World.Valid, EntryOk, EffectsOf, Gains, EnsureTag, LeftBy;
      NextCalls(cfg, env, k);
      Notify(name, false, false);
      var finalParams := EnsureTagStr(params, uniqueTag);
      Ask(MavenRun(goal, finalParams));
    }

    /** The goal's own result is reported; anything but a pass ends the run as failed, an abort too. */
    method ConcludeMaven(name: StepName, m: Maven, ghost k: nat) returns (ended: bool)
      requires Acted(k) && Pipeline(cfg)[k] == name && Verdict(cfg, env, name) == MavenStatus(m) &&
        name != ContainerStart
      modifies Frame()
      ensures env == old(env)
      ensures ended == (MavenStatus(m) != StepPassed) && if ended then Finished() else Ready(k + 1)
      ensures registry.entries == old(registry.entries)
    {
      hide Pipeline, Verdict, AllPassBelow, PassedSteps, PassedEvents, Sound, Settled, Closed, ReportDone, GainsUpTo,
        EffectsUpTo, FinalStatus, ReportedSteps, ReportedEvents, Tried, MavenStatus, LeftBy;
      MavenErrorFails(m);
      if m.RunnerError? {
        Fail(name, k);
        return true;
      }
      var status := MavenStatus(m);
      if status == StepPassed {
        Pass(name, k);
        return false;
      }
      StoppedReport(cfg, env, k);
      Notify(name, true, true);
      steps := steps + [Step(name, status)];
      overallStatus.status := Failed;
      AppendCleanupAndBuild();
      ended := true;
    }

    /** Steps 7 to 9: sync, the first tag, rollback. */
    method Migrate()
      requires Ready(Position(cfg, Sync))
      modifies Frame()
      ensures env == old(env)
      ensures Finished() && registry.entries == old(registry.entries)
    {
      hide Pipeline, Position, Ready, Acted, Finished, Verdict, EnsureTag, EffectsOf, Gains, MavenStatus;
      MavenCalls(cfg, env);
      BeginMaven(Sync, SyncGoal, SyncParams(), env.syncTag, Position(cfg, Sync));
      var ended := ConcludeMaven(Sync, env.sync, Position(cfg, Sync));
      if ended {
        return;
      }
      ended := TakeStep(FirstTag, env.tag.Present?, Position(cfg, FirstTag));
      if ended {
        return;
      }
      BeginMaven(Rollback, RollbackGoal, RollbackParams(env.tag.value), env.rollbackTag, Position(cfg, Rollback));
      ended := ConcludeMaven(Rollback, env.rollback, Position(cfg, Rollback));
      if !ended {
        Complete();
      }
    }

    /** Every step has passed. */
    method Complete()
      requires Ready(|Pipeline(cfg)|)
      modifies Frame()
      ensures env == old(env)
      ensures Finished() && registry.entries == old(registry.entries)
    {
      hide Pipeline, Verdict, AllPassBelow, PassedSteps, PassedEvents, Sound, Settled, Closed, ReportDone, GainsUpTo,
        EffectsUpTo, FinalStatus, ReportedSteps, ReportedEvents, Tried, LeftBy;
      CompleteReport(cfg, env);
      AppendCleanupAndBuild();
    }

    /** A run that has asked for a network or a container had prepared its clone. */
    lemma {:induction false} AskedWhenPrepared()
      requires Finished()
      ensures NetworkAsked in calls || ContainerAsked in calls ==>
        InputOk(cfg, env) && env.preflightOk && env.cloneOk && env.engineOk && (cfg.overlayer ==> env.overlayOk)
      ensures NetworkAsked in calls ==> cfg.networked
      ensures ContainerAsked in calls && cfg.networked ==> env.networkOk
    {
      hide Closed, Settled, Calls, InputOk;
      assert calls == Calls(cfg, env);
      forall i | 0 <= i < |calls| && (calls[i].NetworkAsked? || calls[i].ContainerAsked?)
        ensures InputOk(cfg, env) && env.preflightOk && env.cloneOk && env.engineOk && (cfg.overlayer ==> env.overlayOk)
        ensures calls[i].NetworkAsked? ==> cfg.networked
        ensures calls[i].ContainerAsked? && cfg.networked ==> env.networkOk
      {
        NetworkIsLazy(cfg, env, i);
      }
    }

    /** All steps, up to the report and the cleanup. */
    method Execute()
      requires Sound() && Tracked() && Gained(0) && (Shape(0, false) <==> InputOk(cfg, env)) && steps == [] &&
        events == []
      requires registry.entries == []
      modifies Frame()
      ensures Finished() && SameAnswers(old(env), env) && fresh(Flags(registry.entries))
      ensures (NetworkAsked in calls && !env.networkOk) || (ContainerAsked in calls && !env.startOk) ==> Excused()
    {
      hide Ready, Finished, Sound, Gained, Shape, Position, Excused, InputOk;
      var ended := Prepare();
      if !ended {
        ended := StartResources();
      }
      if !ended {
        NextPositions(cfg);
        ended := SetUp();
      }
      if !ended {
        ended := Gate();
      }
      if !ended {
        Migrate();
      }
      AskedWhenPrepared();
    }

    /** The deferred pass over the registry. */
    method RunDeferred()
      requires Finished()
      modifies Frame()
      ensures env == old(env)
      ensures calls == old(calls)
      ensures world.host.outcomes == old(world.host.outcomes) && world.ctx.done == old(world.ctx.done)
      ensures Finished() && world.Now() == old(world.Now()) && registry.log == old(registry.log)
    {
      hide ReportDone, Chain, CleansInReverse, World.Valid, World.Runnable;
      var errs := registry.RunAll(world);
    }
  }

  /** Only the answers about network and container are settled during the run. */
  predicate SameAnswers(env: Env, env': Env) {
    env' == env.(networkOk := env'.networkOk, startOk := env'.startOk)
  }

  /** Run. However the dependencies answer, and whether or not a network and a container could be had: the
      report and the calls are as specified; every resource was cleaned up once, the last acquired first;
      nothing outlives the run, unless Docker refused a termination; only the temporary directory and the
      two places in the run directory were written to; and, if no cleaner failed, the clone is where its
      status demands. The second, deferred pass over the registry finds nothing to do. */
  method Run(cfg: Config, st: Settings, env: Env, writes: nat -> Tree, world: World) returns (run: ValidationRun)
    requires world.Valid() && Separate(st) && world.host.provider.container == Nothing
    modifies world.fs, world.host, world.host.docker, world.host.provider, world.ctx
    ensures fresh(run) && run.cfg == cfg && run.st == st && run.world == world && run.writes == writes
    ensures run.start == old(world.Now())
    ensures SameAnswers(env, run.env) && run.Finished()
    ensures run.steps[..|run.steps| - 1] == ReportedSteps(cfg, run.env) &&
      run.overallStatus.status == FinalStatus(cfg, run.env)
    ensures run.calls == Calls(cfg, run.env)
    ensures (NetworkAsked in run.calls && !run.env.networkOk) || (ContainerAsked in run.calls && !run.env.startOk) ==>
      world.ctx.done || GaveUp(world.host.outcomes)
    ensures CleansInReverse(run.registry.log, Acquired(cfg, run.env), st, FinalStatus(cfg, run.env) == Passed, run.net)
    ensures NothingOutlives(old(world.Now()), world.Now(), Network in Acquired(cfg, run.env), run.net,
      AllOk(run.registry.log))
    ensures SameElsewhere(st, old(world.fs.tree), world.fs.tree)
    ensures AllOk(run.registry.log) ==>
      CloneSettled(st, FinalStatus(cfg, run.env) == Passed, old(world.fs.tree),
                   LeftBy(old(world.fs.tree), Calls(cfg, run.env), writes, st.destDir), world.fs.tree,
                   Clone in Acquired(cfg, run.env), TempDir in Acquired(cfg, run.env))
  {
    hide LeftBy, Calls, Acquired, FinalStatus, CloneSettled, SameElsewhere, Chain, NothingOutlives, CleansInReverse,
      ReportedEvents, Balance, SameUnder, Copied, Separate;
    run := new ValidationRun(cfg, st, env, writes, world);
    run.Execute();
    run.RunDeferred();
    Finishes(run);
  }

  /** After every run without a cleanup error the trace tells the truth about the clone, although the trace
      was written from the final cleanup state and the cleaner worked on an earlier copy of it: if it says the
      clone was removed, or could not be retained, there is none; if it says the clone is retained, the run's
      directory is named, the clone's directories and files are in its workspace, and, if it was there and held
      no workspace when the run began, its workspace is the clone's tree. */
  lemma {:induction false} TraceTellsTruth(run: ValidationRun)
    requires run.Finished() && AllOk(run.registry.log)
    ensures |run.trace| == 3
    ensures run.trace[2] == NoClone <==> Clone !in Acquired(run.cfg, run.env)
    ensures run.trace[2] in {CloneRemoved, CloneRetained(NoPath)} <==>
      Clone in Acquired(run.cfg, run.env) &&
      ((run.overallStatus.status == Passed && !run.st.keepWorkspace) || run.st.runDir.NoPath?)
    ensures run.trace[2] == CloneRemoved <==>
      Clone in Acquired(run.cfg, run.env) && run.overallStatus.status == Passed && !run.st.keepWorkspace
    ensures run.trace[2] in {CloneRemoved, CloneRetained(NoPath)} ==> NothingUnder(run.world.fs.tree, run.st.cloneRoot)
    ensures run.trace[2].CloneRetained? && run.trace[2].runDir.At? ==> TrulyRetained(run, run.trace[2].runDir.path)
  {
    hide Acquired, FinalStatus, ReportedSteps, ReportedEvents, Chain, NothingOutlives, SameElsewhere, Copied,
      RetainedAt, NothingUnder, Calls, LeftBy, Balance, SameUnder;
    NoFailures(run.registry.log);
    var passed := FinalStatus(run.cfg, run.env) == Passed;
    assert run.trace == TraceOf(run.cs, passed, []);
    assert run.trace[2] == WorkspaceLine(run.cs.cloneRoot, run.st.runDir, run.st.keepWorkspace, passed);
  }

  /** The first two lines of the trace say removed of everything that was acquired, and never created of the
      rest, whether or not the cleaners succeeded: if the stop of the container was refused, the line still
      claims that it was removed, while it is alive and held; only the list of errors then tells. */
  lemma {:induction false} TraceClaimsRemoval(run: ValidationRun)
    requires run.Finished()
    ensures var acquired := Acquired(run.cfg, run.env);
      |run.trace| >= 3 &&
      run.trace[0] == (if Container in acquired then ContainerRemoved else ContainerNever) &&
      run.trace[1] == (if Network in acquired then NetworkRemoved else NetworkNever)
    ensures |run.trace| > 3 <==> !AllOk(run.registry.log)
    ensures |run.trace| > 3 ==>
      |run.trace| == 4 && run.trace[3].TeardownErrors? &&
      exists at :: ErrorsAt(run.registry.log, run.trace[3].errs, at)
    ensures AllOk(run.registry.log) <==> run.world.Troubles() == run.troublesBefore
    ensures var held := run.world.host.provider.container;
      held.Holding? ==>
        held.id in run.world.host.docker.live && held.id !in run.start.live && run.trace[0] == ContainerRemoved &&
        |run.trace| > 3
  {
    hide Acquired, FinalStatus, ReportedSteps, ReportedEvents, Calls, LeftBy, Chain, CleansInReverse, Balance, Follows,
      ErrorsAt, Failures, NothingOutlives, SameElsewhere, Copied, SameUnder, CloneSettled, IsAcquired;
    NoFailures(run.registry.log);
    var at := FailuresInOrder(run.registry.log);
    var passed := FinalStatus(run.cfg, run.env) == Passed;
    var t, c, n, p := AcquiredForm(run.cfg, run.env);
    var k := CourseOf(run.registry.log, run.cleanedFrom, run.world.Now(), Acquired(run.cfg, run.env), t, c, n, p,
                      run.st, passed, run.net);
    HeldAfterwards(k, run.start, run.cleanedFrom, run.world.Now(), t, c, n, p, run.st, passed, run.net);
  }

  /** The clone that the calls of the run have left is in the workspace of the named run directory. */
  ghost predicate TrulyRetained(run: ValidationRun, runDir: Path)
    reads run, run.world.fs
  {
    var clone := LeftBy(run.start.tree, Calls(run.cfg, run.env), run.writes, run.st.destDir);
    var ws := runDir + ["workspace"];
    run.st.runDir == At(runDir) && NothingUnder(run.world.fs.tree, run.st.cloneRoot) &&
    Copied(clone, run.st.cloneRoot, run.world.fs.tree, ws) &&
    (ws !in run.start.tree && runDir in run.start.tree ==> RetainedAt(clone, run.st.cloneRoot, run.world.fs.tree, ws))
  }

  lemma {:induction false} Finishes(run: ValidationRun)
    requires run.Finished()
    ensures run.steps[..|run.steps| - 1] == ReportedSteps(run.cfg, run.env)
  {
    hide Pipeline, ReportedSteps;
  }

  lemma {:induction false} ContainerCalls(cfg: Config, env: Env, k: nat)
    requires k == Position(cfg, ContainerStart)
    ensures EffectsUpTo(cfg, env, k + 1) ==
      EffectsUpTo(cfg, env, k) + (if cfg.networked then [NetworkAsked] else []) +
      (if cfg.networked && !env.networkOk then [] else [ContainerAsked])
    ensures GainsUpTo(cfg, env, k) == [TempDir] + (if env.cloneOk then [Clone] else [])
    ensures GainsUpTo(cfg, env, k + 1) ==
      GainsUpTo(cfg, env, k) + (if cfg.networked && env.networkOk then [Network] else []) +
      (if (!cfg.networked || env.networkOk) && env.startOk then [Container] else [])
    ensures Verdict(cfg, env, ContainerStart) ==
      if (cfg.networked ==> env.networkOk) && env.startOk then StepPassed else StepFailed
    ensures Pipeline(cfg)[k] == ContainerStart
  {
    hide Pipeline, EffectsUpTo, GainsUpTo, Position, EnsureTag, GateOpen, MavenStatus;
    GainsSoFar(cfg, env, k);
    CloneComesFirst(cfg);
    NextCalls(cfg, env, k);
  }

  /** Before container start neither a network nor a container has been acquired. */
  lemma {:induction false} NoDockerYet(cfg: Config, env: Env, k: nat)
    requires k == Position(cfg, ContainerStart)
    ensures Network !in GainsUpTo(cfg, env, k) && Container !in GainsUpTo(cfg, env, k)
  {
    hide Pipeline, GainsUpTo, Position;
    ContainerCalls(cfg, env, k);
  }

  lemma {:induction false} CloneComesFirst(cfg: Config)
    ensures Position(cfg, CloneRepo) < Position(cfg, ContainerStart)
  {
  }

  lemma {:induction false} NetworkBalance(start: Snap, s: Snap, s': Snap, net: nat, created: set<nat>)
    requires Balance(start, s, false, false, net) && s' == s.(networks := s.networks + created) && created !! s.networks
    ensures created == {} ==> Balance(start, s', false, false, net)
    ensures forall id :: created == {id} ==> Balance(start, s', true, false, id)
  {
  }

  lemma {:induction false} ContainerBalance(start: Snap, s: Snap, s': Snap, n: bool, net: nat, ok: bool)
    requires Balance(start, s, n, false, net) && s' == s.(live := s'.live, refused := s'.refused, held := s'.held)
    requires Started(ok, s.live, s.refused, s.held, s'.live, s'.refused, s'.held)
    ensures Balance(start, s', n, ok, net)
  {
    StartedTrans(start.live, start.refused, s.live, s.refused, Nothing, ok, s'.live, s'.refused, s'.held);
  }

  lemma {:induction false} HeldIsLive(start: Snap, s: Snap, n: bool, p: bool, net: nat)
    requires Balance(start, s, n, p, net)
    ensures s.held.Holding? ==> s.held.id in s.live
  {
  }

  lemma {:induction false} FirstVerdicts(cfg: Config, env: Env)
    ensures Verdict(cfg, env, Preflight) == (if env.preflightOk then StepPassed else StepFailed)
    ensures Verdict(cfg, env, EngineGuard) == (if env.engineOk then StepPassed else StepFailed)
    ensures Verdict(cfg, env, Overlay) == (if env.overlayOk then StepPassed else StepFailed)
  {
  }

  lemma {:induction false} SetUpVerdicts(cfg: Config, env: Env)
    ensures Verdict(cfg, env, ReadinessProbe) == (if env.readyOk then StepPassed else StepFailed)
    ensures Verdict(cfg, env, SchemaSetup) ==
      if !env.schemaFound || (env.lbUserOk && (!env.rolesFound || env.rolesOk)) then StepPassed else StepFailed
    ensures Verdict(cfg, env, PomDriverInject) == (if env.pomOk then StepPassed else StepFailed)
    ensures Verdict(cfg, env, PropertiesPatch) == (if env.patchOk then StepPassed else StepFailed)
  {
  }

  lemma {:induction false} GateCalls(cfg: Config, env: Env, k: nat)
    requires k == Position(cfg, PreSyncValidate)
    ensures EffectsUpTo(cfg, env, k + 1) ==
      EffectsUpTo(cfg, env, k) + (if cfg.validator && env.validation.rulesetThere then [ValidatorRan] else [])
    ensures GainsUpTo(cfg, env, k + 1) == GainsUpTo(cfg, env, k)
    ensures Verdict(cfg, env, PreSyncValidate) == if GateOpen(cfg, env.validation) then StepPassed else StepFailed
    ensures Pipeline(cfg)[k] == PreSyncValidate && k + 1 == Position(cfg, Sync)
  {
    hide Pipeline, GateOpen;
  }

  lemma {:induction false} NextCalls(cfg: Config, env: Env, k: nat)
    requires k < |Pipeline(cfg)|
    ensures EffectsUpTo(cfg, env, k + 1) == EffectsUpTo(cfg, env, k) + EffectsOf(cfg, env, Pipeline(cfg)[k])
    ensures GainsUpTo(cfg, env, k + 1) == GainsUpTo(cfg, env, k) + Gains(cfg, env, Pipeline(cfg)[k])
  {
    hide Pipeline, EffectsOf, Gains;
  }

  lemma {:induction false} MavenErrorFails(m: Maven)
    ensures m.RunnerError? ==> MavenStatus(m) == StepFailed
  {
  }

  lemma {:induction false} MavenCalls(cfg: Config, env: Env)
    ensures EffectsOf(cfg, env, Sync) == [MavenRun(SyncGoal, EnsureTag(SyncParams(), env.syncTag))]
    ensures env.tag.Present? ==>
      EffectsOf(cfg, env, Rollback) ==
        [MavenRun(RollbackGoal, EnsureTag(RollbackParams(env.tag.value), env.rollbackTag))]
    ensures Gains(cfg, env, Sync) == [] && Gains(cfg, env, Rollback) == []
    ensures Verdict(cfg, env, Sync) == MavenStatus(env.sync) && Verdict(cfg, env, Rollback) == MavenStatus(env.rollback)
    ensures Verdict(cfg, env, FirstTag) == if env.tag.Present? then StepPassed else StepFailed
    ensures Position(cfg, Sync) + 1 == Position(cfg, FirstTag) && Position(cfg, FirstTag) + 1 == Position(cfg, Rollback)
    ensures Position(cfg, Rollback) + 1 == |Pipeline(cfg)|
  {
  }

  lemma {:induction false} NextPositions(cfg: Config)
    ensures Position(cfg, ContainerStart) + 1 == Position(cfg, ReadinessProbe)
  {
  }

  lemma {:induction false} InputOkIff(cfg: Config, env: Env)
    ensures InputOk(cfg, env) <==> !(cfg.sqlInput && !env.inputHasSql)
  {
  }

  predicate IsSimple(name: StepName) {
    name != CloneRepo && name != ContainerStart && name != PreSyncValidate && name != Sync && name != Rollback
  }

  lemma {:induction false} SimpleCalls(cfg: Config, env: Env, k: nat)
    requires k < |Pipeline(cfg)| && IsSimple(Pipeline(cfg)[k])
    ensures EffectsUpTo(cfg, env, k + 1) == EffectsUpTo(cfg, env, k) + [Asked(Pipeline(cfg)[k])]
    ensures GainsUpTo(cfg, env, k + 1) == GainsUpTo(cfg, env, k)
  {
    hide Pipeline;
  }

  lemma {:induction false} CloneCalls(cfg: Config, env: Env, k: nat)
    requires k == Position(cfg, CloneRepo)
    ensures EffectsUpTo(cfg, env, k + 1) == EffectsUpTo(cfg, env, k) + [Asked(CloneRepo)]
    ensures GainsUpTo(cfg, env, k) == []
    ensures GainsUpTo(cfg, env, k + 1) == [TempDir] + (if env.cloneOk then [Clone] else [])
    ensures Verdict(cfg, env, CloneRepo) == if env.cloneOk then StepPassed else StepFailed
  {
    hide Pipeline;
    GainsSoFar(cfg, env, k);
  }

  lemma {:induction false} NothingYet(cfg: Config, env: Env)
    ensures PassedSteps(cfg, 0) == [] && PassedEvents(cfg, 0) == []
    ensures EffectsUpTo(cfg, env, 0) == [] && GainsUpTo(cfg, env, 0) == []
    ensures AllPassBelow(cfg, env, 0) <==> InputOk(cfg, env)
  {
    hide Pipeline, Verdict;
  }

  lemma {:induction false} BalancedAtStart(start: Snap, net: nat)
    requires start.held == Nothing && net !in start.networks
    ensures Balance(start, start, false, false, net)
  {
  }

  lemma {:induction false} BalanceIgnoresTree(start: Snap, s: Snap, s': Snap, n: bool, p: bool, net: nat)
    requires Balance(start, s, n, p, net) && SameDocker(s, s')
    ensures Balance(start, s', n, p, net)
  {
  }

  lemma {:induction false} SameUnderRefl(t: Tree, d: Path)
    ensures SameUnder(t, t, d)
  {
  }

  lemma {:induction false} WorkspaceAsBeforeRefl(st: Settings, t: Tree)
    ensures WorkspaceAsBefore(st, t, t)
  {
  }

  lemma {:induction false} DirIsNotRoot(st: Settings)
    requires Separate(st)
    ensures st.destDir != [] && st.cloneRoot != []
  {
  }
}
