/** internal/orchestrator/cleanup.go as one run uses it: the cleaners, and the registry that runs them in
    reverse order of registration. Concurrent use is the subject of module RegistryProtocol. */
module Registry {
  import opened Containers
  import opened FileSys
  import opened Workspace
  import RunSpec

  /** A path setting that may be empty. */
  datatype MaybePath = NoPath | At(path: Path)

  /** The overall status of a run; cleaners read it through the reference when they run. */
  class StatusCell {
    var status: RunSpec.Status

    constructor ()
      ensures status == RunSpec.Passed
    {
      status := RunSpec.Passed;
    }
  }

  /** cleanupState. */
  datatype CleanupState = CleanupState(cloneRoot: MaybePath, runDir: MaybePath, keepWorkspace: bool,
                                       finalStatus: StatusCell, networkRegistered: bool, containerRegistered: bool)

  /** The closures that a run registers, with what they capture. */
  datatype Cleaner = StopContainer | RemoveNet(cleanup: NetworkCleanup) | Dispose(cs: CleanupState)
    | RemoveDir(dir: Path)

  /** What a cleaner comes down to at the time it runs. */
  datatype Cleaning = ContainerStop | NetRemoval(id: nat, again: bool) | WorkspaceRemoval(dir: Path)
    | WorkspaceMove(src: Path, dst: Path) | DirRemoval(path: Path) | NothingToDo

  /** All that cleaners can see and change. */
  datatype Snap = Snap(
    tree: Tree, live: set<nat>, refused: set<nat>, networks: set<nat>, removals: seq<nat>, held: Holding)

  predicate SameDocker(s: Snap, s': Snap) {
    s' == s.(tree := s'.tree)
  }

  /** The effect of one cleaning. */
  ghost predicate Cleans(what: Cleaning, s: Snap, ok: bool, s': Snap) {
    match what
    case ContainerStop =>
      s' == s.(live := s'.live, refused := s'.refused, held := s'.held) &&
      (s.held == Nothing ==> ok && s' == s) &&
      (ok && s.held.Holding? ==> s' == s.(live := s.live - {s.held.id}, held := Nothing)) &&
      (!ok ==> s.held.Holding? && s' == s.(refused := s.refused + {s.held.id}))
    case NetRemoval(id, again) =>
      if again then ok && s' == s
      else s' == s.(removals := s.removals + [id], networks := if ok then s.networks - {id} else s.networks)
    case WorkspaceRemoval(d) =>
      SameDocker(s, s') && Shrunk(s.tree, s'.tree, d) && (ok ==> s'.tree == Without(s.tree, d))
    case WorkspaceMove(src, dst) => SameDocker(s, s') && Moved(s.tree, ok, s'.tree, src, dst)
    case DirRemoval(d) => SameDocker(s, s') && Shrunk(s.tree, s'.tree, d) && (ok ==> s'.tree == Without(s.tree, d))
    case NothingToDo => ok && s' == s
  }

  function WorkspaceOf(runDir: Path): Path {
    runDir + ["workspace"]
  }

  /** The status-conditional part: remove after a pass, unless the workspace is to be kept, or when there is
      no run directory; otherwise move it there. */
  function Disposal(passed: bool, keep: bool, cloneRoot: MaybePath, runDir: MaybePath): Cleaning {
    if cloneRoot.NoPath? then NothingToDo
    else if (passed && !keep) || runDir.NoPath? then WorkspaceRemoval(cloneRoot.path)
    else WorkspaceMove(cloneRoot.path, WorkspaceOf(runDir.path))
  }

  class World {
    const fs: FileSystem
    const host: Host
    const ctx: Context

    constructor (fs: FileSystem, host: Host, ctx: Context)
      ensures this.fs == fs && this.host == host && this.ctx == ctx
    {
      this.fs, this.host, this.ctx := fs, host, ctx;
    }

    ghost predicate Valid()
      reads fs, host.docker, host.provider
    {
      FileSys.Valid(fs.tree) && host.docker.Valid() &&
      (host.provider.container.Holding? ==> host.provider.container.id < host.docker.next)
    }

    ghost function Now(): Snap
      reads fs, host.docker, host.provider
    {
      Snap(fs.tree, host.docker.live, host.docker.refused, host.docker.networks, host.docker.removals,
        host.provider.container)
    }

    /** How many operations on files and requests to Docker have failed. */
    ghost function Troubles(): nat
      reads fs`failures, host.docker`failures
    {
      fs.failures + host.docker.failures
    }

    /** What a cleaner needs to run at all. */
    ghost predicate Runnable(c: Cleaner)
      reads host.docker`next
    {
      match c
      case StopContainer => true
      case RemoveNet(cleanup) => cleanup.id < host.docker.next
      case Dispose(cs) =>
        cs.cloneRoot.At? ==>
          cs.cloneRoot.path != [] && (cs.runDir.At? ==> Apart(cs.cloneRoot.path, WorkspaceOf(cs.runDir.path)))
      case RemoveDir(dir) => dir != []
    }

    /** Running one cleaner. It fails exactly when an operation on files or a request to Docker does. */
    method Execute(c: Cleaner) returns (ok: bool, what: Cleaning)
      requires Valid() && Runnable(c)
      modifies fs, host.docker`live, host.docker`refused, host.docker`networks, host.docker`removals,
               host.docker`failures, host.provider, if c.RemoveNet? then {c.cleanup} else {}
      ensures Valid() && what == old(Resolve(c)) && Cleans(what, old(Now()), ok, Now())
      ensures c.RemoveNet? ==> c.cleanup.removed
      ensures fs.failures >= old(fs.failures) && Troubles() >= old(Troubles())
      ensures ok <==> Troubles() == old(Troubles())
    {
      hide FileSys.Valid, Moved, Shrunk;
      what := Resolve(c);
      match c
      case StopContainer =>
        ok := Stop(host);
      case RemoveNet(cleanup) =>
        ok := cleanup.Run(host.docker);
      case RemoveDir(dir) =>
        ok := fs.RemoveAll(dir);
      case Dispose(cs) =>
        ok := DisposeWorkspace(cs);
    }

    method DisposeWorkspace(cs: CleanupState) returns (ok: bool)
      requires Valid() && Runnable(Dispose(cs))
      modifies fs
      ensures Valid() && Cleans(old(Resolve(Dispose(cs))), old(Now()), ok, Now())
      ensures fs.failures >= old(fs.failures) && (ok <==> fs.failures == old(fs.failures))
    {
      hide FileSys.Valid, Moved, Shrunk;
      if cs.cloneRoot.NoPath? {
        return true;
      }
      if cs.finalStatus.status == RunSpec.Passed && !cs.keepWorkspace {
        ok := fs.RemoveAll(cs.cloneRoot.path);
        return;
      }
      if cs.runDir.NoPath? {
        ok := fs.RemoveAll(cs.cloneRoot.path);
        return;
      }
      ok := MoveWorkspace(fs, cs.cloneRoot.path, WorkspaceOf(cs.runDir.path));
    }
  }

  function Resolve(c: Cleaner): Cleaning
    reads if c.Dispose? then {c.cs.finalStatus as object} else if c.RemoveNet? then {c.cleanup as object} else {}
  {
    match c
    case StopContainer => ContainerStop
    case RemoveNet(cleanup) => NetRemoval(cleanup.id, cleanup.removed)
    case Dispose(cs) => Disposal(cs.finalStatus.status == RunSpec.Passed, cs.keepWorkspace, cs.cloneRoot, cs.runDir)
    case RemoveDir(dir) => DirRemoval(dir)
  }

  /** One executed cleaner. */
  datatype Ran = Ran(what: Cleaning, ok: bool, before: Snap, after: Snap)

  /** The log of a run of cleaners from state `s` to state `s'`. */
  ghost predicate Chain(log: seq<Ran>, s: Snap, s': Snap) {
    if log == [] then s' == s else
      var d := log[|log| - 1];
      d.after == s' && Cleans(d.what, d.before, d.ok, d.after) && Chain(log[..|log| - 1], s, d.before)
  }

  lemma {:induction false} LogAppend(log: seq<Ran>, s: Snap, d: Ran)
    requires Chain(log, s, d.before) && Cleans(d.what, d.before, d.ok, d.after)
    ensures Chain(log + [d], s, d.after)
    ensures Failures(log + [d]) == Failures(log) + (if d.ok then [] else [d.what])
  {
    assert (log + [d])[..|log|] == log;
  }

  /** The errors of the failing cleaners, in the order they ran. */
  function Failures(log: seq<Ran>): seq<Cleaning> {
    if log == [] then [] else
      var d := log[|log| - 1];
      Failures(log[..|log| - 1]) + (if d.ok then [] else [d.what])
  }

  /** No error is returned exactly when no cleaner failed. */
  lemma {:induction false} NoFailures(log: seq<Ran>)
    ensures Failures(log) == [] <==> forall i :: 0 <= i < |log| ==> log[i].ok
  {
    if log != [] {
      NoFailures(log[..|log| - 1]);
      assert forall i :: 0 <= i < |log| - 1 ==> log[..|log| - 1][i] == log[i];
    }
  }

  /** The errors `errs` are those of the failing cleaners, one each, in the order in which they ran; `at` says
      where. */
  ghost predicate ErrorsAt(log: seq<Ran>, errs: seq<Cleaning>, at: seq<nat>) {
    |at| == |errs| && (forall i, j :: 0 <= i < j < |at| ==> at[i] < at[j]) &&
    (forall i :: 0 <= i < |at| ==> at[i] < |log| && !log[at[i]].ok && errs[i] == log[at[i]].what) &&
    (forall n :: 0 <= n < |log| && !log[n].ok ==> n in at)
  }

  lemma {:induction false} ErrorsNext(log: seq<Ran>, d: Ran, errs: seq<Cleaning>, at: seq<nat>)
    requires ErrorsAt(log, errs, at)
    ensures d.ok ==> ErrorsAt(log + [d], errs, at)
    ensures !d.ok ==> ErrorsAt(log + [d], errs + [d.what], at + [|log|])
  {
    assert forall n :: 0 <= n < |log| ==> (log + [d])[n] == log[n];
  }

  lemma {:induction false} FailuresInOrder(log: seq<Ran>) returns (at: seq<nat>)
    ensures ErrorsAt(log, Failures(log), at)
  {
    hide ErrorsAt;
    at := [];
    if log == [] {
      NoErrors();
    } else {
      var m := |log| - 1;
      assert Failures(log[..m]) + [] == Failures(log[..m]);
      at := FailuresInOrder(log[..m]);
      assert Failures(log) == Failures(log[..m]) + (if log[m].ok then [] else [log[m].what]);
      assert log == log[..m] + [log[m]];
      ErrorsNext(log[..m], log[m], Failures(log[..m]), at);
      if !log[m].ok {
        at := at + [m];
      }
    }
  }

  lemma {:induction false} NoErrors()
    ensures ErrorsAt([], [], [])
  {
  }

  class CleanupRegistry {
    var entries: seq<Cleaner>
    var ran: bool
    /** What the cleaners did, once they ran. */
    ghost var log: seq<Ran>

    constructor ()
      ensures entries == [] && !ran && log == []
    {
      entries, ran, log := [], false, [];
    }

    method Register(c: Cleaner)
      modifies this`entries
      ensures entries == old(entries) + [c]
    {
      entries := entries + [c];
    }

    /** RunAll: every entry is run once, the last registered first, whichever of them fail; the errors
        returned are those of the failing ones. A second call runs nothing. */
    method RunAll(w: World) returns (errs: seq<Cleaning>)
      requires w.Valid() && forall c :: c in entries ==> w.Runnable(c)
      modifies this`ran, this`log, w.fs, w.host.docker`live, w.host.docker`refused, w.host.docker`networks,
               w.host.docker`removals, w.host.docker`failures, w.host.provider, Flags(entries)
      ensures w.Valid() && ran
      ensures old(ran) ==> errs == [] && log == old(log) && w.Now() == old(w.Now())
      ensures w.fs.failures >= old(w.fs.failures) && w.Troubles() >= old(w.Troubles())
      ensures errs == [] <==> w.Troubles() == old(w.Troubles())
      ensures !old(ran) ==>
        |log| == |entries| && errs == Failures(log) && Chain(log, old(w.Now()), w.Now()) &&
        forall i :: 0 <= i < |entries| && RunsOnce(entries, i) ==>
          log[|entries| - 1 - i].what == old(Resolve(entries[i]))
    {
      hide Chain, Cleans, Failures, RunsOnce, FirstRun, World.Valid, World.Now, World.Runnable;
      if ran {
        return [];
      }
      ran := true;
      var n := |entries|;
      var snapshot := new Cleaner[n];
      for i := 0 to n
        invariant forall j :: 0 <= j < i ==> snapshot[n - 1 - j] == entries[j]
        modifies snapshot
      {
        snapshot[n - 1 - i] := entries[i];
      }
      SnapshotIsReverse(entries, snapshot[..]);
      errs, log := RunEach(w, snapshot[..]);
    }
  }

  /** The flags that network cleaners set. */
  ghost function Flags(cleaners: seq<Cleaner>): set<NetworkCleanup> {
    set c | c in cleaners && c.RemoveNet? :: c.cleanup
  }

  /** A network cleaner that is not registered again later. */
  ghost predicate RunsOnce(entries: seq<Cleaner>, i: nat)
    requires i < |entries|
  {
    entries[i].RemoveNet? ==>
      forall j :: i < j < |entries| && entries[j].RemoveNet? ==> entries[j].cleanup != entries[i].cleanup
  }

  ghost predicate FirstRun(lifo: seq<Cleaner>, i: nat)
    requires i < |lifo|
  {
    lifo[i].RemoveNet? ==> forall j :: 0 <= j < i && lifo[j].RemoveNet? ==> lifo[j].cleanup != lifo[i].cleanup
  }

  lemma {:induction false} SnapshotIsReverse(entries: seq<Cleaner>, lifo: seq<Cleaner>)
    requires |lifo| == |entries| && forall j :: 0 <= j < |entries| ==> lifo[|entries| - 1 - j] == entries[j]
    ensures Flags(lifo) == Flags(entries) && forall c :: c in lifo <==> c in entries
    ensures forall i :: 0 <= i < |entries| && RunsOnce(entries, i) ==>
      FirstRun(lifo, |entries| - 1 - i) && lifo[|entries| - 1 - i] == entries[i]
  {
    var n := |entries|;
    assert forall i :: 0 <= i < n ==> lifo[i] == entries[n - 1 - i];
  }

  /** One turn of the loop: the cleaner is run, and its error kept if there is one. */
  method RunOne(w: World, c: Cleaner, before: seq<Cleaning>, ghost logged: seq<Ran>, ghost s: Snap)
    returns (errs: seq<Cleaning>, ghost log: seq<Ran>)
    requires w.Valid() && w.Runnable(c) && before == Failures(logged) && Chain(logged, s, w.Now())
    modifies w.fs, w.host.docker`live, w.host.docker`refused, w.host.docker`networks, w.host.docker`removals,
             w.host.docker`failures, w.host.provider, if c.RemoveNet? then {c.cleanup} else {}
    ensures w.Valid() && errs == Failures(log) && Chain(log, s, w.Now())
    ensures exists d :: log == logged + [d] && d.what == old(Resolve(c))
    ensures w.fs.failures >= old(w.fs.failures) && w.Troubles() >= old(w.Troubles())
    ensures errs == before <==> w.Troubles() == old(w.Troubles())
    ensures |errs| >= |before|
  {
    hide Chain, Cleans, Failures, Resolve, World.Valid, World.Now, World.Runnable;
    ghost var was := w.Now();
    var ok, what := w.Execute(c);
    ghost var d := Ran(what, ok, was, w.Now());
    LogAppend(logged, s, d);
    log := logged + [d];
    errs := if ok then before else before + [what];
  }

  /** Running the snapshot from first to last. */
  method RunEach(w: World, lifo: seq<Cleaner>) returns (errs: seq<Cleaning>, ghost log: seq<Ran>)
    requires w.Valid() && forall c :: c in lifo ==> w.Runnable(c)
    modifies w.fs, w.host.docker`live, w.host.docker`refused, w.host.docker`networks, w.host.docker`removals,
             w.host.docker`failures, w.host.provider, Flags(lifo)
    ensures w.Valid() && |log| == |lifo| && errs == Failures(log) && Chain(log, old(w.Now()), w.Now())
    ensures forall i :: 0 <= i < |lifo| && FirstRun(lifo, i) ==> log[i].what == old(Resolve(lifo[i]))
    ensures w.fs.failures >= old(w.fs.failures) && w.Troubles() >= old(w.Troubles())
    ensures errs == [] <==> w.Troubles() == old(w.Troubles())
  {
    hide Chain, Cleans, Failures, Disposal, World.Valid, World.Now, World.Runnable;
    errs, log := [], [];
    NothingRan(w.Now());
    for i := 0 to |lifo|
      invariant w.Valid() && |log| == i && errs == Failures(log) && Chain(log, old(w.Now()), w.Now())
      invariant forall j :: i <= j < |lifo| && lifo[j].RemoveNet? && FirstRun(lifo, j) ==>
        lifo[j].cleanup.removed == old(lifo[j].cleanup.removed)
      invariant forall j :: 0 <= j < i && FirstRun(lifo, j) ==> log[j].what == old(Resolve(lifo[j]))
      invariant w.fs.failures >= old(w.fs.failures) && w.Troubles() >= old(w.Troubles())
      invariant errs == [] <==> w.Troubles() == old(w.Troubles())
    {
      assert FirstRun(lifo, i) ==> Resolve(lifo[i]) == old(Resolve(lifo[i]));
      errs, log := RunOne(w, lifo[i], errs, log, old(w.Now()));
    }
  }

  lemma {:induction false} NothingRan(s: Snap)
    ensures Chain([], s, s) && Failures([]) == []
  {
  }
}
