/** What the cleaners of one run achieve together, whatever state the run leaves and whichever of them fail. */
module RunCleanup {
  import opened Containers
  import opened FileSys
  import opened Registry
  import opened RunSpec
  import opened Workspace
  import RulesGate

  /** What a run was started with. */
  datatype Settings = Settings(runDir: MaybePath, keepWorkspace: bool, destDir: Path, cloneRoot: Path)

  /** The directory of the script report, in the clone. */
  const REPORT_SOURCE: Path := RulesGate.OUTPUT_DIR + ["report"]

  lemma {:induction false} ReportSourceSpelt()
    ensures REPORT_SOURCE == ["src", "main", "resources", "Validator", "outputReport", "report"]
  {
  }

  function ScriptReport(runDir: Path): Path {
    runDir + ["script-report"]
  }

  /** The clone is made in the temporary directory, and neither contains the places in the run directory
      that are written to, nor lies in them. */
  ghost predicate Separate(st: Settings) {
    st.destDir != [] && Under(st.cloneRoot, st.destDir) &&
    (st.runDir.At? ==>
      Apart(st.destDir, WorkspaceOf(st.runDir.path)) && Apart(st.destDir, ScriptReport(st.runDir.path)))
  }

  lemma {:induction false} CloneIsApart(st: Settings)
    requires Separate(st) && st.runDir.At?
    ensures st.cloneRoot != [] && Apart(st.cloneRoot, WorkspaceOf(st.runDir.path))
    ensures Apart(st.cloneRoot + REPORT_SOURCE, ScriptReport(st.runDir.path))
  {
    ApartBelow(st.destDir, WorkspaceOf(st.runDir.path), st.cloneRoot);
    ApartBelow(st.destDir, ScriptReport(st.runDir.path), st.cloneRoot + REPORT_SOURCE);
  }

  lemma {:induction false} ApartBelow(d: Path, e: Path, p: Path)
    requires Apart(d, e) && Under(p, d)
    ensures Apart(p, e)
  {
    if Under(p, e) {
      PrefixesMeet(d, e, p);
    }
  }

  function CleaningOf(r: Resource, st: Settings, passed: bool, net: nat): Cleaning {
    match r
    case TempDir => DirRemoval(st.destDir)
    case Clone => Disposal(passed, st.keepWorkspace, At(st.cloneRoot), st.runDir)
    case Network => NetRemoval(net, false)
    case Container => ContainerStop
  }

  /** Every acquired resource is cleaned up once, the last acquired first. */
  ghost predicate CleansInReverse(log: seq<Ran>, acquired: seq<Resource>, st: Settings, passed: bool, net: nat) {
    |log| == |acquired| &&
    forall i :: 0 <= i < |log| ==> log[|acquired| - 1 - i].what == CleaningOf(acquired[i], st, passed, net)
  }

  /** What may have been acquired, in order. */
  predicate IsAcquired(acquired: seq<Resource>, t: bool, c: bool, n: bool, p: bool) {
    acquired == (if t then [TempDir] else []) + (if c then [Clone] else []) + (if n then [Network] else []) +
                (if p then [Container] else [])
  }

  /** One of the four cleanings, or nothing. */
  ghost predicate StepOr(b: bool, what: Cleaning, s: Snap, ok: bool, s': Snap) {
    if b then Cleans(what, s, ok, s') else ok && s' == s
  }

  lemma {:induction false} Peel(
      log: seq<Ran>, s: Snap, s': Snap, acquired: seq<Resource>, r: Resource, rest: seq<Resource>, st: Settings,
      passed: bool, net: nat)
    requires Chain(log, s, s') && CleansInReverse(log, acquired, st, passed, net) && acquired == [r] + rest
    ensures var n := |log| - 1;
      n >= 0 && Chain(log[..n], s, log[n].before) && CleansInReverse(log[..n], rest, st, passed, net) &&
      Cleans(CleaningOf(r, st, passed, net), log[n].before, log[n].ok, s')
  {
    hide Cleans, CleaningOf;
    var n := |log| - 1;
    assert log[n].what == CleaningOf(acquired[0], st, passed, net);
    forall i | 0 <= i < n ensures log[..n][|rest| - 1 - i].what == CleaningOf(rest[i], st, passed, net) {
      assert rest[i] == acquired[i + 1];
    }
  }

  lemma {:induction false} PeelOr(
      log: seq<Ran>, s: Snap, s': Snap, b: bool, r: Resource, rest: seq<Resource>, st: Settings, passed: bool,
      net: nat)
    returns (shorter: seq<Ran>, mid: Snap, ok: bool)
    requires Chain(log, s, s') && CleansInReverse(log, (if b then [r] else []) + rest, st, passed, net)
    ensures Chain(shorter, s, mid) && CleansInReverse(shorter, rest, st, passed, net)
    ensures StepOr(b, CleaningOf(r, st, passed, net), mid, ok, s')
    ensures (forall i :: 0 <= i < |log| ==> log[i].ok) <==> ok && forall i :: 0 <= i < |shorter| ==> shorter[i].ok
  {
    hide Cleans, CleaningOf, Chain;
    if b {
      Peel(log, s, s', [r] + rest, r, rest, st, passed, net);
      var n := |log| - 1;
      shorter, mid, ok := log[..n], log[n].before, log[n].ok;
      assert forall i :: 0 <= i < n ==> shorter[i] == log[i];
    } else {
      assert (if b then [r] else []) + rest == rest;
      shorter, mid, ok := log, s', true;
    }
  }

  /** The four steps of the cleanup: container, network, workspace, temporary directory. */
  datatype Course = Course(
    stopped: Snap, unlinked: Snap, disposed: Snap, okStop: bool, okNet: bool, okSpace: bool, okDir: bool)

  ghost predicate Follows(
      k: Course, s: Snap, s': Snap, t: bool, c: bool, n: bool, p: bool, st: Settings, passed: bool, net: nat) {
    StepOr(p, ContainerStop, s, k.okStop, k.stopped) &&
    StepOr(n, NetRemoval(net, false), k.stopped, k.okNet, k.unlinked) &&
    StepOr(c, Disposal(passed, st.keepWorkspace, At(st.cloneRoot), st.runDir), k.unlinked, k.okSpace, k.disposed) &&
    StepOr(t, DirRemoval(st.destDir), k.disposed, k.okDir, s')
  }

  lemma {:induction false} CourseOf(
      log: seq<Ran>, s: Snap, s': Snap, acquired: seq<Resource>, t: bool, c: bool, n: bool, p: bool, st: Settings,
      passed: bool, net: nat) returns (k: Course)
    requires Chain(log, s, s') && CleansInReverse(log, acquired, st, passed, net) && IsAcquired(acquired, t, c, n, p)
    ensures Follows(k, s, s', t, c, n, p, st, passed, net)
    ensures (forall i :: 0 <= i < |log| ==> log[i].ok) <==> k.okStop && k.okNet && k.okSpace && k.okDir
  {
    hide StepOr, Chain, CleansInReverse, Disposal;
    var stop, link := if p then [Container] else [], if n then [Network] else [];
    var space, dir := if c then [Clone] else [], if t then [TempDir] else [];
    Regroup(dir, space, link, stop);
    var log1, disposed, okDir := PeelOr(log, s, s', t, TempDir, space + (link + (stop + [])), st, passed, net);
    var log2, unlinked, okSpace := PeelOr(log1, s, disposed, c, Clone, link + (stop + []), st, passed, net);
    var log3, stopped, okNet := PeelOr(log2, s, unlinked, n, Network, stop + [], st, passed, net);
    var log4, first, okStop := PeelOr(log3, s, stopped, p, Container, [], st, passed, net);
    NothingLeftOf(log4, s, first, st, passed, net);
    k := Course(stopped, unlinked, disposed, okStop, okNet, okSpace, okDir);
  }

  lemma {:induction false} Regroup(a: seq<Resource>, b: seq<Resource>, c: seq<Resource>, d: seq<Resource>)
    ensures a + b + c + d == a + (b + (c + (d + [])))
  {
  }

  lemma {:induction false} NothingLeftOf(log: seq<Ran>, s: Snap, s': Snap, st: Settings, passed: bool, net: nat)
    requires Chain(log, s, s') && CleansInReverse(log, [], st, passed, net)
    ensures s' == s && log == []
  {
  }

  // ----- Containers and networks -----

  /** From the start of the run to its cleanup: exactly the held container and the created network are new,
      besides containers whose termination was refused. */
  ghost predicate Balance(start: Snap, s: Snap, n: bool, p: bool, net: nat) {
    s.removals == start.removals && net !in start.networks &&
    s.networks == start.networks + (if n then {net} else {}) &&
    Started(p, start.live, start.refused, Nothing, s.live, s.refused, s.held)
  }

  /** After the run no container is left that was not there before, unless Docker refused a termination;
      removal of the created network, and of no other, was asked for, once. */
  ghost predicate NothingOutlives(start: Snap, s': Snap, n: bool, net: nat, allOk: bool) {
    (s'.refused == start.refused ==> s'.live == start.live) && start.live <= s'.live &&
    s'.removals == start.removals + (if n then [net] else []) &&
    (allOk ==> s'.networks == start.networks && s'.held == Nothing)
  }

  lemma {:induction false} CleanupLeavesNothing(
      k: Course, start: Snap, s: Snap, s': Snap, t: bool, c: bool, n: bool, p: bool, st: Settings, passed: bool,
      net: nat)
    requires Balance(start, s, n, p, net) && Follows(k, s, s', t, c, n, p, st, passed, net)
    ensures NothingOutlives(start, s', n, net, k.okStop && k.okNet && k.okSpace && k.okDir)
  {
    hide Moved, Shrunk;
    TreeOnly(c, Disposal(passed, st.keepWorkspace, At(st.cloneRoot), st.runDir), k.unlinked, k.okSpace, k.disposed);
    TreeOnly(t, DirRemoval(st.destDir), k.disposed, k.okDir, s');
    StopSettles(start, s, k, n, p, net);
    assert start.networks + {net} - {net} == start.networks;
  }

  /** Disposing of the workspace and removing the directory change nothing but files. */
  lemma {:induction false} TreeOnly(b: bool, what: Cleaning, s: Snap, ok: bool, s': Snap)
    requires StepOr(b, what, s, ok, s')
    requires what.WorkspaceRemoval? || what.WorkspaceMove? || what.DirRemoval? || what.NothingToDo?
    ensures SameDocker(s, s')
  {
    hide Moved, Shrunk;
  }

  lemma {:induction false} StopSettles(start: Snap, s: Snap, k: Course, n: bool, p: bool, net: nat)
    requires Balance(start, s, n, p, net) && StepOr(p, ContainerStop, s, k.okStop, k.stopped)
    ensures start.live <= k.stopped.live && (k.stopped.refused == start.refused ==> k.stopped.live == start.live)
    ensures k.stopped == s.(live := k.stopped.live, refused := k.stopped.refused, held := k.stopped.held)
    ensures k.okStop ==> k.stopped.held == Nothing
  {
    if p {
      assert start.live <= s.live - {s.held.id};
      assert !k.okStop ==> s.held.id in k.stopped.refused && s.held.id !in start.refused;
    }
  }

  /** A container that the provider still holds after the cleanup is the run's own, and alive: its stop was
      refused. */
  lemma {:induction false} HeldAfterwards(
      k: Course, start: Snap, s: Snap, s': Snap, t: bool, c: bool, n: bool, p: bool, st: Settings, passed: bool,
      net: nat)
    requires Balance(start, s, n, p, net) && Follows(k, s, s', t, c, n, p, st, passed, net)
    ensures s'.held.Holding? <==> p && !k.okStop
    ensures s'.held.Holding? ==> s'.held == s.held && s'.held.id in s'.live && s'.held.id !in start.live
  {
    hide Moved, Shrunk;
    TreeOnly(c, Disposal(passed, st.keepWorkspace, At(st.cloneRoot), st.runDir), k.unlinked, k.okSpace, k.disposed);
    TreeOnly(t, DirRemoval(st.destDir), k.disposed, k.okDir, s');
    StopSettles(start, s, k, n, p, net);
  }

  // ----- Files -----

  /** Where the run may write. */
  ghost predicate Inside(st: Settings, p: Path) {
    Under(p, st.destDir) ||
    (st.runDir.At? && (Under(p, WorkspaceOf(st.runDir.path)) || Under(p, ScriptReport(st.runDir.path))))
  }

  /** Elsewhere nothing changed, except that directories on the way into the run directory may be new. */
  ghost predicate SameElsewhere(st: Settings, t: Tree, t': Tree) {
    (forall p :: p in t && !Inside(st, p) ==> p in t' && t'[p] == t[p]) &&
    (forall q :: q in t' && q !in t && !Inside(st, q) ==>
      t'[q] == Dir && st.runDir.At? &&
      (Under(WorkspaceOf(st.runDir.path), q) || Under(ScriptReport(st.runDir.path), q)))
  }

  lemma {:induction false} SameElsewhereTrans(st: Settings, a: Tree, b: Tree, c: Tree)
    requires SameElsewhere(st, a, b) && SameElsewhere(st, b, c)
    ensures SameElsewhere(st, a, c)
  {
    hide Inside, Under;
  }

  lemma {:induction false} WritesBelow(st: Settings, t: Tree, t': Tree)
    requires SameOutside(t, t', st.destDir)
    ensures SameElsewhere(st, t, t')
  {
  }

  lemma {:induction false} ReportWrites(st: Settings, t: Tree, t': Tree)
    requires st.runDir.At? && FrameOf(t, t', ScriptReport(st.runDir.path))
    ensures SameElsewhere(st, t, t')
  {
  }

  lemma {:induction false} DisposalElsewhere(st: Settings, passed: bool, s: Snap, ok: bool, s': Snap)
    requires Separate(st) && Cleans(Disposal(passed, st.keepWorkspace, At(st.cloneRoot), st.runDir), s, ok, s')
    ensures SameElsewhere(st, s.tree, s'.tree)
  {
    hide IsMove, Intact, Copied, OnlyDirsAndFiles;
    assert forall p: Path :: Under(p, st.cloneRoot) ==> Under(p, st.destDir);
  }

  lemma {:induction false} RemovalElsewhere(st: Settings, s: Snap, ok: bool, s': Snap)
    requires Cleans(DirRemoval(st.destDir), s, ok, s')
    ensures SameElsewhere(st, s.tree, s'.tree)
  {
  }

  /** However the cleanup goes, it touches nothing outside the temporary directory and the retained copy. */
  lemma {:induction false} CleanupStaysInside(
      k: Course, s: Snap, s': Snap, t: bool, c: bool, n: bool, p: bool, st: Settings, passed: bool, net: nat)
    requires Separate(st) && Follows(k, s, s', t, c, n, p, st, passed, net)
    ensures SameElsewhere(st, s.tree, s'.tree)
  {
    hide Separate, Moved, Shrunk, SameElsewhere, Disposal;
    SameTree(st, s, k, n, p, net);
    SameElsewhereRefl(st, s.tree);
    if c {
      DisposalElsewhere(st, passed, k.unlinked, k.okSpace, k.disposed);
    }
    if t {
      RemovalElsewhere(st, k.disposed, k.okDir, s');
      SameElsewhereTrans(st, s.tree, k.disposed.tree, s'.tree);
    }
  }

  lemma {:induction false} SameElsewhereRefl(st: Settings, t: Tree)
    ensures SameElsewhere(st, t, t)
  {
  }

  lemma {:induction false} SameTree(st: Settings, s: Snap, k: Course, n: bool, p: bool, net: nat)
    requires StepOr(p, ContainerStop, s, k.okStop, k.stopped)
    requires StepOr(n, NetRemoval(net, false), k.stopped, k.okNet, k.unlinked)
    ensures k.unlinked.tree == s.tree
  {
  }

  predicate ClonesRemoved(st: Settings, passed: bool) {
    (passed && !st.keepWorkspace) || st.runDir.NoPath?
  }

  /** The tree at `dst` is exactly the one that was at `src`. */
  ghost predicate TreeIsAt(t: Tree, src: Path, t': Tree, dst: Path) {
    (forall p :: p in t && Under(p, src) ==> Rebase(p, src, dst) in t' && t'[Rebase(p, src, dst)] == t[p]) &&
    (forall q :: q in t' && Under(q, dst) ==> Rebase(q, dst, src) in t)
  }

  /** The tree at `dst` is the one that was at `src`, with or without its special files. */
  ghost predicate RetainedAt(t: Tree, src: Path, t': Tree, dst: Path) {
    TreeIsAt(t, src, t', dst) || TreeIsAt(WithoutSpecials(t, src), src, t', dst)
  }

  /** The clone, once disposed of without an error, is gone from where it was; when it is not removed, its
      directories and regular files are in the run directory, where they stay, and, when there was no
      workspace before, nothing else is. The temporary directory is gone when its removal succeeded. */
  ghost predicate WorkspaceSettled(
      st: Settings, passed: bool, t: Tree, t': Tree, cloned: bool, okSpace: bool, okDir: bool) {
    (cloned && okSpace ==> NothingUnder(t', st.cloneRoot)) &&
    (cloned && okSpace && !ClonesRemoved(st, passed) ==>
      Copied(t, st.cloneRoot, t', WorkspaceOf(st.runDir.path)) &&
      (WorkspaceOf(st.runDir.path) !in t && st.runDir.path in t ==>
        RetainedAt(t, st.cloneRoot, t', WorkspaceOf(st.runDir.path)))) &&
    (okDir ==> NothingUnder(t', st.destDir))
  }

  /** The removal of the temporary directory does not reach what was moved into the run directory. */
  lemma {:induction false} MoveSettles(st: Settings, t: Tree, mid: Tree, t': Tree)
    requires Separate(st) && st.runDir.At? && Shrunk(mid, t', st.destDir)
    ensures Copied(t, st.cloneRoot, mid, WorkspaceOf(st.runDir.path)) ==>
      Copied(t, st.cloneRoot, t', WorkspaceOf(st.runDir.path))
    ensures IsMove(t, mid, st.cloneRoot, WorkspaceOf(st.runDir.path)) ==>
      TreeIsAt(t, st.cloneRoot, t', WorkspaceOf(st.runDir.path))
  {
    var ws := WorkspaceOf(st.runDir.path);
    CloneIsApart(st);
    forall p | p in t && Under(p, st.cloneRoot) && Rebase(p, st.cloneRoot, ws) in mid
      ensures Rebase(p, st.cloneRoot, ws) in t' && t'[Rebase(p, st.cloneRoot, ws)] == mid[Rebase(p, st.cloneRoot, ws)]
    {
      RebaseBack(p, st.cloneRoot, ws);
      ApartBelow(ws, st.destDir, Rebase(p, st.cloneRoot, ws));
    }
    forall p | p in t && Under(p, st.cloneRoot) && IsMove(t, mid, st.cloneRoot, ws)
      ensures mid[Rebase(p, st.cloneRoot, ws)] == t[p]
    {
      RebaseBack(p, st.cloneRoot, ws);
    }
  }

  lemma {:induction false} NothingComesBack(mid: Tree, t': Tree, d: Path, e: Path)
    requires Shrunk(mid, t', d) && NothingUnder(mid, e)
    ensures NothingUnder(t', e)
  {
  }

  lemma {:induction false} CleanupSettlesWorkspace(
      k: Course, s: Snap, s': Snap, t: bool, c: bool, n: bool, p: bool, st: Settings, passed: bool, net: nat)
    requires Separate(st) && (c ==> t) && Follows(k, s, s', t, c, n, p, st, passed, net)
    ensures WorkspaceSettled(st, passed, s.tree, s'.tree, c, k.okSpace, t && k.okDir)
  {
    hide IsMove, Intact, Copied, MoveFrame, Separate, TreeIsAt, NothingUnder, WithoutSpecials, Shrunk;
    SameTree(st, s, k, n, p, net);
    NothingLeftUnder(k.unlinked.tree, st.cloneRoot);
    NothingLeftUnder(k.disposed.tree, st.destDir);
    if c && k.okSpace {
      NothingComesBack(k.disposed.tree, s'.tree, st.destDir, st.cloneRoot);
      if !ClonesRemoved(st, passed) {
        assert Parent(WorkspaceOf(st.runDir.path)) == st.runDir.path;
        MoveSettles(st, s.tree, k.disposed.tree, s'.tree);
        MoveSettles(st, WithoutSpecials(s.tree, st.cloneRoot), k.disposed.tree, s'.tree);
      }
    }
  }

  /** What was copied to the script report stays there. */
  lemma {:induction false} CleanupKeepsReport(
      k: Course, s: Snap, s': Snap, t: bool, c: bool, n: bool, p: bool, st: Settings, passed: bool, net: nat,
      before: Tree, src: Path)
    requires Separate(st) && st.runDir.At? && Follows(k, s, s', t, c, n, p, st, passed, net)
    requires Copied(before, src, s.tree, ScriptReport(st.runDir.path))
    ensures Copied(before, src, s'.tree, ScriptReport(st.runDir.path))
  {
    hide IsMove, Intact, OnlyDirsAndFiles;
    var rep, ws := ScriptReport(st.runDir.path), WorkspaceOf(st.runDir.path);
    SameTree(st, s, k, n, p, net);
    forall p | p in before && Under(p, src) && !before[p].Special?
      ensures Rebase(p, src, rep) in s'.tree && s'.tree[Rebase(p, src, rep)] == before[p]
    {
      var q := Rebase(p, src, rep);
      RebaseBack(p, src, rep);
      ReportIsApart(st, q);
    }
  }

  lemma {:induction false} ReportIsApart(st: Settings, q: Path)
    requires Separate(st) && st.runDir.At? && Under(q, ScriptReport(st.runDir.path))
    ensures !Under(q, st.destDir) && !Under(q, st.cloneRoot) && !Under(q, WorkspaceOf(st.runDir.path))
  {
    ApartBelow(ScriptReport(st.runDir.path), st.destDir, q);
    SiblingsApart(st.runDir.path, "workspace", "script-report", q);
  }

  lemma {:induction false} SiblingsApart(d: Path, a: string, b: string, q: Path)
    requires |a| > 0 && |b| > 0 && a[0] != b[0] && Under(q, d + [b])
    ensures !Under(q, d + [a])
  {
    assert q[|d|] == b;
    assert (d + [a])[|d|] == a;
    assert forall e: Path :: Under(q, e) && |e| == |d| + 1 ==> e[|d|] == q[|d|];
  }

  // ----- From the start of the run to its end -----

  ghost predicate SameUnder(t: Tree, t': Tree, d: Path) {
    (forall p :: p in t && Under(p, d) ==> p in t' && t'[p] == t[p]) && (forall p :: p in t' && Under(p, d) ==> p in t)
  }

  /** Until its cleanup a run leaves the place of the workspace alone. */
  ghost predicate WorkspaceAsBefore(st: Settings, t: Tree, t': Tree) {
    st.runDir.At? ==> SameUnder(t, t', WorkspaceOf(st.runDir.path))
  }

  lemma {:induction false} WorkspaceAsBeforeTrans(st: Settings, a: Tree, b: Tree, c: Tree)
    requires WorkspaceAsBefore(st, a, b) && WorkspaceAsBefore(st, b, c)
    ensures WorkspaceAsBefore(st, a, c)
  {
    hide Under;
  }

  lemma {:induction false} WritesMissWorkspace(st: Settings, t: Tree, t': Tree)
    requires Separate(st) && SameOutside(t, t', st.destDir)
    ensures WorkspaceAsBefore(st, t, t')
  {
    if st.runDir.At? {
      forall p | Under(p, WorkspaceOf(st.runDir.path)) ensures !Under(p, st.destDir) {
        ApartBelow(WorkspaceOf(st.runDir.path), st.destDir, p);
      }
    }
  }

  lemma {:induction false} ReportMissesWorkspace(st: Settings, t: Tree, t': Tree)
    requires Separate(st) && st.runDir.At? && FrameOf(t, t', ScriptReport(st.runDir.path))
    ensures WorkspaceAsBefore(st, t, t') && SameUnder(t, t', st.cloneRoot)
  {
    hide WorkspaceOf, ScriptReport;
    var ws, rep := WorkspaceOf(st.runDir.path), ScriptReport(st.runDir.path);
    forall p: Path ensures Under(p, ws) || Under(p, st.cloneRoot) ==> !Under(p, rep) && !Under(rep, p) {
      ReportIsElsewhere(st, p);
    }
  }

  lemma {:induction false} ReportIsElsewhere(st: Settings, p: Path)
    requires Separate(st) && st.runDir.At?
    ensures var ws, rep := WorkspaceOf(st.runDir.path), ScriptReport(st.runDir.path);
      Under(p, ws) || Under(p, st.cloneRoot) ==> !Under(p, rep) && !Under(rep, p)
  {
    var ws, rep := WorkspaceOf(st.runDir.path), ScriptReport(st.runDir.path);
    if Under(p, rep) {
      ReportIsApart(st, p);
    }
    assert Under(rep, rep);
    ReportIsApart(st, rep);
  }

  /** What a run whose cleaners all succeeded has done with its clone, from the files there were at its start
      and the clone as its last step left it: it is gone from the temporary directory; when it is not to be
      removed, its directories and regular files are at the workspace's place, and, when the run directory was
      there and held no workspace at the start, nothing but the clone's tree is. */
  ghost predicate CloneSettled(
      st: Settings, passed: bool, start: Tree, before: Tree, t': Tree, cloned: bool, dir: bool) {
    (cloned ==> NothingUnder(t', st.cloneRoot)) &&
    (cloned && (passed ==> st.keepWorkspace) && st.runDir.At? ==>
      var ws := st.runDir.path + ["workspace"];
      Copied(before, st.cloneRoot, t', ws) &&
      (ws !in start && st.runDir.path in start ==> RetainedAt(before, st.cloneRoot, t', ws))) &&
    (dir ==> NothingUnder(t', st.destDir))
  }

  lemma {:induction false} SettledFromStart(
      st: Settings, passed: bool, start: Tree, before: Tree, t: Tree, t': Tree, cloned: bool, dir: bool)
    requires Separate(st) && WorkspaceSettled(st, passed, t, t', cloned, true, dir)
    requires SameElsewhere(st, start, t) && WorkspaceAsBefore(st, start, t) && SameUnder(before, t, st.cloneRoot)
    ensures CloneSettled(st, passed, start, before, t', cloned, dir)
  {
    hide TreeIsAt, SameElsewhere;
    if st.runDir.At? {
      var ws := WorkspaceOf(st.runDir.path);
      SameClone(before, t, st.cloneRoot, t', ws);
      RunDirStays(st, start, t);
      assert Under(ws, ws);
    }
  }

  lemma {:induction false} RunDirStays(st: Settings, start: Tree, t: Tree)
    requires Separate(st) && st.runDir.At? && SameElsewhere(st, start, t)
    ensures st.runDir.path in start ==> st.runDir.path in t
  {
    var r := st.runDir.path;
    assert r <= WorkspaceOf(r) && |r| < |WorkspaceOf(r)| && |r| < |ScriptReport(r)|;
    assert Under(r, st.destDir) ==> Under(WorkspaceOf(r), st.destDir);
  }

  lemma {:induction false} SameClone(before: Tree, t: Tree, src: Path, t': Tree, dst: Path)
    requires SameUnder(before, t, src)
    ensures Copied(t, src, t', dst) ==> Copied(before, src, t', dst)
    ensures TreeIsAt(t, src, t', dst) ==> TreeIsAt(before, src, t', dst)
    ensures TreeIsAt(WithoutSpecials(t, src), src, t', dst) ==> TreeIsAt(WithoutSpecials(before, src), src, t', dst)
  {
    forall q | q in t' && Under(q, dst) ensures Under(Rebase(q, dst, src), src) {
      RebaseBack(q, dst, src);
    }
  }

  // ----- All together -----

  ghost predicate AllOk(log: seq<Ran>) {
    forall i :: 0 <= i < |log| ==> log[i].ok
  }

  lemma {:induction false} AcquiredOnce(acquired: seq<Resource>, t: bool, c: bool, n: bool, p: bool)
    requires IsAcquired(acquired, t, c, n, p)
    ensures (TempDir in acquired <==> t) && (Clone in acquired <==> c) && (Network in acquired <==> n) &&
      (Container in acquired <==> p)
    ensures forall i, j :: 0 <= i < j < |acquired| ==> acquired[i] != acquired[j]
  {
  }

  lemma {:induction false} AcquiredForm(cfg: Config, env: Env) returns (t: bool, c: bool, n: bool, p: bool)
    ensures IsAcquired(Acquired(cfg, env), t, c, n, p) && (c ==> t)
    ensures t == (TempDir in Acquired(cfg, env)) && c == (Clone in Acquired(cfg, env))
    ensures n == (Network in Acquired(cfg, env)) && p == (Container in Acquired(cfg, env))
    ensures forall i, j :: 0 <= i < j < |Acquired(cfg, env)| ==> Acquired(cfg, env)[i] != Acquired(cfg, env)[j]
  {
    hide Acquired;
    AcquiredInOrder(cfg, env);
    t := InputOk(cfg, env) && env.preflightOk;
    c := t && env.cloneOk;
    var ready := c && env.engineOk && (cfg.overlayer ==> env.overlayOk);
    n := ready && cfg.networked && env.networkOk;
    p := ready && (cfg.networked ==> env.networkOk) && env.startOk;
    AcquiredOnce(Acquired(cfg, env), t, c, n, p);
  }

  /** Cleaning up in reverse what a run acquired: no container or network outlives it, nothing outside its
      places is touched, what was copied out stays, and, if no cleaner failed, the clone is removed or
      retained as the status demands. */
  lemma {:induction false} CleanedUp(
      cfg: Config, env: Env, st: Settings, log: seq<Ran>, start: Snap, s: Snap, s': Snap, passed: bool, net: nat,
      before: Tree, copied: bool)
    requires Separate(st) && Chain(log, s, s') && CleansInReverse(log, Acquired(cfg, env), st, passed, net)
    requires Balance(start, s, Network in Acquired(cfg, env), Container in Acquired(cfg, env), net)
    requires SameElsewhere(st, start.tree, s.tree) && WorkspaceAsBefore(st, start.tree, s.tree)
    requires SameUnder(before, s.tree, st.cloneRoot)
    requires copied ==>
      st.runDir.At? && Copied(before, st.cloneRoot + REPORT_SOURCE, s.tree, ScriptReport(st.runDir.path))
    ensures NothingOutlives(start, s', Network in Acquired(cfg, env), net, AllOk(log))
    ensures SameElsewhere(st, start.tree, s'.tree)
    ensures copied ==> Copied(before, st.cloneRoot + REPORT_SOURCE, s'.tree, ScriptReport(st.runDir.path))
    ensures AllOk(log) ==>
      CloneSettled(st, passed, start.tree, before, s'.tree, Clone in Acquired(cfg, env), TempDir in Acquired(cfg, env))
  {
    hide CloneSettled, WorkspaceAsBefore, SameUnder, Acquired, Chain, CleansInReverse, Follows, Separate, Balance,
      SameElsewhere, Copied, WorkspaceSettled, IsAcquired, NothingOutlives;
    var t, c, n, p := AcquiredForm(cfg, env);
    var k := CourseOf(log, s, s', Acquired(cfg, env), t, c, n, p, st, passed, net);
    CleanupLeavesNothing(k, start, s, s', t, c, n, p, st, passed, net);
    CleanupStaysInside(k, s, s', t, c, n, p, st, passed, net);
    SameElsewhereTrans(st, start.tree, s.tree, s'.tree);
    CleanupSettlesWorkspace(k, s, s', t, c, n, p, st, passed, net);
    if AllOk(log) {
      SettledFromStart(st, passed, start.tree, before, s.tree, s'.tree, c, t);
    }
    if copied {
      CleanupKeepsReport(k, s, s', t, c, n, p, st, passed, net, before, st.cloneRoot + REPORT_SOURCE);
    }
  }
}
