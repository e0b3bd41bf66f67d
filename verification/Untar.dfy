/** internal/maven/container_runner.go, untarInto and the copy-out after a goal: restoring the container's
    work tree on the host. */
module Untar {
  import opened FileSys

  datatype Kind = TarDir | TarFile(content: string) | TarLink | TarOther

  /** A tar header: its name split at the slashes, and what it is. */
  datatype Entry = Entry(parts: seq<string>, kind: Kind)

  /** filepath.Join of a clean absolute directory and a name: empty and `.` parts go, `..` goes up. */
  function Resolve(cur: Path, parts: seq<string>): Path
    decreases |parts|
  {
    if parts == [] then cur
    else if parts[0] == "" || parts[0] == "." then Resolve(cur, parts[1..])
    else if parts[0] == ".." then Resolve(if cur == [] then [] else Parent(cur), parts[1..])
    else Resolve(cur + [parts[0]], parts[1..])
  }

  /** A name that a path component can have. */
  predicate CleanName(name: string) {
    name != "" && name != "." && name != ".."
  }

  /** The entry is neither git metadata nor outside `dest`. */
  predicate Accepted(e: Entry, dest: Path) {
    ".git" !in e.parts &&
    (Resolve(dest, e.parts) == dest || (dest != [] && Below(Resolve(dest, e.parts), dest)))
  }

  function Target(e: Entry, dest: Path): Path {
    Resolve(dest, e.parts)
  }

  /** A resolved path is a beginning of the start, followed by parts of the name. */
  lemma {:induction false} ResolveShape(cur: Path, dest: Path, m: nat, parts: seq<string>, all: seq<string>)
    returns (n: nat)
    requires m <= |dest| && m <= |cur| && cur[..m] == dest[..m]
    requires forall k :: m <= k < |cur| ==> cur[k] in all && CleanName(cur[k])
    requires forall k :: 0 <= k < |parts| ==> parts[k] in all
    ensures var r := Resolve(cur, parts);
      n <= |dest| && n <= |r| && r[..n] == dest[..n] && forall k :: n <= k < |r| ==> r[k] in all && CleanName(r[k])
    decreases |parts|
  {
    if parts == [] {
      n := m;
    } else if parts[0] == "" || parts[0] == "." {
      n := ResolveShape(cur, dest, m, parts[1..], all);
    } else if parts[0] == ".." {
      var up := if cur == [] then [] else Parent(cur);
      var m' := if m <= |up| then m else |up|;
      assert up[..m'] == cur[..m][..m'] == dest[..m][..m'] == dest[..m'];
      n := ResolveShape(up, dest, m', parts[1..], all);
    } else {
      assert (cur + [parts[0]])[..m] == cur[..m];
      n := ResolveShape(cur + [parts[0]], dest, m, parts[1..], all);
    }
  }

  /** Below `dest`, an accepted target has no `.git` component, and no empty, `.` or `..` one. */
  lemma {:induction false} TargetHasNoGit(e: Entry, dest: Path)
    requires Accepted(e, dest)
    ensures Under(Target(e, dest), dest) && ".git" !in Target(e, dest)[|dest|..]
    ensures forall k :: |dest| <= k < |Target(e, dest)| ==> CleanName(Target(e, dest)[k])
  {
    hide Resolve;
    var r := Target(e, dest);
    var n := ResolveShape(dest, dest, |dest|, e.parts, e.parts);
    assert forall k :: |dest| <= k < |r| ==> r[k] in e.parts;
    assert forall k :: 0 <= k < |r[|dest|..]| ==> r[|dest|..][k] == r[|dest| + k];
  }

  /** What handling one entry may do: change its target, and add directories on the way to it. */
  ghost predicate Touches(a: Tree, b: Tree, target: Path) {
    (forall p :: p in a && p != target ==> p in b && b[p] == a[p]) &&
    (forall q :: q in b && q !in a && q != target ==> Below(target, q) && b[q] == Dir)
  }

  lemma {:induction false} TouchesTrans(a: Tree, b: Tree, c: Tree, target: Path)
    requires Touches(a, b, target) && Touches(b, c, target)
    ensures Touches(a, c, target)
  {
  }

  /** A path below `dest` that runs through a `.git` directory. */
  ghost predicate IsGit(p: Path, dest: Path) {
    Under(p, dest) && ".git" in p[|dest|..]
  }

  ghost predicate GitKept(t: Tree, now: Tree, dest: Path) {
    forall p :: IsGit(p, dest) ==> (p in now <==> p in t) && (p in t ==> now[p] == t[p])
  }

  /** Entry `i` is accepted, and no later accepted entry, among the first `n`, has the same target. */
  ghost predicate IsLast(dest: Path, entries: seq<Entry>, n: nat, i: nat) {
    i < n && i < |entries| && Accepted(entries[i], dest) &&
    forall j :: i < j < n && j < |entries| && Accepted(entries[j], dest) ==>
      Target(entries[j], dest) != Target(entries[i], dest)
  }

  /** What the entry says is on disk; of a link only when links could be made. */
  ghost predicate OnDisk(now: Tree, target: Path, kind: Kind, links: bool) {
    match kind
    case TarFile(content) => target in now && now[target] == File(content)
    case TarDir => target in now && now[target] == Dir
    case TarLink => links ==> target in now && now[target] == Special
    case TarOther => true
  }

  /** So it is for every entry that is the last for its target. */
  ghost predicate LastWins(now: Tree, dest: Path, entries: seq<Entry>, n: nat, links: bool) {
    forall i: nat :: IsLast(dest, entries, n, i) ==> OnDisk(now, Target(entries[i], dest), entries[i].kind, links)
  }

  ghost predicate Named(entries: seq<Entry>, dest: Path, n: nat, p: Path) {
    exists i :: 0 <= i < n && i < |entries| && Accepted(entries[i], dest) && Target(entries[i], dest) == p
  }

  /** What no entry names is kept. */
  ghost predicate UnnamedKept(t: Tree, now: Tree, dest: Path, entries: seq<Entry>, n: nat) {
    forall p :: p in t && !Named(entries, dest, n, p) ==> p in now && now[p] == t[p]
  }

  lemma {:induction false} StepFrame(t: Tree, a: Tree, b: Tree, dest: Path, e: Entry)
    requires FrameOf(t, a, dest) && GitKept(t, a, dest)
    requires Accepted(e, dest) && Touches(a, b, Target(e, dest))
    ensures FrameOf(t, b, dest) && GitKept(t, b, dest)
  {
    hide Resolve, Accepted;
    var target := Target(e, dest);
    TargetHasNoGit(e, dest);
    forall q | Below(target, q) || q == target ensures !IsGit(q, dest) && (!Under(q, dest) ==> Under(dest, q)) {
      PrefixesMeet(q, dest, target);
      if Under(q, dest) {
        assert q[|dest|..] <= target[|dest|..];
        assert forall k :: 0 <= k < |q[|dest|..]| ==> q[|dest|..][k] == target[|dest|..][k];
      }
    }
  }

  lemma {:induction false} OnDiskKept(a: Tree, b: Tree, target: Path, other: Path, kind: Kind, links: bool, still: bool)
    requires Touches(a, b, target) && other != target && OnDisk(a, other, kind, links) && (still ==> links)
    ensures OnDisk(b, other, kind, still)
  {
  }

  lemma {:induction false} OnDiskWeaker(now: Tree, target: Path, kind: Kind, links: bool, still: bool)
    requires OnDisk(now, target, kind, links) && (still ==> links)
    ensures OnDisk(now, target, kind, still)
  {
  }

  lemma {:induction false} StepWritten(
      t: Tree, a: Tree, b: Tree, dest: Path, entries: seq<Entry>, n: nat, links: bool, made: bool, still: bool)
    requires n < |entries| && LastWins(a, dest, entries, n, links) && UnnamedKept(t, a, dest, entries, n)
    requires Accepted(entries[n], dest) && Touches(a, b, Target(entries[n], dest)) && (still ==> links && made)
    requires OnDisk(b, Target(entries[n], dest), entries[n].kind, made)
    ensures LastWins(b, dest, entries, n + 1, still) && UnnamedKept(t, b, dest, entries, n + 1)
  {
    hide Accepted, Target, OnDisk;
    NamedGrows(dest, entries, n, n + 1);
    assert Named(entries, dest, n + 1, Target(entries[n], dest));
    OnDiskWeaker(b, Target(entries[n], dest), entries[n].kind, made, still);
    forall i: nat | IsLast(dest, entries, n + 1, i) && i != n
      ensures OnDisk(b, Target(entries[i], dest), entries[i].kind, still)
    {
      assert IsLast(dest, entries, n, i);
      OnDiskKept(a, b, Target(entries[n], dest), Target(entries[i], dest), entries[i].kind, links, still);
    }
  }

  lemma {:induction false} StepSkipped(t: Tree, a: Tree, dest: Path, entries: seq<Entry>, n: nat, links: bool)
    requires n < |entries| && LastWins(a, dest, entries, n, links) && UnnamedKept(t, a, dest, entries, n)
    requires !Accepted(entries[n], dest)
    ensures LastWins(a, dest, entries, n + 1, links) && UnnamedKept(t, a, dest, entries, n + 1)
  {
    hide Accepted, Target, OnDisk;
    NamedGrows(dest, entries, n, n + 1);
    forall i: nat | IsLast(dest, entries, n + 1, i) ensures IsLast(dest, entries, n, i) {
    }
  }

  lemma {:induction false} NamedGrows(dest: Path, entries: seq<Entry>, n: nat, m: nat)
    requires n <= m
    ensures forall p :: Named(entries, dest, n, p) ==> Named(entries, dest, m, p)
  {
  }

  /** untarInto, for the entries that can be read and whether the stream then breaks off. It fails exactly when
      the stream does or an operation does whose error it looks at. */
  method UntarInto(fs: FileSystem, entries: seq<Entry>, torn: bool, dest: Path) returns (ok: bool)
    requires Valid(fs.tree)
    modifies fs
    ensures Valid(fs.tree)
    ensures FrameOf(old(fs.tree), fs.tree, dest) && GitKept(old(fs.tree), fs.tree, dest)
    ensures UnnamedKept(old(fs.tree), fs.tree, dest, entries, |entries|)
    ensures ok ==> LastWins(fs.tree, dest, entries, |entries|, fs.ignored == old(fs.ignored))
    ensures fs.failures >= old(fs.failures) && (ok <==> !torn && fs.failures == old(fs.failures))
  {
    hide FrameOf, GitKept, UnnamedKept, LastWins, OnDisk, Touches, Accepted, Target, Valid;
    ghost var t := fs.tree;
    StartUntar(t, dest, entries);
    for n := 0 to |entries|
      invariant Valid(fs.tree) && FrameOf(t, fs.tree, dest) && GitKept(t, fs.tree, dest)
      invariant UnnamedKept(t, fs.tree, dest, entries, n)
      invariant LastWins(fs.tree, dest, entries, n, fs.ignored == old(fs.ignored))
      invariant fs.failures == old(fs.failures) && fs.ignored >= old(fs.ignored)
    {
      ghost var a, links, before := fs.tree, fs.ignored == old(fs.ignored), fs.ignored;
      if Accepted(entries[n], dest) {
        var extracted := Extract(fs, Target(entries[n], dest), entries[n].kind);
        StepFrame(t, a, fs.tree, dest, entries[n]);
        if !extracted {
          StepKept(t, a, fs.tree, dest, entries, n);
          return false;
        }
        StepWritten(t, a, fs.tree, dest, entries, n, links, fs.ignored == before, fs.ignored == old(fs.ignored));
      } else {
        StepSkipped(t, a, dest, entries, n, links);
      }
    }
    ok := !torn;
  }

  lemma {:induction false} StepsTouch(a: Tree, b: Tree, d: Path, target: Path)
    ensures Touches(a, a, target)
    ensures d <= target && DirsAdded(a, b, d) ==> Touches(a, b, target)
    ensures b == a - {target} ==> Touches(a, b, target)
    ensures OnlyFileAt(a, b, target) ==> Touches(a, b, target)
    ensures b == a[target := Special] ==> Touches(a, b, target)
  {
  }

  /** Parent directories, removal of what is there, and a fresh file. Where a file or a link stands, nothing but
      the environment can make it fail. */
  method ExtractFile(fs: FileSystem, target: Path, content: string) returns (ok: bool)
    requires Valid(fs.tree)
    modifies fs
    ensures Valid(fs.tree) && Touches(old(fs.tree), fs.tree, target)
    ensures ok ==> target in fs.tree && fs.tree[target] == File(content)
    ensures fs.failures == old(fs.failures) + (if ok then 0 else 1) && fs.ignored >= old(fs.ignored)
    ensures target in old(fs.tree) && !old(fs.tree)[target].Dir? && fs.denied == old(fs.denied) ==> ok
  {
    hide Valid, WithDirs, Touches, DirsAdded, OnlyFileAt;
    ghost var a := fs.tree;
    var parent := if target == [] then [] else Parent(target);
    ok := fs.MkdirAll(parent);
    ghost var b := fs.tree;
    StepsTouch(a, b, parent, target);
    OccupiedTarget(a, target);
    if !ok {
      return;
    }
    if target in a && !a[target].Dir? {
      StillOccupied(a, b, target);
    }
    if target != [] {
      var removed := fs.Remove(target);
    }
    ghost var c := fs.tree;
    StepsTouch(b, c, parent, target);
    TouchesTrans(a, b, c, target);
    ok := fs.WriteFile(target, content);
    StepsTouch(c, fs.tree, parent, target);
    TouchesTrans(a, c, fs.tree, target);
  }

  /** Where something other than a directory stands, all parents are directories and nothing is below it. */
  lemma {:induction false} OccupiedTarget(a: Tree, target: Path)
    requires Valid(a)
    ensures target in a && !a[target].Dir? ==>
      target != [] && Parent(target) in a && a[Parent(target)] == Dir &&
      (forall p | p in a && Under(Parent(target), p) :: a[p] == Dir) && !exists q | q in a :: Below(q, target)
  {
    if target in a && !a[target].Dir? {
      forall p | p in a && Under(Parent(target), p) ensures a[p] == Dir {
        AncestorsAreDirs(a, Parent(target), p);
      }
      forall q | q in a ensures !Below(q, target) {
        if Below(q, target) {
          AncestorsAreDirs(a, q, target);
        }
      }
    }
  }

  predicate LinkFits(t: Tree, target: Path) {
    target != [] && Parent(target) in t && t[Parent(target)] == Dir && !exists q | q in t :: Below(q, target)
  }

  lemma {:induction false} StillOccupied(a: Tree, b: Tree, target: Path)
    requires Valid(a) && target in a && !a[target].Dir? && target != [] && DirsAdded(a, b, Parent(target))
    ensures target in b && Parent(target) in b && b[Parent(target)] == Dir && b[target] == a[target]
    ensures !exists q | q in b :: Below(q, target)
  {
    OccupiedTarget(a, target);
  }

  /** Removal of what is there, and a link. Where nothing is below the target and its parent is
      there, a link is made unless the environment refuses. */
  method ExtractLink(fs: FileSystem, target: Path)
    requires Valid(fs.tree)
    modifies fs
    ensures Valid(fs.tree) && Touches(old(fs.tree), fs.tree, target)
    ensures fs.failures == old(fs.failures) && fs.ignored >= old(fs.ignored)
    ensures fs.ignored == old(fs.ignored) ==> target in fs.tree && fs.tree[target] == Special
    ensures LinkFits(old(fs.tree), target) && fs.denied == old(fs.denied) ==>
      target in fs.tree && fs.tree[target] == Special
  {
    hide Valid, Touches;
    ghost var a := fs.tree;
    if target != [] {
      var removed := fs.Remove(target);
    }
    ghost var b := fs.tree;
    StepsTouch(a, b, [], target);
    var linked := fs.Symlink(target);
    StepsTouch(b, fs.tree, [], target);
    TouchesTrans(a, b, fs.tree, target);
  }

  /** One accepted entry. */
  method Extract(fs: FileSystem, target: Path, kind: Kind) returns (ok: bool)
    requires Valid(fs.tree)
    modifies fs
    ensures Valid(fs.tree) && Touches(old(fs.tree), fs.tree, target)
    ensures ok ==> OnDisk(fs.tree, target, kind, fs.ignored == old(fs.ignored))
    ensures fs.failures == old(fs.failures) + (if ok then 0 else 1) && fs.ignored >= old(fs.ignored)
  {
    hide Valid, WithDirs, Touches, DirsAdded;
    StepsTouch(fs.tree, fs.tree, target, target);
    match kind
    case TarDir =>
      ok := fs.MkdirAll(target);
      StepsTouch(old(fs.tree), fs.tree, target, target);
    case TarFile(content) =>
      ok := ExtractFile(fs, target, content);
    case TarLink =>
      ExtractLink(fs, target);
      ok := true;
    case TarOther =>
      ok := true;
  }

  lemma {:induction false} StartUntar(t: Tree, dest: Path, entries: seq<Entry>)
    ensures FrameOf(t, t, dest) && GitKept(t, t, dest)
    ensures UnnamedKept(t, t, dest, entries, 0) && LastWins(t, dest, entries, 0, true)
  {
  }

  lemma {:induction false} StepKept(t: Tree, a: Tree, b: Tree, dest: Path, entries: seq<Entry>, n: nat)
    requires n < |entries| && UnnamedKept(t, a, dest, entries, n)
    requires Accepted(entries[n], dest) && Touches(a, b, Target(entries[n], dest))
    ensures UnnamedKept(t, b, dest, entries, |entries|)
  {
    hide Accepted, Target;
    NamedGrows(dest, entries, n, |entries|);
    assert Named(entries, dest, |entries|, Target(entries[n], dest));
  }

  // ----- Copying out of one container and into the next -----

  ghost predicate CleanPath(rel: Path) {
    forall i :: 0 <= i < |rel| ==> CleanName(rel[i])
  }

  /** The name of an entry without the slash that a directory's name may end in: it leaves an empty last
      part. */
  function Stem(e: Entry): (parts: seq<string>)
    ensures e.kind.TarFile? ==> parts == e.parts
  {
    if e.kind.TarDir? && |e.parts| > 1 && e.parts[|e.parts| - 1] == "" then e.parts[..|e.parts| - 1] else e.parts
  }

  /** The tar stream of a container's work tree `c`, whose names all begin with the clone's base name; whether
      names of directories end in a slash is up to the writer. */
  ghost predicate IsTarOf(entries: seq<Entry>, base: string, c: Tree) {
    (forall i :: 0 <= i < |entries| ==> IsEntryOf(entries[i], base, c)) &&
    (forall i, j :: 0 <= i < j < |entries| ==> Stem(entries[i]) != Stem(entries[j])) &&
    (forall rel :: rel in c ==> exists i :: 0 <= i < |entries| && Stem(entries[i]) == [base] + rel)
  }

  ghost predicate IsEntryOf(e: Entry, base: string, c: Tree) {
    var parts := Stem(e);
    |parts| > 0 && parts[0] == base && parts[1..] in c &&
    (e.kind.TarDir? <==> c[parts[1..]].Dir?) && (e.kind.TarFile? ==> c[parts[1..]] == File(e.kind.content)) &&
    (e.kind.TarLink? ==> c[parts[1..]].Special?)
  }

  /** The node is in the stream as what it is: a file with its content, or a link, if links can be made. A further hard
      link to a file is not: it comes as an entry that the extraction skips. */
  ghost predicate SentWhole(entries: seq<Entry>, base: string, rel: Path, links: bool) {
    exists i :: 0 <= i < |entries| && Stem(entries[i]) == [base] + rel && !entries[i].kind.TarOther? &&
                (entries[i].kind.TarLink? ==> links)
  }

  /** The entry for a node of the work tree, as Docker writes it: with a slash after a directory's name. */
  function SlashedEntry(base: string, rel: Path, node: Node): Entry {
    match node
    case Dir => Entry([base] + rel + [""], TarDir)
    case File(content) => Entry([base] + rel, TarFile(content))
    case Special => Entry([base] + rel, TarLink)
  }

  lemma {:induction false} SlashedStem(base: string, rel: Path, node: Node)
    ensures var e := SlashedEntry(base, rel, node);
      Stem(e) == [base] + rel && Stem(e)[1..] == rel && (e.kind.TarDir? <==> node.Dir?) &&
      (e.kind.TarFile? <==> node.File?) && (node.File? ==> e.kind.content == node.content) &&
      (e.kind.TarLink? <==> node.Special?)
  {
    var e := SlashedEntry(base, rel, node);
    if node.Dir? {
      assert e.parts[..|e.parts| - 1] == [base] + rel;
    }
    assert ([base] + rel)[1..] == rel;
  }

  /** The stream of any work tree, walked in any order, with a slash after every directory name, is one of the
      streams considered, and every node is in it as what it is. */
  lemma {:induction false} SlashedStreamIsTar(base: string, c: Tree, rels: seq<Path>, entries: seq<Entry>)
    requires IsListing(c, [], rels) && |entries| == |rels|
    requires forall i :: 0 <= i < |rels| ==> entries[i] == SlashedEntry(base, rels[i], c[rels[i]])
    ensures IsTarOf(entries, base, c)
    ensures forall rel :: rel in c ==> SentWhole(entries, base, rel, true)
  {
    hide SlashedEntry, Stem;
    forall i | 0 <= i < |rels|
      ensures Stem(entries[i]) == [base] + rels[i] && IsEntryOf(entries[i], base, c)
      ensures !entries[i].kind.TarOther?
    {
      SlashedStem(base, rels[i], c[rels[i]]);
    }
    forall i, j | 0 <= i < j < |rels| ensures Stem(entries[i]) != Stem(entries[j]) {
      assert ([base] + rels[i])[1..] == rels[i] && ([base] + rels[j])[1..] == rels[j];
    }
    forall rel | rel in c
      ensures exists i :: 0 <= i < |entries| && Stem(entries[i]) == [base] + rel
      ensures SentWhole(entries, base, rel, true)
    {
      assert Under(rel, []);
      var i :| 0 <= i < |rels| && rels[i] == rel;
      assert Stem(entries[i]) == [base] + rel;
    }
  }

  /** CopyDirToContainer: the container's work tree is the host directory, relative to its root. */
  ghost predicate IsCopyIn(c: Tree, t: Tree, root: Path) {
    (forall p :: p in t && Under(p, root) ==> p[|root|..] in c && c[p[|root|..]] == t[p]) &&
    (forall rel :: rel in c ==> root + rel in t)
  }

  lemma {:induction false} ResolveClean(cur: Path, parts: seq<string>)
    requires CleanPath(parts)
    ensures Resolve(cur, parts) == cur + parts
    decreases |parts|
  {
    if parts != [] {
      ResolveClean(cur + [parts[0]], parts[1..]);
      assert cur + [parts[0]] + parts[1..] == cur + parts;
    }
  }

  lemma {:induction false} ResolveSlash(cur: Path, parts: seq<string>)
    ensures Resolve(cur, parts + [""]) == Resolve(cur, parts)
    decreases |parts|
  {
    if parts == [] {
      assert ([] + [""])[1..] == [];
    } else {
      assert (parts + [""])[1..] == parts[1..] + [""];
      var next := if parts[0] == "" || parts[0] == "." then cur
                  else if parts[0] != ".." then cur + [parts[0]]
                  else if cur == [] then [] else Parent(cur);
      ResolveSlash(next, parts[1..]);
    }
  }

  /** In a name, a dot and an empty part stand for nothing, and two dots take back the part before them. */
  lemma {:induction false} DotsResolve(cur: Path, a: seq<string>, name: string, b: seq<string>)
    requires CleanName(name)
    ensures Resolve(cur, a + [name, ".."] + b) == Resolve(cur, a + b)
    ensures Resolve(cur, a + ["."] + b) == Resolve(cur, a + b)
    decreases |a|
  {
    if a == [] {
      var p, q, r := [] + [name, ".."] + b, [] + ["."] + b, [".."] + b;
      assert p[1..] == r && r[1..] == b && q[1..] == b && [] + b == b;
      assert cur + [name] != [] && Parent(cur + [name]) == cur;
      assert Resolve(cur, p) == Resolve(cur + [name], r);
    } else {
      var rest := a[1..];
      assert (a + [name, ".."] + b)[1..] == rest + [name, ".."] + b;
      assert (a + ["."] + b)[1..] == rest + ["."] + b && (a + b)[1..] == rest + b;
      var next := if a[0] == "" || a[0] == "." then cur
                  else if a[0] != ".." then cur + [a[0]]
                  else if cur == [] then [] else Parent(cur);
      DotsResolve(next, rest, name, b);
    }
  }

  /** A name that begins by leaving the destination is accepted only if it comes straight back. */
  lemma {:induction false} EscapeIsRejected(dest: Path, b: seq<string>, kind: Kind)
    requires dest != [] && CleanPath(b) && ".git" !in b
    ensures Target(Entry([".."] + b, kind), dest) == Parent(dest) + b
    ensures Accepted(Entry([".."] + b, kind), dest) <==> b != [] && b[0] == dest[|dest| - 1]
  {
    var up := Parent(dest);
    assert ([".."] + b)[1..] == b;
    ResolveClean(up, b);
    assert dest == up + [dest[|dest| - 1]];
    assert ".." != ".git";
    if b != [] {
      assert up + b == (up + [b[0]]) + b[1..];
      assert (up + b)[..|dest|] == up + [b[0]];
    }
  }

  /** An entry lands where its stem does. */
  lemma {:induction false} TargetOfStem(e: Entry, dest: Path)
    ensures Target(e, dest) == Resolve(dest, Stem(e))
  {
    if Stem(e) != e.parts {
      assert e.parts == Stem(e) + [""];
      ResolveSlash(dest, Stem(e));
    }
  }

  /** The entry of a work-tree file or directory lands where it stands in the clone. */
  lemma {:induction false} TarTarget(e: Entry, root: Path)
    requires root != [] && |Stem(e)| > 0 && Stem(e)[0] == root[|root| - 1] && CleanPath(Stem(e))
    ensures Target(e, Parent(root)) == root + Stem(e)[1..] && Below(root + Stem(e)[1..], Parent(root))
  {
    TargetOfStem(e, Parent(root));
    ResolveClean(Parent(root), Stem(e));
    assert Stem(e) == [root[|root| - 1]] + Stem(e)[1..];
    assert root == Parent(root) + [root[|root| - 1]];
  }

  ghost predicate CleanTree(c: Tree, base: string) {
    CleanName(base) && forall rel :: rel in c ==> CleanPath(rel)
  }

  lemma {:induction false} TarIsClean(e: Entry, base: string, c: Tree)
    requires CleanTree(c, base) && |Stem(e)| > 0 && Stem(e)[0] == base && Stem(e)[1..] in c
    ensures CleanPath(Stem(e))
  {
    assert forall k :: 1 <= k < |Stem(e)| ==> Stem(e)[k] == Stem(e)[1..][k - 1];
  }

  lemma {:induction false} TarEntryIsLast(entries: seq<Entry>, root: Path, c: Tree, i: nat)
    requires |root| > 1 && IsTarOf(entries, root[|root| - 1], c) && CleanTree(c, root[|root| - 1])
    requires i < |entries| && ".git" !in Stem(entries[i])
    ensures IsLast(Parent(root), entries, |entries|, i)
    ensures Target(entries[i], Parent(root)) == root + Stem(entries[i])[1..]
  {
    hide Target, CleanPath, CleanTree, Stem;
    forall j | 0 <= j < |entries| ensures
      Target(entries[j], Parent(root)) == root + Stem(entries[j])[1..] &&
      Below(root + Stem(entries[j])[1..], Parent(root)) &&
      Stem(entries[j]) == [root[|root| - 1]] + Stem(entries[j])[1..]
    {
      assert IsEntryOf(entries[j], root[|root| - 1], c);
      TarIsClean(entries[j], root[|root| - 1], c);
      TarTarget(entries[j], root);
    }
    assert Accepted(entries[i], Parent(root)) by {
      TargetIsResolve(entries[i], Parent(root));
      StemHasNoGit(entries[i]);
    }
    forall j | 0 <= j < |entries| && j != i
      ensures Target(entries[j], Parent(root)) != Target(entries[i], Parent(root))
    {
      assert (root + Stem(entries[j])[1..])[|root|..] == Stem(entries[j])[1..];
      assert (root + Stem(entries[i])[1..])[|root|..] == Stem(entries[i])[1..];
    }
  }

  lemma {:induction false} StemHasNoGit(e: Entry)
    requires ".git" !in Stem(e)
    ensures ".git" !in e.parts
  {
    if Stem(e) != e.parts {
      assert e.parts == Stem(e) + [""];
      assert "" != ".git";
    }
  }

  lemma {:induction false} TargetIsResolve(e: Entry, dest: Path)
    ensures Target(e, dest) == Resolve(dest, e.parts)
  {
  }

  /** Every directory of the first container's work tree, and everything else in it that is sent as what it is,
      is after a successful copy-out seen unchanged by the next container, but for git metadata. */
  lemma {:induction false} NextContainerSees(
      c: Tree, entries: seq<Entry>, t: Tree, root: Path, c': Tree, rel: Path, links: bool)
    requires |root| > 1 && IsTarOf(entries, root[|root| - 1], c) && CleanTree(c, root[|root| - 1])
    requires LastWins(t, Parent(root), entries, |entries|, links) && IsCopyIn(c', t, root)
    requires rel in c && (c[rel].Dir? || SentWhole(entries, root[|root| - 1], rel, links))
    requires ".git" !in [root[|root| - 1]] + rel
    ensures rel in c' && c'[rel] == c[rel]
  {
    hide Target, IsLast, CleanTree, Stem;
    var base := root[|root| - 1];
    var i :| 0 <= i < |entries| && Stem(entries[i]) == [base] + rel &&
      (c[rel].Dir? || (!entries[i].kind.TarOther? && (entries[i].kind.TarLink? ==> links)));
    assert ([base] + rel)[1..] == rel;
    assert IsEntryOf(entries[i], base, c);
    TarEntryIsLast(entries, root, c, i);
    assert OnDisk(t, root + rel, entries[i].kind, links);
    assert (root + rel)[|root|..] == rel;
  }
}
