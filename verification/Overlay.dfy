/** internal/overlay/overlay.go: replacing the clone's SQLInput directory by the developer's .sql files. */
module Overlay {
  import opened FileSys

  /** filepath.Ext: from the last dot of the name, or nothing. */
  function Ext(name: string): string {
    if name == "" then ""
    else if name[|name| - 1] == '.' then "."
    else
      var e := Ext(name[..|name| - 1]);
      if e == "" then "" else e + [name[|name| - 1]]
  }

  /** strings.EqualFold on one character of `.sql`; the long s folds to s. */
  predicate FoldsTo(c: char, l: char) {
    c == l || ('a' <= l <= 'z' && c == l - ('a' - 'A')) || (l == 's' && c == '\U{017F}')
  }

  predicate IsSqlName(name: string) {
    var e := Ext(name);
    |e| == 4 && e[0] == '.' && FoldsTo(e[1], 's') && FoldsTo(e[2], 'q') && FoldsTo(e[3], 'l')
  }

  /** A regular file with a .sql extension in any case. */
  predicate IsSql(t: Tree, p: Path) {
    p in t && t[p].File? && p != [] && IsSqlName(p[|p| - 1])
  }

  /** The name's last four characters are a dot and the letters s, q, l in either case; the long s is an s. */
  ghost predicate EndsInSql(name: string) {
    var n := |name|;
    n >= 4 && name[n - 4] == '.' && (name[n - 3] == 's' || name[n - 3] == 'S' || name[n - 3] == '\U{017F}') &&
    (name[n - 2] == 'q' || name[n - 2] == 'Q') && (name[n - 1] == 'l' || name[n - 1] == 'L')
  }

  lemma {:induction false} ExtNext(name: string)
    requires name != ""
    ensures var last, e := name[|name| - 1], Ext(name[..|name| - 1]);
      Ext(name) == if last == '.' then "." else if e == "" then "" else e + [last]
  {
  }

  /** The extension begins with the last dot of the name, and is empty when there is none. */
  lemma {:induction false} ExtIsSuffix(name: string)
    ensures var e := Ext(name); |e| <= |name| && name[|name| - |e|..] == e && (e != "" ==> e[0] == '.')
    ensures forall i :: 0 <= i < |name| && name[i] == '.' ==> Ext(name) != "" && i <= |name| - |Ext(name)|
  {
    if name == "" {
      assert Ext(name) == "";
    } else {
      hide Ext;
      var front, last := name[..|name| - 1], name[|name| - 1];
      ExtIsSuffix(front);
      ExtNext(name);
      assert name == front + [last];
      assert last != '.' ==> name[|front| - |Ext(front)|..] == Ext(front) + [last];
      assert name[|name| - 1..] == [last];
    }
  }

  /** The extension counts as .sql exactly when the name ends in it. */
  lemma {:induction false} SqlNameIff(name: string)
    ensures IsSqlName(name) <==> EndsInSql(name)
  {
    hide Ext;
    ExtIsSuffix(name);
    var n, e := |name|, Ext(name);
    assert e != "" ==> name[n - |e|..][0] == name[n - |e|];
    if |e| == 4 {
      var last := name[n - 4..];
      assert e == last && last[1] == name[n - 3] && last[2] == name[n - 2] && last[3] == name[n - 1];
    }
  }

  /** A regular file whose name ends so. */
  ghost predicate IsSqlFile(t: Tree, p: Path) {
    p in t && t[p].File? && p != [] && EndsInSql(p[|p| - 1])
  }

  lemma {:induction false} IsSqlIff(t: Tree)
    ensures forall p :: IsSql(t, p) <==> IsSqlFile(t, p)
  {
    hide IsSqlName, EndsInSql;
    forall p ensures IsSql(t, p) <==> IsSqlFile(t, p) {
      if p != [] {
        SqlNameIff(p[|p| - 1]);
      }
    }
  }

  /** The .sql files among the first `n` entries of a listing, in its order. */
  function SqlOf(t: Tree, listing: seq<Path>, n: nat): (r: seq<Path>)
    requires n <= |listing|
    ensures |r| <= n
    ensures forall p :: p in r ==> IsSql(t, p) && p in listing[..n]
    ensures forall j :: 0 <= j < n && IsSql(t, listing[j]) ==> listing[j] in r
  {
    if n == 0 then [] else
      var r := SqlOf(t, listing, n - 1);
      if IsSql(t, listing[n - 1]) then r + [listing[n - 1]] else r
  }

  datatype Result = Applied(paths: seq<Path>) | NoPendingSQL | ScanFailed | ClearFailed | CopyFailed(paths: seq<Path>)

  method CountSQLFiles(fs: FileSystem, dir: Path, listing: seq<Path>) returns (ok: bool, count: nat)
    requires IsListing(fs.tree, dir, listing)
    modifies fs`failures, fs`denied
    ensures ok ==> count == |SqlOf(fs.tree, listing, |listing|)| && dir in fs.tree
    ensures fs.failures >= old(fs.failures) && (ok <==> fs.failures == old(fs.failures))
  {
    count := 0;
    var found := fs.Lstat(dir);
    if !found {
      return false, 0;
    }
    for i := 0 to |listing|
      invariant count == |SqlOf(fs.tree, listing, i)| && fs.failures == old(fs.failures)
    {
      var visited := fs.Visit();
      if !visited {
        return false, 0;
      }
      if IsSql(fs.tree, listing[i]) {
        count := count + 1;
      }
    }
    ok := true;
  }

  /** Everything outside the contents of `dest` is as before; only directories down to `dest` may be new. */
  ghost predicate Frame(t: Tree, t': Tree, dest: Path) {
    (forall p :: p in t && !Below(p, dest) ==> p in t' && t'[p] == t[p]) &&
    (forall q :: q in t' && !Below(q, dest) ==> q in t || (Under(dest, q) && t'[q] == Dir))
  }

  ghost predicate EmptyBelow(t: Tree, dest: Path) {
    forall p :: p in t ==> !Below(p, dest)
  }

  /** What reading a directory reports: the names of its entries. */
  ghost predicate IsDirNames(t: Tree, dir: Path, names: seq<string>) {
    forall p :: p in t && Below(p, dir) ==> p[|dir|] in names
  }

  lemma {:induction false} ChildOf(p: Path, dir: Path, name: string)
    requires Below(p, dir)
    ensures Under(p, dir + [name]) <==> p[|dir|] == name
    ensures Below(dir + [name], dir)
  {
    assert p[..|dir|] == dir;
    assert p[..|dir| + 1] == p[..|dir|] + [p[|dir|]];
  }

  lemma {:induction false} UnderChild(p: Path, dir: Path, name: string)
    ensures Under(p, dir + [name]) ==> Below(p, dir)
  {
  }

  /** Removing one entry of the directory. */
  lemma {:induction false} ClearStep(t: Tree, now: Tree, dir: Path, names: seq<string>, i: nat, next: Tree)
    requires i < |names| && Frame(t, now, dir)
    requires Shrunk(now, next, dir + [names[i]])
    ensures Frame(t, next, dir)
    ensures
      (next == Without(now, dir + [names[i]]) &&
       forall p :: p in now && Below(p, dir) ==> p[|dir|] !in names[..i]) ==>
      forall p :: p in next && Below(p, dir) ==> p[|dir|] !in names[..i + 1]
    ensures IsDirNames(now, dir, names) ==> IsDirNames(next, dir, names)
  {
    forall p | p in now ensures Under(p, dir + [names[i]]) ==> Below(p, dir) {
      UnderChild(p, dir, names[i]);
    }
    forall p | p in next && Below(p, dir) ensures p in now {
      ChildOf(p, dir, names[i]);
    }
    forall p | p in now && Below(p, dir) && p[|dir|] != names[i] ensures !Under(p, dir + [names[i]]) {
      ChildOf(p, dir, names[i]);
    }
    assert names[..i + 1] == names[..i] + [names[i]];
  }

  method ClearDir(fs: FileSystem, dir: Path, names: seq<string>) returns (ok: bool)
    requires Valid(fs.tree) && IsDirNames(fs.tree, dir, names)
    modifies fs
    ensures Valid(fs.tree) && Frame(old(fs.tree), fs.tree, dir)
    ensures ok ==> EmptyBelow(fs.tree, dir) && dir in fs.tree && fs.tree[dir] == Dir
    ensures fs.failures >= old(fs.failures) && (ok <==> fs.failures == old(fs.failures))
  {
    hide Frame, IsDirNames;
    ghost var t := fs.tree;
    FrameSelf(t, dir);
    if dir !in fs.tree {
      ok := fs.MkdirAll(dir);
      MkdirFrame(t, t, dir, dir, fs.tree);
      return;
    }
    var readable := fs.ReadDir(dir);
    if !readable {
      return false;
    }
    for i := 0 to |names|
      invariant Valid(fs.tree) && Frame(t, fs.tree, dir) && IsDirNames(fs.tree, dir, names)
      invariant dir in fs.tree && fs.tree[dir] == Dir && fs.failures == old(fs.failures)
      invariant forall p :: p in fs.tree && Below(p, dir) ==> p[|dir|] !in names[..i]
    {
      ghost var now := fs.tree;
      var removed := fs.RemoveAll(dir + [names[i]]);
      ClearStep(t, now, dir, names, i, fs.tree);
      if !removed {
        return false;
      }
    }
    AllCleared(fs.tree, dir, names);
    ok := true;
  }

  lemma {:induction false} FrameSelf(t: Tree, dir: Path)
    ensures Frame(t, t, dir)
  {
  }

  lemma {:induction false} AllCleared(t: Tree, dir: Path, names: seq<string>)
    requires IsDirNames(t, dir, names)
    requires forall p :: p in t && Below(p, dir) ==> p[|dir|] !in names[..|names|]
    ensures EmptyBelow(t, dir)
  {
    assert names[..|names|] == names;
  }

  /** Making directories at or below `dest`, or on the way to it, keeps the frame. */
  lemma {:induction false} MkdirFrame(t: Tree, now: Tree, dest: Path, d: Path, next: Tree)
    requires Frame(t, now, dest) && DirsAdded(now, next, d) && (Under(d, dest) || Under(dest, d))
    requires dest !in now ==> Valid(now) && d == dest
    ensures Frame(t, next, dest)
    ensures dest !in now && dest in next ==> EmptyBelow(next, dest) && next[dest] == Dir
  {
    forall q | q in next && q !in now && !Below(q, dest) ensures Under(dest, q) {
      if Under(d, dest) {
        PrefixesMeet(q, dest, d);
      }
    }
    if dest !in now {
      forall p | p in next ensures !Below(p, dest) {
        if p in now && Below(p, dest) {
          AncestorsAreDirs(now, p, dest);
        }
      }
    }
  }

  // ----- Copying -----

  /** The returned paths are the places of the copied files, in the order of the walk. */
  ghost predicate PathsAre(paths: seq<Path>, ps: seq<Path>, src: Path, dest: Path) {
    |paths| == |ps| && forall i :: 0 <= i < |ps| ==> Under(ps[i], src) && paths[i] == Rebase(ps[i], src, dest)
  }

  /** Below `dest` there are only directories and copies of .sql files of `src`, and the given files are
      all there. */
  ghost predicate Copies(t: Tree, src: Path, now: Tree, dest: Path, ps: seq<Path>) {
    (forall q :: q in now && Below(q, dest) && !now[q].Dir? ==>
      IsSql(t, Rebase(q, dest, src)) && now[q] == t[Rebase(q, dest, src)]) &&
    (forall p :: p in ps && p in t && Under(p, src) ==>
      Rebase(p, src, dest) in now && now[Rebase(p, src, dest)] == t[p])
  }

  /** A walked entry is still what it was, as the copy stays out of the source. */
  lemma {:induction false} EntryFact(t: Tree, src: Path, now: Tree, dest: Path, listing: seq<Path>, i: nat)
    requires Frame(t, now, dest) && Apart(src, dest) && IsListing(t, src, listing) && i < |listing|
    ensures var p := listing[i];
      Under(p, src) && p in t && p in now && now[p] == t[p] && (IsSql(now, p) <==> IsSql(t, p))
  {
    if Below(listing[i], dest) {
      PrefixesMeet(src, dest, listing[i]);
    }
  }

  lemma {:induction false} SqlNext(t: Tree, listing: seq<Path>, i: nat)
    requires i < |listing|
    ensures SqlOf(t, listing, i + 1) ==
      if IsSql(t, listing[i]) then SqlOf(t, listing, i) + [listing[i]] else SqlOf(t, listing, i)
  {
    hide IsSql;
  }

  lemma {:induction false} PathsNext(paths: seq<Path>, ps: seq<Path>, src: Path, dest: Path, p: Path)
    requires PathsAre(paths, ps, src, dest) && Under(p, src)
    ensures PathsAre(paths + [Rebase(p, src, dest)], ps + [p], src, dest)
  {
  }

  lemma {:induction false} MkdirStep(t: Tree, src: Path, a: Tree, b: Tree, dest: Path, ps: seq<Path>, p: Path)
    requires Copies(t, src, a, dest, ps) && Frame(t, a, dest) && Under(p, src) && dest != []
    requires dest in a && a[dest] == Dir && DirsAdded(a, b, Parent(Rebase(p, src, dest)))
    ensures Frame(t, b, dest) && Copies(t, src, b, dest, ps) && dest in b && b[dest] == Dir
    ensures forall c :: OnlyFileAt(b, c, Rebase(p, src, dest)) ==> Frame(t, c, dest)
  {
    var target := Rebase(p, src, dest);
    RebaseBack(p, src, dest);
    assert if target == dest then Under(dest, Parent(target)) else Under(Parent(target), dest);
    MkdirFrame(t, a, dest, Parent(target), b);
  }

  lemma {:induction false} WriteStep(t: Tree, src: Path, b: Tree, dest: Path, ps: seq<Path>, p: Path)
    requires Copies(t, src, b, dest, ps) && Frame(t, b, dest) && IsSql(t, p) && Under(p, src)
    requires Rebase(p, src, dest) != dest
    ensures var c := b[Rebase(p, src, dest) := t[p]]; Frame(t, c, dest) && Copies(t, src, c, dest, ps + [p])
  {
    var target := Rebase(p, src, dest);
    RebaseBack(p, src, dest);
    forall p' | p' in ps && Under(p', src) ensures Rebase(p', src, dest) == target ==> p' == p {
      RebaseBack(p', src, dest);
    }
  }

  /** The files below `dest` are precisely the .sql files of `src`, at the same relative paths and with the
      same content. */
  ghost predicate Overlaid(t: Tree, src: Path, now: Tree, dest: Path) {
    (forall q :: q in now && Below(q, dest) && !now[q].Dir? ==>
      IsSqlFile(t, Rebase(q, dest, src)) && now[q] == t[Rebase(q, dest, src)]) &&
    (forall p :: IsSqlFile(t, p) && Under(p, src) ==> Rebase(p, src, dest) in now && now[Rebase(p, src, dest)] == t[p])
  }

  lemma {:induction false} AllCopied(t: Tree, src: Path, now: Tree, dest: Path, listing: seq<Path>)
    requires IsListing(t, src, listing) && Copies(t, src, now, dest, SqlOf(t, listing, |listing|))
    ensures Overlaid(t, src, now, dest)
  {
    hide SqlOf, EndsInSql, IsSqlName;
    IsSqlIff(t);
    forall p | IsSql(t, p) && Under(p, src) ensures p in SqlOf(t, listing, |listing|) {
      assert p in listing;
    }
  }

  method CopySQLTree(fs: FileSystem, src: Path, dest: Path, listing: seq<Path>) returns (ok: bool, paths: seq<Path>)
    requires Valid(fs.tree) && IsListing(fs.tree, src, listing) && Apart(src, dest)
    requires EmptyBelow(fs.tree, dest) && dest in fs.tree && fs.tree[dest] == Dir
    modifies fs
    ensures Valid(fs.tree) && Frame(old(fs.tree), fs.tree, dest)
    ensures ok ==> Overlaid(old(fs.tree), src, fs.tree, dest)
    ensures ok ==> PathsAre(paths, SqlOf(old(fs.tree), listing, |listing|), src, dest)
    ensures fs.failures >= old(fs.failures) && (ok <==> fs.failures == old(fs.failures))
  {
    hide Frame, Copies, DirsAdded, OnlyFileAt, Valid, IsSql, Overlaid, WithDirs, IsListing, SqlOf, PathsAre,
      EmptyBelow;
    ghost var t := fs.tree;
    paths := [];
    FrameSelf(t, dest);
    NothingCopied(t, src, dest, listing);
    var found := fs.Lstat(src);
    if !found {
      return false, paths;
    }
    for i := 0 to |listing|
      invariant Valid(fs.tree) && Frame(t, fs.tree, dest) && dest in fs.tree && fs.tree[dest] == Dir
      invariant Copies(t, src, fs.tree, dest, SqlOf(t, listing, i))
      invariant PathsAre(paths, SqlOf(t, listing, i), src, dest) && fs.failures == old(fs.failures)
    {
      var visited := fs.Visit();
      if !visited {
        return false, paths;
      }
      var p := listing[i];
      EntryFact(t, src, fs.tree, dest, listing, i);
      SqlNext(t, listing, i);
      if IsSql(fs.tree, p) {
        ghost var ps, a := SqlOf(t, listing, i), fs.tree;
        SqlIsFile(t, p);
        var content := fs.tree[p].content;
        var target := Rebase(p, src, dest);
        var made := fs.MkdirAll(Parent(target));
        ghost var b := fs.tree;
        MkdirStep(t, src, a, b, dest, ps, p);
        if !made {
          return false, paths;
        }
        var wrote := fs.WriteFile(target, content);
        if !wrote {
          return false, paths;
        }
        WriteStep(t, src, b, dest, ps, p);
        PathsNext(paths, ps, src, dest, p);
        paths := paths + [target];
      }
    }
    AllCopied(t, src, fs.tree, dest, listing);
    ok := true;
  }

  lemma {:induction false} SqlIsFile(t: Tree, p: Path)
    requires IsSql(t, p)
    ensures p in t && t[p].File?
  {
  }

  lemma {:induction false} NothingCopied(t: Tree, src: Path, dest: Path, listing: seq<Path>)
    requires EmptyBelow(t, dest)
    ensures Copies(t, src, t, dest, SqlOf(t, listing, 0)) && PathsAre([], SqlOf(t, listing, 0), src, dest)
  {
  }

  // ----- The whole operation -----

  lemma {:induction false} SqlOfIsDistinct(t: Tree, src: Path, listing: seq<Path>, n: nat)
    requires IsListing(t, src, listing) && n <= |listing|
    ensures Distinct(SqlOf(t, listing, n))
    decreases n
  {
    hide IsSql;
    if n > 0 {
      SqlOfIsDistinct(t, src, listing, n - 1);
      assert forall j :: 0 <= j < n - 1 ==> listing[..n - 1][j] == listing[j] != listing[n - 1];
      assert listing[n - 1] !in SqlOf(t, listing, n - 1);
    }
  }

  /** How many .sql files are found does not depend on the order of the walk. */
  lemma {:induction false} CountIsSetSize(t: Tree, src: Path, listing: seq<Path>)
    requires IsListing(t, src, listing)
    ensures |SqlOf(t, listing, |listing|)| == |set p | p in t && Under(p, src) && IsSqlFile(t, p)|
  {
    hide IsSql, SqlOf, IsSqlFile;
    IsSqlIff(t);
    var r, s := SqlOf(t, listing, |listing|), set p | p in t && Under(p, src) && IsSqlFile(t, p);
    SqlOfIsDistinct(t, src, listing, |listing|);
    SeqSetSize(r);
    assert listing[..|listing|] == listing;
    forall p | p in s ensures p in r {
      assert p in listing;
    }
    assert s == set p | p in r;
  }

  lemma {:induction false} SeqSetSize(r: seq<Path>)
    requires Distinct(r)
    ensures |r| == |set p | p in r|
    decreases |r|
  {
    if r != [] {
      SeqSetSize(r[1..]);
      assert (set p | p in r) == {r[0]} + set p | p in r[1..];
    }
  }

  /** Clearing the destination leaves the source, and so its listings, alone. */
  lemma {:induction false} ListingKept(t: Tree, now: Tree, src: Path, dest: Path, listing: seq<Path>)
    requires Frame(t, now, dest) && Apart(src, dest) && IsListing(t, src, listing)
    ensures IsListing(now, src, listing)
    ensures forall p :: Under(p, src) ==> (p in now <==> p in t) && (p in t ==> now[p] == t[p])
  {
    forall p | Under(p, src) ensures !Below(p, dest) && !Under(dest, p) {
      if Below(p, dest) {
        PrefixesMeet(src, dest, p);
      }
    }
  }

  lemma {:induction false} SqlOfKept(t: Tree, now: Tree, listing: seq<Path>, n: nat)
    requires n <= |listing|
    requires forall i :: 0 <= i < n ==> (IsSql(now, listing[i]) <==> IsSql(t, listing[i]))
    ensures SqlOf(now, listing, n) == SqlOf(t, listing, n)
    decreases n
  {
    hide IsSql;
    if n > 0 {
      SqlOfKept(t, now, listing, n - 1);
    }
  }

  lemma {:induction false} FrameTrans(a: Tree, b: Tree, c: Tree, dest: Path)
    requires Frame(a, b, dest) && Frame(b, c, dest)
    ensures Frame(a, c, dest)
  {
  }

  lemma {:induction false} OverlaidFrom(t: Tree, mid: Tree, src: Path, now: Tree, dest: Path)
    requires Overlaid(mid, src, now, dest)
    requires forall p :: Under(p, src) ==> (p in mid <==> p in t) && (p in t ==> mid[p] == t[p])
    ensures Overlaid(t, src, now, dest)
  {
    forall q | q in now && Below(q, dest) ensures Under(Rebase(q, dest, src), src) {
      RebaseBack(q, dest, src);
    }
  }

  /** Overlay.Apply, for any order in which the two walks and the reading of the destination list their
      entries. */
  method Apply(fs: FileSystem, src: Path, dest: Path, first: seq<Path>, second: seq<Path>, names: seq<string>)
    returns (r: Result)
    requires Valid(fs.tree) && Apart(src, dest)
    requires IsListing(fs.tree, src, first) && IsListing(fs.tree, src, second) && IsDirNames(fs.tree, dest, names)
    modifies fs
    ensures Valid(fs.tree) && Frame(old(fs.tree), fs.tree, dest)
    ensures r.ScanFailed? || r.NoPendingSQL? ==> fs.tree == old(fs.tree)
    ensures r.NoPendingSQL? ==> SqlOf(old(fs.tree), first, |first|) == [] && src in fs.tree
    ensures src !in old(fs.tree) ==> r == ScanFailed
    ensures r.Applied? ==> SqlOf(old(fs.tree), first, |first|) != []
    ensures r.Applied? ==> Overlaid(old(fs.tree), src, fs.tree, dest)
    ensures r.Applied? ==> PathsAre(r.paths, SqlOf(old(fs.tree), second, |second|), src, dest)
    ensures r.Applied? ==> |r.paths| == |SqlOf(old(fs.tree), first, |first|)|
    ensures r.Applied? <==> fs.failures == old(fs.failures) && HasSql(old(fs.tree), src)
    ensures r.NoPendingSQL? <==> fs.failures == old(fs.failures) && !HasSql(old(fs.tree), src)
    ensures fs.failures >= old(fs.failures)
  {
    hide Frame, IsListing, IsDirNames, Overlaid, PathsAre, EmptyBelow, SqlOf, IsSql, Valid, HasSql;
    ghost var t := fs.tree;
    NoneListedIff(t, src, first);
    FrameSelf(t, dest);
    var scanned, count := CountSQLFiles(fs, src, first);
    if !scanned {
      return ScanFailed;
    }
    if count == 0 {
      return NoPendingSQL;
    }
    var cleared := ClearDir(fs, dest, names);
    if !cleared {
      return ClearFailed;
    }
    ghost var mid := fs.tree;
    ListingKept(t, mid, src, dest, second);
    var copied, paths := CopySQLTree(fs, src, dest, second);
    FrameTrans(t, mid, fs.tree, dest);
    if !copied {
      return CopyFailed(paths);
    }
    OverlaidFrom(t, mid, src, fs.tree, dest);
    SameFiles(t, mid, src, second);
    CountIsSetSize(t, src, first);
    CountIsSetSize(t, src, second);
    PathsLength(paths, SqlOf(t, second, |second|), src, dest);
    r := Applied(paths);
  }

  lemma {:induction false} SameFiles(t: Tree, mid: Tree, src: Path, listing: seq<Path>)
    requires IsListing(t, src, listing)
    requires forall p :: Under(p, src) ==> (p in mid <==> p in t) && (p in t ==> mid[p] == t[p])
    ensures SqlOf(mid, listing, |listing|) == SqlOf(t, listing, |listing|)
  {
    SqlOfKept(t, mid, listing, |listing|);
  }

  lemma {:induction false} PathsLength(paths: seq<Path>, ps: seq<Path>, src: Path, dest: Path)
    requires PathsAre(paths, ps, src, dest)
    ensures |paths| == |ps|
  {
  }

  /** The returned paths are pairwise distinct. */
  lemma {:induction false} PathsAreDistinct(t: Tree, src: Path, dest: Path, listing: seq<Path>, paths: seq<Path>)
    requires IsListing(t, src, listing) && PathsAre(paths, SqlOf(t, listing, |listing|), src, dest)
    ensures Distinct(paths)
  {
    hide SqlOf, IsListing;
    var ps := SqlOf(t, listing, |listing|);
    SqlOfIsDistinct(t, src, listing, |listing|);
    forall i, j | 0 <= i < j < |paths| ensures paths[i] != paths[j] {
      RebaseBack(ps[i], src, dest);
      RebaseBack(ps[j], src, dest);
    }
  }

  /** They are the places of the .sql files of the source, and no others. */
  lemma {:induction false} PathsNameAll(t: Tree, src: Path, dest: Path, listing: seq<Path>, paths: seq<Path>)
    requires IsListing(t, src, listing) && PathsAre(paths, SqlOf(t, listing, |listing|), src, dest)
    ensures forall q :: q in paths <==> Under(q, dest) && IsSqlFile(t, Rebase(q, dest, src))
  {
    hide SqlOf, IsSql, IsSqlFile;
    var ps := SqlOf(t, listing, |listing|);
    IsSqlIff(t);
    SqlIsThere(t);
    forall q | q in paths ensures Under(q, dest) && IsSqlFile(t, Rebase(q, dest, src)) {
      var i :| 0 <= i < |paths| && paths[i] == q;
      RebaseBack(ps[i], src, dest);
      assert ps[i] in ps;
    }
    forall q | Under(q, dest) && IsSqlFile(t, Rebase(q, dest, src)) ensures q in paths {
      var p := Rebase(q, dest, src);
      RebaseBack(q, dest, src);
      var j :| 0 <= j < |listing| && listing[j] == p;
      assert p in ps;
      var i :| 0 <= i < |ps| && ps[i] == p;
      assert paths[i] == q;
    }
  }

  ghost predicate HasSql(t: Tree, dir: Path) {
    exists p :: Under(p, dir) && IsSqlFile(t, p)
  }

  lemma {:induction false} SqlIsThere(t: Tree)
    ensures forall p :: IsSql(t, p) ==> p in t
  {
  }

  /** A walk finds no .sql file exactly when there is none. */
  lemma {:induction false} NoneListedIff(t: Tree, dir: Path, listing: seq<Path>)
    requires IsListing(t, dir, listing)
    ensures SqlOf(t, listing, |listing|) == [] <==> !HasSql(t, dir)
  {
    hide IsSql, IsSqlFile;
    IsSqlIff(t);
    SqlIsThere(t);
    var found := SqlOf(t, listing, |listing|);
    if found != [] {
      assert found[0] in found;
      assert found[0] in listing;
    }
    forall p | p in t && Under(p, dir) && IsSql(t, p) ensures p in found {
      var j :| 0 <= j < |listing| && listing[j] == p;
    }
  }

  lemma {:induction false} NothingThere(t: Tree, dir: Path)
    requires Valid(t) && dir !in t
    ensures !HasSql(t, dir)
  {
    forall p | p in t ensures !Under(p, dir) {
      if Under(p, dir) {
        AncestorsAreDirs(t, p, dir);
      }
    }
  }

  /** The run's input check, countSQLFilesInDir with its guard: passed exactly when the walk succeeds and
      there is a .sql file. A directory that is not there is no error but has no file. */
  method CheckInput(fs: FileSystem, dir: Path) returns (scanned: bool, passes: bool)
    requires Valid(fs.tree)
    modifies fs`failures, fs`denied
    ensures passes <==> scanned && HasSql(fs.tree, dir)
    ensures fs.failures >= old(fs.failures) && (scanned <==> fs.failures == old(fs.failures))
  {
    hide IsListing, SqlOf, HasSql;
    if dir !in fs.tree {
      NothingThere(fs.tree, dir);
      return true, false;
    }
    var listing := Walk(fs, dir);
    var count;
    scanned, count := CountSQLFiles(fs, dir, listing);
    passes := scanned && count != 0;
    NoneListedIff(fs.tree, dir, listing);
  }

  /** Reading a directory: the names of its entries, in any order. */
  method ReadDirNames(fs: FileSystem, dir: Path) returns (names: seq<string>)
    ensures IsDirNames(fs.tree, dir, names)
  {
    var listing := Walk(fs, dir);
    names := [];
    for i := 0 to |listing|
      invariant forall j :: 0 <= j < i && Below(listing[j], dir) ==> listing[j][|dir|] in names
    {
      if Below(listing[i], dir) {
        names := names + [listing[i][|dir|]];
      }
    }
    forall p | p in fs.tree && Below(p, dir) ensures p[|dir|] in names {
      var j :| 0 <= j < |listing| && listing[j] == p;
    }
  }

  /** From the input check to the overlay, whatever the steps between them write in the clone: once the check
      has passed, the overlay never reports that there is no pending SQL. */
  method CheckThenApply(fs: FileSystem, src: Path, clone: Path, dest: Path) returns (checked: bool, r: Result)
    requires Valid(fs.tree) && Apart(src, clone) && Under(dest, clone)
    modifies fs
    ensures Valid(fs.tree)
    ensures r.NoPendingSQL? <==> !checked
    ensures !checked ==> fs.tree == old(fs.tree)
    ensures r.Applied? <==> fs.failures == old(fs.failures) && HasSql(old(fs.tree), src)
    ensures !checked && HasSql(old(fs.tree), src) ==> fs.failures > old(fs.failures)
    ensures r.Applied? ==> Overlaid(old(fs.tree), src, fs.tree, dest)
  {
    hide Valid, HasSql, Overlaid, Frame, IsListing, IsDirNames, PathsAre, SqlOf, SameOutside;
    ghost var t := fs.tree;
    var scanned;
    scanned, checked := CheckInput(fs, src);
    if !checked {
      return false, NoPendingSQL;
    }
    var w: Tree := *;
    fs.Scribble(clone, w);
    SourceUntouched(t, fs.tree, src, clone, dest);
    var first := Walk(fs, src);
    var second := Walk(fs, src);
    var names := ReadDirNames(fs, dest);
    NoneListedIff(fs.tree, src, first);
    ghost var mid := fs.tree;
    r := Apply(fs, src, dest, first, second, names);
    if r.Applied? {
      OverlaidFrom(t, mid, src, fs.tree, dest);
    }
  }

  lemma {:induction false} SourceUntouched(t: Tree, t': Tree, src: Path, clone: Path, dest: Path)
    requires SameOutside(t, t', clone) && Apart(src, clone) && Under(dest, clone)
    ensures Apart(src, dest) && (HasSql(t, src) <==> HasSql(t', src))
    ensures forall p :: Under(p, src) ==> (p in t' <==> p in t) && (p in t ==> t'[p] == t[p])
  {
    forall p: Path ensures Under(p, src) ==> !Under(p, clone) {
      if Under(p, src) && Under(p, clone) {
        PrefixesMeet(src, clone, p);
      }
    }
    assert Under(dest, src) ==> Under(dest, clone);
  }

  /** What is below the destination afterwards depends only on the source: two overlays of the same source
      hold the same files, whatever the destinations held before. */
  lemma {:induction false} OverlayIgnoresOldDest(t: Tree, t': Tree, src: Path, now: Tree, now': Tree, dest: Path)
    requires forall p :: Under(p, src) ==> (p in t' <==> p in t) && (p in t ==> t'[p] == t[p])
    requires Overlaid(t, src, now, dest) && Overlaid(t', src, now', dest)
    ensures forall q :: q in now && Below(q, dest) && now[q].File? ==> q in now' && now'[q] == now[q]
  {
    forall q | q in now && Below(q, dest) && now[q].File? ensures q in now' && now'[q] == now[q] {
      RebaseBack(q, dest, src);
      var p := Rebase(q, dest, src);
      assert Under(p, src) && IsSqlFile(t', p);
    }
  }
}
