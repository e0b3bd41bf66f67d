/** An abstract file tree, and the os calls the modelled code makes on it. Whether a call succeeds is up to
    the environment; what a failed call may have done is bounded, not fixed. */
module FileSys {

  /** An absolute, clean path as its components. */
  type Path = seq<string>

  datatype Node = Dir | File(content: string) | Special

  type Tree = map<Path, Node>

  predicate Under(p: Path, d: Path) {
    d <= p
  }

  predicate Below(p: Path, d: Path) {
    d < p
  }

  /** The root is a directory, and so is the parent of every entry. */
  predicate Valid(t: Tree) {
    [] in t && t[[]] == Dir &&
    forall p | p in t && p != [] :: Parent(p) in t && t[Parent(p)] == Dir
  }

  function Parent(p: Path): Path
    requires p != []
  {
    p[..|p| - 1]
  }

  function Without(t: Tree, d: Path): Tree {
    map p | p in t && !Under(p, d) :: t[p]
  }

  /** The entries outside `d` are as before, and nothing below `d` is new. */
  predicate Shrunk(t: Tree, t': Tree, d: Path) {
    (forall p | p in t' :: p in t && t'[p] == t[p]) && (forall p | p in t && !Under(p, d) :: p in t')
  }

  predicate SameOutside(t: Tree, t': Tree, d: Path) {
    (forall p | p in t && !Under(p, d) :: p in t' && t'[p] == t[p]) && (forall p | p in t' && !Under(p, d) :: p in t)
  }

  /** The tree that is left when a program that may write at and below `d` asks for the tree `w`. */
  function Written(t: Tree, w: Tree, d: Path): Tree {
    if Valid(w) && SameOutside(t, w, d) then w else t
  }

  /** All directories on the way to `d`, and `d` itself, exist. */
  function WithDirs(t: Tree, d: Path): Tree
    decreases |d|
  {
    var t' := if d == [] then t else WithDirs(t, Parent(d));
    if d in t' then t' else t'[d := Dir]
  }

  /** Only directories on the way to `d` are new. */
  predicate DirsAdded(t: Tree, t': Tree, d: Path) {
    (forall p | p in t :: p in t' && t'[p] == t[p]) && (forall p | p in t' && p !in t :: Under(d, p) && t'[p] == Dir)
  }

  /** At most the entry at `p` differs; it is a file now if it is new, and only a file is overwritten. */
  predicate OnlyFileAt(t: Tree, t': Tree, p: Path) {
    (forall q | q in t && q != p :: q in t' && t'[q] == t[q]) &&
    (forall q | q in t' && q != p :: q in t) &&
    (p in t' && (p !in t || t'[p] != t[p]) ==> t'[p].File?) &&
    (p in t && !t[p].File? ==> p in t' && t'[p] == t[p])
  }

  /** The path that stands to `dst` as `p` stands to `src`. */
  function Rebase(p: Path, src: Path, dst: Path): Path
    requires Under(p, src)
  {
    dst + p[|src|..]
  }

  lemma {:induction false} RebaseBack(p: Path, src: Path, dst: Path)
    requires Under(p, src)
    ensures Under(Rebase(p, src, dst), dst) && Rebase(Rebase(p, src, dst), dst, src) == p
    ensures p != src ==> Rebase(p, src, dst) != dst && Parent(Rebase(p, src, dst)) == Rebase(Parent(p), src, dst)
  {
    var q := Rebase(p, src, dst);
    assert q[|dst|..] == p[|src|..];
    assert p == src + p[|src|..];
    if p != src {
      assert Parent(p)[|src|..] == p[|src|..][..|p| - |src| - 1];
    }
  }

  /** `t'` is `t` with everything under `src` moved to `dst`, and all else as before. */
  predicate IsMove(t: Tree, t': Tree, src: Path, dst: Path) {
    (forall p | p in t :: if Under(p, src) then Rebase(p, src, dst) in t' else p in t') &&
    (forall q | q in t' ::
      if Under(q, dst) then Rebase(q, dst, src) in t && t'[q] == t[Rebase(q, dst, src)]
      else q in t && !Under(q, src) && t'[q] == t[q])
  }

  /** There is only one such tree. */
  lemma {:induction false} MoveUnique(t: Tree, a: Tree, b: Tree, src: Path, dst: Path)
    requires IsMove(t, a, src, dst) && IsMove(t, b, src, dst)
    ensures a == b
  {
    MoveIncluded(t, a, b, src, dst);
    MoveIncluded(t, b, a, src, dst);
  }

  lemma {:induction false} MoveIncluded(t: Tree, a: Tree, b: Tree, src: Path, dst: Path)
    requires IsMove(t, a, src, dst) && IsMove(t, b, src, dst)
    ensures forall q :: q in a ==> q in b && a[q] == b[q]
  {
    forall q | q in a ensures q in b && a[q] == b[q] {
      if Under(q, dst) {
        RebaseBack(q, dst, src);
        assert Under(Rebase(q, dst, src), src);
      }
    }
  }

  lemma {:induction false} WithDirsFacts(t: Tree, d: Path)
    requires Valid(t)
    ensures DirsAdded(t, WithDirs(t, d), d) && forall p: Path :: Under(d, p) ==> p in WithDirs(t, d)
    decreases |d|
  {
    if d != [] {
      WithDirsFacts(t, Parent(d));
      assert forall p: Path :: Under(d, p) ==> p == d || Under(Parent(d), p);
    }
  }

  lemma {:induction false} WithDirsValid(t: Tree, d: Path)
    requires Valid(t) && forall p :: Under(d, p) && p in t ==> t[p] == Dir
    ensures Valid(WithDirs(t, d)) && d in WithDirs(t, d) && WithDirs(t, d)[d] == Dir
    decreases |d|
  {
    if d != [] {
      WithDirsValid(t, Parent(d));
      WithDirsFacts(t, Parent(d));
      assert forall p: Path :: Under(Parent(d), p) ==> Under(d, p);
    }
  }

  /** In a valid tree every path to an entry is made of entries that are directories. */
  lemma {:induction false} AncestorsAreDirs(t: Tree, p: Path, d: Path)
    requires Valid(t) && p in t && d <= p
    ensures d in t && (d != p ==> t[d] == Dir)
    decreases |p|
  {
    if d != p {
      assert d <= Parent(p);
      AncestorsAreDirs(t, Parent(p), d);
    }
  }

  ghost predicate Distinct(ps: seq<Path>) {
    forall i, j :: 0 <= i < j < |ps| ==> ps[i] != ps[j]
  }

  /** What a directory walk reports: every entry at and under `src`, each once, in some order. */
  ghost predicate IsListing(t: Tree, src: Path, listing: seq<Path>) {
    Distinct(listing) &&
    (forall i :: 0 <= i < |listing| ==> listing[i] in t && Under(listing[i], src)) &&
    (forall p :: p in t && Under(p, src) ==> p in listing)
  }

  ghost predicate Apart(a: Path, b: Path) {
    !Under(a, b) && !Under(b, a)
  }

  /** Outside `dst` nothing changed, except that directories on the way to it may be new. */
  ghost predicate FrameOf(t: Tree, t': Tree, dst: Path) {
    (forall p :: p in t && !Under(p, dst) ==> p in t' && t'[p] == t[p]) &&
    (forall q :: q in t' && !Under(q, dst) ==> q in t || (Under(dst, q) && t'[q] == Dir))
  }

  lemma {:induction false} PrefixesMeet(a: Path, b: Path, c: Path)
    requires a <= c && b <= c
    ensures a <= b || b <= a
  {
    if |a| <= |b| {
      assert a == c[..|a|] == b[..|a|];
    } else {
      assert b == c[..|b|] == a[..|b|];
    }
  }

  /** filepath.WalkDir, without its order. */
  method Walk(fs: FileSystem, src: Path) returns (listing: seq<Path>)
    ensures IsListing(fs.tree, src, listing)
  {
    var rest := set p | p in fs.tree && Under(p, src);
    listing := [];
    while rest != {}
      invariant Distinct(listing) && forall p :: p in listing ==> p !in rest
      invariant forall p :: p in listing || p in rest <==> p in fs.tree && Under(p, src)
      decreases rest
    {
      var p :| p in rest;
      listing := listing + [p];
      rest := rest - {p};
    }
    assert forall i :: 0 <= i < |listing| ==> listing[i] in listing;
  }

  datatype RenameResult = Renamed | CrossDevice | RenameFailed

  /** A file can be written: its parent is a directory, and nothing but a file is there. */
  predicate CanWrite(t: Tree, p: Path) {
    p != [] && Parent(p) in t && t[Parent(p)] == Dir && (p in t ==> t[p].File?)
  }

  class FileSystem {
    var tree: Tree
    /** How many operations have returned an error. */
    ghost var failures: nat
    /** How many of them nothing stood in the way of. */
    ghost var denied: nat
    /** How many removals and links whose errors nobody looks at did not do their work. */
    ghost var ignored: nat

    constructor (t: Tree)
      ensures tree == t && failures == denied == ignored == 0
    {
      tree := t;
      failures, denied, ignored := 0, 0, 0;
    }

    /** An operation ends with an error or without one. */
    ghost method Note(ok: bool, possible: bool)
      modifies this`failures, this`denied
      ensures failures == old(failures) + (if ok then 0 else 1)
      ensures denied == old(denied) + (if !ok && possible then 1 else 0)
    {
      if !ok {
        failures := failures + 1;
        denied := denied + (if possible then 1 else 0);
      }
    }

    /** The start of a directory walk: its root must be there. */
    method Lstat(d: Path) returns (ok: bool)
      modifies this`failures, this`denied
      ensures failures == old(failures) + (if ok then 0 else 1)
      ensures ok ==> d in tree
    {
      ok := *;
      var there := d in tree;
      ok := ok && there;
      Note(ok, there);
    }

    /** One turn of a directory walk. */
    method Visit() returns (ok: bool)
      modifies this`failures, this`denied
      ensures failures == old(failures) + (if ok then 0 else 1)
    {
      ok := *;
      Note(ok, true);
    }

    /** os.ReadDir of something that is there. */
    method ReadDir(d: Path) returns (ok: bool)
      requires d in tree
      modifies this`failures, this`denied
      ensures failures == old(failures) + (if ok then 0 else 1)
      ensures ok ==> tree[d] == Dir
    {
      ok := *;
      var isDir := tree[d] == Dir;
      ok := ok && isDir;
      Note(ok, isDir);
    }

    /** A program writes at and below `d`: it asks for the tree `w`. */
    method Scribble(d: Path, w: Tree)
      requires Valid(tree)
      modifies this`tree
      ensures Valid(tree) && SameOutside(old(tree), tree, d) && tree == Written(old(tree), w, d)
    {
      if Valid(w) && SameOutside(tree, w, d) {
        tree := w;
      }
    }

    /** os.RemoveAll; nil for a path that is not there. */
    method RemoveAll(d: Path) returns (ok: bool)
      requires Valid(tree) && d != []
      modifies this
      ensures Valid(tree)
      ensures ok ==> tree == Without(old(tree), d)
      ensures Shrunk(old(tree), tree, d)
      ensures ignored == old(ignored)
      ensures failures == old(failures) + (if ok then 0 else 1)
    {
      ok := *;
      var t: Tree := *;
      if ok || !Valid(t) || !Shrunk(tree, t, d) {
        ok := true;
        tree := Without(tree, d);
      } else {
        tree := t;
      }
      Note(ok, true);
    }

    /** os.MkdirAll. */
    method MkdirAll(d: Path) returns (ok: bool)
      requires Valid(tree)
      modifies this
      ensures Valid(tree)
      ensures ok ==> tree == WithDirs(old(tree), d)
      ensures DirsAdded(old(tree), tree, d)
      ensures ok ==> d in tree && tree[d] == Dir
      ensures ignored == old(ignored)
      ensures failures == old(failures) + (if ok then 0 else 1)
      ensures !ok && (forall p | p in old(tree) && Under(d, p) :: old(tree)[p] == Dir) ==> denied > old(denied)
      ensures denied >= old(denied)
    {
      ok := *;
      var t: Tree := *;
      var free := forall p | p in tree && Under(d, p) :: tree[p] == Dir;
      if ok && free {
        WithDirsValid(tree, d);
        WithDirsFacts(tree, d);
        tree := WithDirs(tree, d);
      } else {
        ok := false;
        if Valid(t) && DirsAdded(tree, t, d) {
          tree := t;
        }
      }
      Note(ok, free);
    }

    /** Opening a file for writing with O_CREATE and O_TRUNC, and writing its content. */
    method WriteFile(p: Path, content: string) returns (ok: bool)
      requires Valid(tree)
      modifies this
      ensures Valid(tree)
      ensures ok ==> tree == old(tree)[p := File(content)] && (p !in old(tree) || old(tree)[p].File?)
      ensures OnlyFileAt(old(tree), tree, p)
      ensures ignored == old(ignored)
      ensures failures == old(failures) + (if ok then 0 else 1)
      ensures !ok && CanWrite(old(tree), p) ==> denied > old(denied)
      ensures denied >= old(denied)
    {
      ok := *;
      var part: string := *;
      var free := CanWrite(tree, p);
      ok := ok && free;
      if free {
        assert forall q | q in tree && q != [] :: Parent(q) != p;
        tree := tree[p := File(if ok then content else part)];
      }
      Note(ok, free);
    }

    /** os.Remove: a directory goes only when it is empty. */
    method Remove(p: Path) returns (ok: bool)
      requires Valid(tree) && p != []
      modifies this`tree, this`ignored, this`denied
      ensures Valid(tree)
      ensures tree == old(tree) || tree == old(tree) - {p}
      ensures ignored >= old(ignored) && denied >= old(denied)
      ensures denied == old(denied) ==> p !in tree || exists q | q in tree :: Below(q, p)
    {
      ok := *;
      if p !in tree || exists q | q in tree :: Below(q, p) {
        return false;
      }
      if ok {
        assert forall q | q in tree && q != [] :: Parent(q) == p ==> Below(q, p);
        tree := tree - {p};
      } else {
        ignored, denied := ignored + 1, denied + 1;
      }
    }

    /** os.Symlink: only where nothing is. */
    method Symlink(p: Path) returns (ok: bool)
      requires Valid(tree)
      modifies this`tree, this`ignored, this`denied
      ensures Valid(tree)
      ensures tree == old(tree) || (p !in old(tree) && tree == old(tree)[p := Special])
      ensures ignored == old(ignored) + (if ok then 0 else 1)
      ensures ok ==> p in tree && tree[p] == Special
      ensures denied >= old(denied)
      ensures !ok && p !in old(tree) && CanWrite(old(tree), p) ==> denied > old(denied)
    {
      ok := *;
      var free := p !in tree && CanWrite(tree, p);
      ok := ok && free;
      if ok {
        tree := tree[p := Special];
      } else {
        ignored, denied := ignored + 1, denied + (if free then 1 else 0);
      }
    }

    /** os.Rename of a directory. */
    method Rename(src: Path, dst: Path) returns (r: RenameResult)
      requires Valid(tree)
      modifies this
      ensures Valid(tree)
      ensures r.Renamed? ==> src in old(tree) && IsMove(old(tree), tree, src, dst)
      ensures !r.Renamed? ==> tree == old(tree)
      ensures r.CrossDevice? ==> src in tree
      ensures ignored == old(ignored)
      ensures failures == old(failures) + (if r.RenameFailed? then 1 else 0)
    {
      r := *;
      var t: Tree := *;
      if r.Renamed? && src in tree && Valid(t) && IsMove(tree, t, src, dst) {
        tree := t;
      } else if r.Renamed? || src !in tree {
        r := RenameFailed;
      }
      Note(!r.RenameFailed?, true);
    }
  }
}
