/** internal/orchestrator/workspace.go: moving the clone into the run directory, by rename or, across
    devices, by copying and removing. */
module Workspace {
  import opened FileSys

  /** The first `n` entries of the listing are at their places in the copy; special files are skipped. */
  ghost predicate CopiedUpTo(t: Tree, src: Path, t': Tree, dst: Path, listing: seq<Path>, n: nat) {
    forall j :: 0 <= j < n && j < |listing| && listing[j] in t && Under(listing[j], src) && !t[listing[j]].Special? ==>
      Rebase(listing[j], src, dst) in t' && t'[Rebase(listing[j], src, dst)] == t[listing[j]]
  }

  /** Whatever is below `dst` now was there before or is a copy of a directory or regular file of `src`. */
  ghost predicate OnlyCopies(t: Tree, src: Path, t': Tree, dst: Path) {
    forall q :: q in t' && Under(q, dst) ==>
      (q in t && t'[q] == t[q]) ||
      (Rebase(q, dst, src) in t && !t[Rebase(q, dst, src)].Special? && t'[q] == t[Rebase(q, dst, src)])
  }

  lemma {:induction false} MkdirCopies(t: Tree, src: Path, now: Tree, dst: Path, p: Path, next: Tree)
    requires Valid(t) && Apart(src, dst) && p in t && Under(p, src) && t[p].Dir?
    requires FrameOf(t, now, dst) && OnlyCopies(t, src, now, dst)
    requires DirsAdded(now, next, Rebase(p, src, dst))
    ensures FrameOf(t, next, dst) && OnlyCopies(t, src, next, dst)
  {
    RebaseBack(p, src, dst);
    forall q | q in next && q !in now && Under(q, dst) ensures
      Rebase(q, dst, src) in t && !t[Rebase(q, dst, src)].Special? && next[q] == t[Rebase(q, dst, src)]
    {
      var r := Rebase(q, dst, src);
      assert r <= p by {
        assert q <= Rebase(p, src, dst);
        assert q[|dst|..] <= p[|src|..];
        assert p == src + p[|src|..];
      }
      AncestorsAreDirs(t, p, r);
    }
    forall q | q in next && q !in now && !Under(q, dst) ensures Under(dst, q) {
      PrefixesMeet(q, dst, Rebase(p, src, dst));
    }
  }

  /** What holds after `n` entries of the listing. */
  ghost predicate CopyInv(t: Tree, src: Path, now: Tree, dst: Path, listing: seq<Path>, n: nat) {
    FrameOf(t, now, dst) && OnlyCopies(t, src, now, dst) && CopiedUpTo(t, src, now, dst, listing, n)
  }

  lemma {:induction false} MkdirStep(t: Tree, src: Path, now: Tree, dst: Path, listing: seq<Path>, i: nat, next: Tree)
    requires Valid(t) && Apart(src, dst) && IsListing(t, src, listing) && i < |listing|
    requires t[listing[i]].Dir? && CopyInv(t, src, now, dst, listing, i)
    requires DirsAdded(now, next, Rebase(listing[i], src, dst))
    ensures FrameOf(t, next, dst)
    ensures var target := Rebase(listing[i], src, dst);
      target in next && next[target] == Dir ==> CopyInv(t, src, next, dst, listing, i + 1)
  {
    hide FrameOf, OnlyCopies;
    MkdirCopies(t, src, now, dst, listing[i], next);
  }

  lemma {:induction false} WriteStep(t: Tree, src: Path, now: Tree, dst: Path, listing: seq<Path>, i: nat, next: Tree)
    requires IsListing(t, src, listing) && i < |listing|
    requires t[listing[i]].File? && CopyInv(t, src, now, dst, listing, i)
    ensures OnlyFileAt(now, next, Rebase(listing[i], src, dst)) ==> FrameOf(t, next, dst)
    ensures next == now[Rebase(listing[i], src, dst) := t[listing[i]]] ==> CopyInv(t, src, next, dst, listing, i + 1)
  {
    RebaseBack(listing[i], src, dst);
    TargetsDiffer(t, src, dst, listing, i);
  }

  method CopyDir(fs: FileSystem, src: Path, dst: Path, listing: seq<Path>) returns (ok: bool)
    requires Valid(fs.tree) && IsListing(fs.tree, src, listing) && Apart(src, dst)
    modifies fs
    ensures Valid(fs.tree) && FrameOf(old(fs.tree), fs.tree, dst)
    ensures ok ==> CopyInv(old(fs.tree), src, fs.tree, dst, listing, |listing|)
    ensures fs.failures >= old(fs.failures) && (ok <==> fs.failures == old(fs.failures))
  {
    hide Valid, FrameOf, OnlyCopies, CopiedUpTo, DirsAdded, OnlyFileAt;
    ghost var t := fs.tree;
    NothingCopied(t, src, dst, listing);
    var found := fs.Lstat(src);
    if !found {
      return false;
    }
    for i := 0 to |listing|
      invariant Valid(fs.tree) && CopyInv(t, src, fs.tree, dst, listing, i) && fs.failures == old(fs.failures)
    {
      ghost var now := fs.tree;
      var p := listing[i];
      SourceIntact(t, now, src, dst, p);
      var visited := fs.Visit();
      if !visited {
        return false;
      }
      var target := Rebase(p, src, dst);
      match fs.tree[p]
      case Dir =>
        var made := fs.MkdirAll(target);
        MkdirStep(t, src, now, dst, listing, i, fs.tree);
        if !made {
          return false;
        }
      case File(content) =>
        var wrote := fs.WriteFile(target, content);
        WriteStep(t, src, now, dst, listing, i, fs.tree);
        if !wrote {
          return false;
        }
      case Special =>
        SpecialStep(t, src, now, dst, listing, i);
    }
    ok := true;
  }

  lemma {:induction false} NothingCopied(t: Tree, src: Path, dst: Path, listing: seq<Path>)
    ensures CopyInv(t, src, t, dst, listing, 0)
  {
  }

  lemma {:induction false} SpecialStep(t: Tree, src: Path, now: Tree, dst: Path, listing: seq<Path>, i: nat)
    requires i < |listing| && listing[i] in t && t[listing[i]].Special? && CopyInv(t, src, now, dst, listing, i)
    ensures CopyInv(t, src, now, dst, listing, i + 1)
  {
  }

  lemma {:induction false} SourceIntact(t: Tree, now: Tree, src: Path, dst: Path, p: Path)
    requires FrameOf(t, now, dst) && Apart(src, dst) && p in t && Under(p, src)
    ensures p in now && now[p] == t[p]
  {
    if Under(p, dst) {
      PrefixesMeet(src, dst, p);
    }
  }

  lemma {:induction false} TargetsDiffer(t: Tree, src: Path, dst: Path, listing: seq<Path>, i: nat)
    requires IsListing(t, src, listing) && i < |listing|
    ensures forall j :: 0 <= j < i ==> Rebase(listing[j], src, dst) != Rebase(listing[i], src, dst)
  {
    forall j | 0 <= j < i ensures Rebase(listing[j], src, dst) != Rebase(listing[i], src, dst) {
      RebaseBack(listing[j], src, dst);
      RebaseBack(listing[i], src, dst);
    }
  }

  // ----- Moving -----

  ghost predicate OnlyDirsAndFiles(t: Tree, d: Path) {
    forall p :: p in t && Under(p, d) ==> !t[p].Special?
  }

  /** The source is still there, entry by entry. */
  ghost predicate Intact(t: Tree, t': Tree, src: Path) {
    forall p :: p in t && Under(p, src) ==> p in t' && t'[p] == t[p]
  }

  /** The tree without the special files of `src`. */
  function WithoutSpecials(t: Tree, src: Path): Tree {
    map p | p in t && !(Under(p, src) && t[p].Special?) :: t[p]
  }

  lemma {:induction false} NoSpecialsToDrop(t: Tree, src: Path)
    requires OnlyDirsAndFiles(t, src)
    ensures WithoutSpecials(t, src) == t
  {
  }

  ghost predicate NothingUnder(t: Tree, d: Path) {
    forall p :: p in t ==> !Under(p, d)
  }

  /** Copying to an absent place and then removing the source gives the tree that a rename gives when the
      special files of the source are left out; with none of them, just the tree that a rename gives. */
  lemma {:induction false} CopyThenRemoveIsMove(t: Tree, src: Path, now: Tree, dst: Path, listing: seq<Path>)
    requires Valid(t) && Apart(src, dst) && dst != [] && IsListing(t, src, listing)
    requires dst !in t && Parent(dst) in t
    requires CopyInv(t, src, now, dst, listing, |listing|)
    ensures IsMove(WithoutSpecials(t, src), Without(now, src), src, dst)
    ensures OnlyDirsAndFiles(t, src) ==> IsMove(t, Without(now, src), src, dst)
  {
    var next, files := Without(now, src), WithoutSpecials(t, src);
    assert forall p :: p in t && Under(p, dst) ==> false by {
      forall p | p in t && Under(p, dst) ensures false {
        AncestorsAreDirs(t, p, dst);
      }
    }
    forall p | p in files ensures if Under(p, src) then Rebase(p, src, dst) in next else p in next {
      if Under(p, src) {
        var j :| 0 <= j < |listing| && listing[j] == p;
        RebaseBack(p, src, dst);
        assert Rebase(p, src, dst) in now;
        if Under(Rebase(p, src, dst), src) {
          PrefixesMeet(src, dst, Rebase(p, src, dst));
        }
      }
    }
    forall q | q in next && !Under(q, dst) ensures q in t {
      if q !in t {
        assert Under(dst, q);
        AncestorsOfParent(t, dst, q);
      }
    }
    if OnlyDirsAndFiles(t, src) {
      NoSpecialsToDrop(t, src);
    }
  }

  lemma {:induction false} AncestorsOfParent(t: Tree, dst: Path, q: Path)
    requires Valid(t) && dst != [] && Parent(dst) in t && q <= dst && q != dst
    ensures q in t
  {
    assert q <= Parent(dst);
    AncestorsAreDirs(t, Parent(dst), q);
  }

  /** Every directory and regular file of the source is at its place in the copy. */
  ghost predicate Copied(t: Tree, src: Path, t': Tree, dst: Path) {
    forall p :: p in t && Under(p, src) && !t[p].Special? ==>
      Rebase(p, src, dst) in t' && t'[Rebase(p, src, dst)] == t[p]
  }

  lemma {:induction false} AllCopied(t: Tree, src: Path, t': Tree, dst: Path, listing: seq<Path>)
    requires IsListing(t, src, listing) && CopiedUpTo(t, src, t', dst, listing, |listing|)
    ensures Copied(t, src, t', dst)
  {
    forall p | p in t && Under(p, src) && !t[p].Special?
      ensures Rebase(p, src, dst) in t' && t'[Rebase(p, src, dst)] == t[p]
    {
      var j :| 0 <= j < |listing| && listing[j] == p;
    }
  }

  /** copyDir: on success everything but special files is copied; nothing outside `dst` changes either way. */
  method CopyTree(fs: FileSystem, src: Path, dst: Path) returns (ok: bool)
    requires Valid(fs.tree) && Apart(src, dst)
    modifies fs
    ensures Valid(fs.tree) && FrameOf(old(fs.tree), fs.tree, dst)
    ensures ok ==> Copied(old(fs.tree), src, fs.tree, dst)
    ensures fs.failures >= old(fs.failures) && (ok <==> fs.failures == old(fs.failures))
  {
    hide Valid, FrameOf, OnlyCopies, CopiedUpTo, IsListing, Copied;
    var listing := Walk(fs, src);
    ok := CopyDir(fs, src, dst, listing);
    if ok {
      AllCopied(old(fs.tree), src, fs.tree, dst, listing);
    }
  }

  /** Outside `src` and `dst` nothing changed, except that directories on the way to `dst` may be new. */
  ghost predicate MoveFrame(t: Tree, t': Tree, src: Path, dst: Path) {
    (forall p :: p in t && !Under(p, src) && !Under(p, dst) ==> p in t' && t'[p] == t[p]) &&
    (forall q :: q in t' && !Under(q, dst) ==> (q in t && t'[q] == t[q]) || (Under(dst, q) && t'[q] == Dir))
  }

  /** The tree a successful move to an absent place can give: a rename moves everything, a copy everything
      but special files. */
  ghost predicate MoveResult(t: Tree, t': Tree, src: Path, dst: Path) {
    IsMove(t, t', src, dst) || IsMove(WithoutSpecials(t, src), t', src, dst)
  }

  /** What moving a workspace promises. Success leaves nothing at the source and every directory and regular
      file at the destination, and, when the destination was absent and its parent there, nothing else; after
      a failure the source is intact or its copy complete. */
  ghost predicate Moved(t: Tree, ok: bool, t': Tree, src: Path, dst: Path) {
    MoveFrame(t, t', src, dst) &&
    (ok ==> Copied(t, src, t', dst) && NothingUnder(t', src)) &&
    (ok && dst != [] && dst !in t && Parent(dst) in t ==> MoveResult(t, t', src, dst)) &&
    (ok || Intact(t, t', src) || Copied(t, src, t', dst))
  }

  /** MoveWorkspace. It fails exactly when an operation fails; that the rename would cross devices is no
      failure. */
  method MoveWorkspace(fs: FileSystem, src: Path, dst: Path) returns (ok: bool)
    requires Valid(fs.tree) && Apart(src, dst) && src != []
    modifies fs
    ensures Valid(fs.tree) && Moved(old(fs.tree), ok, fs.tree, src, dst)
    ensures fs.failures >= old(fs.failures) && (ok <==> fs.failures == old(fs.failures))
  {
    hide Valid, FrameOf, OnlyCopies, CopiedUpTo, IsMove, OnlyDirsAndFiles, IsListing, Intact, MoveFrame, Copied,
      WithoutSpecials, NothingUnder;
    ghost var t := fs.tree;
    var r := fs.Rename(src, dst);
    if r.Renamed? {
      MoveIsMoved(t, fs.tree, src, dst);
      return true;
    }
    SelfIntact(t, src, dst);
    if r.RenameFailed? {
      return false;
    }
    var listing := Walk(fs, src);
    var copied := CopyDir(fs, src, dst, listing);
    ghost var now := fs.tree;
    FrameKeepsSource(t, now, src, dst);
    if !copied {
      return false;
    }
    ok := fs.RemoveAll(src);
    RemovalKeepsCopies(t, src, now, dst, listing, fs.tree);
    NothingLeftUnder(now, src);
    if ok && dst != [] && dst !in t && Parent(dst) in t {
      CopyThenRemoveIsMove(t, src, now, dst, listing);
    }
  }

  lemma {:induction false} NothingLeftUnder(t: Tree, d: Path)
    ensures NothingUnder(Without(t, d), d)
  {
  }

  lemma {:induction false} MoveIsMoved(t: Tree, t': Tree, src: Path, dst: Path)
    requires IsMove(t, t', src, dst) && Apart(src, dst)
    ensures MoveFrame(t, t', src, dst) && Copied(t, src, t', dst) && NothingUnder(t', src)
  {
    forall p | p in t && Under(p, src) ensures Rebase(p, src, dst) in t' && t'[Rebase(p, src, dst)] == t[p] {
      RebaseBack(p, src, dst);
    }
    forall q | q in t' ensures !Under(q, src) {
      if Under(q, src) && Under(q, dst) {
        PrefixesMeet(src, dst, q);
      }
    }
  }

  lemma {:induction false} SelfIntact(t: Tree, src: Path, dst: Path)
    ensures Intact(t, t, src) && MoveFrame(t, t, src, dst)
  {
  }

  lemma {:induction false} FrameKeepsSource(t: Tree, now: Tree, src: Path, dst: Path)
    requires FrameOf(t, now, dst) && Apart(src, dst)
    ensures Intact(t, now, src) && MoveFrame(t, now, src, dst)
  {
    forall p | p in t && Under(p, src) ensures p in now && now[p] == t[p] {
      SourceIntact(t, now, src, dst, p);
    }
  }

  lemma {:induction false} RemovalKeepsCopies(t: Tree, src: Path, now: Tree, dst: Path, listing: seq<Path>, next: Tree)
    requires IsListing(t, src, listing) && CopiedUpTo(t, src, now, dst, listing, |listing|)
    requires FrameOf(t, now, dst) && Apart(src, dst) && Shrunk(now, next, src)
    ensures Copied(t, src, next, dst) && MoveFrame(t, next, src, dst)
  {
    AllCopied(t, src, now, dst, listing);
    forall p | p in t && Under(p, src) && !t[p].Special?
      ensures Rebase(p, src, dst) in next && next[Rebase(p, src, dst)] == t[p]
    {
      var q := Rebase(p, src, dst);
      RebaseBack(p, src, dst);
      if Under(q, src) {
        PrefixesMeet(src, dst, q);
      }
    }
  }
}
