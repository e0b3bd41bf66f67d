/** internal/embedrepo/embed.go and internal/embedvalidator/embed.go: extraction of embedded files into a
    cache directory, guarded by a sentinel file that is written last. */
module Extraction {
  import opened Trim

  /** The files of the cache directory, by relative path. */
  type Disk = map<string, string>

  datatype Embedded = Embedded(name: string, bytes: string)

  const SENTINEL := ".complete"

  /** What one binary brings along: its files and their checksum, a word of hexadecimal digits. */
  datatype Bundle = Bundle(files: seq<Embedded>, checksum: string) {
    /** Names are distinct, none of them is the sentinel's, and the checksum is a non-empty trimmed word. */
    ghost predicate Valid() {
      checksum != "" && IsTrimmed(checksum) &&
      (forall k :: 0 <= k < |files| ==> files[k].name != SENTINEL) &&
      (forall j, k :: 0 <= j < k < |files| ==> files[j].name != files[k].name)
    }
  }

  /** The sentinel is there and holds the checksum. */
  predicate Matches(d: Disk, b: Bundle) {
    SENTINEL in d && TrimSpace(d[SENTINEL]) == b.checksum
  }

  /** Every embedded file is on disk with its bytes. */
  ghost predicate Complete(d: Disk, b: Bundle) {
    forall k :: 0 <= k < |b.files| ==> b.files[k].name in d && d[b.files[k].name] == b.files[k].bytes
  }

  /** The guarantee the sentinel stands for. */
  ghost predicate Safe(d: Disk, b: Bundle) {
    Matches(d, b) ==> Complete(d, b)
  }

  /** The disk once the first `k` files have been written. */
  function After(d: Disk, b: Bundle, k: nat): Disk
    requires k <= |b.files|
  {
    if k == 0 then d else After(d, b, k - 1)[b.files[k - 1].name := b.files[k - 1].bytes]
  }

  /** The disk when writing file `k`, or finally the sentinel, has got as far as `n` bytes. */
  function Writing(d: Disk, b: Bundle, k: nat, n: nat): Disk
    requires k <= |b.files|
  {
    if k < |b.files| then After(d, b, k)[b.files[k].name := Cut(b.files[k].bytes, n)]
    else After(d, b, k)[SENTINEL := Cut(b.checksum, n)]
  }

  function Cut(s: string, n: nat): string {
    if n <= |s| then s[..n] else s
  }

  /** The states in which a run that starts at `d` can stop, after any of its writes. */
  ghost predicate InRun(d: Disk, b: Bundle, s: Disk) {
    s == d || (!Matches(d, b) && exists k: nat, n: nat | k <= |b.files| :: s == Writing(d, b, k, n))
  }

  /** Where a run that is not stopped ends. */
  function Final(d: Disk, b: Bundle): Disk {
    if Matches(d, b) then d else After(d, b, |b.files|)[SENTINEL := b.checksum]
  }

  lemma {:induction false} AfterKeepsOthers(d: Disk, b: Bundle, k: nat, name: string)
    requires k <= |b.files| && forall j :: 0 <= j < k ==> b.files[j].name != name
    ensures name in After(d, b, k) <==> name in d
    ensures name in d ==> After(d, b, k)[name] == d[name]
    decreases k
  {
    if k > 0 {
      AfterKeepsOthers(d, b, k - 1, name);
    }
  }

  lemma {:induction false} AfterHolds(d: Disk, b: Bundle, k: nat)
    requires b.Valid() && k <= |b.files|
    ensures forall j :: 0 <= j < k ==>
      b.files[j].name in After(d, b, k) && After(d, b, k)[b.files[j].name] == b.files[j].bytes
    decreases k
  {
    if k > 0 {
      AfterHolds(d, b, k - 1);
    }
  }

  /** While files are being written the old sentinel, which does not match, is untouched; and once the
      sentinel is being written all files are there. */
  lemma {:induction false} WritingIsSafe(d: Disk, b: Bundle, k: nat, n: nat)
    requires b.Valid() && !Matches(d, b) && k <= |b.files|
    ensures Safe(Writing(d, b, k, n), b)
    ensures k < |b.files| ==> !Matches(Writing(d, b, k, n), b)
  {
    hide TrimSpace, After, Cut;
    AfterKeepsOthers(d, b, k, SENTINEL);
    AfterHolds(d, b, k);
  }

  /** Stopping a run after any write keeps the guarantee. */
  lemma {:induction false} CrashKeepsSafe(d: Disk, b: Bundle, s: Disk)
    requires b.Valid() && Safe(d, b) && InRun(d, b, s)
    ensures Safe(s, b)
  {
    hide Safe, Writing;
    if s != d {
      var k: nat, n: nat :| k <= |b.files| && s == Writing(d, b, k, n);
      WritingIsSafe(d, b, k, n);
    }
  }

  /** A run that is not stopped leaves a matching sentinel and a complete cache, and is a state of its run. */
  lemma {:induction false} FinalIsComplete(d: Disk, b: Bundle)
    requires b.Valid() && Safe(d, b)
    ensures var f := Final(d, b); Matches(f, b) && Complete(f, b) && InRun(d, b, f)
  {
    hide After, TrimLeft, TrimRight;
    if !Matches(d, b) {
      AfterHolds(d, b, |b.files|);
      TrimTrimmed(b.checksum);
      assert b.checksum[..|b.checksum|] == b.checksum;
      assert Final(d, b) == Writing(d, b, |b.files|, |b.checksum|);
    }
  }

  /** Once the sentinel matches, no later run of the same binary changes anything, however many there are. */
  lemma {:induction false} MatchingRunWritesNothing(disks: seq<Disk>, b: Bundle, i: nat, k: nat)
    requires i <= k < |disks| && Matches(disks[i], b)
    requires forall j :: 0 <= j < |disks| - 1 ==> InRun(disks[j], b, disks[j + 1])
    ensures disks[k] == disks[i]
    decreases k
  {
    hide Matches, Writing;
    if i < k {
      MatchingRunWritesNothing(disks, b, i, k - 1);
      assert InRun(disks[k - 1], b, disks[k - 1 + 1]);
    }
  }

  /** Any number of runs, one after the other, each stopped anywhere: every disk in the history is safe, and
      wherever a run was not stopped the cache is complete. */
  lemma {:induction false} AllRunsSafe(disks: seq<Disk>, b: Bundle, i: nat)
    requires b.Valid() && i < |disks| && Safe(disks[0], b)
    requires forall j :: 0 <= j < |disks| - 1 ==> InRun(disks[j], b, disks[j + 1])
    ensures Safe(disks[i], b)
    ensures i > 0 && disks[i] == Final(disks[i - 1], b) ==> Complete(disks[i], b) && Matches(disks[i], b)
    decreases i
  {
    hide Safe, InRun, Final, Complete, Matches;
    if i > 0 {
      AllRunsSafe(disks, b, i - 1);
      assert InRun(disks[i - 1], b, disks[i - 1 + 1]);
      CrashKeepsSafe(disks[i - 1], b, disks[i]);
      FinalIsComplete(disks[i - 1], b);
    }
  }

  // ----- Two binaries, one directory -----

  /** Files that both bring along are empty in both. */
  ghost predicate SharedFilesAreEmpty(a: Bundle, b: Bundle) {
    forall i, j :: 0 <= i < |a.files| && 0 <= j < |b.files| && a.files[i].name == b.files[j].name ==>
      a.files[i].bytes == "" && b.files[j].bytes == ""
  }

  /** Runs of `b` keep what the sentinel means to `a`. */
  ghost predicate RunsKeepSafe(a: Bundle, b: Bundle) {
    forall d, s :: Safe(d, a) && InRun(d, b, s) ==> Safe(s, a)
  }

  lemma {:induction false} CutDiffers(checksum: string, n: nat, other: string)
    requires |other| == |checksum| && other != checksum && IsTrimmed(checksum)
    ensures TrimSpace(Cut(checksum, n)) != other
  {
    hide TrimLeft, TrimRight;
    var pre, post := TrimSplits(Cut(checksum, n));
    if n >= |checksum| {
      assert Cut(checksum, n) == checksum;
      TrimTrimmed(checksum);
    }
  }

  /** What a run of `b` has made of a file, at any point of its writing. */
  lemma {:induction false} WritingFile(d: Disk, b: Bundle, k: nat, n: nat, name: string)
    requires b.Valid() && k < |b.files|
    ensures (forall j :: 0 <= j < |b.files| ==> b.files[j].name != name) ==>
      (name in Writing(d, b, k, n) <==> name in d) && (name in d ==> Writing(d, b, k, n)[name] == d[name])
    ensures forall j :: 0 <= j < |b.files| && b.files[j].name == name && b.files[j].bytes == "" ==>
      (name in d && d[name] == "" ==> name in Writing(d, b, k, n) && Writing(d, b, k, n)[name] == "")
  {
    hide After;
    AfterHolds(d, b, k);
    if forall j :: 0 <= j < |b.files| ==> b.files[j].name != name {
      AfterKeepsOthers(d, b, k, name);
    }
    forall j | 0 <= j < |b.files| && b.files[j].name == name && j >= k
      ensures name in After(d, b, k) <==> name in d
      ensures name in d ==> After(d, b, k)[name] == d[name]
    {
      AfterKeepsOthers(d, b, k, name);
    }
  }

  lemma {:induction false} EmptyFilesKeepSafe(a: Bundle, b: Bundle, d: Disk, s: Disk)
    requires a.Valid() && b.Valid() && a.checksum != b.checksum && |a.checksum| == |b.checksum|
    requires SharedFilesAreEmpty(a, b) && Safe(d, a) && InRun(d, b, s)
    ensures Safe(s, a)
  {
    hide TrimSpace, Cut, After, Writing, IsTrimmed;
    if s != d && Matches(s, a) {
      var k: nat, n: nat :| k <= |b.files| && s == Writing(d, b, k, n);
      SentinelWhileWriting(d, b, k, n);
      CutDiffers(b.checksum, n, a.checksum);
      assert Complete(d, a);
      forall i | 0 <= i < |a.files| ensures a.files[i].name in s && s[a.files[i].name] == a.files[i].bytes {
        WritingFile(d, b, k, n, a.files[i].name);
      }
    }
  }

  lemma {:induction false} SentinelWhileWriting(d: Disk, b: Bundle, k: nat, n: nat)
    requires b.Valid() && k <= |b.files|
    ensures k == |b.files| ==> SENTINEL in Writing(d, b, k, n) && Writing(d, b, k, n)[SENTINEL] == Cut(b.checksum, n)
    ensures k < |b.files| ==> (SENTINEL in Writing(d, b, k, n) <==> SENTINEL in d)
    ensures k < |b.files| && SENTINEL in d ==> Writing(d, b, k, n)[SENTINEL] == d[SENTINEL]
  {
    hide After, Cut;
    AfterKeepsOthers(d, b, k, SENTINEL);
  }

  /** A cache of `a` that a run of `b`, stopped in the middle, breaks while the sentinel still matches. */
  lemma {:induction false} SharedFileBreaks(a: Bundle, b: Bundle, i: nat, j: nat) returns (d: Disk, s: Disk)
    requires a.Valid() && b.Valid() && a.checksum != b.checksum && i < |a.files| && j < |b.files|
    requires a.files[i].name == b.files[j].name && (a.files[i].bytes != "" || b.files[j].bytes != "")
    ensures Safe(d, a) && InRun(d, b, s) && !Safe(s, a)
  {
    hide TrimSpace, After;
    d := Final(map[], a);
    FinalIsComplete(map[], a);
    var n := if a.files[i].bytes != "" then 0 else |b.files[j].bytes|;
    s := Writing(d, b, j, n);
    SentinelWhileWriting(d, b, j, n);
    assert s[b.files[j].name] == Cut(b.files[j].bytes, n);
  }

  /** Two different binaries, whose checksums have the same length, may share a directory exactly when every
      file that both bring along is empty in both: a file with the same bytes in both is not enough, as the
      second truncates it before writing it again. */
  lemma {:induction false} SharingIsSafeIff(a: Bundle, b: Bundle)
    requires a.Valid() && b.Valid() && a.checksum != b.checksum && |a.checksum| == |b.checksum|
    ensures RunsKeepSafe(a, b) <==> SharedFilesAreEmpty(a, b)
  {
    hide Safe, InRun, Bundle.Valid;
    if SharedFilesAreEmpty(a, b) {
      forall d, s | Safe(d, a) && InRun(d, b, s) ensures Safe(s, a) {
        EmptyFilesKeepSafe(a, b, d, s);
      }
    } else {
      var i, j :| 0 <= i < |a.files| && 0 <= j < |b.files| && a.files[i].name == b.files[j].name &&
                  (a.files[i].bytes != "" || b.files[j].bytes != "");
      var d, s := SharedFileBreaks(a, b, i, j);
    }
  }

  /** For instance, two versions of the same file. */
  lemma {:induction false} SharedDirectoryIsUnsafe()
    ensures var a, b := Bundle([Embedded("f", "x")], "1"), Bundle([Embedded("f", "y")], "2");
      a.Valid() && b.Valid() && !RunsKeepSafe(a, b)
  {
    var a, b := Bundle([Embedded("f", "x")], "1"), Bundle([Embedded("f", "y")], "2");
    assert a.files[0].name == b.files[0].name && a.files[0].bytes != "";
    SharingIsSafeIff(a, b);
  }

  // ----- The program -----

  /** The disk `d` with file `name` written up to some byte. */
  ghost predicate IsPart(d: Disk, name: string, bytes: string, s: Disk) {
    exists n: nat :: s == d[name := Cut(bytes, n)]
  }

  /** The second history goes on from the first with such disks. */
  ghost predicate Appends(d: Disk, name: string, bytes: string, h: seq<Disk>, h': seq<Disk>) {
    |h| <= |h'| && h'[..|h|] == h && forall i :: |h| <= i < |h'| ==> IsPart(d, name, bytes, h'[i])
  }

  lemma {:induction false} PartNext(d: Disk, name: string, bytes: string, h: seq<Disk>, h': seq<Disk>, n: nat)
    requires Appends(d, name, bytes, h, h')
    ensures var s := d[name := Cut(bytes, n)]; IsPart(d, name, bytes, s) && Appends(d, name, bytes, h, h' + [s])
  {
  }

  lemma {:induction false} NothingAppended(d: Disk, name: string, bytes: string, h: seq<Disk>)
    ensures Appends(d, name, bytes, h, h)
  {
  }

  lemma {:induction false} RewriteParts(d: Disk, name: string, bytes: string)
    ensures forall s :: IsPart(d, name, "", s) ==> s == d[name := ""] && IsPart(d, name, bytes, s)
    ensures forall s :: IsPart(d[name := ""], name, bytes, s) ==> IsPart(d, name, bytes, s)
  {
    forall s | IsPart(d, name, "", s) ensures s == d[name := ""] && IsPart(d, name, bytes, s) {
      assert s == d[name := Cut(bytes, 0)];
    }
    forall s | IsPart(d[name := ""], name, bytes, s) ensures IsPart(d, name, bytes, s) {
      var n: nat :| s == d[name := ""][name := Cut(bytes, n)];
      assert s == d[name := Cut(bytes, n)];
    }
  }

  class Cache {
    var disk: Disk
    /** Every disk there has been, the current one last: where a crash could have left things. */
    ghost var history: seq<Disk>
    /** How many operations have failed. */
    ghost var failures: nat

    ghost predicate Valid()
      reads this
    {
      history != [] && history[|history| - 1] == disk
    }

    constructor (d: Disk)
      ensures Valid() && disk == d && history == [d] && failures == 0
    {
      disk := d;
      history := [d];
      failures := 0;
    }

    ghost method Note(ok: bool)
      modifies this`failures
      ensures failures == old(failures) + (if ok then 0 else 1)
    {
      failures := failures + (if ok then 0 else 1);
    }

    /** Making a directory, opening a file, or writing a chunk of it. */
    method Try() returns (ok: bool)
      modifies this`failures
      ensures failures == old(failures) + (if ok then 0 else 1)
    {
      ok := *;
      Note(ok);
    }

    /** The file holds the part now. */
    method Put(name: string, part: string)
      modifies this`disk, this`history
      ensures Valid() && disk == old(disk)[name := part] && history == old(history) + [disk]
    {
      disk := disk[name := part];
      history := history + [disk];
    }

    /** Opening with O_TRUNC and copying the bytes in chunks; it may fail on the way. */
    method Write(name: string, bytes: string) returns (ok: bool)
      requires Valid()
      modifies this
      ensures Valid()
      ensures Appends(old(disk), name, bytes, old(history), history)
      ensures disk == old(disk) || IsPart(old(disk), name, bytes, disk)
      ensures ok ==> disk == old(disk)[name := bytes]
      ensures failures == old(failures) + (if ok then 0 else 1)
    {
      hide Appends, IsPart;
      ghost var d := disk;
      NothingAppended(d, name, bytes, history);
      var started := Try();
      if !started {
        return false;
      }
      var n: nat := 0;
      PartNext(d, name, bytes, history, history, 0);
      Put(name, "");
      while n < |bytes|
        invariant n <= |bytes| && disk == d[name := Cut(bytes, n)]
        invariant IsPart(d, name, bytes, disk) && Appends(d, name, bytes, old(history), history)
        invariant failures == old(failures) && Valid()
      {
        var written := Try();
        if !written {
          return false;
        }
        var chunk: int := *;
        n := if chunk <= 0 || n + chunk > |bytes| then |bytes| else n + chunk;
        PartNext(d, name, bytes, old(history), history, n);
        assert disk[name := bytes[..n]] == d[name := Cut(bytes, n)];
        Put(name, bytes[..n]);
      }
      assert bytes[..|bytes|] == bytes;
      ok := true;
    }

    /** Creating the file empty, and then writing it. */
    method Rewrite(name: string, bytes: string) returns (ok: bool)
      requires Valid()
      modifies this
      ensures Valid()
      ensures Appends(old(disk), name, bytes, old(history), history)
      ensures disk == old(disk) || IsPart(old(disk), name, bytes, disk)
      ensures ok ==> disk == old(disk)[name := bytes]
      ensures failures == old(failures) + (if ok then 0 else 1)
    {
      ghost var d := disk;
      ok := Write(name, "");
      RewriteParts(d, name, bytes);
      if !ok {
        return;
      }
      ok := Write(name, bytes);
    }
  }

  /** Every disk that the run added to the history is one in which the run can stop. */
  ghost predicate HistoryInRun(d: Disk, b: Bundle, history: seq<Disk>, from: nat) {
    forall i :: from <= i < |history| ==> InRun(d, b, history[i])
  }

  /** Writing file `k`, or the sentinel, after the files before it passes only through states of the run. */
  lemma {:induction false} WriteInRun(d: Disk, b: Bundle, k: nat, name: string, bytes: string, s: Disk, n: nat)
    requires !Matches(d, b) && k <= |b.files|
    requires if k < |b.files| then name == b.files[k].name && bytes == b.files[k].bytes
             else name == SENTINEL && bytes == b.checksum
    requires s == After(d, b, k)[name := Cut(bytes, n)]
    ensures InRun(d, b, s)
  {
    hide After, Cut, Matches;
    assert s == Writing(d, b, k, n);
  }

  lemma {:induction false} AfterIsInRun(d: Disk, b: Bundle, k: nat)
    requires !Matches(d, b) && k <= |b.files|
    ensures InRun(d, b, After(d, b, k))
  {
    hide Matches;
    if k > 0 {
      var e := b.files[k - 1];
      assert e.bytes[..|e.bytes|] == e.bytes;
      WriteInRun(d, b, k - 1, e.name, e.bytes, After(d, b, k), |e.bytes|);
    }
  }

  /** extractFS: every embedded file, in order. */
  method ExtractFS(c: Cache, b: Bundle) returns (ok: bool)
    requires c.Valid() && !Matches(c.disk, b)
    modifies c
    ensures c.Valid()
    ensures |c.history| >= |old(c.history)| && c.history[..|old(c.history)|] == old(c.history)
    ensures HistoryInRun(old(c.disk), b, c.history, |old(c.history)|) && InRun(old(c.disk), b, c.disk)
    ensures ok ==> c.disk == After(old(c.disk), b, |b.files|)
    ensures c.failures >= old(c.failures) && (ok <==> c.failures == old(c.failures))
  {
    hide Matches, After, InRun, Writing;
    ghost var d := c.disk;
    AfterIsInRun(d, b, 0);
    assert After(d, b, 0) == d by { AfterNothing(d, b); }
    for k := 0 to |b.files|
      invariant |c.history| >= |old(c.history)| && c.history[..|old(c.history)|] == old(c.history)
      invariant HistoryInRun(d, b, c.history, |old(c.history)|)
      invariant c.Valid() && c.disk == After(d, b, k) && InRun(d, b, c.disk) && c.failures == old(c.failures)
    {
      ghost var h := c.history;
      var made := c.Try();
      if !made {
        return false;
      }
      var e := b.files[k];
      var wrote := c.Write(e.name, e.bytes);
      WroteInRun(d, b, k, e.name, e.bytes, h, c.history, |old(c.history)|, c.disk);
      if !wrote {
        return false;
      }
      AfterNext(d, b, k);
      AfterIsInRun(d, b, k + 1);
    }
    ok := true;
  }

  lemma {:induction false} AfterNothing(d: Disk, b: Bundle)
    ensures After(d, b, 0) == d
  {
  }

  lemma {:induction false} AfterNext(d: Disk, b: Bundle, k: nat)
    requires k < |b.files|
    ensures After(d, b, k + 1) == After(d, b, k)[b.files[k].name := b.files[k].bytes]
  {
  }

  /** One Write call extends a history of run states by run states. */
  lemma {:induction false} WroteInRun(
      d: Disk, b: Bundle, k: nat, name: string, bytes: string, h: seq<Disk>, h': seq<Disk>, from: nat, now: Disk)
    requires !Matches(d, b) && k <= |b.files|
    requires if k < |b.files| then name == b.files[k].name && bytes == b.files[k].bytes
             else name == SENTINEL && bytes == b.checksum
    requires from <= |h| && HistoryInRun(d, b, h, from) && Appends(After(d, b, k), name, bytes, h, h')
    requires now == After(d, b, k) || IsPart(After(d, b, k), name, bytes, now)
    ensures HistoryInRun(d, b, h', from) && InRun(d, b, now)
  {
    hide Matches, After, InRun, Cut;
    AfterIsInRun(d, b, k);
    if now != After(d, b, k) {
      var n: nat :| now == After(d, b, k)[name := Cut(bytes, n)];
      WriteInRun(d, b, k, name, bytes, now, n);
    }
    forall i | from <= i < |h'| ensures InRun(d, b, h'[i]) {
      if i < |h| {
        assert h'[i] == h'[..|h|][i] == h[i];
      } else {
        var n: nat :| h'[i] == After(d, b, k)[name := Cut(bytes, n)];
        WriteInRun(d, b, k, name, bytes, h'[i], n);
      }
    }
  }

  /** Every disk that the run added to the history is safe. */
  ghost predicate SafeFrom(history: seq<Disk>, from: nat, b: Bundle) {
    forall i :: from <= i < |history| ==> Safe(history[i], b)
  }

  lemma {:induction false} RunIsSafe(d: Disk, b: Bundle, history: seq<Disk>, from: nat, now: Disk)
    requires HistoryInRun(d, b, history, from) && InRun(d, b, now)
    ensures b.Valid() && Safe(d, b) ==> SafeFrom(history, from, b) && Safe(now, b)
    ensures b.Valid() && Safe(d, b) && now == Final(d, b) ==> Matches(now, b) && Complete(now, b)
  {
    hide Matches, Final, Complete, Safe, InRun, Bundle.Valid;
    if b.Valid() && Safe(d, b) {
      CrashKeepsSafe(d, b, now);
      FinalIsComplete(d, b);
      forall i | from <= i < |history| ensures Safe(history[i], b) {
        CrashKeepsSafe(d, b, history[i]);
      }
    }
  }

  /** In plain terms: a run that is not stopped leaves the disk alone when `.complete` holds its checksum, but for
      white space around it; otherwise its files and then `.complete` are written over what was there, and
      nothing else is touched. */
  lemma {:induction false} FinalIs(d: Disk, b: Bundle, name: string)
    requires b.Valid()
    ensures var f := Final(d, b);
      if ".complete" in d && TrimSpace(d[".complete"]) == b.checksum then f == d
      else
        ".complete" in f && f[".complete"] == b.checksum &&
        (forall k :: 0 <= k < |b.files| ==> b.files[k].name in f && f[b.files[k].name] == b.files[k].bytes) &&
        (name != ".complete" && (forall k :: 0 <= k < |b.files| ==> b.files[k].name != name) ==>
          (name in f <==> name in d) && (name in d ==> f[name] == d[name]))
  {
    hide TrimSpace, After;
    AfterHolds(d, b, |b.files|);
    if forall k :: 0 <= k < |b.files| ==> b.files[k].name != name {
      AfterKeepsOthers(d, b, |b.files|, name);
    }
  }

  /** EnsureExtracted. Wherever it is stopped, the disk is a state of its run; without an error it has ended
      the run. So from a safe disk every disk it passes through is safe, and without an error the cache is
      complete. */
  method EnsureExtracted(c: Cache, b: Bundle) returns (ok: bool)
    requires c.Valid()
    modifies c
    ensures c.Valid()
    ensures |c.history| >= |old(c.history)| && c.history[..|old(c.history)|] == old(c.history)
    ensures HistoryInRun(old(c.disk), b, c.history, |old(c.history)|) && InRun(old(c.disk), b, c.disk)
    ensures ok ==> c.disk == Final(old(c.disk), b)
    ensures Matches(old(c.disk), b) ==> ok && c.disk == old(c.disk) && c.history == old(c.history)
    ensures c.failures >= old(c.failures) && (ok <==> c.failures == old(c.failures))
    ensures b.Valid() && Safe(old(c.disk), b) ==> SafeFrom(c.history, |old(c.history)|, b) && Safe(c.disk, b)
    ensures b.Valid() && Safe(old(c.disk), b) && ok ==> Matches(c.disk, b) && Complete(c.disk, b)
  {
    hide Matches, After, Writing, InRun, Safe, Complete, SafeFrom;
    ghost var d := c.disk;
    NotStarted(d, b);
    ok := Matches(c.disk, b);
    if !ok {
      var made := c.Try();
      var extracted := false;
      if made {
        extracted := ExtractFS(c, b);
      }
      if extracted {
        ghost var h := c.history;
        ok := c.Write(SENTINEL, b.checksum);
        WroteInRun(d, b, |b.files|, SENTINEL, b.checksum, h, c.history, |old(c.history)|, c.disk);
      }
    }
    RunIsSafe(d, b, c.history, |old(c.history)|, c.disk);
  }

  /** The validator's copy of the protocol: a single file, which is truncated and given an empty write
      before it is written. */
  method EnsureJarExtracted(c: Cache, jar: string, checksum: string) returns (ok: bool)
    requires c.Valid()
    modifies c
    ensures c.Valid()
    ensures var b := Bundle([Embedded("validator.jar", jar)], checksum);
      |c.history| >= |old(c.history)| && c.history[..|old(c.history)|] == old(c.history) &&
      HistoryInRun(old(c.disk), b, c.history, |old(c.history)|) && InRun(old(c.disk), b, c.disk) &&
      (ok ==> c.disk == Final(old(c.disk), b)) &&
      (Matches(old(c.disk), b) ==> ok && c.disk == old(c.disk) && c.history == old(c.history)) &&
      c.failures >= old(c.failures) && (ok <==> c.failures == old(c.failures)) &&
      (b.Valid() && Safe(old(c.disk), b) ==> SafeFrom(c.history, |old(c.history)|, b) && Safe(c.disk, b)) &&
      (b.Valid() && Safe(old(c.disk), b) && ok ==> Matches(c.disk, b) && Complete(c.disk, b))
  {
    hide Matches, After, Writing, InRun, Safe, Complete, SafeFrom;
    ghost var d := c.disk;
    var b := Bundle([Embedded("validator.jar", jar)], checksum);
    NotStarted(d, b);
    AfterNothing(d, b);
    ok := Matches(c.disk, b);
    if !ok {
      var made := c.Try();
      var wrote := false;
      if made {
        ghost var h := c.history;
        wrote := c.Rewrite("validator.jar", jar);
        WroteInRun(d, b, 0, "validator.jar", jar, h, c.history, |old(c.history)|, c.disk);
      }
      if wrote {
        AfterNext(d, b, 0);
        ghost var h := c.history;
        ok := c.Write(SENTINEL, checksum);
        WroteInRun(d, b, 1, SENTINEL, checksum, h, c.history, |old(c.history)|, c.disk);
      }
    }
    RunIsSafe(d, b, c.history, |old(c.history)|, c.disk);
  }

  lemma {:induction false} NotStarted(d: Disk, b: Bundle)
    ensures InRun(d, b, d)
    ensures Matches(d, b) ==> Final(d, b) == d
  {
  }
}
