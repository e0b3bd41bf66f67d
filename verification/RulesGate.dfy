/** internal/rulesvalidator: where the clone lands in the validator's container, and the gate that decides
    whether sync may run. */
module RulesGate {
  import opened Text
  import opened Trim
  import FileSys

  /** A clean absolute path as its components. */
  type Comps = FileSys.Path

  ghost predicate IsComp(c: string) {
    c != "" && c != "." && c != ".." && '/' !in c
  }

  ghost predicate Clean(p: Comps) {
    forall i :: 0 <= i < |p| ==> IsComp(p[i])
  }

  /** Every component with a slash in front. */
  function Tail(p: Comps): string {
    if p == [] then "" else "/" + p[0] + Tail(p[1..])
  }

  /** The path as the string the program handles. */
  function Render(p: Comps): string {
    if p == [] then "/" else Tail(p)
  }

  /** The components joined by slashes. */
  function Join(p: Comps): string
    requires p != []
  {
    p[0] + Tail(p[1..])
  }

  /** filepath.Base. */
  function Base(p: Comps): string {
    if p == [] then "/" else p[|p| - 1]
  }

  /** The length of the longest common beginning, of which the first `i` components are known. */
  function CommonFrom(a: Comps, b: Comps, i: nat): (n: nat)
    requires i <= |a| && i <= |b| && a[..i] == b[..i]
    ensures n <= |a| && n <= |b| && a[..n] == b[..n]
    ensures n < |a| && n < |b| ==> a[n] != b[n]
    decreases |a| - i
  {
    if i == |a| || i == |b| || a[i] != b[i] then i else
      assert a[..i + 1] == a[..i] + [a[i]] && b[..i + 1] == b[..i] + [b[i]];
      CommonFrom(a, b, i + 1)
  }

  function CommonPrefix(a: Comps, b: Comps): (n: nat)
    ensures n <= |a| && n <= |b| && a[..n] == b[..n]
    ensures n < |a| && n < |b| ==> a[n] != b[n]
  {
    CommonFrom(a, b, 0)
  }

  function Ups(n: nat): Comps {
    if n == 0 then [] else [".."] + Ups(n - 1)
  }

  /** filepath.Rel of two absolute paths. */
  function Rel(base: Comps, target: Comps): string {
    var n := CommonPrefix(base, target);
    var steps := Ups(|base| - n) + target[n..];
    if steps == [] then "." else Join(steps)
  }

  function ToContainerPath(cloneRoot: Comps, projectRoot: string, host: Comps): string {
    var rel := Rel(cloneRoot, host);
    if HasPrefix(rel, "..") then Render(host) else projectRoot + "/" + rel
  }

  function CloneProjectRoot(cloneRoot: Comps): string {
    "/work/" + Base(cloneRoot)
  }

  const CONTAINER_PARENT := "/work/_"

  /** path.Dir of a path that does not end in a slash. */
  function Dir(p: string): string {
    if p == "" then "" else if p[|p| - 1] == '/' then p[..|p| - 1] else Dir(p[..|p| - 1])
  }

  /** CopyDirToContainer puts a host directory beside the given container path. */
  function LandingRoot(hostDir: Comps): string {
    Dir(CONTAINER_PARENT) + "/" + Base(hostDir)
  }

  /** Where the file at `rel` below a copied directory stands in the container. */
  function Landing(hostDir: Comps, rel: Comps): string {
    LandingRoot(hostDir) + Tail(rel)
  }

  lemma {:induction false} ParentIsWork()
    ensures Dir(CONTAINER_PARENT) == "/work"
  {
    var p := CONTAINER_PARENT;
    assert p[..6] == "/work/";
    assert Dir(p) == Dir("/work/");
    assert "/work/"[..5] == "/work";
  }

  /** The project root the command line uses is where the clone lands. */
  lemma {:induction false} ProjectRootIsLanding(cloneRoot: Comps)
    ensures CloneProjectRoot(cloneRoot) == LandingRoot(cloneRoot)
    ensures cloneRoot != [] ==> LandingRoot(cloneRoot) == "/work/" + cloneRoot[|cloneRoot| - 1]
  {
    hide Dir;
    ParentIsWork();
    assert "/work" + "/" == "/work/";
  }

  lemma {:induction false} RelBelow(clone: Comps, rel: Comps)
    requires rel != []
    ensures Rel(clone, clone + rel) == Join(rel)
  {
    hide CommonPrefix;
    var n := CommonPrefix(clone, clone + rel);
    assert forall k :: 0 <= k < |clone| ==> (clone + rel)[k] == clone[k];
    assert n == |clone|;
    assert (clone + rel)[n..] == rel;
    assert Ups(0) + rel == rel;
  }

  lemma {:induction false} OneCharacter(s: string, c: char)
    requires |s| == 1
    ensures s == [c] <==> s[0] == c
  {
  }

  lemma {:induction false} DotsInFirst(rel: Comps)
    requires rel != [] && Clean(rel)
    ensures HasPrefix(Join(rel), "..") <==> HasPrefix(rel[0], "..")
  {
    hide Tail;
    var s, c := Join(rel), rel[0];
    if |c| >= 2 {
      assert s[..2] == c[..2];
    } else {
      assert s[0] == c[0];
      OneCharacter(c, '.');
      assert |s| >= 2 ==> s[..2][0] == c[0];
    }
  }

  lemma {:induction false} TailSplits(a: Comps, b: Comps)
    ensures Tail(a + b) == Tail(a) + Tail(b)
    decreases |a|
  {
    if a == [] {
      assert a + b == b;
    } else {
      TailSplits(a[1..], b);
      assert (a + b)[1..] == a[1..] + b;
      Assoc4("/" + a[0], Tail(a[1..]), Tail(b));
    }
  }

  lemma {:induction false} Assoc4(a: string, b: string, c: string)
    ensures a + (b + c) == a + b + c
  {
  }

  /** For a file below the clone, translation gives the place where the copy puts it exactly when the first
      component of its relative path does not begin with two dots (or the clone is already at /work). */
  lemma {:induction false} TranslationIff(clone: Comps, rel: Comps)
    requires Clean(clone) && Clean(rel) && rel != []
    ensures ToContainerPath(clone, CloneProjectRoot(clone), clone + rel) == Landing(clone, rel) <==>
      (!HasPrefix(rel[0], "..") || Tail(clone) == LandingRoot(clone))
  {
    hide Dir, Base, Tail, Rel;
    RelBelow(clone, rel);
    DotsInFirst(rel);
    ProjectRootIsLanding(clone);
    TailOf(rel);
    TailSplits(clone, rel);
    var root := LandingRoot(clone);
    Assoc4(root, "/", Join(rel));
    assert Render(clone + rel) == Tail(clone) + Tail(rel);
    SameFront(Tail(clone), root, Tail(rel));
  }

  lemma {:induction false} TailOf(rel: Comps)
    requires rel != []
    ensures Tail(rel) == "/" + Join(rel)
  {
    Assoc4("/", rel[0], Tail(rel[1..]));
  }

  lemma {:induction false} SameFront(a: string, b: string, c: string)
    ensures a + c == b + c <==> a == b
  {
    if a + c == b + c {
      assert |a| == |b|;
      assert a == (a + c)[..|a|] && b == (b + c)[..|b|];
    }
  }

  /** A path outside the clone is not translated; the clone itself becomes the project root with a dot. */
  lemma {:induction false} OutsideIsKept(clone: Comps, root: string, host: Comps)
    ensures !(clone <= host) ==> ToContainerPath(clone, root, host) == if host == [] then "/" else Tail(host)
    ensures ToContainerPath(clone, root, clone) == root + "/" + "."
  {
    hide Tail, CommonPrefix;
    assert clone[|clone|..] == [];
    assert CommonPrefix(clone, clone) == |clone|;
    assert Ups(0) + [] == [];
    OneCharacter(".", '.');
    if !(clone <= host) {
      var n := CommonPrefix(clone, host);
      assert clone[..n] <= host && clone[..|clone|] == clone;
      var steps := Ups(|clone| - n) + host[n..];
      UpsStart(|clone| - n);
      assert steps[0] == "..";
      assert Join(steps)[..2] == "..";
    }
  }

  lemma {:induction false} UpsStart(n: nat)
    ensures n > 0 ==> Ups(n) != [] && Ups(n)[0] == ".."
  {
  }

  /** A path whose first component begins with two dots is not translated. */
  lemma {:induction false} DottedFileNotTranslated()
    ensures var clone, rel := ["tmp", "c"], ["..x"];
      ToContainerPath(clone, CloneProjectRoot(clone), clone + rel) != Landing(clone, rel)
  {
    var clone, rel := ["tmp", "c"], ["..x"];
    assert "..x"[..2] == "..";
    assert clone[1..] == ["c"] && ["c"][1..] == [];
    assert Tail(["c"]) == "/c";
    assert Tail(clone) == "/" + "tmp" + "/c";
    ParentIsWork();
    assert LandingRoot(clone) == "/work" + "/" + "c";
    assert Tail(clone)[1] == 't' && LandingRoot(clone)[1] == 'w';
    TranslationIff(clone, rel);
  }

  // ----- Injectivity -----

  lemma {:induction false} TailInjective(a: Comps, b: Comps)
    requires Clean(a) && Clean(b) && Tail(a) == Tail(b)
    ensures a == b
    decreases |a|
  {
    if a != [] && b != [] {
      TailHead(a);
      TailHead(b);
      TailInjective(a[1..], b[1..]);
      assert a == [a[0]] + a[1..] && b == [b[0]] + b[1..];
    }
  }

  /** The first component and the rest can be read off the string. */
  lemma {:induction false} TailHead(p: Comps)
    requires p != [] && Clean(p)
    ensures var s := Tail(p)[1..]; var i := IndexByte(s, '/');
      p[0] == (if i < 0 then s else s[..i]) && Tail(p[1..]) == (if i < 0 then "" else s[i..])
  {
    hide IndexByte, Tail;
    TailCons(p, p[0], p[1..]);
    TailStart(p[1..]);
    var rest := Tail(p[1..]);
    assert Tail(p) == ['/'] + (p[0] + rest);
    var s := Tail(p)[1..];
    assert s == p[0] + rest;
    if rest == "" {
      assert s == p[0];
    } else {
      assert rest == ['/'] + rest[1..];
      assert s == p[0] + ['/'] + rest[1..];
      IndexByteBetween(p[0], '/', rest[1..]);
    }
  }

  lemma {:induction false} TailStart(p: Comps)
    ensures Tail(p) == "" || Tail(p)[0] == '/'
  {
  }

  /** Two different files below the clone are translated to two different container paths. */
  lemma {:induction false} TranslationInjective(clone: Comps, rel1: Comps, rel2: Comps)
    requires Clean(clone) && Clean(rel1) && Clean(rel2) && rel1 != [] && rel2 != []
    requires !HasPrefix(rel1[0], "..") && !HasPrefix(rel2[0], "..")
    requires ToContainerPath(clone, CloneProjectRoot(clone), clone + rel1) ==
             ToContainerPath(clone, CloneProjectRoot(clone), clone + rel2)
    ensures rel1 == rel2
  {
    hide Dir, Base, Tail, ToContainerPath, HasPrefix;
    TranslationIff(clone, rel1);
    TranslationIff(clone, rel2);
    SameBack(LandingRoot(clone), Tail(rel1), Tail(rel2));
    TailInjective(rel1, rel2);
  }

  lemma {:induction false} SameBack(a: string, b: string, c: string)
    requires a + b == a + c
    ensures b == c
  {
    assert b == (a + b)[|a|..] && c == (a + c)[|a|..];
  }

  // ----- The report -----

  const OUTPUT_DIR: Comps := ["src", "main", "resources", "Validator", "outputReport"]
  const REPORT_FILE: Comps := ["report", "json", "validation_report.json"]

  function ReportPath(cloneRoot: Comps): Comps {
    cloneRoot + (OUTPUT_DIR + REPORT_FILE)
  }

  const OUTPUT_SUFFIX := "/" + "src" +
    ("/" + "main" + ("/" + "resources" + ("/" + "Validator" + ("/" + "outputReport" + ""))))
  const FILE_SUFFIX := "/" + "report" + ("/" + "json" + ("/" + "validation_report.json" + ""))
  const REPORT_SUFFIX := OUTPUT_SUFFIX + FILE_SUFFIX

  lemma {:induction false} OutputSuffixIsTail()
    ensures Tail(OUTPUT_DIR) == OUTPUT_SUFFIX
  {
    hide Tail;
    TailCons(["src", "main", "resources", "Validator", "outputReport"], "src",
      ["main", "resources", "Validator", "outputReport"]);
    TailCons(["main", "resources", "Validator", "outputReport"], "main", ["resources", "Validator", "outputReport"]);
    TailCons(["resources", "Validator", "outputReport"], "resources", ["Validator", "outputReport"]);
    TailCons(["Validator", "outputReport"], "Validator", ["outputReport"]);
    TailCons(["outputReport"], "outputReport", []);
    TailOfNothing();
  }

  lemma {:induction false} ReportFileIsTail()
    ensures Tail(REPORT_FILE) == FILE_SUFFIX
  {
    hide Tail;
    TailCons(["report", "json", "validation_report.json"], "report", ["json", "validation_report.json"]);
    TailCons(["json", "validation_report.json"], "json", ["validation_report.json"]);
    TailCons(["validation_report.json"], "validation_report.json", []);
    TailOfNothing();
  }

  lemma {:induction false} OutputSuffixSpelt()
    ensures OUTPUT_SUFFIX == "/src" + ("/main" + ("/resources" + ("/Validator" + "/outputReport")))
  {
    assert "/" + "src" == "/src" && "/" + "main" == "/main" && "/" + "resources" == "/resources";
    assert "/" + "Validator" == "/Validator" && "/" + "outputReport" + "" == "/outputReport";
  }

  lemma {:induction false} FileSuffixSpelt()
    ensures FILE_SUFFIX == "/report" + ("/json" + "/validation_report.json")
  {
    assert "/" + "report" == "/report" && "/" + "json" == "/json";
    assert "/" + "validation_report.json" + "" == "/validation_report.json";
  }

  lemma {:induction false} TailOfNothing()
    ensures Tail([]) == ""
  {
  }

  lemma {:induction false} SuffixesAreTails()
    ensures Tail(OUTPUT_DIR + REPORT_FILE) == REPORT_SUFFIX
  {
    hide Tail;
    OutputSuffixIsTail();
    ReportFileIsTail();
    TailSplits(OUTPUT_DIR, REPORT_FILE);
  }

  lemma {:induction false} TailCons(q: Comps, c: string, p: Comps)
    requires q == [c] + p
    ensures Tail(q) == "/" + c + Tail(p)
  {
    assert q[1..] == p;
  }

  lemma {:induction false} ReportIsClean()
    ensures Clean(OUTPUT_DIR + REPORT_FILE) && !HasPrefix((OUTPUT_DIR + REPORT_FILE)[0], "..")
  {
    assert "src"[..2][0] == 's';
  }

  /** The container path the report is copied from is the translation of the host path it is read at. */
  lemma {:induction false} ReportCopiedFromTranslation(clone: Comps)
    requires Clean(clone)
    ensures CloneProjectRoot(clone) +
              (("/src" + ("/main" + ("/resources" + ("/Validator" + "/outputReport")))) +
               ("/report" + ("/json" + "/validation_report.json"))) ==
            ToContainerPath(clone, CloneProjectRoot(clone), ReportPath(clone))
  {
    hide Tail, ToContainerPath, Base, Dir, HasPrefix;
    SuffixesAreTails();
    OutputSuffixSpelt();
    FileSuffixSpelt();
    ReportIsClean();
    TranslationIff(clone, OUTPUT_DIR + REPORT_FILE);
    ProjectRootIsLanding(clone);
  }

  // ----- The gate -----

  datatype Report = Report(status: string)

  datatype Found<T> = Absent | Present(value: T)

  /** Decide: only these two statuses let the pipeline go on. */
  predicate Passes(r: Report) {
    r.status == "PASS" || r.status == "INFO"
  }

  /** A file at the report's place: none, one that cannot be parsed, or a report. */
  datatype OnDisk = NoFile | Unparsable | Parsed(report: Report)

  /** What copying the results out of the container yields. `stale` was in the clone before the run; `zipped`
      is what unpacking the archive puts there, if that works; `direct` the container's own file. */
  datatype CopyOut = CopyOut(stale: OnDisk, zipped: OnDisk, direct: OnDisk)

  /** The file that is at the host path afterwards: the container's is fetched only when none is there. */
  function ReportOnHost(c: CopyOut): OnDisk {
    if c.zipped != NoFile then c.zipped else if c.stale != NoFile then c.stale else c.direct
  }

  datatype GateError = RulesetMissing | RunFailed | NoReport | NotPassed(status: string)

  datatype Verdict = Allowed(evidence: string) | Blocked(evidence: string, error: GateError)

  /** The environment of one validation: is the ruleset there, what does the container print, does running
      it fail, and what is copied out. */
  datatype Validation = Validation(rulesetThere: bool, output: string, runFails: bool, copied: CopyOut)

  /** Whether the validator's container was run, and what was written to the live log. */
  class GateLog {
    var ran: bool
    var text: string

    constructor ()
      ensures !ran && text == ""
    {
      ran, text := false, "";
    }
  }

  /** ValidatePreSync. It allows sync exactly when the ruleset is there, the container ran, and the report
      on the host has a passing status; the container runs only with a ruleset, and what it printed is
      logged and returned whatever is decided. */
  method ValidatePreSync(v: Validation, log: GateLog) returns (r: Verdict)
    modifies log
    ensures var file := if v.copied.zipped != NoFile then v.copied.zipped
                        else if v.copied.stale != NoFile then v.copied.stale else v.copied.direct;
      (r.Allowed? <==>
        v.rulesetThere && !v.runFails && file.Parsed? &&
        (file.report.status == "PASS" || file.report.status == "INFO")) &&
      (r.Blocked? && r.error == NoReport <==> v.rulesetThere && !v.runFails && !file.Parsed?) &&
      (r.Blocked? && r.error.NotPassed? ==> file.Parsed? && r.error.status == file.report.status)
    ensures log.ran == (old(log.ran) || v.rulesetThere)
    ensures log.text == if v.rulesetThere then old(log.text) + v.output else old(log.text)
    ensures r.evidence == if v.rulesetThere then v.output else ""
    ensures r.Blocked? && r.error == RulesetMissing <==> !v.rulesetThere
    ensures r.Blocked? && r.error == RunFailed <==> v.rulesetThere && v.runFails
  {
    if !v.rulesetThere {
      return Blocked("", RulesetMissing);
    }
    log.ran := true;
    if |v.output| > 0 {
      log.text := log.text + v.output;
    }
    if v.runFails {
      return Blocked(v.output, RunFailed);
    }
    match ReportOnHost(v.copied)
    case NoFile => r := Blocked(v.output, NoReport);
    case Unparsable => r := Blocked(v.output, NoReport);
    case Parsed(rpt) => r := if Passes(rpt) then Allowed(v.output) else Blocked(v.output, NotPassed(rpt.status));
  }

  /** The gate reads the report of this run, for every outcome of the run, exactly when the archive was
      unpacked or no report was in the clone before. */
  lemma {:induction false} GateReadsThisRunIff(stale: OnDisk, zipped: OnDisk)
    ensures
      (forall direct ::
        ReportOnHost(CopyOut(stale, zipped, direct)) == if zipped != NoFile then zipped else direct) <==>
      (zipped != NoFile || stale == NoFile)
  {
    if zipped == NoFile && stale != NoFile {
      assert ReportOnHost(CopyOut(stale, zipped, NoFile)) != NoFile;
    }
  }
}
