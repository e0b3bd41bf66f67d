/** internal/domain/scrub.go: redaction of secrets in traces. */
module Scrub {
  import opened Text

  const REDACTED := "REDACTED"
  const MARK := "[REDACTED]"

  /** strings.ReplaceAll on the text from `start`: left to right, without overlaps. */
  function ReplacedFrom(s: string, old_: string, new_: string, start: nat): string
    requires old_ != "" && start <= |s|
    decreases |s| - start
  {
    var i := IndexAt(s, old_, start);
    if i < 0 then s[start..] else s[start..i] + new_ + ReplacedFrom(s, old_, new_, i + |old_|)
  }

  function Replaced(s: string, old_: string, new_: string): string
    requires old_ != ""
  {
    ReplacedFrom(s, old_, new_, 0)
  }

  /** What ScrubSecrets computes: the secrets are replaced one after the other. */
  function Scrubbed(s: string, secrets: seq<string>): string
    decreases |secrets|
  {
    if secrets == [] then s
    else if secrets[0] == "" then Scrubbed(s, secrets[1..])
    else Scrubbed(Replaced(s, secrets[0], MARK), secrets[1..])
  }

  lemma {:induction false} ReplacedStep(r: string, s: string, old_: string, new_: string, start: nat)
    requires old_ != "" && start <= |s|
    ensures var i := IndexAt(s, old_, start);
      r + ReplacedFrom(s, old_, new_, start) ==
      if i < 0 then r + s[start..] else r + s[start..i] + new_ + ReplacedFrom(s, old_, new_, i + |old_|)
  {
    hide IndexAt;
    var i := IndexAt(s, old_, start);
    if i >= 0 {
      Assoc(r, s[start..i], new_, ReplacedFrom(s, old_, new_, i + |old_|));
    }
  }

  method ReplaceAll(s: string, old_: string, new_: string) returns (r: string)
    requires old_ != ""
    ensures r == Replaced(s, old_, new_)
  {
    hide IndexAt, ReplacedFrom;
    r := "";
    var start := 0;
    var i := IndexAt(s, old_, start);
    while i >= 0
      invariant 0 <= start <= |s| && i == IndexAt(s, old_, start)
      invariant Replaced(s, old_, new_) == r + ReplacedFrom(s, old_, new_, start)
      decreases |s| - start
    {
      ReplacedStep(r, s, old_, new_, start);
      r := r + s[start..i] + new_;
      start := i + |old_|;
      i := IndexAt(s, old_, start);
    }
    ReplacedStep(r, s, old_, new_, start);
    r := r + s[start..];
  }

  method ScrubSecrets(s: string, secrets: seq<string>) returns (r: string)
    ensures r == Scrubbed(s, secrets)
  {
    r := s;
    for k := 0 to |secrets|
      invariant Scrubbed(r, secrets[k..]) == Scrubbed(s, secrets)
    {
      assert secrets[k..][0] == secrets[k] && secrets[k..][1..] == secrets[k + 1..];
      if secrets[k] != "" {
        r := ReplaceAll(r, secrets[k], MARK);
      }
    }
  }

  // ----- What replacing means: the text between the occurrences is kept, in order -----

  function Join(gaps: seq<string>, sep: string): string
    requires gaps != []
  {
    if |gaps| == 1 then gaps[0] else gaps[0] + sep + Join(gaps[1..], sep)
  }

  /** The pieces of the text, from `start`, between the replaced occurrences of `p`. */
  function Gaps(s: string, p: string, start: nat): (gaps: seq<string>)
    requires p != "" && start <= |s|
    ensures gaps != []
    decreases |s| - start
  {
    var i := IndexAt(s, p, start);
    if i < 0 then [s[start..]] else [s[start..i]] + Gaps(s, p, i + |p|)
  }

  /** The text is its gaps joined by the secret; the result is the same gaps joined by the mark. */
  lemma {:induction false} ReplacedKeepsGaps(s: string, p: string, m: string, start: nat)
    requires p != "" && start <= |s|
    ensures Join(Gaps(s, p, start), p) == s[start..]
    ensures Join(Gaps(s, p, start), m) == ReplacedFrom(s, p, m, start)
    decreases |s| - start
  {
    hide IndexAt;
    var i := IndexAt(s, p, start);
    IndexAtIsLeftmost(s, p, start);
    if i >= 0 {
      var gaps := Gaps(s, p, i + |p|);
      ReplacedKeepsGaps(s, p, m, i + |p|);
      assert ([s[start..i]] + gaps)[1..] == gaps;
      CutAt(s, p, start, i);
    }
  }

  /** No gap holds the secret any more. */
  lemma {:induction false} GapsAreClean(s: string, p: string, start: nat)
    requires p != "" && start <= |s|
    ensures forall g :: g in Gaps(s, p, start) ==> !Contains(g, p)
    decreases |s| - start
  {
    hide IndexAt, OccursAt;
    var i := IndexAt(s, p, start);
    IndexAtIsLeftmost(s, p, start);
    var end := if i >= 0 then i else |s|;
    assert s[start..end] == if i >= 0 then s[start..i] else s[start..];
    AbsentInSlice(s, start, end, p);
    if i >= 0 {
      GapsAreClean(s, p, i + |p|);
    }
  }

  // ----- No secret survives -----

  /** Laid over the mark with its first character at position `d`, the pattern agrees with it wherever the
      two overlap, and they do overlap. */
  predicate AgreesAt(q: string, d: int) {
    -|q| < d < |MARK| && forall k | 0 <= k < |q| && 0 <= d + k < |MARK| :: q[k] == MARK[d + k]
  }

  /** The pattern is part of the mark, contains it, or can share one of its ends. */
  predicate Clashes(q: string) {
    exists d | -|q| < d < |MARK| :: AgreesAt(q, d)
  }

  /** An occurrence in a text around a mark lies left of it, right of it, or over it. */
  lemma {:induction false} OccursAroundMark(a: string, b: string, q: string, j: int)
    requires OccursAt(a + MARK + b, q, j) && q != ""
    ensures OccursAt(a, q, j) || OccursAt(b, q, j - |a| - |MARK|) || AgreesAt(q, j - |a|)
  {
    hide OccursAt;
    var s, m := a + MARK + b, |a| + |MARK|;
    assert s[0..|a|] == a && s[m..|s|] == b && s[|a|..m] == MARK;
    OccursInSlice(s, 0, |a|, q, j);
    OccursInSlice(s, m, |s|, q, j - m);
    OccursChars(s, q, j);
    OverSlice(s, |a|, m, q, j);
  }

  lemma {:induction false} OverSlice(s: string, lo: nat, hi: nat, q: string, j: nat)
    requires lo <= hi && j + |q| <= |s| && hi <= |s| && s[lo..hi] == MARK
    requires forall k :: 0 <= k < |q| ==> q[k] == s[j + k]
    ensures lo - |q| < j < hi ==> AgreesAt(q, j - lo)
  {
    if lo - |q| < j < hi {
      forall k | 0 <= k < |q| && 0 <= j - lo + k < |MARK| ensures q[k] == MARK[j - lo + k] {
        assert s[lo..hi][j - lo + k] == s[j + k];
      }
    }
  }

  lemma {:induction false} AbsentAroundMark(a: string, b: string, q: string)
    requires q != "" && !Clashes(q) && !Contains(a, q) && !Contains(b, q)
    ensures !Contains(a + MARK + b, q)
  {
    hide AgreesAt, OccursAt;
    forall j ensures !OccursAt(a + MARK + b, q, j) {
      if OccursAt(a + MARK + b, q, j) {
        OccursAroundMark(a, b, q, j);
        AgreesInRange(q, j - |a|);
      }
    }
  }

  lemma {:induction false} AgreesInRange(q: string, d: int)
    ensures AgreesAt(q, d) ==> -|q| < d < |MARK|
  {
  }

  /** Replacing `p` removes `p`, and never makes another secret `q` appear. */
  lemma {:induction false} ReplacedAbsent(s: string, p: string, q: string, start: nat)
    requires p != "" && start <= |s|
    requires q != "" && !Clashes(q) && (p == q || !Contains(s, q))
    ensures !Contains(ReplacedFrom(s, p, MARK, start), q)
    decreases |s| - start
  {
    hide IndexAt, OccursAt, Clashes;
    var i := IndexAt(s, p, start);
    IndexAtIsLeftmost(s, p, start);
    var end := if i >= 0 then i else |s|;
    var a := s[start..end];
    AbsentInSlice(s, start, end, q);
    if i >= 0 {
      ReplacedAbsent(s, p, q, i + |p|);
      AbsentAroundMark(a, ReplacedFrom(s, p, MARK, i + |p|), q);
    } else {
      assert a == s[start..];
    }
  }

  lemma {:induction false} AbsentStaysAbsent(s: string, secrets: seq<string>, q: string)
    requires q != "" && !Clashes(q) && !Contains(s, q)
    ensures !Contains(Scrubbed(s, secrets), q)
    decreases |secrets|
  {
    hide Clashes;
    if secrets != [] {
      if secrets[0] != "" {
        ReplacedAbsent(s, secrets[0], q, 0);
        AbsentStaysAbsent(Replaced(s, secrets[0], MARK), secrets[1..], q);
      } else {
        AbsentStaysAbsent(s, secrets[1..], q);
      }
    }
  }

  /** A secret that cannot overlap the mark is gone, whatever else is scrubbed along with it. */
  lemma {:induction false} SecretIsGone(s: string, secrets: seq<string>, q: string)
    requires q in secrets && q != "" && !Clashes(q)
    ensures !Contains(Scrubbed(s, secrets), q)
    decreases |secrets|
  {
    hide Clashes;
    var p := secrets[0];
    if p == q {
      ReplacedAbsent(s, p, p, 0);
      AbsentStaysAbsent(Replaced(s, p, MARK), secrets[1..], p);
    } else {
      assert q in secrets[1..];
      SecretIsGone(if p == "" then s else Replaced(s, p, MARK), secrets[1..], q);
    }
  }

  ghost predicate NoneOccurs(s: string, secrets: seq<string>) {
    forall p :: p in secrets && p != "" ==> !Contains(s, p)
  }

  ghost predicate NoneClashes(secrets: seq<string>) {
    forall p :: p in secrets && p != "" ==> !Clashes(p)
  }

  /** For any list and order of secrets that cannot overlap the mark, no secret is left in the output. */
  lemma {:induction false} NoSecretSurvives(s: string, secrets: seq<string>)
    requires NoneClashes(secrets)
    ensures NoneOccurs(Scrubbed(s, secrets), secrets)
  {
    hide Clashes;
    forall q | q in secrets && q != "" ensures !Contains(Scrubbed(s, secrets), q) {
      SecretIsGone(s, secrets, q);
    }
  }

  lemma {:induction false} ScrubbedUnchanged(s: string, secrets: seq<string>)
    requires NoneOccurs(s, secrets)
    ensures Scrubbed(s, secrets) == s
    decreases |secrets|
  {
    if secrets != [] {
      assert secrets[0] in secrets;
      assert forall q :: q in secrets[1..] ==> q in secrets;
      if secrets[0] != "" {
        IndexFinds(s, secrets[0]);
      }
      ScrubbedUnchanged(s, secrets[1..]);
    }
  }

  lemma {:induction false} ScrubIdempotent(s: string, secrets: seq<string>)
    requires NoneClashes(secrets)
    ensures Scrubbed(Scrubbed(s, secrets), secrets) == Scrubbed(s, secrets)
  {
    NoSecretSurvives(s, secrets);
    ScrubbedUnchanged(Scrubbed(s, secrets), secrets);
  }

  // ----- The condition is exact -----

  /** A text that holds no `q`, and in which replacing `p` puts the mark exactly where `q` agrees with it. */
  lemma {:induction false} ClashComesTrue(q: string, d: int) returns (s: string, p: string)
    requires q != "" && AgreesAt(q, d)
    ensures p != "" && !Contains(s, q) && Contains(Replaced(s, p, MARK), q)
  {
    hide OccursAt, AgreesAt;
    AgreesInRange(q, d);
    var u, w := LeftOf(q, d), RightOf(q, d);
    var c := OtherThan(q[0], q[|q| - 1], if u == "" then 'w' else u[|u| - 1]);
    p := seq(|q| + 1, _ => c);
    s := u + p + w;
    forall j ensures !OccursAt(s, q, j) {
      RunHidesPattern(u, p, w, c, q, j);
    }
    RunIsReplaced(u, p, w, c);
    MarkCompletes(q, d);
  }

  function OtherThan(a: char, b: char, c: char): (d: char)
    ensures d != a && d != b && d != c
  {
    if 'w' !in {a, b, c} then 'w' else if 'x' !in {a, b, c} then 'x' else if 'y' !in {a, b, c} then 'y' else 'z'
  }

  /** What of the pattern stands left and right of the mark. */
  function LeftOf(q: string, d: int): (u: string)
    requires -|q| < d
    ensures |u| < |q| || (q == "" && u == "")
  {
    if d < 0 then q[..-d] else ""
  }

  function RightOf(q: string, d: int): (w: string)
    requires d < |MARK|
    ensures |w| < |q| || (q == "" && w == "")
  {
    if d + |q| > |MARK| && |MARK| - d <= |q| then q[|MARK| - d..] else ""
  }

  lemma {:induction false} MarkCompletes(q: string, d: int)
    requires q != "" && AgreesAt(q, d)
    ensures Contains(LeftOf(q, d) + MARK + RightOf(q, d), q)
  {
    var u, w := LeftOf(q, d), RightOf(q, d);
    var s, j := u + MARK + w, if d < 0 then 0 else d;
    assert forall k :: 0 <= k < |q| ==> q[k] == s[j + k];
    OccursChars(s, q, j);
  }

  /** A run of a character that is neither the first nor the last of `q`, longer than `q`, between texts
      shorter than `q`: `q` is nowhere. */
  lemma {:induction false} RunHidesPattern(u: string, p: string, w: string, c: char, q: string, j: int)
    requires q != "" && |p| == |q| + 1 && |u| < |q| && |w| < |q| && c != q[0] && c != q[|q| - 1]
    requires forall k :: 0 <= k < |p| ==> p[k] == c
    ensures !OccursAt(u + p + w, q, j)
  {
    hide OccursAt;
    var s := u + p + w;
    OccursChars(s, q, j);
    assert forall i :: |u| <= i < |u| + |p| ==> s[i] == c;
    var first, last := j, j + |q| - 1;
    assert |u| <= first < |u| + |p| ==> s[first] == c;
    assert |u| <= last < |u| + |p| ==> s[last] == c;
  }

  lemma {:induction false} RunIsReplaced(u: string, p: string, w: string, c: char)
    requires |u| < |p| && |w| < |p| && (u != "" ==> u[|u| - 1] != c) && forall k :: 0 <= k < |p| ==> p[k] == c
    ensures Replaced(u + p + w, p, MARK) == u + MARK + w
  {
    hide OccursAt, IndexAt;
    var s := u + p + w;
    forall j | 0 <= j < |u| ensures !OccursAt(s, p, j) {
      OccursChars(s, p, j);
      assert p[|u| - 1 - j] == c && s[j + (|u| - 1 - j)] == u[|u| - 1];
    }
    assert OccursAt(s, p, |u|) by {
      OccursChars(s, p, |u|);
    }
    IndexAtUnique(s, p, 0, |u|);
    assert IndexAt(s, p, |u| + |p|) == -1;
    assert s[0..|u|] == u && s[|u| + |p|..] == w;
    assert ReplacedFrom(s, p, MARK, |u| + |p|) == w;
    assert ReplacedFrom(s, p, MARK, 0) == s[0..|u|] + MARK + ReplacedFrom(s, p, MARK, |u| + |p|);
  }

  /** A secret is gone from every text, whatever other secrets are scrubbed along with it, exactly when it
      cannot overlap the mark. */
  lemma {:induction false} GoneInAnyCompanyIff(q: string)
    requires q != ""
    ensures (forall s, secrets :: q in secrets ==> !Contains(Scrubbed(s, secrets), q)) <==> !Clashes(q)
  {
    hide AgreesAt, Contains;
    if Clashes(q) {
      var d :| AgreesAt(q, d);
      var s, p := ClashComesTrue(q, d);
      var secrets := [q, p];
      TwoSecrets(s, q, p);
      assert q in secrets;
    } else {
      forall s, secrets | q in secrets ensures !Contains(Scrubbed(s, secrets), q) {
        SecretIsGone(s, secrets, q);
      }
    }
  }

  lemma {:induction false} TwoSecrets(s: string, q: string, p: string)
    requires q != "" && p != "" && !Contains(s, q)
    ensures Scrubbed(s, [q, p]) == Replaced(s, p, MARK)
  {
    hide IndexAt;
    IndexFinds(s, q);
    assert Replaced(s, q, MARK) == s;
    assert [q, p][1..] == [p] && [p][1..] == [];
    assert Scrubbed(s, [q, p]) == Scrubbed(s, [p]);
    assert Scrubbed(s, [p]) == Scrubbed(Replaced(s, p, MARK), []);
  }

  // ----- What is kept of the text, for a list of secrets -----

  /** The gaps and the pieces cut out between them, in order. */
  function Weave(gaps: seq<string>, cut: seq<string>): string
    requires |gaps| == |cut| + 1
  {
    if cut == [] then gaps[0] else gaps[0] + cut[0] + Weave(gaps[1..], cut[1..])
  }

  lemma {:induction false} WeaveJoins(a: seq<string>, x: seq<string>, y: string, b: seq<string>, z: seq<string>)
    requires |a| == |x| + 1 && |b| == |z| + 1
    ensures |a + b| == |x + [y] + z| + 1 && Weave(a + b, x + [y] + z) == Weave(a, x) + y + Weave(b, z)
    decreases |x|
  {
    var whole := x + [y] + z;
    if x == [] {
      assert whole[0] == y && whole[1..] == z && (a + b)[1..] == b;
    } else {
      assert whole[0] == x[0] && whole[1..] == x[1..] + [y] + z && (a + b)[1..] == a[1..] + b;
      WeaveJoins(a[1..], x[1..], y, b, z);
      Assoc5(a[0], x[0], Weave(a[1..], x[1..]), y, Weave(b, z));
    }
  }

  lemma {:induction false} Assoc5(a: string, b: string, c: string, d: string, e: string)
    ensures a + b + (c + d + e) == a + b + c + d + e
  {
  }

  lemma {:induction false} JoinJoins(a: seq<string>, b: seq<string>, sep: string)
    requires a != [] && b != []
    ensures Join(a + b, sep) == Join(a, sep) + sep + Join(b, sep)
    decreases |a|
  {
    if |a| == 1 {
      assert (a + b)[1..] == b;
    } else {
      assert (a + b)[1..] == a[1..] + b;
      JoinJoins(a[1..], b, sep);
      Assoc5(a[0], sep, Join(a[1..], sep), sep, Join(b, sep));
    }
  }

  /** Copies of one secret, as many as fit between the gaps. */
  function Copies(p: string, n: nat): seq<string> {
    seq(n, _ => p)
  }

  lemma {:induction false} JoinIsWeave(gaps: seq<string>, p: string)
    requires gaps != []
    ensures Weave(gaps, Copies(p, |gaps| - 1)) == Join(gaps, p)
    decreases |gaps|
  {
    if |gaps| > 1 {
      assert Copies(p, |gaps| - 1)[1..] == Copies(p, |gaps[1..]| - 1);
      JoinIsWeave(gaps[1..], p);
    }
  }

  /** No replacement starts between `i` and `j`. */
  lemma {:induction false} ReplacedSkips(s: string, p: string, i: nat, j: nat)
    requires p != "" && i <= j <= |s| && forall k :: i <= k < j ==> !OccursAt(s, p, k)
    ensures ReplacedFrom(s, p, MARK, i) == s[i..j] + ReplacedFrom(s, p, MARK, j)
    decreases j - i
  {
    hide OccursAt, ReplacedFrom;
    if i < j {
      ReplacedSkips(s, p, i + 1, j);
      NotHere(s, p, i);
      Spliced(s, i, j, ReplacedFrom(s, p, MARK, j));
    } else {
      assert s[i..j] == "";
    }
  }

  lemma {:induction false} Spliced(s: string, i: nat, j: nat, rest: string)
    requires i < j <= |s|
    ensures [s[i]] + (s[i + 1..j] + rest) == s[i..j] + rest
  {
  }

  lemma {:induction false} NotHere(s: string, p: string, i: nat)
    requires p != "" && i < |s| && !OccursAt(s, p, i)
    ensures ReplacedFrom(s, p, MARK, i) == [s[i]] + ReplacedFrom(s, p, MARK, i + 1)
  {
    hide IndexAt, OccursAt;
    var k := IndexAt(s, p, i + 1);
    SearchGoesOn(s, p, i);
    if k >= 0 {
      assert s[i..k] == [s[i]] + s[i + 1..k];
      Assoc([s[i]], s[i + 1..k], MARK, ReplacedFrom(s, p, MARK, k + |p|));
    } else {
      assert s[i..] == [s[i]] + s[i + 1..];
    }
  }

  lemma {:induction false} SearchGoesOn(s: string, p: string, i: nat)
    requires p != "" && i < |s| && !OccursAt(s, p, i)
    ensures IndexAt(s, p, i) == IndexAt(s, p, i + 1)
  {
  }

  /** Replacement in the rest of a text. */
  lemma {:induction false} ReplacedShifts(s: string, b: string, p: string, m: nat, k: nat)
    requires p != "" && m <= |s| && b == s[m..] && k <= |b|
    ensures ReplacedFrom(s, p, MARK, m + k) == ReplacedFrom(b, p, MARK, k)
    decreases |b| - k
  {
    hide IndexAt;
    IndexShifts(s, b, p, m, k);
    var x := IndexAt(b, p, k);
    if x >= 0 {
      ReplacedShifts(s, b, p, m, x + |p|);
      assert s[m + k..m + x] == b[k..x];
    } else {
      assert s[m + k..] == b[k..];
    }
  }

  lemma {:induction false} IndexShifts(s: string, b: string, p: string, m: nat, k: nat)
    requires m <= |s| && b == s[m..] && k <= |b|
    ensures IndexAt(s, p, m + k) == (if IndexAt(b, p, k) < 0 then -1 else m + IndexAt(b, p, k))
    decreases |b| - k
  {
    if k + |p| <= |b| {
      assert s[m + k..m + k + |p|] == b[k..k + |p|];
      if b[k..k + |p|] != p && k < |b| {
        IndexShifts(s, b, p, m, k + 1);
      }
    }
  }

  /** A text without the secret stays as it is; in any other, the leftmost occurrence is replaced, and then the
      text after it is dealt with in the same way. */
  lemma {:induction false} LeftmostFirst(s: string, p: string, i: nat)
    requires p != ""
    ensures !Contains(s, p) ==> Replaced(s, p, "[REDACTED]") == s
    ensures OccursAt(s, p, i) && (forall j :: 0 <= j < i ==> !OccursAt(s, p, j)) ==>
      Replaced(s, p, "[REDACTED]") == s[..i] + "[REDACTED]" + Replaced(s[i + |p|..], p, "[REDACTED]")
  {
    hide IndexAt, OccursAt, ReplacedFrom;
    IndexFinds(s, p);
    ReplacedUnfolds(s, p, 0);
    assert s[0..] == s;
    if OccursAt(s, p, i) && forall j :: 0 <= j < i ==> !OccursAt(s, p, j) {
      IndexAtUnique(s, p, 0, i);
      FitsInText(s, p, i);
      ReplacedShifts(s, s[i + |p|..], p, i + |p|, 0);
      assert s[0..i] == s[..i];
    }
  }

  lemma {:induction false} FitsInText(s: string, p: string, i: int)
    requires OccursAt(s, p, i)
    ensures 0 <= i && i + |p| <= |s|
  {
  }

  /** The secrets are replaced one after the other, the first one first; an empty one is passed over. `ts` are the
      texts on the way. */
  lemma {:induction false} ScrubbedInOrder(s: string, secrets: seq<string>) returns (ts: seq<string>)
    ensures |ts| == |secrets| + 1 && ts[0] == s && ts[|secrets|] == Scrubbed(s, secrets)
    ensures forall i :: 0 <= i < |secrets| ==>
      ts[i + 1] == if secrets[i] == "" then ts[i] else Replaced(ts[i], secrets[i], "[REDACTED]")
    decreases |secrets|
  {
    hide Replaced;
    ts := [s];
    if secrets != [] {
      var next := if secrets[0] == "" then s else Replaced(s, secrets[0], MARK);
      var rest := ScrubbedInOrder(next, secrets[1..]);
      ts := [s] + rest;
      assert forall i :: 0 <= i < |rest| ==> ts[i + 1] == rest[i];
      forall i | 0 <= i < |secrets|
        ensures ts[i + 1] == if secrets[i] == "" then ts[i] else Replaced(ts[i], secrets[i], MARK)
      {
        if i > 0 {
          assert secrets[1..][i - 1] == secrets[i];
          assert rest[(i - 1) + 1] == ts[i + 1];
        }
      }
    }
  }

  lemma {:induction false} MarkThenRest(a: string, b: string, p: string, i: nat)
    requires p != "" && i <= |a| && forall k :: i <= k < |a| + |MARK| ==> !OccursAt(a + MARK + b, p, k)
    ensures ReplacedFrom(a + MARK + b, p, MARK, i) == a[i..] + MARK + Replaced(b, p, MARK)
  {
    hide OccursAt, ReplacedFrom;
    var s, m := a + MARK + b, |a| + |MARK|;
    assert s[m..] == b && s[i..m] == a[i..] + MARK;
    ReplacedSkips(s, p, i, m);
    ReplacedShifts(s, b, p, m, 0);
  }

  lemma {:induction false} ReplacedUnfolds(s: string, p: string, i: nat)
    requires p != "" && i <= |s|
    ensures var k := IndexAt(s, p, i);
      ReplacedFrom(s, p, MARK, i) == if k < 0 then s[i..] else s[i..k] + MARK + ReplacedFrom(s, p, MARK, k + |p|)
  {
    hide IndexAt;
  }

  /** A mark splits the replacement of a secret that cannot overlap it. */
  lemma {:induction false} ReplacedAroundMark(a: string, b: string, p: string, i: nat)
    requires p != "" && !Clashes(p) && i <= |a|
    ensures ReplacedFrom(a + MARK + b, p, MARK, i) == ReplacedFrom(a, p, MARK, i) + MARK + Replaced(b, p, MARK)
    decreases |a| - i
  {
    hide IndexAt, OccursAt, Clashes, Replaced, ReplacedFrom;
    var s := a + MARK + b;
    var x := IndexAt(a, p, i);
    IndexAtIsLeftmost(a, p, i);
    forall k | i <= k < if x < 0 then |a| + |MARK| else x ensures !OccursAt(s, p, k) {
      OnlyBesideMark(a, b, p, k);
    }
    ReplacedUnfolds(a, p, i);
    if x < 0 {
      MarkThenRest(a, b, p, i);
    } else {
      assert s[0..|a|] == a && s[i..x] == a[i..x];
      OccursInSlice(s, 0, |a|, p, x);
      IndexAtUnique(s, p, i, x);
      ReplacedUnfolds(s, p, i);
      ReplacedAroundMark(a, b, p, x + |p|);
      Assoc5(a[i..x], MARK, ReplacedFrom(a, p, MARK, x + |p|), MARK, Replaced(b, p, MARK));
    }
  }

  lemma {:induction false} OnlyBesideMark(a: string, b: string, p: string, k: nat)
    requires p != "" && !Clashes(p) && k < |a| + |MARK|
    ensures OccursAt(a + MARK + b, p, k) ==> OccursAt(a, p, k)
  {
    if OccursAt(a + MARK + b, p, k) {
      OccursAroundMark(a, b, p, k);
      AgreesInRange(p, k - |a|);
    }
  }

  /** One more secret cuts each gap in turn. */
  lemma {:induction false} CutGaps(gaps: seq<string>, cut: seq<string>, p: string)
    returns (gaps': seq<string>, cut': seq<string>)
    requires p != "" && !Clashes(p) && |gaps| == |cut| + 1
    ensures |gaps'| == |cut'| + 1 && Weave(gaps', cut') == Weave(gaps, cut)
    ensures Join(gaps', MARK) == Replaced(Join(gaps, MARK), p, MARK)
    ensures forall c :: c in cut' ==> c in cut || c == p
    decreases |gaps|
  {
    hide Clashes, IndexAt, ReplacedFrom;
    var g := gaps[0];
    var first := Gaps(g, p, 0);
    ReplacedKeepsGaps(g, p, MARK, 0);
    JoinIsWeave(first, p);
    assert g[0..] == g;
    var copies := Copies(p, |first| - 1);
    if cut == [] {
      gaps', cut' := first, copies;
    } else {
      var rest, more := CutGaps(gaps[1..], cut[1..], p);
      gaps', cut' := first + rest, copies + [cut[0]] + more;
      WeaveJoins(first, copies, cut[0], rest, more);
      JoinJoins(first, rest, MARK);
      ReplacedAroundMark(g, Join(gaps[1..], MARK), p, 0);
    }
  }

  /** For any list of secrets that cannot overlap the mark, the text is a row of gaps with secrets of the list
      between them, and the result is the same gaps, in order, with the mark between them; no gap holds a
      secret. */
  lemma {:induction false} ScrubbedKeepsGaps(s: string, secrets: seq<string>)
    returns (gaps: seq<string>, cut: seq<string>)
    requires NoneClashes(secrets)
    ensures |gaps| == |cut| + 1 && Weave(gaps, cut) == s && Join(gaps, MARK) == Scrubbed(s, secrets)
    ensures forall c :: c in cut ==> c in secrets && c != ""
    ensures forall g :: g in gaps ==> NoneOccurs(g, secrets)
  {
    gaps, cut := CutAll([s], [], secrets);
    NoSecretSurvives(s, secrets);
    forall g | g in gaps ensures NoneOccurs(g, secrets) {
      GapInJoin(gaps, g, secrets);
    }
  }

  lemma {:induction false} CutAll(gaps: seq<string>, cut: seq<string>, secrets: seq<string>)
    returns (gaps': seq<string>, cut': seq<string>)
    requires NoneClashes(secrets) && |gaps| == |cut| + 1
    ensures |gaps'| == |cut'| + 1 && Weave(gaps', cut') == Weave(gaps, cut)
    ensures Join(gaps', MARK) == Scrubbed(Join(gaps, MARK), secrets)
    ensures forall c :: c in cut' ==> c in cut || (c in secrets && c != "")
    decreases |secrets|
  {
    hide Clashes, Weave, Join, Replaced;
    gaps', cut' := gaps, cut;
    if secrets != [] {
      assert forall q :: q in secrets[1..] ==> q in secrets;
      if secrets[0] != "" {
        gaps', cut' := CutGaps(gaps, cut, secrets[0]);
      }
      gaps', cut' := CutAll(gaps', cut', secrets[1..]);
    }
  }

  /** A gap is a piece of the joined text. */
  lemma {:induction false} GapInJoin(gaps: seq<string>, g: string, secrets: seq<string>)
    requires g in gaps && NoneOccurs(Join(gaps, MARK), secrets)
    ensures NoneOccurs(g, secrets)
    decreases |gaps|
  {
    hide OccursAt;
    forall p | p in secrets && p != "" ensures !Contains(g, p) {
      if Contains(g, p) {
        GapOccurs(gaps, g, p);
      }
    }
  }

  lemma {:induction false} GapOccurs(gaps: seq<string>, g: string, p: string)
    requires g in gaps && Contains(g, p)
    ensures Contains(Join(gaps, MARK), p)
    decreases |gaps|
  {
    hide OccursAt;
    if |gaps| > 1 {
      var rest := Join(gaps[1..], MARK);
      if g == gaps[0] {
        assert "" + g + (MARK + rest) == g + MARK + rest;
        ContainsInWhole("", g, MARK + rest, p);
      } else {
        GapOccurs(gaps[1..], g, p);
        assert gaps[0] + MARK + rest + "" == gaps[0] + MARK + rest;
        ContainsInWhole(gaps[0] + MARK, rest, "", p);
      }
    }
  }

  // ----- Secrets without brackets -----

  predicate BracketFree(p: string) {
    '[' !in p && ']' !in p
  }

  ghost predicate AllBracketFree(secrets: seq<string>) {
    forall p :: p in secrets ==> BracketFree(p)
  }

  /** Such a secret overlaps the mark only inside the mark's own word. */
  lemma {:induction false} BracketFreeClashes(q: string)
    requires BracketFree(q) && q != ""
    ensures Clashes(q) <==> Contains("REDACTED", q)
  {
    hide AgreesAt, OccursAt;
    forall d ensures AgreesAt(q, d) <==> OccursAt(REDACTED, q, d - 1) {
      InsideWord(q, d);
    }
    if Contains(REDACTED, q) {
      var i :| OccursAt(REDACTED, q, i);
      assert AgreesAt(q, i + 1);
      AgreesInRange(q, i + 1);
    }
  }

  lemma {:induction false} InsideWord(q: string, d: int)
    requires BracketFree(q) && q != ""
    ensures AgreesAt(q, d) <==> OccursAt(REDACTED, q, d - 1)
  {
    hide OccursAt;
    OccursChars(REDACTED, q, d - 1);
    if AgreesAt(q, d) {
      EndsAreBrackets(q, d);
    }
    assert forall i :: 0 < i < |MARK| - 1 ==> MARK[i] == REDACTED[i - 1];
    if AgreesAt(q, d) {
      assert forall k :: 0 <= k < |q| ==> q[k] == MARK[d + k];
    }
  }

  lemma {:induction false} EndsAreBrackets(q: string, d: int)
    requires AgreesAt(q, d)
    ensures (d <= 0 ==> '[' in q) && (d + |q| >= |MARK| ==> ']' in q)
  {
    assert MARK[0] == '[' && MARK[|MARK| - 1] == ']';
    assert d <= 0 ==> q[-d] == '[';
    assert d + |q| >= |MARK| ==> q[|MARK| - 1 - d] == ']';
  }

  /** Whatever is replaced, the result of a replacement that fires holds the mark. */
  lemma {:induction false} MarkIsThere(s: string, p: string)
    requires p != "" && Contains(s, p)
    ensures Contains(Replaced(s, p, MARK), MARK)
  {
    var i := Index(s, p);
    IndexFinds(s, p);
    var rest := ReplacedFrom(s, p, MARK, i + |p|);
    assert OccursAt(MARK, MARK, 0);
    OccursInWhole(s[..i], MARK, rest, MARK, 0);
  }

  lemma {:induction false} WordSurvives(s: string, secrets: seq<string>, b: string)
    requires s == b || Contains(s, MARK)
    requires Contains(REDACTED, b)
    ensures Contains(Scrubbed(s, secrets), b)
    decreases |secrets|
  {
    if secrets == [] {
      if s == b {
        assert OccursAt(s, b, 0);
      } else {
        var k :| OccursAt(s, MARK, k);
        var i :| OccursAt(REDACTED, b, i);
        CutAt(s, MARK, 0, k);
        assert MARK == "[" + REDACTED + "]";
        assert s[0..k] + MARK + s[k + |MARK|..] == (s[..k] + "[") + REDACTED + ("]" + s[k + |MARK|..]);
        OccursInWhole(s[..k] + "[", REDACTED, "]" + s[k + |MARK|..], b, i);
      }
    } else if secrets[0] == "" {
      WordSurvives(s, secrets[1..], b);
    } else {
      IndexFinds(s, secrets[0]);
      if Contains(s, secrets[0]) {
        MarkIsThere(s, secrets[0]);
      }
      WordSurvives(Replaced(s, secrets[0], MARK), secrets[1..], b);
    }
  }

  /** For bracket-free secrets the guarantee holds for every text exactly when no non-empty secret is a
      substring of `REDACTED`. */
  lemma {:induction false} ScrubGuaranteeIff(secrets: seq<string>)
    requires AllBracketFree(secrets)
    ensures (forall s :: NoneOccurs(Scrubbed(s, secrets), secrets)) <==> NoneOccurs("REDACTED", secrets)
  {
    hide Clashes, Contains;
    if NoneOccurs(REDACTED, secrets) {
      forall q | q in secrets && q != "" ensures !Clashes(q) {
        BracketFreeClashes(q);
      }
      forall s ensures NoneOccurs(Scrubbed(s, secrets), secrets) {
        NoSecretSurvives(s, secrets);
      }
    } else {
      var b :| b in secrets && b != "" && Contains(REDACTED, b);
      WordSurvives(b, secrets, b);
      assert !NoneOccurs(Scrubbed(b, secrets), secrets);
    }
  }

  /** The brackets matter too: this secret, which is not part of the mark, survives. */
  lemma {:induction false} BracketSecretSurvives()
    ensures Contains(Scrubbed("]xx", ["]x"]), "]x")
    ensures !Contains(MARK, "]x")
  {
    var s, p := "]xx", "]x";
    assert s[0..2] == p;
    assert OccursAt(s, p, 0);
    assert Index(s, p) == 0;
    assert s[2..] == "x";
    assert Index("x", p) == -1;
    assert Replaced("x", p, MARK) == "x";
    assert Replaced(s, p, MARK) == "[REDACTED]x";
    assert [p][1..] == [];
    assert Scrubbed(s, [p]) == Scrubbed("[REDACTED]x", []);
    assert "[REDACTED]x"[9..11] == p;
    assert OccursAt("[REDACTED]x", p, 9);
    CharNotThere(MARK, p, 'x');
  }
}
