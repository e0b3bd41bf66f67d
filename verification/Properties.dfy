/** internal/liquibase/properties.go: the order-preserving editor of liquibase.properties. */
module Properties {
  import opened Trim

  datatype Line = Line(raw: string, key: string, isEntry: bool)

  predicate IsComment(t: string) {
    t == "" || t[0] == '#' || t[0] == '!'
  }

  function ParseLine(raw: string): Line {
    var t := TrimSpace(raw);
    if IsComment(t) then Line(raw, "", false) else
      var i := IndexByte(t, '=');
      if i < 0 then Line(raw, "", false) else Line(raw, TrimSpace(t[..i]), true)
  }

  function ParseLines(raws: seq<string>): seq<Line> {
    seq(|raws|, i requires 0 <= i < |raws| => ParseLine(raws[i]))
  }

  function Raws(lines: seq<Line>): seq<string> {
    seq(|lines|, i requires 0 <= i < |lines| => lines[i].raw)
  }

  predicate HasEntry(l: Line, k: string) {
    l.isEntry && l.key == k
  }

  /** The text after the first `=` of a line, trimmed. */
  function Value(l: Line): string {
    var i := IndexByte(l.raw, '=');
    if i < 0 then "" else TrimSpace(l.raw[i + 1..])
  }

  /** A line that Get accepts for the key. */
  predicate Answers(l: Line, k: string) {
    HasEntry(l, k) && IndexByte(l.raw, '=') >= 0
  }

  /** The value of the first answering line, from line `i` on. */
  function GetFrom(lines: seq<Line>, k: string, i: nat): string
    decreases |lines| - i
  {
    if i >= |lines| then ""
    else if Answers(lines[i], k) then Value(lines[i])
    else GetFrom(lines, k, i + 1)
  }

  function NewLine(k: string, v: string): Line {
    Line(k + "=" + v, k, true)
  }

  /** The first line with the key, from line `i` on, or the number of lines. */
  function FirstFrom(lines: seq<Line>, k: string, i: nat): (n: nat)
    ensures i <= |lines| ==> i <= n <= |lines|
    ensures n < |lines| ==> HasEntry(lines[n], k)
    ensures forall j :: i <= j < n && j < |lines| ==> !HasEntry(lines[j], k)
    decreases |lines| - i
  {
    if i >= |lines| then |lines| else if HasEntry(lines[i], k) then i else FirstFrom(lines, k, i + 1)
  }

  /** The first line with the key is rewritten; without one, a line is added at the end. */
  function SetIn(lines: seq<Line>, k: string, v: string): seq<Line> {
    var n := FirstFrom(lines, k, 0);
    if n < |lines| then lines[n := NewLine(k, v)] else lines + [NewLine(k, v)]
  }

  function SetAll(lines: seq<Line>, kvs: seq<(string, string)>): seq<Line>
    decreases |kvs|
  {
    if kvs == [] then lines else SetAll(SetIn(lines, kvs[0].0, kvs[0].1), kvs[1..])
  }

  class Properties {
    var lines: seq<Line>

    constructor Parse(data: string)
      ensures lines == ParseLines(Lines(data))
    {
      hide ParseLine, Lines;
      var ls: seq<Line>, rest := [], data;
      ghost var done := [];
      assert Lines(data) == [] + Lines(rest);
      while rest != ""
        invariant ls == ParseLines(done) && Lines(data) == done + Lines(rest)
        decreases |rest|
      {
        LinesStep(rest);
        var i := IndexByte(rest, '\n');
        var raw := DropCR(if i < 0 then rest else rest[..i]);
        ls := ls + [ParseLine(raw)];
        done := done + [raw];
        rest := if i < 0 then "" else rest[i + 1..];
      }
      assert Lines("") == [] by { LinesOfNothing(); }
      lines := ls;
    }

    method Get(key: string) returns (v: string)
      ensures v == GetFrom(lines, key, 0)
    {
      hide TrimSpace, IndexByte;
      for i := 0 to |lines|
        invariant GetFrom(lines, key, 0) == GetFrom(lines, key, i)
      {
        if HasEntry(lines[i], key) {
          var idx := IndexByte(lines[i].raw, '=');
          if idx >= 0 {
            return TrimSpace(lines[i].raw[idx + 1..]);
          }
        }
      }
      v := "";
    }

    method Set(key: string, value: string)
      modifies this
      ensures lines == SetIn(old(lines), key, value)
    {
      for i := 0 to |lines|
        invariant lines == old(lines)
        invariant FirstFrom(lines, key, 0) == FirstFrom(lines, key, i)
      {
        if HasEntry(lines[i], key) {
          lines := lines[i := lines[i].(raw := key + "=" + value)];
          return;
        }
      }
      lines := lines + [NewLine(key, value)];
    }

    method Render() returns (b: string)
      ensures b == Unlines(Raws(lines))
    {
      b := "";
      for i := 0 to |lines|
        invariant Unlines(Raws(lines)) == b + Unlines(Raws(lines[i..]))
      {
        assert lines[i..][1..] == lines[i + 1..];
        assert Raws(lines[i..]) == [lines[i].raw] + Raws(lines[i + 1..]);
        b := b + (lines[i].raw + "\n");
      }
    }
  }

  // ----- Reading what was written -----

  lemma {:induction false} RawsOfParse(raws: seq<string>)
    ensures Raws(ParseLines(raws)) == raws
  {
    hide ParseLine;
    forall i | 0 <= i < |raws| ensures ParseLine(raws[i]).raw == raws[i] {
      ParseLineKeepsRaw(raws[i]);
    }
  }

  /** Rendering what was parsed is the text with its line ends normalised. */
  lemma {:induction false} RenderOfParse(d: string)
    ensures Unlines(Raws(ParseLines(Lines(d)))) == Normalised(d)
  {
    RawsOfParse(Lines(d));
    UnlinesOfLines(d);
  }

  /** A key that a line can be given: trimmed, one line, without `=`, and not comment-like. */
  ghost predicate CleanKey(k: string) {
    IsTrimmed(k) && '=' !in k && '\n' !in k && (k == "" || !IsComment(k))
  }

  /** Every line is what parsing its own text gives. */
  ghost predicate WellFormed(lines: seq<Line>) {
    forall i :: 0 <= i < |lines| ==> ParseLine(lines[i].raw) == lines[i] && '\n' !in lines[i].raw
  }

  lemma {:induction false} NewLineParses(k: string, v: string)
    requires CleanKey(k)
    ensures ParseLine(k + "=" + v) == NewLine(k, v)
  {
    hide TrimSpace, TrimRight, IsSpace;
    var w := k + "=" + TrimRight(v);
    TrimEntry(k, v);
    TrimTrimmed(k);
    IndexByteBetween(k, '=', TrimRight(v));
    assert w[..|k|] == k;
    assert !IsComment(w) by {
      assert w[0] == if k == "" then '=' else k[0];
    }
  }

  lemma {:induction false} TrimEntry(k: string, v: string)
    requires k != "" ==> !IsSpace(k[0])
    ensures TrimSpace(k + "=" + v) == k + "=" + TrimRight(v)
  {
    hide TrimSpace, TrimRight, IsSpace;
    var v' := TrimRight(v);
    var w, post := k + "=" + v', v[|v'|..];
    EdgesOfEntry(k, v');
    TrimPadded("", w, post);
    TrimTrimmed(w);
    assert k + "=" + v == "" + w + post;
  }

  lemma {:induction false} EdgesOfEntry(k: string, v: string)
    requires (k != "" ==> !IsSpace(k[0])) && (v != "" ==> !IsSpace(v[|v| - 1]))
    ensures IsTrimmed(k + "=" + v)
  {
    var w := k + "=" + v;
    assert w[0] == if k == "" then '=' else k[0];
    assert w[|w| - 1] == if v == "" then '=' else v[|v| - 1];
  }

  lemma {:induction false} ParsedKeyIsClean(raw: string)
    requires ParseLine(raw).isEntry && '\n' !in raw
    ensures CleanKey(ParseLine(raw).key)
  {
    hide TrimSpace, IsSpace;
    var t := TrimSpace(raw);
    var i := IndexByte(t, '=');
    var pre, post := TrimSplits(raw);
    KeyOfTrimmed(t, i);
    var k := TrimSpace(t[..i]);
    assert forall c :: c in k ==> c in t;
    assert forall c :: c in t ==> c in pre + t + post;
  }

  /** The trimmed text before position `i` of a trimmed text is its beginning. */
  lemma {:induction false} KeyOfTrimmed(t: string, i: int)
    requires IsTrimmed(t) && 0 <= i < |t|
    ensures var k := TrimSpace(t[..i]); IsTrimmed(k) && k <= t[..i] && k <= t
  {
    hide TrimSpace;
    var p, q := TrimSplits(t[..i]);
    var k := TrimSpace(t[..i]);
    if i > 0 {
      assert t[..i] == p + (k + q) && t[..i][0] == t[0];
      SpaceStartEnds(p, k + q, 0);
    }
    assert t[..i] == k + q;
  }

  lemma {:induction false} ParsedIsWellFormed(raws: seq<string>)
    requires NoNewlines(raws)
    ensures WellFormed(ParseLines(raws))
  {
    hide ParseLine;
    forall i | 0 <= i < |raws| ensures ParseLine(raws[i]).raw == raws[i] {
      ParseLineKeepsRaw(raws[i]);
    }
  }

  lemma {:induction false} ParseLineKeepsRaw(raw: string)
    ensures ParseLine(raw).raw == raw
  {
  }

  /** Setting a key puts its new line where the first entry for the key is, or else at the end, and leaves every
      other line where it was. */
  lemma {:induction false} SetKeepsLines(lines: seq<Line>, k: string, v: string) returns (n: nat)
    ensures n <= |lines| && (forall i :: 0 <= i < n ==> !(lines[i].isEntry && lines[i].key == k))
    ensures n < |lines| ==> lines[n].isEntry && lines[n].key == k
    ensures var after := SetIn(lines, k, v);
      |after| == (if n < |lines| then |lines| else |lines| + 1) &&
      after[n].raw == k + "=" + v && after[n].key == k && after[n].isEntry &&
      forall i :: 0 <= i < |lines| && i != n ==> after[i] == lines[i]
  {
    n := FirstFrom(lines, k, 0);
  }

  /** Setting a key keeps every line what parsing its own text gives exactly when the key is clean and the
      value is on one line. */
  lemma {:induction false} SetKeepsWellFormed(lines: seq<Line>, k: string, v: string)
    requires WellFormed(lines)
    ensures WellFormed(SetIn(lines, k, v)) <==> CleanKey(k) && '\n' !in v
  {
    hide ParseLine, CleanKey;
    NewLineParsesIff(k, v);
    var n, after := FirstFrom(lines, k, 0), SetIn(lines, k, v);
    assert after[n] == NewLine(k, v);
    assert forall i :: 0 <= i < |after| && i != n ==> i < |lines| && after[i] == lines[i];
    assert '\n' in k + "=" + v <==> '\n' in k || '\n' in v;
    if CleanKey(k) {
      CleanKeyHasNoNewline(k);
    }
  }

  lemma {:induction false} CleanKeyHasNoNewline(k: string)
    requires CleanKey(k)
    ensures '\n' !in k
  {
  }

  ghost predicate CleanEdits(kvs: seq<(string, string)>) {
    forall i :: 0 <= i < |kvs| ==> CleanKey(kvs[i].0) && '\n' !in kvs[i].1
  }

  lemma {:induction false} SetAllKeepsWellFormed(lines: seq<Line>, kvs: seq<(string, string)>)
    requires WellFormed(lines) && CleanEdits(kvs)
    ensures WellFormed(SetAll(lines, kvs))
    decreases |kvs|
  {
    hide WellFormed;
    if kvs != [] {
      SetKeepsWellFormed(lines, kvs[0].0, kvs[0].1);
      SetAllKeepsWellFormed(SetIn(lines, kvs[0].0, kvs[0].1), kvs[1..]);
    }
  }

  lemma {:induction false} ParseOfRaws(lines: seq<Line>)
    requires WellFormed(lines)
    ensures ParseLines(Raws(lines)) == lines
  {
    hide ParseLine;
  }

  ghost predicate NoLineEndsInCR(lines: seq<Line>) {
    forall i :: 0 <= i < |lines| ==> DropCR(lines[i].raw) == lines[i].raw
  }

  /** For any lines at all, whatever they came from: rendering and parsing again gives them back exactly when
      each is what parsing its own one-line text gives and none ends in a carriage return. */
  lemma {:induction false} RoundTripExactly(p: seq<Line>)
    ensures ParseLines(Lines(Unlines(Raws(p)))) == p <==> WellFormed(p) && NoLineEndsInCR(p)
  {
    hide ParseLine, DropCR, Lines, Unlines;
    var raws := Raws(p);
    if ParseLines(Lines(Unlines(raws))) == p {
      RawsOfParse(Lines(Unlines(raws)));
      LinesHaveNoNewline(Unlines(raws));
      LinesOfUnlines(raws);
      assert DropCRs(raws) == raws;
      assert forall i :: 0 <= i < |p| ==> p[i] == ParseLine(Lines(Unlines(raws))[i]) && raws[i] == p[i].raw;
    }
    if WellFormed(p) && NoLineEndsInCR(p) {
      LinesOfUnlines(raws);
      assert DropCRs(raws) == raws;
      ParseOfRaws(p);
    }
  }

  /** A new line parses to itself exactly when its key is trimmed, without `=`, and not comment-like; so, of
      keys on one line, exactly for the clean ones. */
  lemma {:induction false} NewLineParsesIff(k: string, v: string)
    ensures ParseLine(k + "=" + v) == NewLine(k, v) && '\n' !in k <==> CleanKey(k)
  {
    hide TrimSpace, IndexByte, IsSpace;
    if CleanKey(k) {
      CleanKeyHasNoNewline(k);
      NewLineParses(k, v);
    } else if ParseLine(k + "=" + v) == NewLine(k, v) {
      var t := TrimSpace(k + "=" + v);
      var i := IndexByte(t, '=');
      var pre, post := TrimSplits(k + "=" + v);
      KeyOfTrimmed(t, i);
    }
  }

  /** After any sequence of edits to any parsed text, rendering and parsing again gives the same lines
      exactly when no line ends in a carriage return. */
  lemma {:induction false} RoundTripIff(d: string, kvs: seq<(string, string)>)
    requires CleanEdits(kvs)
    ensures var p := SetAll(ParseLines(Lines(d)), kvs);
      ParseLines(Lines(Unlines(Raws(p)))) == p <==> NoLineEndsInCR(p)
  {
    hide ParseLine, DropCR, Lines, Unlines;
    LinesHaveNoNewline(d);
    ParsedIsWellFormed(Lines(d));
    SetAllKeepsWellFormed(ParseLines(Lines(d)), kvs);
    var p := SetAll(ParseLines(Lines(d)), kvs);
    LinesOfUnlines(Raws(p));
    var again := DropCRs(Raws(p));
    RawsOfParse(again);
    if NoLineEndsInCR(p) {
      assert again == Raws(p);
      ParseOfRaws(p);
    }
  }

  /** Every key is one that a line of the text already has. */
  ghost predicate KeysArePresent(d: string, kvs: seq<(string, string)>) {
    forall i :: 0 <= i < |kvs| ==> exists j :: 0 <= j < |Lines(d)| && HasEntry(ParseLine(Lines(d)[j]), kvs[i].0)
  }

  /** Editing keys that are already in the text needs no care with the keys: whatever one-line values they are
      given, the round trip holds exactly when no line ends in a carriage return. */
  lemma {:induction false} RoundTripOfPresentKeysIff(d: string, kvs: seq<(string, string)>)
    requires KeysArePresent(d, kvs) && forall i :: 0 <= i < |kvs| ==> '\n' !in kvs[i].1
    ensures CleanEdits(kvs)
    ensures var p := SetAll(ParseLines(Lines(d)), kvs);
      ParseLines(Lines(Unlines(Raws(p)))) == p <==> NoLineEndsInCR(p)
  {
    hide ParseLine, Lines, Unlines, SetAll, CleanKey;
    LinesHaveNoNewline(d);
    forall i | 0 <= i < |kvs| ensures CleanKey(kvs[i].0) {
      var j :| 0 <= j < |Lines(d)| && HasEntry(ParseLine(Lines(d)[j]), kvs[i].0);
      ParsedKeyIsClean(Lines(d)[j]);
    }
    RoundTripIff(d, kvs);
  }

  // ----- Set and Get -----

  /** The text after the first `=` of a new line is the value, unless the key itself holds an `=`. */
  lemma {:induction false} ValueOfNewLineIff(k: string, v: string)
    ensures IndexByte(k + "=" + v, '=') >= 0
    ensures Value(NewLine(k, v)) == TrimSpace(v) <==> '=' !in k
  {
    hide TrimSpace;
    var i := IndexByte(k, '=');
    if i < 0 {
      IndexByteBetween(k, '=', v);
      assert (k + "=" + v)[|k| + 1..] == v;
    } else {
      var rest := k[i + 1..] + "=" + v;
      assert k + "=" + v == k[..i] + "=" + rest;
      IndexByteBetween(k[..i], '=', rest);
      assert (k[..i] + "=" + rest)[i + 1..] == rest;
      TrimLonger(k[i + 1..], v);
    }
  }

  /** What was set is read back, trimmed, exactly when the key holds no `=`. */
  lemma {:induction false} SetThenGetIff(lines: seq<Line>, k: string, v: string)
    ensures GetFrom(SetIn(lines, k, v), k, 0) == TrimSpace(v) <==> '=' !in k
  {
    hide TrimSpace, IndexByte, Value;
    ValueOfNewLineIff(k, v);
    GetSkips(SetIn(lines, k, v), k, 0, FirstFrom(lines, k, 0));
  }

  lemma {:induction false} GetSkips(lines: seq<Line>, k: string, i: nat, n: nat)
    requires i <= n <= |lines| && forall j :: i <= j < n ==> !HasEntry(lines[j], k)
    ensures GetFrom(lines, k, i) == GetFrom(lines, k, n)
    decreases n - i
  {
    hide Value, IndexByte;
    if i < n {
      GetSkips(lines, k, i + 1, n);
    }
  }

  /** An `=` in front of a text survives trimming. */
  lemma {:induction false} TrimLonger(x: string, v: string)
    ensures |TrimSpace(x + "=" + v)| > |TrimSpace(v)|
  {
    hide TrimSpace, TrimLeft, TrimRight;
    var s := x + "=" + v;
    var p, q := TrimSplits(s);
    var pre, post := TrimSplits(v);
    var u, t := TrimSpace(v), TrimSpace(s);
    assert s == p + (t + q) == (p + t) + q;
    assert s[|x|] == '=' && !IsSpace('=');
    SpaceStartEnds(p, t + q, |x|);
    SpaceEndStarts(p + t, q, |x|);
    if u != "" {
      var last := |x| + |pre| + |u|;
      assert s[last] == v[last - |x| - 1] == u[|u| - 1];
      SpaceEndStarts(p + t, q, last);
    }
  }

  /** Setting one key leaves what Get returns for every other key. */
  lemma {:induction false} SetKeepsOthers(lines: seq<Line>, k: string, v: string, k': string, i: nat)
    requires k' != k && i <= |lines|
    ensures GetFrom(SetIn(lines, k, v), k', i) == GetFrom(lines, k', i)
    decreases |lines| - i
  {
    hide Value, IndexByte;
    if i < |lines| {
      SetKeepsOthers(lines, k, v, k', i + 1);
    }
  }
}
