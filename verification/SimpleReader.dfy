/** internal/engine/detect.go, readRawProps: the second, map-building reader of the same file, and its
    agreement with the order-preserving editor. */
module SimpleReader {
  import opened Trim
  import opened Properties

  datatype Entry = NoEntry | Entry(key: string, val: string)

  /** What one line contributes to the map. */
  function RawEntry(raw: string): Entry {
    var t := TrimSpace(raw);
    if IsComment(t) then NoEntry else
      var i := IndexByte(t, '=');
      if i < 0 then NoEntry else Entry(TrimSpace(t[..i]), TrimSpace(t[i + 1..]))
  }

  function Put(m: map<string, string>, e: Entry): map<string, string> {
    if e.NoEntry? then m else m[e.key := e.val]
  }

  /** The map after the lines from `i` on: a later entry for a key overrides an earlier one. */
  function RawProps(raws: seq<string>, m: map<string, string>, i: nat): map<string, string>
    decreases |raws| - i
  {
    if i >= |raws| then m else RawProps(raws, Put(m, RawEntry(raws[i])), i + 1)
  }

  /** A Go map read: the zero value for a missing key. */
  function Lookup(m: map<string, string>, k: string): string {
    if k in m then m[k] else ""
  }

  method ReadRawProps(data: string) returns (result: map<string, string>)
    ensures result == RawProps(Lines(data), map[], 0)
  {
    hide DropCR, Lines, TrimSpace, IndexByte;
    result := map[];
    var rest := data;
    ghost var i := 0;
    while rest != ""
      invariant i <= |Lines(data)| && Lines(data)[i..] == Lines(rest)
      invariant RawProps(Lines(data), map[], 0) == RawProps(Lines(data), result, i)
      decreases |rest|
    {
      LinesStep(rest);
      var j := IndexByte(rest, '\n');
      var text := DropCR(if j < 0 then rest else rest[..j]);
      assert Lines(data)[i] == Lines(data)[i..][0] == text;
      assert Lines(data)[i + 1..] == Lines(data)[i..][1..];
      rest := if j < 0 then "" else rest[j + 1..];
      i := i + 1;
      ghost var m := result;
      var line := TrimSpace(text);
      if !IsComment(line) {
        var idx := IndexByte(line, '=');
        if idx >= 0 {
          result := result[TrimSpace(line[..idx]) := TrimSpace(line[idx + 1..])];
        }
      }
      assert result == Put(m, RawEntry(text));
    }
    LinesOfNothing();
  }

  // ----- The two readers see the same entries -----

  /** The editor and the reader take the same key and value from a line. */
  lemma {:induction false} EntryAgrees(raw: string)
    ensures ParseLine(raw).isEntry <==> RawEntry(raw).Entry?
    ensures RawEntry(raw).Entry? ==>
      RawEntry(raw) == Entry(ParseLine(raw).key, Value(ParseLine(raw))) && IndexByte(raw, '=') >= 0
  {
    hide TrimSpace, IndexByte, IsSpace, AllSpace;
    var t := TrimSpace(raw);
    var pre, post := TrimSplits(raw);
    if IndexByte(t, '=') >= 0 {
      ValueInPadding(pre, t, post);
    }
  }

  lemma {:induction false} ValueInPadding(pre: string, t: string, post: string)
    requires AllSpace(pre) && AllSpace(post) && '=' in t
    ensures var raw, i := pre + t + post, IndexByte(t, '=');
      IndexByte(raw, '=') == |pre| + i && TrimSpace(raw[|pre| + i + 1..]) == TrimSpace(t[i + 1..])
  {
    hide TrimSpace, IndexByte, IsSpace;
    var raw, i := pre + t + post, IndexByte(t, '=');
    EqualsNotInSpace(pre);
    var x, y := pre + t[..i], t[i + 1..] + post;
    assert raw == x + "=" + y;
    IndexByteBetween(x, '=', y);
    assert raw[|x| + 1..] == y == "" + t[i + 1..] + post;
    TrimPadded("", t[i + 1..], post);
  }

  lemma {:induction false} EqualsNotInSpace(s: string)
    requires AllSpace(s)
    ensures '=' !in s
  {
  }

  // ----- What a line says -----

  /** The code points of Unicode's property White_Space. */
  const WHITE: set<int> := {9, 10, 11, 12, 13, 32, 0x85, 0xA0, 0x1680, 0x2000, 0x2001, 0x2002, 0x2003, 0x2004, 0x2005,
    0x2006, 0x2007, 0x2008, 0x2009, 0x200A, 0x2028, 0x2029, 0x202F, 0x205F, 0x3000}

  ghost predicate White(s: string) {
    forall i :: 0 <= i < |s| ==> s[i] as int in WHITE
  }

  /** No white space at either end. */
  ghost predicate Solid(s: string) {
    s == "" || (s[0] as int !in WHITE && s[|s| - 1] as int !in WHITE)
  }

  lemma {:induction false} WhiteIff(s: string)
    ensures (White(s) <==> AllSpace(s)) && (Solid(s) <==> IsTrimmed(s))
    ensures forall i :: 0 <= i < |s| ==> (s[i] as int in WHITE <==> IsSpace(s[i]))
  {
    hide IsSpace;
    forall i | 0 <= i < |s| ensures s[i] as int in WHITE <==> IsSpace(s[i]) {
      SpaceIff(s[i]);
    }
  }

  lemma {:induction false} SpaceIff(c: char)
    ensures c as int in WHITE <==> IsSpace(c)
  {
  }

  /** What a line with a key and an equals sign says to both readers: with any white space around key and value,
      the key and the value. */
  lemma {:induction false} LineSays(a: string, k: string, b: string, c: string, v: string, d: string)
    requires White(a) && White(b) && White(c) && White(d) && Solid(k) && Solid(v)
    requires '=' !in k && (k != "" ==> k[0] != '#' && k[0] != '!')
    ensures var raw := a + (k + b) + "=" + (c + v + d);
      ParseLine(raw) == Line(raw, k, true) && Value(ParseLine(raw)) == v && RawEntry(raw) == Entry(k, v)
  {
    hide TrimSpace, IndexByte, IsSpace, White, Solid, AllSpace, ParseLine;
    WhiteIff(a);
    WhiteIff(b);
    WhiteIff(c);
    WhiteIff(d);
    WhiteIff(k);
    WhiteIff(v);
    var raw, val := a + (k + b) + "=" + (c + v + d), c + v + d;
    if k == "" {
      SpacesJoin(a, b);
      assert a + (k + b) == (a + b) + ("" + "");
      KeyOfLine(a + b, k, "", val);
    } else {
      KeyOfLine(a, k, b, val);
    }
    EqualsNotInSpace(a);
    EqualsNotInSpace(b);
    IndexByteBetween(a + (k + b), '=', val);
    assert raw[|a + (k + b)| + 1..] == val;
    TrimPadded(c, v, d);
    TrimTrimmed(v);
    EntryAgrees(raw);
  }

  lemma {:induction false} SpacesJoin(a: string, b: string)
    requires AllSpace(a) && AllSpace(b)
    ensures AllSpace(a + b) && AllSpace("")
  {
  }

  lemma {:induction false} KeyOfLine(a: string, k: string, b: string, val: string)
    requires AllSpace(a) && AllSpace(b) && IsTrimmed(k) && (k == "" ==> b == "")
    requires '=' !in k && (k != "" ==> k[0] != '#' && k[0] != '!')
    ensures var raw := a + (k + b) + "=" + val; ParseLine(raw) == Line(raw, k, true)
  {
    hide TrimSpace, TrimRight, IndexByte, IsSpace, AllSpace;
    var raw, w, t := a + (k + b) + "=" + val, (k + b) + "=" + val, (k + b) + "=" + TrimRight(val);
    assert raw == a + w + "";
    SpacesJoin(a, "");
    TrimPadded(a, w, "");
    TrimEntry(k + b, val);
    assert TrimSpace(raw) == t;
    EqualsNotInSpace(b);
    IndexByteBetween(k + b, '=', TrimRight(val));
    assert t[0] == if k == "" then '=' else k[0];
    assert t[..|k + b|] == "" + k + b;
    SpacesJoin("", "");
    TrimPadded("", k, b);
    TrimTrimmed(k);
  }

  /** What says nothing: a line without an equals sign, and a line whose first character after the white space
      is `#` or `!`. */
  lemma {:induction false} LineIsSilent(a: string, rest: string)
    requires White(a) && ('=' in rest ==> rest[0] == '#' || rest[0] == '!')
    ensures !ParseLine(a + rest).isEntry && RawEntry(a + rest) == NoEntry
  {
    hide TrimSpace, IndexByte, IsSpace, AllSpace, White;
    WhiteIff(a);
    var raw := a + rest;
    var t, pre, post := TrimSpace(raw), "", "";
    pre, post := TrimSplits(raw);
    if '=' in rest {
      SolidStart(rest);
      TrimSpaceStart(a, rest);
    } else {
      EqualsNotInSpace(a);
      assert '=' !in raw;
      assert forall x :: x in t ==> x in pre + t + post;
    }
  }

  lemma {:induction false} SolidStart(rest: string)
    requires rest != "" && (rest[0] == '#' || rest[0] == '!')
    ensures !IsSpace(rest[0])
  {
  }

  lemma {:induction false} TrimSpaceStart(a: string, rest: string)
    requires AllSpace(a) && rest != "" && !IsSpace(rest[0])
    ensures TrimSpace(a + rest) != "" && TrimSpace(a + rest)[0] == rest[0]
  {
    hide IsSpace, TrimRight, TrimLeft, AllSpace;
    TrimLeftPad(a, rest);
    TrimLeftFixed(rest);
    RightTrimKeepsStart(rest);
  }

  lemma {:induction false} RightTrimKeepsStart(rest: string)
    requires rest != "" && !IsSpace(rest[0])
    ensures TrimRight(rest) != "" && TrimRight(rest)[0] == rest[0]
  {
    hide IsSpace, TrimRight;
    var r := TrimRight(rest);
    assert forall i :: |r| <= i < |rest| ==> IsSpace(rest[i]);
  }

  /** A carriage return dropped from the end of a line does not change its entry. */
  lemma {:induction false} EntryWithoutCR(raw: string)
    ensures RawEntry(DropCR(raw)) == RawEntry(raw)
  {
    hide TrimSpace, IndexByte;
    var r := DropCR(raw);
    if r != raw {
      assert raw == "" + r + "\r";
      TrimPadded("", r, "\r");
    }
  }

  /** The reader's value for a key, in terms of the editor's lines: the last one. */
  function LastValue(lines: seq<Line>, k: string, v: string, i: nat): string
    decreases |lines| - i
  {
    if i >= |lines| then v
    else LastValue(lines, k, if HasEntry(lines[i], k) then Value(lines[i]) else v, i + 1)
  }

  lemma {:induction false} ReaderSeesLast(raws: seq<string>, m: map<string, string>, k: string, i: nat)
    ensures Lookup(RawProps(raws, m, i), k) == LastValue(ParseLines(raws), k, Lookup(m, k), i)
    decreases |raws| - i
  {
    hide RawEntry, Value, ParseLine;
    if i < |raws| {
      EntryAgrees(raws[i]);
      assert ParseLines(raws)[i] == ParseLine(raws[i]);
      ReaderSeesLast(raws, Put(m, RawEntry(raws[i])), k, i + 1);
    }
  }

  /** How many lines, from `i` on, are entries for the key. */
  function Count(lines: seq<Line>, k: string, i: nat): nat
    decreases |lines| - i
  {
    if i >= |lines| then 0 else (if HasEntry(lines[i], k) then 1 else 0) + Count(lines, k, i + 1)
  }

  lemma {:induction false} NoMoreEntries(lines: seq<Line>, k: string, v: string, i: nat)
    requires Count(lines, k, i) == 0
    ensures LastValue(lines, k, v, i) == v
    decreases |lines| - i
  {
    hide Value;
    if i < |lines| {
      NoMoreEntries(lines, k, v, i + 1);
    }
  }

  ghost predicate AllAnswer(lines: seq<Line>) {
    forall i :: 0 <= i < |lines| && lines[i].isEntry ==> IndexByte(lines[i].raw, '=') >= 0
  }

  /** The last line with the key, from line `i` on, or the number of lines. */
  function LastFrom(lines: seq<Line>, k: string, i: nat): (n: nat)
    ensures i <= |lines| ==> i <= n <= |lines|
    ensures n < |lines| ==> HasEntry(lines[n], k) && forall j :: n < j < |lines| ==> !HasEntry(lines[j], k)
    ensures n >= |lines| ==> forall j :: i <= j < |lines| ==> !HasEntry(lines[j], k)
    decreases |lines| - i
  {
    if i >= |lines| then |lines| else
      var n := LastFrom(lines, k, i + 1);
      if n < |lines| || !HasEntry(lines[i], k) then n else i
  }

  /** The value in the first line with the key, and in the last; nothing without any. */
  function FirstOf(lines: seq<Line>, k: string): string {
    var n := FirstFrom(lines, k, 0);
    if n < |lines| then Value(lines[n]) else ""
  }

  function LastOf(lines: seq<Line>, k: string): string {
    var n := LastFrom(lines, k, 0);
    if n < |lines| then Value(lines[n]) else ""
  }

  lemma {:induction false} GetIsFirst(lines: seq<Line>, k: string, i: nat)
    requires AllAnswer(lines)
    ensures var n := FirstFrom(lines, k, i); GetFrom(lines, k, i) == if n < |lines| then Value(lines[n]) else ""
    decreases |lines| - i
  {
    hide Value, IndexByte;
    if i < |lines| {
      GetIsFirst(lines, k, i + 1);
    }
  }

  lemma {:induction false} LastValueIsLast(lines: seq<Line>, k: string, v: string, i: nat)
    ensures var n := LastFrom(lines, k, i); LastValue(lines, k, v, i) == if n < |lines| then Value(lines[n]) else v
    decreases |lines| - i
  {
    hide Value;
    if i < |lines| {
      LastValueIsLast(lines, k, if HasEntry(lines[i], k) then Value(lines[i]) else v, i + 1);
    }
  }

  lemma {:induction false} ParsedLinesAnswer(raws: seq<string>)
    ensures AllAnswer(ParseLines(raws))
  {
    hide ParseLine, IndexByte;
    forall i | 0 <= i < |raws| && ParseLine(raws[i]).isEntry ensures IndexByte(ParseLine(raws[i]).raw, '=') >= 0 {
      EntryAgrees(raws[i]);
      ParseLineKeepsRaw(raws[i]);
    }
  }

  /** Of any text, for any key, the editor answers with the value of the first line with the key, and the
      reader with that of the last. */
  lemma {:induction false} EditorFirstReaderLast(d: string, k: string)
    ensures GetFrom(ParseLines(Lines(d)), k, 0) == FirstOf(ParseLines(Lines(d)), k)
    ensures Lookup(RawProps(Lines(d), map[], 0), k) == LastOf(ParseLines(Lines(d)), k)
  {
    hide Lines, ParseLines, Value, LastValue;
    ReaderSeesLast(Lines(d), map[], k, 0);
    ParsedLinesAnswer(Lines(d));
    GetIsFirst(ParseLines(Lines(d)), k, 0);
    LastValueIsLast(ParseLines(Lines(d)), k, "", 0);
  }

  lemma {:induction false} CountIsOne(lines: seq<Line>, k: string, i: nat)
    requires i <= |lines| && Count(lines, k, i) <= 1
    ensures FirstFrom(lines, k, i) == LastFrom(lines, k, i)
    decreases |lines| - i
  {
    if i < |lines| {
      if HasEntry(lines[i], k) {
        NoneFrom(lines, k, i + 1);
      } else {
        CountIsOne(lines, k, i + 1);
      }
    }
  }

  lemma {:induction false} NoneFrom(lines: seq<Line>, k: string, i: nat)
    requires i <= |lines| && Count(lines, k, i) == 0
    ensures LastFrom(lines, k, i) == |lines|
    decreases |lines| - i
  {
    if i < |lines| {
      NoneFrom(lines, k, i + 1);
    }
  }

  /** The editor's Get and the reader's map agree on a key exactly when it has at most one line, or its first
      and its last line carry the same value. */
  lemma {:induction false} EditorAgreesWithReader(d: string, k: string)
    ensures GetFrom(ParseLines(Lines(d)), k, 0) == Lookup(RawProps(Lines(d), map[], 0), k) <==>
      (Count(ParseLines(Lines(d)), k, 0) <= 1 || FirstOf(ParseLines(Lines(d)), k) == LastOf(ParseLines(Lines(d)), k))
  {
    hide Lines, ParseLines, Value, GetFrom, RawProps, Lookup, FirstFrom, LastFrom;
    EditorFirstReaderLast(d, k);
    if Count(ParseLines(Lines(d)), k, 0) <= 1 {
      CountIsOne(ParseLines(Lines(d)), k, 0);
    }
  }

  /** For instance, whatever other lines there are: when the first line with a key is `k=v` and the last one
      `k=w`, the editor answers with v and the reader with w. */
  lemma {:induction false} SecondLineDivides(d: string, k: string, v: string, w: string, i: nat, j: nat)
    requires CleanKey(k) && i < j < |Lines(d)| && Lines(d)[i] == k + "=" + v && Lines(d)[j] == k + "=" + w
    requires forall n :: 0 <= n < |Lines(d)| && (n < i || n > j) ==> !HasEntry(ParseLine(Lines(d)[n]), k)
    ensures GetFrom(ParseLines(Lines(d)), k, 0) == TrimSpace(v)
    ensures Lookup(RawProps(Lines(d), map[], 0), k) == TrimSpace(w)
  {
    hide Lines, ParseLine, Value, IndexByte, TrimSpace, RawProps, GetFrom, Lookup;
    var lines := ParseLines(Lines(d));
    NewLineParses(k, v);
    NewLineParses(k, w);
    ValueOfNewLineIff(k, v);
    ValueOfNewLineIff(k, w);
    EditorFirstReaderLast(d, k);
    assert lines[i] == NewLine(k, v) && lines[j] == NewLine(k, w);
    assert forall n :: 0 <= n < |lines| && (n < i || n > j) ==> !HasEntry(lines[n], k);
    assert FirstFrom(lines, k, 0) == i && LastFrom(lines, k, 0) == j;
  }

  // ----- Editing, writing, and reading with the simple reader -----

  lemma {:induction false} ReaderIgnoresCRs(raws: seq<string>, m: map<string, string>, i: nat)
    ensures RawProps(DropCRs(raws), m, i) == RawProps(raws, m, i)
    decreases |raws| - i
  {
    hide RawEntry, DropCR;
    if i < |raws| {
      EntryWithoutCR(raws[i]);
      ReaderIgnoresCRs(raws, Put(m, RawEntry(raws[i])), i + 1);
    }
  }

  /** What the reader sees of written lines is the last value of each key. */
  lemma {:induction false} ReaderSeesWritten(lines: seq<Line>, k: string)
    requires WellFormed(lines)
    ensures Lookup(RawProps(Lines(Unlines(Raws(lines))), map[], 0), k) == LastValue(lines, k, "", 0)
  {
    hide ParseLine, Lines, Unlines, DropCR, RawProps, LastValue, RawEntry;
    LinesOfUnlines(Raws(lines));
    ReaderIgnoresCRs(Raws(lines), map[], 0);
    ParseOfRaws(lines);
    ReaderSeesLast(Raws(lines), map[], k, 0);
  }

  /** Setting another key does not change the last value of a key. */
  lemma {:induction false} SetKeepsLast(lines: seq<Line>, k: string, v: string, k': string, w: string, i: nat)
    requires k != k' && i <= |lines|
    ensures LastValue(SetIn(lines, k, v), k', w, i) == LastValue(lines, k', w, i)
    ensures Count(SetIn(lines, k, v), k', i) == Count(lines, k', i)
    decreases |lines| - i
  {
    hide Value;
    if i < |lines| {
      SetKeepsLast(lines, k, v, k', if HasEntry(lines[i], k') then Value(lines[i]) else w, i + 1);
    } else {
      var r := SetIn(lines, k, v);
      assert |r| <= i + 1;
      assert i < |r| ==> !HasEntry(r[i], k');
    }
  }

  lemma {:induction false} LastSkips(lines: seq<Line>, k: string, w: string, i: nat, n: nat)
    requires i <= n <= |lines| && forall j :: i <= j < n ==> !HasEntry(lines[j], k)
    ensures LastValue(lines, k, w, i) == LastValue(lines, k, w, n) && Count(lines, k, i) == Count(lines, k, n)
    decreases n - i
  {
    hide Value;
    if i < n {
      LastSkips(lines, k, w, i + 1, n);
    }
  }

  lemma {:induction false} LastSameTail(a: seq<Line>, b: seq<Line>, k: string, w: string, i: nat)
    requires |a| == |b| && forall j :: i <= j < |a| ==> a[j] == b[j]
    ensures LastValue(a, k, w, i) == LastValue(b, k, w, i)
    decreases |a| - i
  {
    hide Value;
    if i < |a| {
      LastSameTail(a, b, k, if HasEntry(a[i], k) then Value(a[i]) else w, i + 1);
    }
  }

  lemma {:induction false} LastForgets(lines: seq<Line>, k: string, w: string, w': string, i: nat)
    requires Count(lines, k, i) >= 1
    ensures LastValue(lines, k, w, i) == LastValue(lines, k, w', i)
    decreases |lines| - i
  {
    hide Value;
    if i < |lines| && !HasEntry(lines[i], k) {
      LastForgets(lines, k, w, w', i + 1);
    }
  }

  /** Setting a key gives the reader the new value exactly as long as no second line has the key. */
  lemma {:induction false} SetThenLast(lines: seq<Line>, k: string, v: string)
    requires '=' !in k
    ensures LastValue(SetIn(lines, k, v), k, "", 0) ==
      if Count(lines, k, 0) <= 1 then TrimSpace(v) else LastValue(lines, k, "", 0)
  {
    hide Value, TrimSpace;
    var n, r := FirstFrom(lines, k, 0), SetIn(lines, k, v);
    ValueOfNewLineIff(k, v);
    LastSkips(lines, k, "", 0, n);
    LastSkips(r, k, "", 0, n);
    if n < |lines| {
      LastSameTail(r, lines, k, Value(r[n]), n + 1);
      if Count(lines, k, n + 1) == 0 {
        NoMoreEntries(lines, k, Value(r[n]), n + 1);
      } else {
        LastForgets(lines, k, Value(r[n]), Value(lines[n]), n + 1);
      }
    }
  }

  datatype Choice = Kept | Changed(val: string)

  /** The value a list of edits gives a key. */
  function Assigned(kvs: seq<(string, string)>, k: string): Choice {
    if kvs == [] then Kept else if kvs[0].0 == k then Changed(kvs[0].1) else Assigned(kvs[1..], k)
  }

  ghost predicate DistinctKeys(kvs: seq<(string, string)>) {
    forall i, j :: 0 <= i < j < |kvs| ==> kvs[i].0 != kvs[j].0
  }

  lemma {:induction false} SetAllLast(lines: seq<Line>, kvs: seq<(string, string)>, k: string)
    requires DistinctKeys(kvs) && forall i :: 0 <= i < |kvs| ==> '=' !in kvs[i].0
    ensures LastValue(SetAll(lines, kvs), k, "", 0) ==
      if Assigned(kvs, k).Changed? && Count(lines, k, 0) <= 1 then TrimSpace(Assigned(kvs, k).val)
      else LastValue(lines, k, "", 0)
    decreases |kvs|
  {
    hide Value, TrimSpace, SetIn, LastValue;
    if kvs != [] {
      var k0, v0 := kvs[0].0, kvs[0].1;
      var next := SetIn(lines, k0, v0);
      SetAllLast(next, kvs[1..], k);
      if k0 == k {
        SetThenLast(lines, k, v0);
        NotAssigned(kvs[1..], k);
      } else {
        SetKeepsLast(lines, k0, v0, k, "", 0);
      }
    }
  }

  lemma {:induction false} NotAssigned(kvs: seq<(string, string)>, k: string)
    requires forall i :: 0 <= i < |kvs| ==> kvs[i].0 != k
    ensures Assigned(kvs, k) == Kept
    decreases |kvs|
  {
    if kvs != [] {
      NotAssigned(kvs[1..], k);
    }
  }

  lemma {:induction false} AssignedAt(kvs: seq<(string, string)>, i: nat)
    requires DistinctKeys(kvs) && i < |kvs|
    ensures Assigned(kvs, kvs[i].0) == Changed(kvs[i].1)
    decreases |kvs|
  {
    if i > 0 {
      AssignedAt(kvs[1..], i - 1);
    }
  }

  /** What the simple reader sees after any list of clean edits with distinct keys has been written: the
      new values, except for keys that have a second line, and the old values of all other keys. */
  lemma {:induction false} ReaderAfterEdits(d: string, kvs: seq<(string, string)>, k: string)
    requires CleanEdits(kvs) && DistinctKeys(kvs)
    ensures var lines := ParseLines(Lines(d));
      Lookup(RawProps(Lines(Unlines(Raws(SetAll(lines, kvs)))), map[], 0), k) ==
      if Assigned(kvs, k).Changed? && Count(lines, k, 0) <= 1 then TrimSpace(Assigned(kvs, k).val)
      else Lookup(RawProps(Lines(d), map[], 0), k)
  {
    hide Lines, Unlines, RawProps, LastValue, ParseLine, SetAll, WellFormed, Raws;
    var lines := ParseLines(Lines(d));
    LinesHaveNoNewline(d);
    ParsedIsWellFormed(Lines(d));
    SetAllKeepsWellFormed(lines, kvs);
    ReaderSeesWritten(SetAll(lines, kvs), k);
    SetAllLast(lines, kvs, k);
    ReaderSeesLast(Lines(d), map[], k, 0);
  }
}
