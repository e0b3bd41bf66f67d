/** strings.TrimSpace, strings.IndexByte and line scanning, as the properties editor and the simple
    reader use them. */
module Trim {

  /** unicode.IsSpace. */
  predicate IsSpace(c: char) {
    || c == ' ' || '\t' <= c <= '\r'
    || c == '\U{85}' || c == '\U{A0}' || c == '\U{1680}' || '\U{2000}' <= c <= '\U{200A}'
    || c == '\U{2028}' || c == '\U{2029}' || c == '\U{202F}' || c == '\U{205F}' || c == '\U{3000}'
  }

  function TrimLeft(s: string): (r: string)
    ensures |r| <= |s| && s[|s| - |r|..] == r
    ensures forall i :: 0 <= i < |s| - |r| ==> IsSpace(s[i])
    ensures r != "" ==> !IsSpace(r[0])
  {
    if s != "" && IsSpace(s[0]) then TrimLeft(s[1..]) else s
  }

  function TrimRight(s: string): (r: string)
    ensures |r| <= |s| && s[..|r|] == r
    ensures forall i :: |r| <= i < |s| ==> IsSpace(s[i])
    ensures r != "" ==> !IsSpace(r[|r| - 1])
  {
    if s != "" && IsSpace(s[|s| - 1]) then TrimRight(s[..|s| - 1]) else s
  }

  function TrimSpace(s: string): string {
    TrimRight(TrimLeft(s))
  }

  ghost predicate AllSpace(s: string) {
    forall i :: 0 <= i < |s| ==> IsSpace(s[i])
  }

  ghost predicate IsTrimmed(s: string) {
    s == "" || (!IsSpace(s[0]) && !IsSpace(s[|s| - 1]))
  }

  /** The text before, and the text after, the trimmed part. */
  lemma {:induction false} TrimSplits(s: string) returns (pre: string, post: string)
    ensures s == pre + TrimSpace(s) + post && AllSpace(pre) && AllSpace(post) && IsTrimmed(TrimSpace(s))
  {
    hide TrimLeft, TrimRight, IsSpace;
    var l, t := TrimLeft(s), TrimSpace(s);
    pre, post := s[..|s| - |l|], l[|t|..];
    assert l == t + post;
  }

  /** White space at the start of a text ends before its first other character. */
  lemma {:induction false} SpaceStartEnds(pre: string, rest: string, n: nat)
    requires AllSpace(pre) && n < |pre + rest| && !IsSpace((pre + rest)[n])
    ensures |pre| <= n
  {
    assert forall i :: 0 <= i < |pre| ==> (pre + rest)[i] == pre[i];
  }

  lemma {:induction false} SpaceEndStarts(rest: string, post: string, n: nat)
    requires AllSpace(post) && n < |rest + post| && !IsSpace((rest + post)[n])
    ensures n < |rest|
  {
    forall i | |rest| <= i < |rest + post| ensures IsSpace((rest + post)[i]) {
      assert (rest + post)[i] == post[i - |rest|];
    }
  }

  lemma {:induction false} TrimLeftPad(pre: string, u: string)
    requires AllSpace(pre)
    ensures TrimLeft(pre + u) == TrimLeft(u)
    decreases |pre|
  {
    if pre == "" {
      assert pre + u == u;
    } else {
      assert (pre + u)[1..] == pre[1..] + u;
      TrimLeftPad(pre[1..], u);
    }
  }

  lemma {:induction false} TrimRightPad(u: string, post: string)
    requires AllSpace(post)
    ensures TrimRight(u + post) == TrimRight(u)
    decreases |post|
  {
    if post == "" {
      assert u + post == u;
    } else {
      var s, n := u + post, |post| - 1;
      assert s[..|s| - 1] == u + post[..n] && s[|s| - 1] == post[n];
      TrimRightPad(u, post[..n]);
    }
  }

  lemma {:induction false} TrimAllSpace(s: string)
    requires AllSpace(s)
    ensures TrimSpace(s) == ""
  {
    TrimLeftPad(s, "");
    assert s + "" == s;
  }

  /** Spaces around a text do not change what trimming leaves. */
  lemma {:induction false} TrimPadded(pre: string, u: string, post: string)
    requires AllSpace(pre) && AllSpace(post)
    ensures TrimSpace(pre + u + post) == TrimSpace(u)
  {
    hide TrimLeft, TrimRight, AllSpace, IsSpace;
    assert pre + u + post == pre + (u + post);
    TrimLeftPad(pre, u + post);
    var l := TrimLeft(u);
    if l == "" {
      SpaceJoins(u, post);
      TrimAllSpace(u + post);
      TrimAllSpace(u);
    } else {
      var lead := u[..|u| - |l|];
      LeadAndRest(u, lead, l, post);
      TrimLeftPad(lead, l + post);
      TrimLeftFixed(l + post);
      TrimRightPad(l, post);
    }
  }

  lemma {:induction false} SpaceJoins(u: string, post: string)
    requires TrimLeft(u) == "" && AllSpace(post)
    ensures AllSpace(u) && AllSpace(u + post)
  {
    hide TrimLeft;
  }

  lemma {:induction false} LeadAndRest(u: string, lead: string, l: string, post: string)
    requires l == TrimLeft(u) && l != "" && lead == u[..|u| - |l|]
    ensures u == lead + l && u + post == lead + (l + post) && AllSpace(lead)
    ensures !IsSpace((l + post)[0])
  {
    hide TrimLeft;
  }

  lemma {:induction false} TrimLeftFixed(s: string)
    requires s != "" && !IsSpace(s[0])
    ensures TrimLeft(s) == s
  {
  }

  lemma {:induction false} TrimTrimmed(s: string)
    requires IsTrimmed(s)
    ensures TrimSpace(s) == s
  {
  }

  /** strings.IndexByte. */
  function IndexByte(s: string, c: char): (r: int)
    ensures (r == -1 && c !in s) || (0 <= r < |s| && s[r] == c && c !in s[..r])
  {
    if s == "" then -1
    else if s[0] == c then 0
    else
      var r := IndexByte(s[1..], c);
      assert s == [s[0]] + s[1..];
      if r < 0 then -1 else
        assert s[..r + 1] == [s[0]] + s[1..][..r];
        r + 1
  }

  lemma {:induction false} IndexByteBetween(x: string, c: char, y: string)
    requires c !in x
    ensures IndexByte(x + [c] + y, c) == |x|
  {
    var s := x + [c] + y;
    var r := IndexByte(s, c);
    assert s[|x|] == c;
    forall j | 0 <= j < |x| ensures s[j] != c {
      assert s[j] == x[j] && x[j] in x;
    }
    forall j | 0 <= j < r ensures s[j] != c {
      assert s[..r][j] == s[j] && s[j] in s[..r];
    }
  }

  // ----- bufio.ScanLines -----

  function DropCR(s: string): (r: string)
    ensures r <= s
  {
    if s != "" && s[|s| - 1] == '\r' then s[..|s| - 1] else s
  }

  function Lines(d: string): seq<string> {
    if d == "" then [] else
      var i := IndexByte(d, '\n');
      if i < 0 then [DropCR(d)] else [DropCR(d[..i])] + Lines(d[i + 1..])
  }

  lemma {:induction false} LinesOfNothing()
    ensures Lines("") == []
  {
  }

  /** One turn of the scan. */
  lemma {:induction false} LinesStep(d: string)
    requires d != ""
    ensures var i := IndexByte(d, '\n');
      Lines(d) == [DropCR(if i < 0 then d else d[..i])] + Lines(if i < 0 then "" else d[i + 1..])
  {
    hide IndexByte, DropCR;
  }

  /** The lines, each ended by a line feed. */
  function Unlines(raws: seq<string>): string {
    if raws == [] then "" else raws[0] + "\n" + Unlines(raws[1..])
  }

  function DropCRs(raws: seq<string>): (r: seq<string>)
    ensures |r| == |raws| && forall i :: 0 <= i < |raws| ==> r[i] == DropCR(raws[i])
  {
    seq(|raws|, i requires 0 <= i < |raws| => DropCR(raws[i]))
  }

  ghost predicate NoNewlines(raws: seq<string>) {
    forall i :: 0 <= i < |raws| ==> '\n' !in raws[i]
  }

  lemma {:induction false} LinesCons(x: string, y: string)
    requires '\n' !in x
    ensures Lines(x + "\n" + y) == [DropCR(x)] + Lines(y)
  {
    hide IndexByte, DropCR;
    IndexByteBetween(x, '\n', y);
    var d := x + "\n" + y;
    assert d[..|x|] == x && d[|x| + 1..] == y;
  }

  /** Reading back what was written gives the lines, less a trailing carriage return each. */
  lemma {:induction false} LinesOfUnlines(raws: seq<string>)
    requires NoNewlines(raws)
    ensures Lines(Unlines(raws)) == DropCRs(raws)
    decreases |raws|
  {
    hide Lines, DropCR;
    if raws == [] {
      LinesOfNothing();
    } else {
      LinesOfUnlines(raws[1..]);
      LinesCons(raws[0], Unlines(raws[1..]));
      assert DropCRs(raws) == [DropCR(raws[0])] + DropCRs(raws[1..]);
    }
  }

  lemma {:induction false} PrefixMisses(s: string, r: string, c: char)
    requires c !in s && r <= s
    ensures c !in r
  {
    assert forall i :: 0 <= i < |r| ==> r[i] == s[i] && s[i] in s;
  }

  lemma {:induction false} LinesHaveNoNewline(d: string)
    ensures NoNewlines(Lines(d))
    decreases |d|
  {
    hide IndexByte, DropCR;
    if d != "" {
      var i := IndexByte(d, '\n');
      var line := if i < 0 then d else d[..i];
      PrefixMisses(line, DropCR(line), '\n');
      if i >= 0 {
        LinesHaveNoNewline(d[i + 1..]);
      }
    }
  }

  /** The text with its line ends normalised: CR LF and a lone final CR become LF, and the last line is
      ended. */
  function Normalised(d: string): string {
    if d == "" then ""
    else if d == "\r" || d == "\n" then "\n"
    else if |d| == 1 then d + "\n"
    else if d[0] == '\r' && d[1] == '\n' then "\n" + Normalised(d[2..])
    else [d[0]] + Normalised(d[1..])
  }

  lemma {:induction false} NormalisedLF(y: string)
    ensures Normalised("\n" + y) == "\n" + Normalised(y)
  {
    var d := "\n" + y;
    assert d[1..] == y;
    if y == "" {
      assert d == "\n";
    }
  }

  lemma {:induction false} NormalisedCRLF(y: string)
    ensures Normalised("\r\n" + y) == "\n" + Normalised(y)
  {
    var d := "\r\n" + y;
    assert d[2..] == y;
  }

  lemma {:induction false} NormalisedChar(c: char, y: string)
    requires y != "" && !(c == '\r' && y[0] == '\n')
    ensures Normalised([c] + y) == [c] + Normalised(y)
  {
    var d := [c] + y;
    assert d[1..] == y;
  }

  lemma {:induction false} DropCRCons(x: string)
    requires x != "" && x != "\r"
    ensures DropCR(x) == [x[0]] + DropCR(x[1..])
  {
  }

  lemma {:induction false} DropCRShort()
    ensures DropCR("") == "" && DropCR("\r") == ""
  {
  }

  lemma {:induction false} NormalisedCons(x: string, y: string)
    requires '\n' !in x
    ensures Normalised(x + "\n" + y) == DropCR(x) + "\n" + Normalised(y)
    decreases |x|
  {
    hide Normalised, DropCR;
    var d := x + "\n" + y;
    DropCRShort();
    if x == "" {
      NormalisedLF(y);
      assert d == "\n" + y;
    } else if x == "\r" {
      assert d == "\r\n" + y;
      NormalisedCRLF(y);
    } else {
      var x' := x[1..];
      HeadOfThree(x, "\n", y);
      NormalisedChar(x[0], x' + "\n" + y);
      NormalisedCons(x', y);
      DropCRCons(x);
      HeadOfThree([x[0]] + DropCR(x'), "\n", Normalised(y));
    }
  }

  lemma {:induction false} HeadOfThree(x: string, b: string, c: string)
    requires x != ""
    ensures x + b + c == [x[0]] + (x[1..] + b + c)
  {
  }

  lemma {:induction false} NormalisedLast(x: string)
    requires '\n' !in x && x != ""
    ensures Normalised(x) == DropCR(x) + "\n"
    decreases |x|
  {
    if |x| > 1 {
      assert x == [x[0]] + x[1..];
      NormalisedLast(x[1..]);
      NormalisedChar(x[0], x[1..]);
      DropCRCons(x);
    }
  }

  lemma {:induction false} UnlinesOfLines(d: string)
    ensures Unlines(Lines(d)) == Normalised(d)
    decreases |d|
  {
    if d != "" {
      var i := IndexByte(d, '\n');
      if i < 0 {
        NormalisedLast(d);
        assert Lines(d)[1..] == [];
      } else {
        assert d == d[..i] + "\n" + d[i + 1..];
        NormalisedCons(d[..i], d[i + 1..]);
        UnlinesOfLines(d[i + 1..]);
        assert Lines(d)[1..] == Lines(d[i + 1..]);
      }
    }
  }
}
