/** The string operations of Go's `strings` package that the modelled code relies on, with the facts
    about occurrences that the text-rewriting theorems share. */
module Text {

  /** `p` occurs in `s` at position `i`. */
  ghost predicate OccursAt(s: string, p: string, i: int) {
    0 <= i && i + |p| <= |s| && s[i..i + |p|] == p
  }

  ghost predicate Contains(s: string, p: string) {
    exists i :: OccursAt(s, p, i)
  }

  /** The leftmost occurrence of `p` at or after `from`, or -1. */
  function IndexAt(s: string, p: string, from: nat): (r: int)
    ensures r == -1 || from <= r <= |s| - |p|
    decreases |s| - from
  {
    if from + |p| > |s| then -1
    else if s[from..from + |p|] == p then from
    else IndexAt(s, p, from + 1)
  }

  lemma {:induction false} IndexAtIsLeftmost(s: string, p: string, from: nat)
    ensures var r := IndexAt(s, p, from);
      (r == -1 || OccursAt(s, p, r)) &&
      forall j :: from <= j && (r == -1 || j < r) ==> !OccursAt(s, p, j)
    decreases |s| - from
  {
    if from + |p| <= |s| && s[from..from + |p|] != p {
      IndexAtIsLeftmost(s, p, from + 1);
    }
  }

  /** A leftmost occurrence is what the search returns. */
  lemma {:induction false} IndexAtUnique(s: string, p: string, from: nat, r: int)
    requires from <= r && OccursAt(s, p, r)
    requires forall j :: from <= j < r ==> !OccursAt(s, p, j)
    ensures IndexAt(s, p, from) == r
  {
    IndexAtIsLeftmost(s, p, from);
  }

  lemma {:induction false} IndexAtAgain(s: string, p: string, from: nat)
    requires IndexAt(s, p, from) >= 0
    ensures IndexAt(s, p, IndexAt(s, p, from)) == IndexAt(s, p, from)
    decreases |s| - from
  {
    if s[from..from + |p|] != p {
      IndexAtAgain(s, p, from + 1);
    }
  }

  /** Go's strings.Index. */
  function Index(s: string, p: string): (r: int)
    ensures r == -1 || 0 <= r <= |s| - |p|
  {
    IndexAt(s, p, 0)
  }

  /** Go's strings.Contains. */
  predicate Has(s: string, p: string) {
    Index(s, p) >= 0
  }

  lemma {:induction false} IndexFinds(s: string, p: string)
    ensures Index(s, p) == -1 <==> !Contains(s, p)
    ensures Index(s, p) != -1 ==> OccursAt(s, p, Index(s, p))
  {
    IndexAtIsLeftmost(s, p, 0);
  }

  /** The rightmost occurrence of `p` at or before `from`, or -1. */
  function LastIndexAt(s: string, p: string, from: int): (r: int)
    requires from + |p| <= |s|
    ensures -1 <= r && (r <= from || r == -1)
    decreases from + 1
  {
    if from < 0 then -1
    else if s[from..from + |p|] == p then from
    else LastIndexAt(s, p, from - 1)
  }

  /** Go's strings.LastIndex. */
  function LastIndex(s: string, p: string): (r: int)
    ensures r == -1 || 0 <= r <= |s| - |p|
  {
    LastIndexAt(s, p, |s| - |p|)
  }

  predicate HasPrefix(s: string, p: string) {
    |p| <= |s| && s[..|p|] == p
  }

  /** Occurrence, character by character. */
  lemma {:induction false} OccursChars(s: string, p: string, i: int)
    ensures OccursAt(s, p, i) <==> 0 <= i && i + |p| <= |s| && forall k :: 0 <= k < |p| ==> p[k] == s[i + k]
  {
    if 0 <= i && i + |p| <= |s| {
      var w := s[i..i + |p|];
      assert forall k :: 0 <= k < |p| ==> w[k] == s[i + k];
    }
  }

  /** Occurrences in a slice are the occurrences in the whole that fit into it. */
  lemma {:induction false} OccursInSlice(s: string, lo: nat, hi: nat, p: string, j: int)
    requires lo <= hi <= |s|
    ensures OccursAt(s[lo..hi], p, j) <==> 0 <= j && lo + j + |p| <= hi && OccursAt(s, p, lo + j)
  {
    var v := s[lo..hi];
    OccursChars(v, p, j);
    OccursChars(s, p, lo + j);
    assert forall m :: 0 <= m < |v| ==> v[m] == s[lo + m];
  }

  lemma {:induction false} CutAt(s: string, p: string, lo: nat, i: int)
    requires OccursAt(s, p, i) && lo <= i
    ensures s[lo..] == s[lo..i] + p + s[i + |p|..]
  {
    assert s[lo..] == s[lo..i] + s[i..i + |p|] + s[i + |p|..];
  }

  lemma {:induction false} AbsentInSlice(s: string, lo: nat, hi: nat, p: string)
    requires lo <= hi <= |s|
    requires forall j :: lo <= j && j + |p| <= hi ==> !OccursAt(s, p, j)
    ensures !Contains(s[lo..hi], p)
  {
    forall j ensures !OccursAt(s[lo..hi], p, j) {
      OccursInSlice(s, lo, hi, p, j);
    }
  }

  lemma {:induction false} CharNotThere(s: string, p: string, c: char)
    requires c in p && c !in s
    ensures !Contains(s, p)
  {
    var k :| 0 <= k < |p| && p[k] == c;
    forall i ensures !OccursAt(s, p, i) {
      OccursChars(s, p, i);
    }
  }

  lemma {:induction false} SliceMisses(s: string, lo: nat, hi: nat, c: char)
    requires lo <= hi <= |s| && c !in s[lo..hi]
    ensures forall m :: lo <= m < hi ==> s[m] != c
  {
    forall m | lo <= m < hi ensures s[m] != c {
      assert s[lo..hi][m - lo] == s[m];
    }
  }

  /** A pattern without the character `c` never spans a `c` in the text. */
  lemma {:induction false} OccursBesideChar(x: string, c: char, y: string, p: string, i: int)
    requires OccursAt(x + [c] + y, p, i) && c !in p && p != ""
    ensures OccursAt(x, p, i) || OccursAt(y, p, i - |x| - 1)
  {
    var s := x + [c] + y;
    SliceMisses(s, i, i + |p|, c);
    assert s[|x|] == c;
    assert s[0..|x|] == x && s[|x| + 1..|s|] == y;
    OccursInSlice(s, 0, |x|, p, i);
    OccursInSlice(s, |x| + 1, |s|, p, i - |x| - 1);
  }

  /** Conversely, what occurs in a piece occurs in the whole. */
  lemma {:induction false} OccursInWhole(x: string, y: string, z: string, p: string, i: int)
    requires OccursAt(y, p, i)
    ensures OccursAt(x + y + z, p, |x| + i)
  {
    var s := x + y + z;
    assert s[|x|..|x| + |y|] == y;
    OccursInSlice(s, |x|, |x| + |y|, p, i);
  }

  lemma {:induction false} ContainsItself(s: string)
    ensures Contains(s, s)
  {
    assert s[0..|s|] == s;
    assert OccursAt(s, s, 0);
  }

  lemma {:induction false} ContainsInWhole(x: string, y: string, z: string, p: string)
    requires Contains(y, p)
    ensures Contains(x + y + z, p)
  {
    var i :| OccursAt(y, p, i);
    OccursInWhole(x, y, z, p, i);
  }

  lemma {:induction false} Assoc(a: string, b: string, c: string, d: string)
    ensures a + (b + c + d) == a + b + c + d
  {
  }
}
