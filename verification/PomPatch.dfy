/** internal/maven/pom_patch.go: injection of the PostgreSQL driver into the plugin block of a pom. */
module PomPatch {
  import opened Text

  /** The strings the rewrite looks for. */
  datatype Markers = Markers(
    pluginOpen: string, pluginClose: string, depsOpen: string, depsClose: string,
    groupId: string, artifactId: string, driverId: string)
  {
    /** What the rewrite relies on: tags begin with the only `<` in them, hold no space and an opening tag
        is not a closing one; ids hold no `<`. */
    ghost predicate Valid() {
      && IsTag(pluginOpen) && IsTag(pluginClose) && IsTag(depsClose)
      && pluginOpen[1] != '/' && pluginClose[1] == '/' && depsClose[1] == '/'
      && '<' !in groupId && '<' !in artifactId && groupId != "" && artifactId != ""
    }
  }

  ghost predicate IsTag(tag: string) {
    |tag| >= 2 && tag[0] == '<' && '<' !in tag[1..] && ' ' !in tag
  }

  const DBFLOW := Markers("<plugin>", "</plugin>", "<dependencies>", "</dependencies>",
    "com.gs.ftt.coe-ds", "relational-db-release-manager-plugin", "org.postgresql")

  function Element(tag: string, text: string): string {
    "<" + tag + ">" + text + "</" + tag + ">"
  }

  const INDENT := "            "

  const DRIVER_XML :=
    "          <dependency>" + "\n" +
    (INDENT + Element("groupId", "org.postgresql") + "\n" +
     (INDENT + Element("artifactId", "postgresql") + "\n" +
      (INDENT + Element("version", "42.7.4") + "\n" +
       "          </dependency>")))

  /** What goes into an existing dependencies block, and what is added without one. */
  const DEP_INSERT := DRIVER_XML + "\n" + "        "
  const DEPS_INSERT :=
    "        <dependencies>" + "\n" + (DRIVER_XML + "\n" + ("        </dependencies>" + "\n" + "        "))

  datatype Block = NoBlock | Block(start: nat, end: nat)
  datatype Error = DepsUnclosed | PluginUnclosed
  datatype Result = Ok(text: string) | Failed(text: string, error: Error)

  predicate Matches(t: Markers, block: string) {
    Has(block, t.groupId) && Has(block, t.artifactId)
  }

  /** The plugin blocks the scan visits from `offset`: from an opening tag to the next closing tag. */
  function Blocks(t: Markers, content: string, offset: nat): seq<Block>
    requires t.pluginClose != ""
    decreases |content| - offset
  {
    var start := IndexAt(content, t.pluginOpen, offset);
    if start < 0 then [] else
      var close := IndexAt(content, t.pluginClose, start);
      if close < 0 then [] else
        var end := close + |t.pluginClose|;
        [Block(start, end)] + Blocks(t, content, end)
  }

  /** A plugin block runs from an opening tag to the first closing tag after it. */
  ghost predicate IsPluginBlock(t: Markers, content: string, start: nat, end: nat) {
    && start + |t.pluginClose| <= end <= |content|
    && IndexAt(content, t.pluginOpen, start) == start
    && IndexAt(content, t.pluginClose, start) == end - |t.pluginClose|
  }

  /** The first visited block that names the plugin. */
  function Locate(t: Markers, content: string, offset: nat): (b: Block)
    requires t.pluginClose != ""
    ensures b.Block? ==> offset <= b.start && IsPluginBlock(t, content, b.start, b.end)
    decreases |content| - offset
  {
    var start := IndexAt(content, t.pluginOpen, offset);
    if start < 0 then NoBlock else
      IndexAtAgain(content, t.pluginOpen, offset);
      var close := IndexAt(content, t.pluginClose, start);
      if close < 0 then NoBlock else
        var end := close + |t.pluginClose|;
        if Matches(t, content[start..end]) then Block(start, end) else Locate(t, content, end)
  }

  /** The only `<` of a tag is its first character. */
  lemma {:induction false} InsideTag(content: string, tag: string, at: int)
    requires IsTag(tag) && OccursAt(content, tag, at)
    ensures content[at] == '<' && content[at + 1] == tag[1]
    ensures forall m :: at < m < at + |tag| ==> content[m] != '<'
  {
    OccursChars(content, tag, at);
    assert tag[0] == content[at] && tag[1] == content[at + 1];
    assert tag[1..] == content[at + 1..at + |tag|];
    SliceMisses(content, at + 1, at + |tag|, '<');
  }

  method LocatePluginBlock(t: Markers, content: string) returns (b: Block)
    requires t.pluginClose != ""
    ensures b == Locate(t, content, 0)
  {
    hide IndexAt, Matches;
    var offset := 0;
    while true
      invariant offset <= |content|
      invariant Locate(t, content, offset) == Locate(t, content, 0)
      decreases |content| - offset
    {
      var start := IndexAt(content, t.pluginOpen, offset);
      if start < 0 {
        return NoBlock;
      }
      var close := IndexAt(content, t.pluginClose, start);
      if close < 0 {
        return NoBlock;
      }
      var end := close + |t.pluginClose|;
      if Matches(t, content[start..end]) {
        return Block(start, end);
      }
      offset := end;
    }
  }

  /** `b` is the next block from `from` on: from the first opening tag there to the first closing tag after it. */
  ghost predicate NextBlock(t: Markers, content: string, from: nat, b: Block) {
    b.Block? && from <= b.start && b.start + |t.pluginClose| <= b.end &&
    OccursAt(content, t.pluginOpen, b.start) &&
    (forall j :: from <= j < b.start ==> !OccursAt(content, t.pluginOpen, j)) &&
    OccursAt(content, t.pluginClose, b.end - |t.pluginClose|) &&
    (forall j :: b.start <= j < b.end - |t.pluginClose| ==> !OccursAt(content, t.pluginClose, j))
  }

  /** `bs` goes from block to next block, on from the end of each, until there is none. */
  ghost predicate Follow(t: Markers, content: string, from: nat, bs: seq<Block>)
    decreases |bs|
  {
    if bs == [] then forall b :: !NextBlock(t, content, from, b)
    else NextBlock(t, content, from, bs[0]) && Follow(t, content, bs[0].end, bs[1..])
  }

  /** So does the scan. */
  lemma {:induction false} BlocksFollow(t: Markers, content: string, offset: nat)
    requires t.pluginClose != ""
    ensures Follow(t, content, offset, Blocks(t, content, offset))
    decreases |content| - offset
  {
    hide IndexAt, OccursAt;
    var start := IndexAt(content, t.pluginOpen, offset);
    IndexAtIsLeftmost(content, t.pluginOpen, offset);
    if start >= 0 {
      var close := IndexAt(content, t.pluginClose, start);
      IndexAtIsLeftmost(content, t.pluginClose, start);
      if close >= 0 {
        var end := close + |t.pluginClose|;
        var rest := Blocks(t, content, end);
        BlocksFollow(t, content, end);
        assert Blocks(t, content, offset) == [Block(start, end)] + rest;
        assert ([Block(start, end)] + rest)[1..] == rest;
      } else {
        assert OccursAt(content, t.pluginOpen, start);
        assert forall j :: start <= j ==> !OccursAt(content, t.pluginClose, j);
      }
    }
  }

  ghost predicate BlockMatches(t: Markers, content: string, b: Block) {
    b.Block? && b.start <= b.end <= |content| && Matches(t, content[b.start..b.end])
  }

  /** The scan stops at the first visited block that matches, and finds none only when none matches. */
  lemma {:induction false} LocateIsFirstMatch(t: Markers, content: string, offset: nat) returns (n: nat)
    requires t.pluginClose != ""
    ensures var bs := Blocks(t, content, offset);
      n <= |bs| && (forall m :: 0 <= m < n ==> !BlockMatches(t, content, bs[m])) &&
      Locate(t, content, offset) == (if n < |bs| then bs[n] else NoBlock) &&
      (n < |bs| ==> BlockMatches(t, content, bs[n]))
    decreases |content| - offset
  {
    hide IndexAt, Matches;
    n := 0;
    var start := IndexAt(content, t.pluginOpen, offset);
    if start >= 0 {
      var close := IndexAt(content, t.pluginClose, start);
      if close >= 0 {
        var end := close + |t.pluginClose|;
        var b, rest := Block(start, end), Blocks(t, content, end);
        assert Blocks(t, content, offset) == [b] + rest;
        if !Matches(t, content[start..end]) {
          n := LocateIsFirstMatch(t, content, end);
          assert !BlockMatches(t, content, b);
          assert forall m :: 1 <= m < n + 1 ==> ([b] + rest)[m] == rest[m - 1];
          n := n + 1;
        }
      }
    }
  }

  /** The rewrite, for given texts to insert into, or together with, a dependencies block. */
  function Inject(t: Markers, content: string, depIns: string, depsIns: string): Result
    requires t.pluginClose != ""
  {
    var b := Locate(t, content, 0);
    if b.NoBlock? then Ok(content) else
      var block := content[b.start..b.end];
      if Has(block, t.driverId) then Ok(content)
      else if Has(block, t.depsOpen) then
        var depEnd := Index(block, t.depsClose);
        if depEnd < 0 then Failed(content, DepsUnclosed)
        else Ok(content[..b.start] + (block[..depEnd] + depIns + block[depEnd..]) + content[b.end..])
      else
        var idx := LastIndex(block, t.pluginClose);
        if idx < 0 then Failed(content, PluginUnclosed)
        else Ok(content[..b.start] + (block[..idx] + depsIns + block[idx..]) + content[b.end..])
  }

  lemma {:induction false} TagsAreTags()
    ensures IsTag("<plugin>") && IsTag("</plugin>") && IsTag("</dependencies>")
  {
    assert "<plugin>"[1..] == "plugin>";
    assert "</plugin>"[1..] == "/plugin>";
    assert "</dependencies>"[1..] == "/dependencies>";
  }

  lemma {:induction false} IdsHaveNoTag()
    ensures '<' !in "com.gs.ftt.coe-ds" && '<' !in "relational-db-release-manager-plugin"
  {
    assert "relational-db-release-manager-plugin" == "relational-db-release" + "-manager-plugin";
  }

  lemma {:induction false} DbflowIsValid()
    ensures DBFLOW.Valid()
  {
    hide IsTag;
    TagsAreTags();
    IdsHaveNoTag();
  }

  function InjectDriver(content: string): Result {
    DbflowIsValid();
    Inject(DBFLOW, content, DEP_INSERT, DEPS_INSERT)
  }

  function Insert(content: string, k: nat, ins: string): string
    requires k <= |content|
  {
    content[..k] + ins + content[k..]
  }

  /** What the injection does: nothing, fail, or put one of the two texts at position `k`. */
  datatype Edit = Unchanged | Unclosed | IntoDeps(k: nat) | WithDeps(k: nat)

  function EditOf(t: Markers, content: string): Edit
    requires t.pluginClose != ""
  {
    var b := Locate(t, content, 0);
    if b.NoBlock? then Unchanged else
      var block := content[b.start..b.end];
      if Has(block, t.driverId) then Unchanged
      else if !Has(block, t.depsOpen) then WithDeps(b.end - |t.pluginClose|)
      else if !Has(block, t.depsClose) then Unclosed
      else IntoDeps(b.start + Index(block, t.depsClose))
  }

  /** `r` is what the edit makes of the content. */
  ghost predicate Applied(content: string, e: Edit, depIns: string, depsIns: string, r: Result) {
    match e
    case Unchanged => r == Ok(content)
    case Unclosed => r == Failed(content, DepsUnclosed)
    case IntoDeps(k) => k <= |content| && r == Ok(Insert(content, k, depIns))
    case WithDeps(k) => k <= |content| && r == Ok(Insert(content, k, depsIns))
  }

  lemma {:induction false} SpliceBlock(content: string, start: nat, end: nat, k: nat, ins: string)
    requires start <= start + k <= end <= |content|
    ensures content[..start] + (content[start..end][..k] + ins + content[start..end][k..]) + content[end..] ==
            Insert(content, start + k, ins)
  {
    var block := content[start..end];
    assert content[..start] + block[..k] == content[..start + k];
    assert block[k..] + content[end..] == content[start + k..];
  }

  /** The closing tag of a plugin block is the last one in it. */
  lemma {:induction false} LastClose(t: Markers, content: string, start: nat, end: nat)
    requires t.pluginClose != ""
    requires IsPluginBlock(t, content, start, end)
    ensures LastIndex(content[start..end], t.pluginClose) == end - |t.pluginClose| - start
  {
    hide IndexAt;
    var block := content[start..end];
    IndexAtIsLeftmost(content, t.pluginClose, start);
    OccursInSlice(content, start, end, t.pluginClose, |block| - |t.pluginClose|);
  }

  /** The output is the input with at most one contiguous insertion, and the missing-`</plugin>` error
      never happens. */
  lemma {:induction false} InsertionOnly(t: Markers, content: string, depIns: string, depsIns: string)
    requires t.pluginClose != ""
    ensures Applied(content, EditOf(t, content), depIns, depsIns, Inject(t, content, depIns, depsIns))
  {
    hide Locate, IndexAt, LastIndexAt;
    var b := Locate(t, content, 0);
    if b.Block? {
      var block := content[b.start..b.end];
      if Has(block, t.driverId) {
      } else if Has(block, t.depsOpen) {
        if Has(block, t.depsClose) {
          SpliceBlock(content, b.start, b.end, Index(block, t.depsClose), depIns);
        }
      } else {
        LastClose(t, content, b.start, b.end);
        SpliceBlock(content, b.start, b.end, LastIndex(block, t.pluginClose), depsIns);
      }
    }
  }

  /** The input comes back without an error exactly when no block matches or the driver is there; an error
      exactly when the block has an opening but no closing dependencies tag. */
  lemma {:induction false} OutcomeIff(t: Markers, content: string, depIns: string, depsIns: string)
    requires t.pluginClose != ""
    requires depIns != "" && depsIns != ""
    ensures var b, r := Locate(t, content, 0), Inject(t, content, depIns, depsIns);
      (r == Ok(content) <==> b.NoBlock? || Has(content[b.start..b.end], t.driverId)) &&
      (r.Failed? <==>
        (b.Block? && !Has(content[b.start..b.end], t.driverId) &&
         Has(content[b.start..b.end], t.depsOpen) && !Has(content[b.start..b.end], t.depsClose)))
  {
    InsertionOnly(t, content, depIns, depsIns);
    var e := EditOf(t, content);
    if e.IntoDeps? || e.WithDeps? {
      InsertGrows(content, e.k, if e.IntoDeps? then depIns else depsIns);
    }
  }

  lemma {:induction false} InsertGrows(content: string, k: nat, ins: string)
    requires k <= |content| && ins != ""
    ensures Insert(content, k, ins) != content
  {
    assert |Insert(content, k, ins)| == |content| + |ins|;
  }

  // ----- The second run -----

  /** A text set off by spaces, so that no tag can span its ends. */
  ghost predicate SetOff(t: Markers, ins: string) {
    |ins| >= 2 && ins[0] == ' ' && ins[|ins| - 1] == ' ' && !Contains(ins, t.pluginClose)
  }

  /** What occurs after the insertion occurred before it, or occurs in the inserted text. */
  lemma {:induction false} OccursAfterInsert(c: string, k: nat, ins: string, p: string, j: int)
    requires k <= |c| && |ins| >= 2 && ins[0] == ' ' && ins[|ins| - 1] == ' '
    requires ' ' !in p && p != "" && OccursAt(Insert(c, k, ins), p, j)
    ensures OccursAt(c[..k], p, j) || OccursAt(ins, p, j - k) || OccursAt(c[k..], p, j - k - |ins|)
  {
    var mid := ins[1..|ins| - 1];
    assert ins == [' '] + mid + [' '];
    var tail := mid + [' '] + c[k..];
    assert Insert(c, k, ins) == c[..k] + [' '] + tail;
    OccursBesideChar(c[..k], ' ', tail, p, j);
    if OccursAt(tail, p, j - k - 1) {
      OccursBesideChar(mid, ' ', c[k..], p, j - k - 1);
      OccursInSlice(ins, 1, |ins| - 1, p, j - k - 1);
    }
  }

  lemma {:induction false} SamePrefix(c: string, c': string, k: nat, lo: nat, hi: nat)
    requires lo <= hi <= k <= |c| && k <= |c'| && c[..k] == c'[..k]
    ensures c[lo..hi] == c'[lo..hi]
  {
    forall m | 0 <= m < k ensures c[m] == c'[m] {
      assert c[m] == c[..k][m] && c'[m] == c'[..k][m];
    }
  }

  lemma {:induction false} InsertInSlice(c: string, k: nat, ins: string, start: nat, end: nat)
    requires start <= k <= end <= |c|
    ensures Insert(c, k, ins)[start..end + |ins|] == Insert(c[start..end], k - start, ins)
  {
    var block := c[start..end];
    assert c == c[..start] + block + c[end..];
    assert c[..k] == c[..start] + block[..k - start];
    assert c[k..] == block[k - start..] + c[end..];
    assert Insert(c, k, ins) == c[..start] + Insert(block, k - start, ins) + c[end..];
  }

  /** Searches that end before the insertion are not disturbed. */
  lemma {:induction false} IndexAtKept(c: string, c': string, k: nat, p: string, from: nat)
    requires k <= |c| && k <= |c'| && c[..k] == c'[..k]
    requires 0 <= IndexAt(c, p, from) <= k - |p|
    ensures IndexAt(c', p, from) == IndexAt(c, p, from)
    decreases |c| - from
  {
    SamePrefix(c, c', k, from, from + |p|);
    if c[from..from + |p|] != p {
      IndexAtKept(c, c', k, p, from + 1);
    }
  }

  /** The search for the closing tag passes over the insertion. */
  lemma {:induction false} CloseMoves(t: Markers, c: string, k: nat, ins: string, from: nat)
    requires t.Valid()
    requires SetOff(t, ins) && from <= k <= IndexAt(c, t.pluginClose, from)
    ensures IndexAt(Insert(c, k, ins), t.pluginClose, from) == IndexAt(c, t.pluginClose, from) + |ins|
  {
    hide IndexAt, OccursAt;
    var c', e := Insert(c, k, ins), IndexAt(c, t.pluginClose, from);
    IndexAtIsLeftmost(c, t.pluginClose, from);
    assert c[0..k] == c[..k] && c[k..|c|] == c[k..];
    OccursInSlice(c, k, |c|, t.pluginClose, e - k);
    assert c' == (c[..k] + ins) + c[k..] + "";
    OccursInWhole(c[..k] + ins, c[k..], "", t.pluginClose, e - k);
    forall j | from <= j < e + |ins| ensures !OccursAt(c', t.pluginClose, j) {
      OccursInSlice(c, 0, k, t.pluginClose, j);
      OccursInSlice(c, k, |c|, t.pluginClose, j - k - |ins|);
      if OccursAt(c', t.pluginClose, j) {
        OccursAfterInsert(c, k, ins, t.pluginClose, j);
      }
    }
    IndexAtUnique(c', t.pluginClose, from, e + |ins|);
  }

  /** An id without `<` is still in the block when text goes in before a `<`. */
  lemma {:induction false} IdKept(block: string, k: nat, ins: string, id: string)
    requires k < |block| && block[k] == '<' && '<' !in id && id != "" && Has(block, id)
    ensures Has(Insert(block, k, ins), id)
  {
    var block', x, y := Insert(block, k, ins), block[..k], block[k + 1..];
    IndexFinds(block, id);
    var i := Index(block, id);
    assert block == x + ['<'] + y;
    OccursBesideChar(x, '<', y, id, i);
    if OccursAt(x, id, i) {
      assert block' == "" + x + (ins + block[k..]);
      OccursInWhole("", x, ins + block[k..], id, i);
    } else {
      assert block' == (x + ins + ['<']) + y + "";
      OccursInWhole(x + ins + ['<'], y, "", id, i - |x| - 1);
    }
    IndexFinds(block', id);
  }

  lemma {:induction false} MatchesKept(t: Markers, block: string, k: nat, ins: string)
    requires t.Valid()
    requires Matches(t, block) && k < |block| && block[k] == '<'
    ensures Matches(t, Insert(block, k, ins))
  {
    IdKept(block, k, ins, t.groupId);
    IdKept(block, k, ins, t.artifactId);
  }

  /** One turn of the scan. */
  lemma {:induction false} LocateStep(t: Markers, c: string, offset: nat, start: nat, end: nat)
    requires t.pluginClose != ""
    requires IndexAt(c, t.pluginOpen, offset) == start
    requires end >= |t.pluginClose| && IndexAt(c, t.pluginClose, start) == end - |t.pluginClose|
    ensures Locate(t, c, offset) == if Matches(t, c[start..end]) then Block(start, end) else Locate(t, c, end)
  {
    hide IndexAt, Matches, IsPluginBlock;
  }

  /** After an insertion between its tags, the same block is found again, grown by the inserted text. */
  lemma {:induction false} LocateStable(t: Markers, c: string, offset: nat, k: nat, ins: string)
    requires t.Valid()
    requires SetOff(t, ins)
    requires var b := Locate(t, c, offset);
      b.Block? && b.start + |t.pluginOpen| <= k <= b.end - |t.pluginClose| && c[k] == '<'
    ensures var b := Locate(t, c, offset);
      Locate(t, Insert(c, k, ins), offset) == Block(b.start, b.end + |ins|)
    decreases |c| - offset
  {
    hide IndexAt, OccursAt, Matches, Contains;
    var c', start := Insert(c, k, ins), IndexAt(c, t.pluginOpen, offset);
    var end := IndexAt(c, t.pluginClose, start) + |t.pluginClose|;
    assert c'[..k] == c[..k];
    LocateStep(t, c, offset, start, end);
    if Matches(t, c[start..end]) {
      assert IndexAt(c', t.pluginOpen, offset) == start by { IndexAtKept(c, c', k, t.pluginOpen, offset); }
      CloseMoves(t, c, k, ins, start);
      MatchesKept(t, c[start..end], k - start, ins);
      InsertInSlice(c, k, ins, start, end);
      LocateStep(t, c', offset, start, end + |ins|);
    } else {
      assert IndexAt(c', t.pluginOpen, offset) == start by { IndexAtKept(c, c', k, t.pluginOpen, offset); }
      assert IndexAt(c', t.pluginClose, start) == end - |t.pluginClose| by {
        IndexAtKept(c, c', k, t.pluginClose, start);
      }
      SamePrefix(c, c', k, start, end);
      LocateStable(t, c, end, k, ins);
      LocateStep(t, c', offset, start, end);
    }
  }

  /** The insertion point lies between the tags of the block, in front of a `<`. */
  lemma {:induction false} EditPoint(t: Markers, content: string)
    requires t.Valid()
    ensures var e, b := EditOf(t, content), Locate(t, content, 0);
      e.IntoDeps? || e.WithDeps? ==>
        b.start + |t.pluginOpen| <= e.k <= b.end - |t.pluginClose| && e.k < |content| && content[e.k] == '<'
  {
    hide Locate, IndexAt, OccursAt, Contains;
    var e, b := EditOf(t, content), Locate(t, content, 0);
    if e.IntoDeps? || e.WithDeps? {
      var close, block := b.end - |t.pluginClose|, content[b.start..b.end];
      IndexAtIsLeftmost(content, t.pluginOpen, b.start);
      IndexAtIsLeftmost(content, t.pluginClose, b.start);
      InsideTag(content, t.pluginOpen, b.start);
      InsideTag(content, t.pluginClose, close);
      if e.IntoDeps? {
        IndexFinds(block, t.depsClose);
        OccursInSlice(content, b.start, b.end, t.depsClose, e.k - b.start);
        InsideTag(content, t.depsClose, e.k);
      }
    }
  }

  ghost predicate InsertsDriver(t: Markers, ins: string) {
    SetOff(t, ins) && Contains(ins, t.driverId)
  }

  lemma {:induction false} InsertedIsThere(block: string, k: nat, ins: string, id: string)
    requires k <= |block| && Contains(ins, id)
    ensures Has(Insert(block, k, ins), id)
  {
    var i :| OccursAt(ins, id, i);
    OccursInWhole(block[..k], ins, block[k..], id, i);
    IndexFinds(Insert(block, k, ins), id);
  }

  /** After the injection the same block is found, and it holds the driver. */
  lemma {:induction false} BlockAfterInject(t: Markers, content: string, depIns: string, depsIns: string)
    requires t.Valid() && InsertsDriver(t, depIns) && InsertsDriver(t, depsIns)
    ensures var r, b := Inject(t, content, depIns, depsIns), Locate(t, content, 0);
      r.Ok? && b.Block? ==>
        var b' := Locate(t, r.text, 0); b'.Block? && b'.start == b.start && Has(r.text[b'.start..b'.end], t.driverId)
  {
    hide Locate, IndexAt, Has, OccursAt, Contains;
    InsertionOnly(t, content, depIns, depsIns);
    EditPoint(t, content);
    var e, b := EditOf(t, content), Locate(t, content, 0);
    if e.IntoDeps? || e.WithDeps? {
      var ins := if e.IntoDeps? then depIns else depsIns;
      LocateStable(t, content, 0, e.k, ins);
      InsertInSlice(content, e.k, ins, b.start, b.end);
      InsertedIsThere(content[b.start..b.end], e.k - b.start, ins, t.driverId);
    }
  }

  /** So a second run changes nothing. */
  lemma {:induction false} InjectIdempotent(t: Markers, content: string, depIns: string, depsIns: string)
    requires t.Valid() && InsertsDriver(t, depIns) && InsertsDriver(t, depsIns)
    ensures var r := Inject(t, content, depIns, depsIns);
      r.Ok? ==> Inject(t, r.text, depIns, depsIns) == r
  {
    hide Locate, Has, Inject, Contains;
    BlockAfterInject(t, content, depIns, depsIns);
    OutcomeIff(t, content, depIns, depsIns);
    var r := Inject(t, content, depIns, depsIns);
    if r.Ok? {
      OutcomeIff(t, r.text, depIns, depsIns);
    }
  }

  // ----- The texts the program inserts -----

  lemma {:induction false} AbsentBeside(x: string, c: char, y: string, p: string)
    requires c !in p && p != "" && !Contains(x, p) && !Contains(y, p)
    ensures !Contains(x + [c] + y, p)
  {
    forall j ensures !OccursAt(x + [c] + y, p, j) {
      if OccursAt(x + [c] + y, p, j) {
        OccursBesideChar(x, c, y, p, j);
      }
    }
  }

  const CLOSE := "</plugin>"

  lemma {:induction false} TagLinesHaveNoClose()
    ensures !Contains("          <dependency>", CLOSE) && !Contains("          </dependency>", CLOSE)
  {
    CharNotThere("          <dependency>", CLOSE, '/');
    CharNotThere("          </dependency>", CLOSE, 'l');
  }

  lemma {:induction false} IdLinesHaveNoClose()
    ensures !Contains(INDENT + Element("groupId", "org.postgresql"), CLOSE)
    ensures !Contains(INDENT + Element("artifactId", "postgresql"), CLOSE)
    ensures !Contains(INDENT + Element("version", "42.7.4"), CLOSE)
  {
    CharNotThere(INDENT + Element("groupId", "org.postgresql"), CLOSE, 'n');
    CharNotThere(INDENT + Element("artifactId", "postgresql"), CLOSE, 'n');
    CharNotThere(INDENT + Element("version", "42.7.4"), CLOSE, 'p');
  }

  lemma {:induction false} DriverXmlHasNoClose()
    ensures !Contains(DRIVER_XML, CLOSE)
  {
    hide OccursAt, Contains, Element;
    TagLinesHaveNoClose();
    IdLinesHaveNoClose();
    var l1, l5 := "          <dependency>", "          </dependency>";
    var l2, l3 := INDENT + Element("groupId", "org.postgresql"), INDENT + Element("artifactId", "postgresql");
    var l4 := INDENT + Element("version", "42.7.4");
    assert '\n' !in CLOSE;
    AbsentBeside(l4, '\n', l5, CLOSE);
    AbsentBeside(l3, '\n', l4 + "\n" + l5, CLOSE);
    AbsentBeside(l2, '\n', l3 + "\n" + (l4 + "\n" + l5), CLOSE);
    AbsentBeside(l1, '\n', l2 + "\n" + (l3 + "\n" + (l4 + "\n" + l5)), CLOSE);
  }

  lemma {:induction false} Regroup(a: string, b: string, c: string, d: string)
    ensures a + (b + c + d) == a + b + (c + d) == a + b + c + d
  {
  }

  lemma {:induction false} ElementHoldsText(tag: string, text: string)
    ensures Contains(Element(tag, text), text)
  {
    hide Contains;
    ContainsItself(text);
    ContainsInWhole("<" + tag + ">", text, "</" + tag + ">", text);
    assert ("<" + tag + ">") + text + ("</" + tag + ">") == Element(tag, text);
  }

  lemma {:induction false} DriverXmlHoldsDriver()
    ensures Contains(DRIVER_XML, "org.postgresql")
  {
    hide Contains, Element;
    var d, e, dep := "org.postgresql", Element("groupId", "org.postgresql"), "          <dependency>";
    var rest := INDENT + Element("artifactId", "postgresql") + "\n" +
      (INDENT + Element("version", "42.7.4") + "\n" + "          </dependency>");
    ElementHoldsText("groupId", d);
    ContainsInWhole(INDENT, e, "\n" + rest, d);
    Regroup(INDENT, e, "\n", rest);
    var tail := INDENT + e + "\n" + rest;
    ContainsInWhole(dep + "\n", tail, "", d);
    assert dep + "\n" + tail + "" == dep + "\n" + tail;
  }

  lemma {:induction false} DepInsertIsDriver()
    ensures InsertsDriver(DBFLOW, DEP_INSERT)
  {
    hide OccursAt, Contains, Element;
    DriverXmlHasNoClose();
    DriverXmlHoldsDriver();
    var p, x := DBFLOW.pluginClose, DRIVER_XML;
    CharNotThere("        ", p, '<');
    AbsentBeside(x, '\n', "        ", p);
    ContainsInWhole("", x, "\n" + "        ", DBFLOW.driverId);
    assert DEP_INSERT == "" + x + ("\n" + "        ");
  }

  lemma {:induction false} DepsInsertHasNoClose()
    ensures !Contains(DEPS_INSERT, "</plugin>")
  {
    hide OccursAt, Contains, Element;
    DriverXmlHasNoClose();
    var p, x, open, close := "</plugin>", DRIVER_XML, "        <dependencies>", "        </dependencies>";
    CharNotThere("        ", p, '<');
    CharNotThere(open, p, '/');
    CharNotThere(close, p, 'l');
    AbsentBeside(close, '\n', "        ", p);
    AbsentBeside(x, '\n', close + "\n" + "        ", p);
    AbsentBeside(open, '\n', x + "\n" + (close + "\n" + "        "), p);
  }

  lemma {:induction false} DepsInsertHoldsDriver()
    ensures Contains(DEPS_INSERT, "org.postgresql")
  {
    hide OccursAt, Contains, Element;
    DriverXmlHoldsDriver();
    var x, open, rest := DRIVER_XML, "        <dependencies>" + "\n", "        </dependencies>" + "\n" + "        ";
    ContainsInWhole(open, x, "\n" + rest, "org.postgresql");
    Regroup(open, x, "\n", rest);
  }

  lemma {:induction false} DepsInsertIsDriver()
    ensures InsertsDriver(DBFLOW, DEPS_INSERT)
  {
    hide OccursAt, Contains, Element;
    DepsInsertHasNoClose();
    DepsInsertHoldsDriver();
  }

  /** The program's own rewrite: inserting twice is inserting once. */
  lemma {:induction false} InjectDriverIdempotent(content: string)
    ensures var r := InjectDriver(content); r.Ok? ==> InjectDriver(r.text) == r
  {
    hide InsertsDriver, Inject;
    DbflowIsValid();
    DepInsertIsDriver();
    DepsInsertIsDriver();
    InjectIdempotent(DBFLOW, content, DEP_INSERT, DEPS_INSERT);
  }

  // ----- What the program's rewrite writes -----

  ghost predicate Blank(s: string) {
    forall i :: 0 <= i < |s| ==> s[i] == ' ' || s[i] == '\n'
  }

  /** One declaration of the driver: its three elements, with nothing but white space between them. */
  ghost predicate DeclaresDriver(dep: string) {
    exists a, b, c, d :: Blank(a) && Blank(b) && Blank(c) && Blank(d) &&
      dep == "<dependency>" + (a + (("<groupId>" + "org.postgresql" + "</groupId>") +
             (b + (("<artifactId>" + "postgresql" + "</artifactId>") +
             (c + (("<version>" + "42.7.4" + "</version>") + (d + "</dependency>")))))))
  }

  /** `s` is `x` with white space around it. */
  ghost predicate Padded(s: string, x: string) {
    exists a, b :: Blank(a) && Blank(b) && s == a + x + b
  }

  const TEN := "          "

  /** The declaration without the spaces in front of it. */
  lemma {:induction false} DriverXmlDeclares() returns (dep: string)
    ensures DeclaresDriver(dep) && DRIVER_XML == TEN + dep && Padded(DRIVER_XML, dep)
  {
    hide Element, DeclaresDriver;
    var a, d := "\n" + INDENT, "\n" + TEN;
    var g, f, v := Element("groupId", "org.postgresql"), Element("artifactId", "postgresql"),
      Element("version", "42.7.4");
    var afterV := v + (d + "</dependency>");
    var afterF := f + (a + afterV);
    var afterG := g + (a + afterF);
    dep := "<dependency>" + (a + afterG);
    NextLine(INDENT, v, TEN, "</dependency>");
    NextLine(INDENT, f, INDENT, afterV);
    NextLine(INDENT, g, INDENT, afterF);
    NextLine(TEN, "<dependency>", INDENT, afterG);
    TagLinesSpelt();
    ThreeElements(a, d);
    assert Blank(TEN) && Blank("") && DRIVER_XML == TEN + dep + "";
  }

  lemma {:induction false} ThreeElements(a: string, d: string)
    requires Blank(a) && Blank(d)
    ensures DeclaresDriver("<dependency>" + (a + (Element("groupId", "org.postgresql") +
      (a + (Element("artifactId", "postgresql") + (a + (Element("version", "42.7.4") + (d + "</dependency>"))))))))
  {
    hide Element, Blank;
    ElementSpelt("groupId", "org.postgresql", "<groupId>", "</groupId>");
    ElementSpelt("artifactId", "postgresql", "<artifactId>", "</artifactId>");
    ElementSpelt("version", "42.7.4", "<version>", "</version>");
  }

  lemma {:induction false} NextLine(i: string, e: string, j: string, rest: string)
    ensures i + e + "\n" + (j + rest) == i + (e + (("\n" + j) + rest))
  {
  }

  lemma {:induction false} ElementSpelt(tag: string, text: string, open: string, close: string)
    requires open == "<" + tag + ">" && close == "</" + tag + ">"
    ensures Element(tag, text) == open + text + close
  {
  }

  lemma {:induction false} TagLinesSpelt()
    ensures "          <dependency>" == TEN + "<dependency>"
    ensures "          </dependency>" == TEN + "</dependency>"
  {
  }

  const EIGHT := "        "

  lemma {:induction false} DepLinesHaveNoOpening()
    ensures !Contains("          <dependency>", "<dependencies>")
    ensures !Contains("          </dependency>", "<dependencies>")
  {
    CharNotThere("          <dependency>", "<dependencies>", 'i');
    CharNotThere("          </dependency>", "<dependencies>", 'i');
  }

  lemma {:induction false} IdLinesHaveNoOpening()
    ensures !Contains(INDENT + Element("groupId", "org.postgresql"), "<dependencies>")
    ensures !Contains(INDENT + Element("artifactId", "postgresql"), "<dependencies>")
  {
    CharNotThere(INDENT + Element("groupId", "org.postgresql"), "<dependencies>", 'n');
    CharNotThere(INDENT + Element("artifactId", "postgresql"), "<dependencies>", 'n');
  }

  lemma {:induction false} VersionLineHasNoOpening()
    ensures !Contains(INDENT + Element("version", "42.7.4"), "<dependencies>")
  {
    CharNotThere(INDENT + Element("version", "42.7.4"), "<dependencies>", 'p');
  }

  lemma {:induction false} DepInsertHasNoOpening()
    ensures !Contains(DEP_INSERT, "<dependencies>")
  {
    hide OccursAt, Contains, Element;
    DepLinesHaveNoOpening();
    IdLinesHaveNoOpening();
    VersionLineHasNoOpening();
    var l1, l5, p := "          <dependency>", "          </dependency>", "<dependencies>";
    var l2, l3 := INDENT + Element("groupId", "org.postgresql"), INDENT + Element("artifactId", "postgresql");
    var l4 := INDENT + Element("version", "42.7.4");
    assert '\n' !in p;
    CharNotThere(EIGHT, p, '<');
    AbsentBeside(l4, '\n', l5, p);
    AbsentBeside(l3, '\n', l4 + "\n" + l5, p);
    AbsentBeside(l2, '\n', l3 + "\n" + (l4 + "\n" + l5), p);
    AbsentBeside(l1, '\n', l2 + "\n" + (l3 + "\n" + (l4 + "\n" + l5)), p);
    AbsentBeside(DRIVER_XML, '\n', EIGHT, p);
  }

  /** Into an existing dependencies block goes one declaration of the driver. */
  ghost predicate InsertsDeclaration(ins: string) {
    !Contains(ins, "<dependencies>") && exists dep :: DeclaresDriver(dep) && Padded(ins, dep)
  }

  /** Without one, a dependencies block around one declaration of the driver is added. */
  ghost predicate InsertsDependencies(ins: string) {
    exists dep, inner ::
      DeclaresDriver(dep) && Padded(inner, dep) && Padded(ins, "<dependencies>" + inner + "</dependencies>")
  }

  lemma {:induction false} DepInsertDeclares()
    ensures InsertsDeclaration(DEP_INSERT)
  {
    hide Contains, DeclaresDriver;
    DepInsertHasNoOpening();
    var dep := DriverXmlDeclares();
    var b := "\n" + EIGHT;
    assert Blank(TEN) && Blank(b);
    assert DEP_INSERT == TEN + dep + b;
    assert Padded(DEP_INSERT, dep);
  }

  lemma {:induction false} DepsInsertDeclares()
    ensures InsertsDependencies(DEPS_INSERT)
  {
    hide Contains, DeclaresDriver;
    var dep := DriverXmlDeclares();
    var open, close := "<dependencies>", "</dependencies>";
    var b := "\n" + EIGHT;
    var inner := "\n" + TEN + dep + b;
    assert Blank("\n" + TEN) && Blank(b) && Blank(EIGHT);
    DependenciesSpelt();
    AroundBlock(EIGHT, open, "\n", TEN, dep, close);
    assert DEPS_INSERT == EIGHT + (open + inner + close) + b;
    assert Padded(inner, dep) && Padded(DEPS_INSERT, open + inner + close);
  }

  lemma {:induction false} DependenciesSpelt()
    ensures "        <dependencies>" == EIGHT + "<dependencies>"
    ensures "        </dependencies>" == EIGHT + "</dependencies>"
  {
  }

  lemma {:induction false} AroundBlock(e: string, open: string, n: string, t: string, dep: string, close: string)
    ensures (e + open) + n + ((t + dep) + n + ((e + close) + n + e)) ==
            e + (open + (n + t + dep + (n + e)) + close) + (n + e)
  {
  }

  /** The plugin's block: from an opening tag to the first closing tag after it, naming the plugin. */
  lemma {:induction false} DriverBlock(content: string)
    ensures var b := Locate(DBFLOW, content, 0);
      b.Block? ==>
        b.start + 9 <= b.end <= |content| &&
        OccursAt(content, "<plugin>", b.start) && OccursAt(content, "</plugin>", b.end - 9) &&
        (forall j :: b.start <= j < b.end - 9 ==> !OccursAt(content, "</plugin>", j)) &&
        Contains(content[b.start..b.end], "com.gs.ftt.coe-ds") &&
        Contains(content[b.start..b.end], "relational-db-release-manager-plugin")
  {
    hide Locate, IndexAt, OccursAt, Contains;
    DbflowIsValid();
    var b := Locate(DBFLOW, content, 0);
    if b.Block? {
      IndexAtIsLeftmost(content, DBFLOW.pluginOpen, b.start);
      IndexAtIsLeftmost(content, DBFLOW.pluginClose, b.start);
      var n := LocateIsFirstMatch(DBFLOW, content, 0);
      IndexFinds(content[b.start..b.end], DBFLOW.groupId);
      IndexFinds(content[b.start..b.end], DBFLOW.artifactId);
    }
  }

  /** What the program's rewrite does to the plugin's block. When it holds the driver, or there is no such
      block, nothing changes. When it opens dependencies without closing them, that is an error. When it has
      both tags, one declaration of the driver is put directly before the first closing tag in the block; when
      it opens none, a dependencies block around the declaration is put directly before the plugin's end. */
  lemma {:induction false} InjectDriverWrites(content: string) returns (k: nat, ins: string)
    ensures k <= |content|
    ensures var b, r := Locate(DBFLOW, content, 0), InjectDriver(content);
      if b.NoBlock? || Contains(content[b.start..b.end], "org.postgresql") then r == Ok(content)
      else if !Contains(content[b.start..b.end], "<dependencies>") then
        r == Ok(content[..k] + ins + content[k..]) && k == b.end - 9 && InsertsDependencies(ins)
      else if !Contains(content[b.start..b.end], "</dependencies>") then r == Failed(content, DepsUnclosed)
      else
        r == Ok(content[..k] + ins + content[k..]) && b.start <= k <= b.end &&
        OccursAt(content[b.start..b.end], "</dependencies>", k - b.start) &&
        (forall j :: 0 <= j < k - b.start ==> !OccursAt(content[b.start..b.end], "</dependencies>", j)) &&
        InsertsDeclaration(ins)
  {
    hide Locate, IndexAt, OccursAt, Contains, Inject, InsertsDeclaration, InsertsDependencies;
    DbflowIsValid();
    InsertionOnly(DBFLOW, content, DEP_INSERT, DEPS_INSERT);
    var b, e := Locate(DBFLOW, content, 0), EditOf(DBFLOW, content);
    k, ins := 0, "";
    if b.Block? {
      var block := content[b.start..b.end];
      IndexFinds(block, "org.postgresql");
      IndexFinds(block, "<dependencies>");
      IndexFinds(block, "</dependencies>");
      if e.IntoDeps? {
        k, ins := e.k, DEP_INSERT;
        IndexAtIsLeftmost(block, "</dependencies>", 0);
        DepInsertDeclares();
      } else if e.WithDeps? {
        k, ins := e.k, DEPS_INSERT;
        DepsInsertDeclares();
      }
    }
  }

  // ----- The file -----

  class PomFile {
    var content: string

    constructor (text: string)
      ensures content == text
    {
      content := text;
    }
  }

  datatype Injection = ReadFailed | PatchFailed | WriteFailed | NoOp | Injected(xml: string)

  /** InjectDriverDependency; whether the file can be read and written is up to the environment, and a
      failed write may leave anything. */
  method InjectDriverDependency(pom: PomFile, readable: bool, writable: bool) returns (r: Injection)
    modifies pom
    ensures !readable ==> r == ReadFailed && pom.content == old(pom.content)
    ensures readable ==>
      var p := InjectDriver(old(pom.content));
      (r.NoOp? <==> p == Ok(old(pom.content))) &&
      (r.PatchFailed? <==> p.Failed?) &&
      (r.Injected? ==>
        writable && p.Ok? && pom.content == p.text && exists dep :: DeclaresDriver(dep) && Padded(r.xml, dep)) &&
      (r.NoOp? || r.PatchFailed? ==> pom.content == old(pom.content)) &&
      (writable ==> !r.WriteFailed?)
  {
    hide InjectDriver, DeclaresDriver, Padded;
    if !readable {
      return ReadFailed;
    }
    var original := pom.content;
    var patched := InjectDriver(original);
    if patched.Failed? {
      return PatchFailed;
    }
    if patched.text == original {
      return NoOp;
    }
    if !writable {
      pom.content := *;
      return WriteFailed;
    }
    pom.content := patched.text;
    ghost var dep := DriverXmlDeclares();
    r := Injected(DRIVER_XML);
  }
}
