/** internal/engine/detect.go and internal/liquibase/patch.go: which engine a properties file names, and
    what patching the file does to that answer. */
module Engine {
  import opened Text
  import opened Trim
  import opened Properties
  import opened SimpleReader

  datatype Engine = Postgres | Oracle | Snowflake | Unknown

  /** strings.ToLower. Besides the ASCII capitals, the Kelvin sign and the dotted capital I are the only
      characters whose lower case is ASCII; the case of other letters does not matter for ASCII patterns. */
  function Lower(c: char): char {
    if 'A' <= c <= 'Z' then c + ('a' - 'A')
    else if c == '\U{212A}' then 'k'
    else if c == '\U{0130}' then 'i'
    else c
  }

  function ToLower(s: string): string {
    seq(|s|, i requires 0 <= i < |s| => Lower(s[i]))
  }

  function ClassifyURL(url: string): Engine {
    if Has(url, "jdbc:postgresql") then Postgres
    else if Has(url, "jdbc:oracle") then Oracle
    else if Has(url, "jdbc:snowflake") || Has(url, "snowflakecomputing.com") then Snowflake
    else Unknown
  }

  function ClassifyDriver(driver: string): Engine {
    if Has(driver, "postgresql") then Postgres
    else if Has(driver, "oracle") then Oracle
    else if Has(driver, "snowflake") then Snowflake
    else Unknown
  }

  datatype Verdict = Supported | Ambiguous | CloudOnly | OutOfScope | Unrecognised

  function Decide(url: Engine, driver: Engine): Verdict {
    if url == Oracle && driver == Postgres then Ambiguous
    else if url == Snowflake || driver == Snowflake then CloudOnly
    else if url == Oracle || driver == Oracle then OutOfScope
    else if url == Postgres || driver == Postgres then Supported
    else Unrecognised
  }

  function UrlEngine(props: map<string, string>): Engine {
    ClassifyURL(ToLower(Lookup(props, "url")))
  }

  function DriverEngine(props: map<string, string>): Engine {
    ClassifyDriver(ToLower(Lookup(props, "driver")))
  }

  function Detect(props: map<string, string>): Verdict {
    Decide(UrlEngine(props), DriverEngine(props))
  }

  /** The character is the lower-case letter or sign `l`, in either case. */
  predicate SameLetter(c: char, l: char) {
    c == l || ('A' <= c <= 'Z' && c as int + 32 == l as int) || (c == '\U{212A}' && l == 'k') ||
    (c == '\U{0130}' && l == 'i')
  }

  /** `p` occurs in `s`, whatever the case of its letters there. */
  ghost predicate Says(s: string, p: string) {
    exists j :: SaysAt(s, p, j)
  }

  ghost predicate SaysAt(s: string, p: string, j: int) {
    0 <= j && j + |p| <= |s| && forall i :: 0 <= i < |p| ==> SameLetter(s[j + i], p[i])
  }

  ghost predicate IsLower(p: string) {
    forall i :: 0 <= i < |p| ==> p[i] == ':' || p[i] == '.' || 'a' <= p[i] <= 'z'
  }

  lemma {:induction false} LowerHasIff(s: string, p: string)
    requires IsLower(p)
    ensures Has(ToLower(s), p) <==> Says(s, p)
  {
    hide ToLower;
    var t := ToLower(s);
    IndexFinds(t, p);
    forall j ensures OccursAt(t, p, j) <==> SaysAt(s, p, j) {
      OccursChars(t, p, j);
      LettersMatch(s, p, j);
    }
  }

  lemma {:induction false} LettersMatch(s: string, p: string, j: int)
    requires IsLower(p)
    ensures |ToLower(s)| == |s|
    ensures 0 <= j && j + |p| <= |s| ==>
      ((forall i :: 0 <= i < |p| ==> p[i] == ToLower(s)[j + i]) <==>
       (forall i :: 0 <= i < |p| ==> SameLetter(s[j + i], p[i])))
  {
    if 0 <= j && j + |p| <= |s| {
      forall i | 0 <= i < |p| ensures p[i] == ToLower(s)[j + i] <==> SameLetter(s[j + i], p[i]) {
        LowerIff(s[j + i], p[i]);
      }
    }
  }

  lemma {:induction false} LowerIff(c: char, l: char)
    requires l == ':' || l == '.' || 'a' <= l <= 'z'
    ensures Lower(c) == l <==> SameLetter(c, l)
  {
  }

  /** The url speaks for Postgres if it says jdbc:postgresql in any case, else for Oracle if it says
      jdbc:oracle, else for Snowflake if it says one of that engine's two words. */
  lemma {:induction false} UrlEngineIff(props: map<string, string>)
    ensures var u, e := Lookup(props, "url"), UrlEngine(props);
      (e == Postgres <==> Says(u, "jdbc:postgresql")) &&
      (e == Oracle <==> !Says(u, "jdbc:postgresql") && Says(u, "jdbc:oracle")) &&
      (e == Snowflake <==> !Says(u, "jdbc:postgresql") && !Says(u, "jdbc:oracle") &&
                           (Says(u, "jdbc:snowflake") || Says(u, "snowflakecomputing.com")))
  {
    hide Says, ToLower, Has;
    var u := Lookup(props, "url");
    LowerHasIff(u, "jdbc:postgresql");
    LowerHasIff(u, "jdbc:oracle");
    LowerHasIff(u, "jdbc:snowflake");
    LowerHasIff(u, "snowflakecomputing.com");
  }

  /** Likewise the driver. */
  lemma {:induction false} DriverEngineIff(props: map<string, string>)
    ensures var d, e := Lookup(props, "driver"), DriverEngine(props);
      (e == Postgres <==> Says(d, "postgresql")) &&
      (e == Oracle <==> !Says(d, "postgresql") && Says(d, "oracle")) &&
      (e == Snowflake <==> !Says(d, "postgresql") && !Says(d, "oracle") && Says(d, "snowflake"))
  {
    hide Says, ToLower, Has;
    var d := Lookup(props, "driver");
    LowerHasIff(d, "postgresql");
    LowerHasIff(d, "oracle");
    LowerHasIff(d, "snowflake");
  }

  /** Detection in plain terms: the file is a Postgres file exactly when url or driver says so, in any case, and
      neither speaks for another engine, which each does only when it does not say so itself. */
  lemma {:induction false} DetectIff(props: map<string, string>)
    ensures var u, d := Lookup(props, "url"), Lookup(props, "driver");
      var uPg, dPg := Says(u, "jdbc:postgresql"), Says(d, "postgresql");
      var uOracle, dOracle := !uPg && Says(u, "jdbc:oracle"), !dPg && Says(d, "oracle");
      var uCloud := !uPg && !uOracle && (Says(u, "jdbc:snowflake") || Says(u, "snowflakecomputing.com"));
      var dCloud := !dPg && !dOracle && Says(d, "snowflake");
      (Detect(props) == Supported <==> (uPg || dPg) && !uOracle && !dOracle && !uCloud && !dCloud) &&
      (Detect(props) == Ambiguous <==> uOracle && dPg) &&
      (Detect(props) == CloudOnly <==> uCloud || dCloud) &&
      (Detect(props) == OutOfScope <==> (uOracle || dOracle) && !(uOracle && dPg) && !uCloud && !dCloud)
  {
    hide Says, UrlEngine, DriverEngine;
    UrlEngineIff(props);
    DriverEngineIff(props);
  }

  // ----- Patching -----

  datatype Coords = Coords(
    host: string, port: int, aliasHost: string, aliasPort: int, user: string, password: string, dbName: string)

  function Digits(n: nat): (s: string)
    ensures s != "" && '\n' !in s
  {
    var d := [(n % 10) as char + '0'];
    if n < 10 then d else Digits(n / 10) + d
  }

  function Itoa(n: int): (s: string)
    ensures '\n' !in s
  {
    if n < 0 then "-" + Digits(-n) else Digits(n)
  }

  /** The number that a row of decimal digits stands for. */
  function NumberOf(s: string): int {
    if s == "" then 0 else NumberOf(s[..|s| - 1]) * 10 + (s[|s| - 1] as int - '0' as int)
  }

  /** `s` is the number in decimal, as `%d` prints it: digits without a leading zero, with a minus sign in front
      when it is negative. */
  ghost predicate Writes(s: string, n: int) {
    if n < 0 then |s| > 1 && s[0] == '-' && Writes(s[1..], -n)
    else |s| > 0 && (forall i :: 0 <= i < |s| ==> '0' <= s[i] <= '9') && (s[0] == '0' ==> |s| == 1) && NumberOf(s) == n
  }

  lemma {:induction false} DigitsWrite(n: nat)
    ensures Writes(Digits(n), n) && (n > 0 ==> Digits(n)[0] != '0')
    decreases n
  {
    if n >= 10 {
      DigitsWrite(n / 10);
      var rest, d := Digits(n / 10), [(n % 10) as char + '0'];
      assert (rest + d)[..|rest|] == rest;
    } else {
      assert NumberOf("") == 0;
    }
  }

  lemma {:induction false} ItoaWrites(n: int)
    ensures Writes(Itoa(n), n)
  {
    DigitsWrite(if n < 0 then -n else n);
    if n < 0 {
      assert ("-" + Digits(-n))[1..] == Digits(-n);
    }
  }

  const JDBC_PREFIX := "jdbc:postgresql://"
  const PG_DRIVER := "org.postgresql.Driver"

  /** The network alias is used when there is one. */
  function JdbcUrl(c: Coords): string {
    if c.aliasHost != "" then JDBC_PREFIX + (c.aliasHost + ":" + Itoa(c.aliasPort) + "/" + c.dbName)
    else JDBC_PREFIX + (c.host + ":" + Itoa(c.port) + "/" + c.dbName)
  }

  function NewValues(c: Coords): seq<(string, string)> {
    [("url", JdbcUrl(c)), ("username", c.user), ("password", c.password), ("driver", PG_DRIVER)]
  }

  /** The patched text of a properties file. */
  function Patched(d: string, c: Coords): string {
    Unlines(Raws(SetAll(ParseLines(Lines(d)), NewValues(c))))
  }

  /** The url of a database at a host and port. */
  ghost predicate IsUrl(url: string, host: string, port: int, dbName: string) {
    exists p :: Writes(p, port) && url == "jdbc:postgresql://" + (host + ":" + p + "/" + dbName)
  }

  datatype Change = Change(key: string, before: string, after: string)

  class PropsFile {
    var content: string

    constructor (text: string)
      ensures content == text
    {
      content := text;
    }
  }

  datatype Outcome = ReadFailed | WriteFailed | Done(changes: seq<Change>)

  /** The reported changes: the value each key had in the file, and its new value. */
  function Changes(lines: seq<Line>, kvs: seq<(string, string)>): seq<Change> {
    seq(|kvs|, i requires 0 <= i < |kvs| => Change(kvs[i].0, GetFrom(lines, kvs[i].0, 0), kvs[i].1))
  }

  /** Patcher.Patch; whether the file can be read and written is up to the environment, and a failed write
      may leave anything. */
  method Patch(file: PropsFile, c: Coords, readable: bool, writable: bool) returns (r: Outcome)
    modifies file
    ensures !readable ==> r == ReadFailed
    ensures readable && !writable ==> r == WriteFailed
    ensures readable && writable ==>
      file.content == Patched(old(file.content), c) &&
      r == Done(Changes(ParseLines(Lines(old(file.content))), NewValues(c))) &&
      (OneLine(c) ==> LogsInWith(old(file.content), file.content, c))
    ensures r.ReadFailed? ==> file.content == old(file.content)
  {
    hide ParseLines, Lines, Unlines, Raws, SetIn, GetFrom, LogsInWith;
    if OneLine(c) {
      PatchedLogsIn(file.content, c);
    }
    if !readable {
      return ReadFailed;
    }
    var props := new Properties.Parse(file.content);
    ghost var lines := props.lines;
    var kvs := NewValues(c);
    var changes := [];
    for i := 0 to |kvs|
      invariant file.content == old(file.content) && changes == Changes(lines, kvs[..i])
      invariant SetAll(lines, kvs) == SetAll(props.lines, kvs[i..])
      invariant forall j :: i <= j < |kvs| ==> GetFrom(props.lines, kvs[j].0, 0) == GetFrom(lines, kvs[j].0, 0)
    {
      var nv := kvs[i];
      assert kvs[i..][0] == nv && kvs[i..][1..] == kvs[i + 1..];
      assert kvs[..i + 1] == kvs[..i] + [nv];
      var before := props.Get(nv.0);
      ghost var was := props.lines;
      props.Set(nv.0, nv.1);
      forall j | i < j < |kvs| ensures GetFrom(props.lines, kvs[j].0, 0) == GetFrom(was, kvs[j].0, 0) {
        KeysDiffer(c, i, j);
        SetKeepsOthers(was, nv.0, nv.1, kvs[j].0, 0);
      }
      changes := changes + [Change(nv.0, before, nv.1)];
    }
    assert kvs[..|kvs|] == kvs;
    var rendered := props.Render();
    if !writable {
      file.content := *;
      return WriteFailed;
    }
    file.content := rendered;
    r := Done(changes);
  }

  /** The four changes, in order: what `Get` said of the key before, and what it is set to. */
  lemma {:induction false} ChangesReported(lines: seq<Line>, c: Coords)
    ensures var r := Changes(lines, NewValues(c));
      |r| == 4 &&
      r[1] == Change("username", GetFrom(lines, "username", 0), c.user) &&
      r[2] == Change("password", GetFrom(lines, "password", 0), c.password) &&
      r[3] == Change("driver", GetFrom(lines, "driver", 0), "org.postgresql.Driver") &&
      r[0].key == "url" && r[0].before == GetFrom(lines, "url", 0) &&
      if c.aliasHost != "" then IsUrl(r[0].after, c.aliasHost, c.aliasPort, c.dbName)
      else IsUrl(r[0].after, c.host, c.port, c.dbName)
  {
    hide GetFrom, Writes;
    ItoaWrites(if c.aliasHost != "" then c.aliasPort else c.port);
  }

  lemma {:induction false} KeysDiffer(c: Coords, i: nat, j: nat)
    requires i < j < 4
    ensures NewValues(c)[i].0 != NewValues(c)[j].0
  {
    assert "url"[0] == 'u' && "username"[1] == 's' && "password"[0] == 'p' && "driver"[0] == 'd';
  }

  // ----- What the patched file says -----

  lemma {:induction false} LowerKeeps(s: string, p: string)
    requires forall i :: 0 <= i < |p| ==> Lower(p[i]) == p[i]
    requires Contains(s, p)
    ensures Has(ToLower(s), p)
  {
    hide Lower;
    var j :| OccursAt(s, p, j);
    OccursChars(s, p, j);
    OccursChars(ToLower(s), p, j);
    IndexFinds(ToLower(s), p);
  }

  /** Trimming keeps a trimmed beginning. */
  lemma {:induction false} TrimKeepsStart(p: string, rest: string)
    requires IsTrimmed(p) && p != ""
    ensures p <= TrimSpace(p + rest)
  {
    hide TrimSpace, IsSpace;
    var s := p + rest;
    var pre, post := TrimSplits(s);
    var t, n := TrimSpace(s), |p| - 1;
    assert s == pre + (t + post) == (pre + t) + post;
    assert s[0] == p[0] && s[n] == p[n];
    SpaceStartEnds(pre, t + post, 0);
    SpaceEndStarts(pre + t, post, n);
    assert pre == "" && s == t + post;
    assert t[..|p|] == s[..|p|] == p;
  }

  lemma {:induction false} NewUrlIsPostgres(c: Coords)
    ensures ClassifyURL(ToLower(TrimSpace(JdbcUrl(c)))) == Postgres
  {
    hide TrimSpace, ToLower;
    var p, url := "jdbc:postgresql", JdbcUrl(c);
    var rest := url[|JDBC_PREFIX|..];
    assert url == JDBC_PREFIX + rest;
    TrimKeepsStart(JDBC_PREFIX, rest);
    var t := TrimSpace(url);
    assert t[..|p|] == JDBC_PREFIX[..|p|] == p;
    assert t[0..0 + |p|] == t[..|p|];
    assert OccursAt(t, p, 0);
    LowerKeeps(t, p);
  }

  lemma {:induction false} NewDriverIsPostgres()
    ensures ClassifyDriver(ToLower(TrimSpace(PG_DRIVER))) == Postgres
  {
    hide ToLower;
    var p := "postgresql";
    TrimTrimmed(PG_DRIVER);
    assert PG_DRIVER[4..4 + |p|] == p;
    assert OccursAt(PG_DRIVER, p, 4);
    LowerKeeps(PG_DRIVER, p);
  }

  ghost predicate OneLine(c: Coords) {
    '\n' !in c.host && '\n' !in c.aliasHost && '\n' !in c.user && '\n' !in c.password && '\n' !in c.dbName
  }

  function Read(d: string): map<string, string> {
    RawProps(Lines(d), map[], 0)
  }

  function Entries(d: string, k: string): nat {
    Count(ParseLines(Lines(d)), k, 0)
  }

  lemma {:induction false} NewValuesAreClean(c: Coords)
    requires OneLine(c)
    ensures CleanEdits(NewValues(c)) && DistinctKeys(NewValues(c))
  {
    KeysAreDistinct(c);
  }

  /** What the file `d'` says of the database after `d` was patched: user, password, driver and url are those of
      the database, for each key that had at most one line; every other key, and a key that had more, is as it
      was. The url names the alias and its port when there is an alias, and else host and port. */
  ghost predicate LogsInWith(d: string, d': string, c: Coords) {
    var now := Read(d');
    (Entries(d, "username") <= 1 ==> Lookup(now, "username") == TrimSpace(c.user)) &&
    (Entries(d, "password") <= 1 ==> Lookup(now, "password") == TrimSpace(c.password)) &&
    (Entries(d, "driver") <= 1 ==> Lookup(now, "driver") == "org.postgresql.Driver") &&
    (Entries(d, "url") <= 1 ==>
      exists url :: Lookup(now, "url") == TrimSpace(url) &&
        if c.aliasHost != "" then IsUrl(url, c.aliasHost, c.aliasPort, c.dbName)
        else IsUrl(url, c.host, c.port, c.dbName)) &&
    (forall k :: k !in {"url", "username", "password", "driver"} || Entries(d, k) > 1 ==>
      Lookup(now, k) == Lookup(Read(d), k))
  }

  lemma {:induction false} UserAndPasswordAssigned(c: Coords)
    ensures Assigned(NewValues(c), "username") == Changed(c.user)
    ensures Assigned(NewValues(c), "password") == Changed(c.password)
  {
    hide JdbcUrl, Assigned;
    KeysAreDistinct(c);
    AssignedAt(NewValues(c), 1);
    AssignedAt(NewValues(c), 2);
  }

  lemma {:induction false} OthersKept(c: Coords, k: string)
    requires k !in {"url", "username", "password", "driver"}
    ensures Assigned(NewValues(c), k) == Kept
  {
    hide JdbcUrl, Assigned;
    NotAssigned(NewValues(c), k);
  }

  /** A patched file logs in to the database it was patched for. */
  lemma {:induction false} PatchedLogsIn(d: string, c: Coords)
    requires OneLine(c)
    ensures LogsInWith(d, Patched(d, c), c)
  {
    hide Patched, Read, Entries, NewValues, TrimSpace, Itoa, Writes;
    UrlAndDriverAssigned(c);
    UserAndPasswordAssigned(c);
    ItoaWrites(if c.aliasHost != "" then c.aliasPort else c.port);
    assert TrimSpace(PG_DRIVER) == PG_DRIVER by { TrimTrimmed(PG_DRIVER); }
    forall k ensures
      (k in {"url", "username", "password", "driver"} && Entries(d, k) <= 1 ==>
        Assigned(NewValues(c), k).Changed? &&
        Lookup(Read(Patched(d, c)), k) == TrimSpace(Assigned(NewValues(c), k).val)) &&
      (k !in {"url", "username", "password", "driver"} || Entries(d, k) > 1 ==>
        Lookup(Read(Patched(d, c)), k) == Lookup(Read(d), k))
    {
      ReaderAfterPatch(d, c, k);
      if k !in {"url", "username", "password", "driver"} {
        OthersKept(c, k);
      }
    }
  }

  /** For every key the simple reader sees, after patching, the new value when the patch sets the key and
      the file had at most one line for it, and otherwise the value the file had before. */
  lemma {:induction false} ReaderAfterPatch(d: string, c: Coords, k: string)
    requires OneLine(c)
    ensures Lookup(Read(Patched(d, c)), k) ==
      if Assigned(NewValues(c), k).Changed? && Entries(d, k) <= 1 then TrimSpace(Assigned(NewValues(c), k).val)
      else Lookup(Read(d), k)
  {
    hide NewValues, CleanEdits, DistinctKeys;
    NewValuesAreClean(c);
    ReaderAfterEdits(d, NewValues(c), k);
  }

  lemma {:induction false} UrlAndDriverAssigned(c: Coords)
    ensures Assigned(NewValues(c), "url") == Changed(JdbcUrl(c))
    ensures Assigned(NewValues(c), "driver") == Changed(PG_DRIVER)
  {
    hide JdbcUrl, Assigned;
    KeysAreDistinct(c);
    AssignedAt(NewValues(c), 0);
    AssignedAt(NewValues(c), 3);
  }

  lemma {:induction false} KeysAreDistinct(c: Coords)
    ensures DistinctKeys(NewValues(c))
  {
    var kvs := NewValues(c);
    forall i, j | 0 <= i < j < |kvs| ensures kvs[i].0 != kvs[j].0 {
      KeysDiffer(c, i, j);
    }
  }

  /** What detection says of a patched file, for every file: a url or driver key that had two lines keeps
      its old answer, otherwise the answer is Postgres. */
  lemma {:induction false} DetectAfterPatch(d: string, c: Coords)
    requires OneLine(c)
    ensures Detect(Read(Patched(d, c))) ==
      Decide(if Entries(d, "url") <= 1 then Postgres else UrlEngine(Read(d)),
             if Entries(d, "driver") <= 1 then Postgres else DriverEngine(Read(d)))
  {
    hide Patched, Read, Entries, NewValues, JdbcUrl, Decide, ClassifyURL, ClassifyDriver, TrimSpace, ToLower;
    ReaderAfterPatch(d, c, "url");
    ReaderAfterPatch(d, c, "driver");
    UrlAndDriverAssigned(c);
    NewUrlIsPostgres(c);
    NewDriverIsPostgres();
  }

  /** So a patched file is a Postgres file exactly when no leftover second url or driver line names another
      engine; in particular whenever both keys occur at most once. */
  lemma {:induction false} PatchedIsPostgresIff(d: string, c: Coords)
    requires OneLine(c)
    ensures var u, v := Entries(d, "url") <= 1, Entries(d, "driver") <= 1;
      Detect(Read(Patched(d, c))) == Supported <==>
        (u || UrlEngine(Read(d)) !in {Oracle, Snowflake}) && (v || DriverEngine(Read(d)) !in {Oracle, Snowflake}) &&
        (u || v || UrlEngine(Read(d)) == Postgres || DriverEngine(Read(d)) == Postgres)
  {
    hide Detect, Entries, Patched, Read, UrlEngine, DriverEngine;
    DetectAfterPatch(d, c);
  }
}
