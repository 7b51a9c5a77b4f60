/** The request line, cut up in place by NULs. The two parsers differ only in the characters that
    may end the method. */
module RequestLines {
  import opened CStrings
  import opened Wrappers

  // ---------- What the code computes ----------

  /** The path of the request target, if it has one. */
  function PathOf(url: string): Option<string> {
    if PrefixNoCase(url, "http://") then
      var rest := url[7..];
      var k := Find(rest, {'/'});
      if k == |rest| then None else Some(rest[k..])
    else if url == "" || url[0] != '/' then None
    else Some(url)
  }

  /** What stands between the method and the version, given what follows the method. */
  function TargetOf(rest: string): Option<string> {
    var url := rest[Span(rest, '\t')..];
    var j := Find(url, {'\t'});
    if j == |url| then None
    else
      var version := url[j + 1..];
      if EqualNoCase(version[Span(version, '\t')..], "HTTP/1.1") then PathOf(url[..j]) else None
  }

  /** The requested path, or nothing when the line is rejected. */
  function ParseTarget(line: string, delims: set<char>): Option<string> {
    var i := Find(line, delims);
    if i == |line| || !EqualNoCase(line[..i], "GET") then None else TargetOf(line[i + 1..])
  }

  // ---------- The language, independently ----------

  ghost predicate Tabs(s: string) {
    forall i :: 0 <= i < |s| ==> s[i] == '\t'
  }

  /** `target` is "http://", a host, and the path. */
  ghost predicate HostAndPath(target: string, host: string, path: string) {
    |target| >= 7 && target[7..] == host + path && '/' !in host
  }

  /** `target` is an absolute path, or "http://" and a host in front of one. */
  ghost predicate TargetShape(target: string, path: string) {
    && path != "" && path[0] == '/'
    && if PrefixNoCase(target, "http://") then exists host :: HostAndPath(target, host, path)
       else target == path
  }

  /** Tabs, target, tabs, version. */
  ghost predicate TailParts(rest: string, t: string, target: string, u: string, version: string, path: string) {
    && rest == t + (target + (u + version))
    && Tabs(t) && '\t' !in target && TargetShape(target, path)
    && u != "" && Tabs(u) && EqualNoCase(version, "HTTP/1.1")
  }

  /** Method, separator, tabs, target, tabs, version. */
  ghost predicate LineParts(line: string, delims: set<char>, m: string, rest: string) {
    |m| < |line| && m == line[..|m|] && line[|m|] in delims && rest == line[|m| + 1..] && EqualNoCase(m, "GET")
  }

  ghost predicate LineShape(line: string, delims: set<char>, path: string) {
    exists m, rest, t, target, u, version ::
      LineParts(line, delims, m, rest) && TailParts(rest, t, target, u, version, path)
  }

  lemma PathOfHasShape(target: string, path: string)
    requires PathOf(target) == Some(path)
    ensures TargetShape(target, path)
  {
    if PrefixNoCase(target, "http://") {
      var rest := target[7..];
      var k := Find(rest, {'/'});
      assert rest == rest[..k] + rest[k..];
      assert HostAndPath(target, rest[..k], path);
    }
  }

  lemma ShapeHasPath(target: string, path: string)
    requires TargetShape(target, path)
    ensures PathOf(target) == Some(path)
  {
    if PrefixNoCase(target, "http://") {
      var host :| HostAndPath(target, host, path);
      var rest := target[7..];
      FindIs(rest, {'/'}, |host|);
      assert rest[|host|..] == path;
    }
  }

  lemma NoTabInVersion(version: string)
    requires EqualNoCase(version, "HTTP/1.1")
    ensures |version| == 8 && forall i :: 0 <= i < 8 ==> version[i] != '\t'
  {
    forall i | 0 <= i < 8 ensures version[i] != '\t' {
      assert Lower(version[i]) == Lower("HTTP/1.1"[i]) != '\t';
    }
  }

  lemma VersionIsSplit(s: string) returns (u: string, version: string)
    requires s != "" && s[0] == '\t'
    ensures s == u + version && u != "" && Tabs(u) && version == s[1..][Span(s[1..], '\t')..]
  {
    var k := Span(s[1..], '\t');
    u, version := s[..1 + k], s[1 + k..];
    forall i | 0 <= i < |u| ensures u[i] == '\t' {
      if i > 0 { assert u[i] == s[1..][i - 1]; }
    }
  }

  lemma TailIsSplit(rest: string, path: string) returns (t: string, target: string, u: string, version: string)
    requires TargetOf(rest) == Some(path)
    ensures TailParts(rest, t, target, u, version, path)
  {
    var n := Span(rest, '\t');
    var url := rest[n..];
    var j := Find(url, {'\t'});
    t, target := rest[..n], url[..j];
    assert Tabs(t) && '\t' !in target && url[j] == '\t';
    assert url[j..][1..] == url[j + 1..] && url[j..][0] == url[j];
    var after := url[j + 1..];
    assert EqualNoCase(after[Span(after, '\t')..], "HTTP/1.1") && PathOf(target) == Some(path);
    hide *;
    PathOfHasShape(target, path);
    u, version := VersionIsSplit(url[j..]);
    JoinTail(rest, n, j, u, version);
    TailIsWhole(rest, t, target, u, version, path);
  }

  lemma TailIsWhole(rest: string, t: string, target: string, u: string, version: string, path: string)
    requires rest == t + (target + (u + version))
    requires Tabs(t) && '\t' !in target && TargetShape(target, path)
    requires u != "" && Tabs(u) && EqualNoCase(version, "HTTP/1.1")
    ensures TailParts(rest, t, target, u, version, path)
  {
  }

  lemma JoinTail(rest: string, n: nat, j: nat, u: string, version: string)
    requires n <= |rest| && j <= |rest| - n && rest[n..][j..] == u + version
    ensures rest == rest[..n] + (rest[n..][..j] + (u + version))
  {
    assert rest[n..] == rest[n..][..j] + rest[n..][j..];
  }

  lemma VersionIsParsed(u: string, version: string)
    requires u != "" && Tabs(u) && EqualNoCase(version, "HTTP/1.1")
    ensures (u + version)[0] == '\t'
    ensures var after := (u + version)[1..]; after[Span(after, '\t')..] == version
  {
    NoTabInVersion(version);
    hide EqualNoCase;
    var after := (u + version)[1..];
    assert after == u[1..] + version;
    SpanIs(after, '\t', |u| - 1);
  }

  lemma TailIsParsed(rest: string, t: string, target: string, u: string, version: string, path: string)
    requires TailParts(rest, t, target, u, version, path)
    ensures TargetOf(rest) == Some(path)
  {
    ShapeHasPath(target, path);
    assert target != "";
    VersionIsParsed(u, version);
    hide EqualNoCase, PathOf, TargetShape;
    var s := u + version;
    var url := target + s;
    assert rest[|t|..] == url;
    SpanIs(rest, '\t', |t|);
    FindIs(url, {'\t'}, |target|);
    assert url[..|target|] == target && url[|target| + 1..] == s[1..];
  }

  /** A line is accepted, with this path, exactly when it has the shape of a GET request line. */
  lemma {:induction false} ParseTargetMeaning(line: string, delims: set<char>, path: string)
    requires forall c :: c in {'G', 'E', 'T', 'g', 'e', 't'} ==> c !in delims
    ensures ParseTarget(line, delims) == Some(path) <==> LineShape(line, delims, path)
  {
    hide TailParts, TargetOf;
    if ParseTarget(line, delims) == Some(path) {
      var i := Find(line, delims);
      var t, target, u, version := TailIsSplit(line[i + 1..], path);
      assert LineParts(line, delims, line[..i], line[i + 1..]);
    }
    if LineShape(line, delims, path) {
      var m, rest, t, target, u, version :|
        LineParts(line, delims, m, rest) && TailParts(rest, t, target, u, version, path);
      forall i | 0 <= i < |m| ensures line[i] !in delims {
        assert line[i] == m[i] && Lower(m[i]) == Lower("GET"[i]);
      }
      FindIs(line, delims, |m|);
      TailIsParsed(rest, t, target, u, version, path);
    }
  }

  /** A line without a tab is never accepted; such is every request line with single spaces as
      section 3.1.1 of RFC 7230 has it. */
  lemma {:induction false} LineWithoutTabIsRejected(line: string, delims: set<char>)
    requires '\t' !in line
    ensures ParseTarget(line, delims) == None
  {
    var i := Find(line, delims);
    if i < |line| {
      var rest := line[i + 1..];
      var url := rest[Span(rest, '\t')..];
      var j := Find(url, {'\t'});
      assert forall k :: 0 <= k < |url| ==> url[k] in line;
    }
  }

  /** A request line for an absolute path, as both parsers want it. */
  function PrintedLine(path: string): string {
    "GET" + ("\t" + (path + ("\t" + "HTTP/1.1")))
  }

  lemma PrintedLineParses(path: string, delims: set<char>)
    requires path != "" && path[0] == '/' && '\t' !in path && '\t' in delims
    requires forall c :: c in {'G', 'E', 'T', 'g', 'e', 't'} ==> c !in delims
    ensures ParseTarget(PrintedLine(path), delims) == Some(path)
  {
    var rest := path + ("\t" + "HTTP/1.1");
    assert rest == "" + rest;
    assert TargetShape(path, path);
    assert TailParts(rest, "", path, "\t", "HTTP/1.1", path);
    assert LineParts(PrintedLine(path), delims, "GET", rest);
    hide *;
    assert LineShape(PrintedLine(path), delims, path) by {
      LineOfParts(PrintedLine(path), delims, "GET", rest, "", path, "\t", "HTTP/1.1", path);
    }
    ParseTargetMeaning(PrintedLine(path), delims, path);
  }

  lemma LineOfParts(line: string, delims: set<char>, m: string, rest: string,
                    t: string, target: string, u: string, version: string, path: string)
    requires LineParts(line, delims, m, rest) && TailParts(rest, t, target, u, version, path)
    ensures LineShape(line, delims, path)
  {
  }

  lemma PrintedLineIsClean(path: string)
    requires '\r' !in path && '\n' !in path && '\0' !in path
    ensures var line := PrintedLine(path); '\r' !in line && '\n' !in line && CStr(line) == line
  {
    hide *;
    var line := PrintedLine(path);
    OutOfPrintedLine('\r', path);
    OutOfPrintedLine('\n', path);
    OutOfPrintedLine('\0', path);
    assert line[..|line|] == line;
    CStrIs(line, |line|);
  }

  lemma OutOfBoth(c: char, a: string, b: string)
    requires c !in a && c !in b
    ensures c !in a + b
  {
  }

  lemma OutOfPrintedLine(c: char, path: string)
    requires (c == '\r' || c == '\n' || c == '\0') && c !in path
    ensures c !in PrintedLine(path)
  {
    OutOfBoth(c, "\t", "HTTP/1.1");
    OutOfBoth(c, path, "\t" + "HTTP/1.1");
    OutOfBoth(c, "\t", path + ("\t" + "HTTP/1.1"));
    OutOfBoth(c, "GET", "\t" + (path + ("\t" + "HTTP/1.1")));
  }

  // ---------- In place ----------

  /** Cuts up the C string at `temp` and returns where the path starts. */
  method ParseRequestLine(buffer: array<char>, temp: nat, delims: set<char>, ghost line: string) returns (path: Option<nat>)
    requires StrAt(buffer[..], temp, line) && '\0' !in delims
    modifies buffer
    ensures path.None? <==> ParseTarget(line, delims).None?
    ensures path.Some? ==> ParseTarget(line, delims).Some? && StrAt(buffer[..], path.value, ParseTarget(line, delims).value)
    ensures path.Some? ==> temp < path.value && path.value + |ParseTarget(line, delims).value| < temp + |line|
    ensures forall i :: 0 <= i < buffer.Length && !(temp <= i < temp + |line|) ==> buffer[i] == old(buffer[i])
  {
    hide StrAt, EqualNoCase, TargetOf;
    var url := CutAt(buffer, temp, delims, line);
    if url == None { return None; }
    var isGet := StrCaseEqual(buffer, temp, "GET", line[..url.value - 1 - temp]);
    if !isGet { return None; }
    path := CutTarget(buffer, url.value, line[url.value - temp..]);
  }

  /** Ends the string at its first delimiter and returns what follows that. */
  method CutAt(buffer: array<char>, p: nat, delims: set<char>, ghost s: string) returns (next: Option<nat>)
    requires StrAt(buffer[..], p, s)
    modifies buffer
    ensures var k := Find(s, delims);
            if k == |s| then next == None && buffer[..] == old(buffer[..])
            else && next == Some(p + k + 1)
                 && StrAt(buffer[..], p, s[..k]) && StrAt(buffer[..], p + k + 1, s[k + 1..])
    ensures forall i :: 0 <= i < buffer.Length && !(p <= i < p + |s|) ==> buffer[i] == old(buffer[i])
  {
    var at := StrPBrk(buffer, p, delims, s);
    if at == None { return None; }
    StrAtCut(buffer[..], p, s, at.value - p);
    assert StrAt(buffer[..], p, s);
    buffer[at.value] := '\0';
    next := Some(at.value + 1);
  }

  method StrPBrk(buffer: array<char>, p: nat, delims: set<char>, ghost s: string) returns (at: Option<nat>)
    requires StrAt(buffer[..], p, s)
    ensures at == if Find(s, delims) == |s| then None else Some(p + Find(s, delims))
  {
    StrAtIsCStr(buffer[..], p, s);
    var text := CStr(buffer[..][p..]);
    var k := Find(text, delims);
    at := if k == |text| then None else Some(p + k);
  }

  method StrCaseEqual(buffer: array<char>, p: nat, word: string, ghost s: string) returns (b: bool)
    requires StrAt(buffer[..], p, s)
    ensures b == EqualNoCase(s, word)
  {
    StrAtIsCStr(buffer[..], p, s);
    b := EqualNoCase(CStr(buffer[..][p..]), word);
  }

  method SkipTabs(buffer: array<char>, p: nat, ghost s: string) returns (q: nat)
    requires StrAt(buffer[..], p, s)
    ensures q == p + Span(s, '\t') && StrAt(buffer[..], q, s[Span(s, '\t')..])
  {
    hide StrAt;
    StrAtIsCStr(buffer[..], p, s);
    q := p + Span(CStr(buffer[..][p..]), '\t');
    StrAtSuffix(buffer[..], p, s, q - p);
  }

  /** The part behind the method. */
  method CutTarget(buffer: array<char>, p: nat, ghost rest: string) returns (path: Option<nat>)
    requires StrAt(buffer[..], p, rest)
    modifies buffer
    ensures path.None? <==> TargetOf(rest).None?
    ensures path.Some? ==> TargetOf(rest).Some? && StrAt(buffer[..], path.value, TargetOf(rest).value)
    ensures path.Some? ==> p <= path.value && path.value + |TargetOf(rest).value| < p + |rest|
    ensures forall i :: 0 <= i < buffer.Length && !(p <= i < p + |rest|) ==> buffer[i] == old(buffer[i])
  {
    hide StrAt, EqualNoCase, PathOf;
    var url := SkipTabs(buffer, p, rest);
    ghost var s := rest[Span(rest, '\t')..];
    var version := CutAt(buffer, url, {'\t'}, s);
    if version == None { return None; }
    ghost var k := Find(s, {'\t'});
    var v := SkipTabs(buffer, version.value, s[k + 1..]);
    var current := StrCaseEqual(buffer, v, "HTTP/1.1", s[k + 1..][Span(s[k + 1..], '\t')..]);
    if !current { return None; }
    path := FindPath(buffer, url, s[..k]);
  }

  method FindPath(buffer: array<char>, p: nat, ghost target: string) returns (path: Option<nat>)
    requires StrAt(buffer[..], p, target)
    ensures path.None? <==> PathOf(target).None?
    ensures path.Some? ==> PathOf(target).Some? && StrAt(buffer[..], path.value, PathOf(target).value)
    ensures path.Some? ==> p <= path.value && path.value + |PathOf(target).value| == p + |target|
    ensures path.Some? ==> |target| > 0
  {
    StrAtIsCStr(buffer[..], p, target);
    StrAtHead(buffer[..], p, target);
    hide StrAt, PrefixNoCase;
    if PrefixNoCase(CStr(buffer[..][p..]), "http://") {
      path := SkipHost(buffer, p, target);
    } else {
      path := if buffer[p] != '/' then None else Some(p);
    }
  }

  method SkipHost(buffer: array<char>, p: nat, ghost target: string) returns (path: Option<nat>)
    requires StrAt(buffer[..], p, target) && |target| >= 7
    ensures var k := Find(target[7..], {'/'});
            path == (if k == |target| - 7 then None else Some(p + 7 + k)) && StrAt(buffer[..], p + 7 + k, target[7..][k..])
  {
    hide StrAt;
    StrAtSuffix(buffer[..], p, target, 7);
    path := StrPBrk(buffer, p + 7, {'/'}, target[7..]);
    StrAtSuffix(buffer[..], p + 7, target[7..], Find(target[7..], {'/'}));
  }
}
