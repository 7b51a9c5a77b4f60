/** The language the incremental parser accepts, stated without the parser. */
module RequestGrammar {
  import opened CStrings
  import opened LineScanner
  import opened LineStreams
  import opened RequestLines
  import opened RequestParsers
  import opened Sequences
  import opened Wrappers

  /** Header lines up to and with the first blank one, as C strings. */
  ghost predicate HeaderLines(lines: seq<string>) {
    && lines != []
    && (forall i :: 0 <= i < |lines| ==> Plain(lines[i]))
    && (forall i :: 0 <= i < |lines| ==> (CStr(lines[i]) == "" <==> i == |lines| - 1))
  }

  /** The stream begins with a GET request line for `path`, header lines, and a blank line. */
  ghost predicate BeginsWith(b: string, first: string, path: string, lines: seq<string>) {
    && Plain(first) && LineShape(CStr(first), {'\t'}, path)
    && HeaderLines(lines) && Encode([first] + lines) <= b
  }

  ghost predicate BeginsWithRequest(b: string) {
    exists first, path, lines :: BeginsWith(b, first, path, lines)
  }

  // ---------- The header ----------

  lemma HeaderUncons(lines: seq<string>)
    requires HeaderLines(lines)
    ensures lines != [] && Plain(lines[0]) && (CStr(lines[0]) == "" <==> |lines| == 1)
    ensures |lines| > 1 ==> HeaderLines(lines[1..])
    ensures Encode(lines) == (lines[0] + CRLF) + Encode(lines[1..])
  {
  }

  lemma HeaderLineIsTaken(b: string, k: nat, line: string, tail: string)
    requires NotPastCr(b, k) && Plain(line) && StandsAt(b, k, (line + CRLF) + tail)
    ensures var end := k + |line| + 2;
            && end <= |b| && NotPastCr(b, end) && StandsAt(b, end, tail)
            && if CStr(line) == "" then Parse(b, Progress(k, k, CheckHeader)).0.GetRequest?
               else Parse(b, Progress(k, k, CheckHeader)) == Parse(b, Progress(end, end, CheckHeader))
  {
    hide StandsAt, Plain, CStr, GoodRequestLine, CRLF, ScanLine;
    TakeStandingLine(b, k, line, tail);
  }

  lemma {:induction false} HeaderIsAccepted(b: string, k: nat, lines: seq<string>)
    requires NotPastCr(b, k) && HeaderLines(lines) && StandsAt(b, k, Encode(lines))
    ensures Parse(b, Progress(k, k, CheckHeader)).0.GetRequest?
    decreases |lines|
  {
    hide *;
    HeaderUncons(lines);
    var line, rest := lines[0], lines[1..];
    HeaderLineIsTaken(b, k, line, Encode(rest));
    if |lines| > 1 {
      HeaderIsAccepted(b, k + |line| + 2, rest);
    }
  }

  // ---------- The request ----------

  /** The request lines the parser takes are the GET request lines. */
  lemma GoodLineHasShape(line: string)
    ensures GoodRequestLine(line) <==> exists path :: LineShape(line, {'\t'}, path)
  {
    hide LineShape;
    if GoodRequestLine(line) {
      ParseTargetMeaning(line, {'\t'}, ParseTarget(line, {'\t'}).value);
    }
    if path :| LineShape(line, {'\t'}, path) {
      ParseTargetMeaning(line, {'\t'}, path);
    }
  }

  lemma ItBegins(b: string, first: string, path: string, lines: seq<string>)
    requires Plain(first) && LineShape(CStr(first), {'\t'}, path)
    requires HeaderLines(lines) && Encode([first] + lines) <= b
    ensures BeginsWithRequest(b)
  {
    hide LineShape, HeaderLines, Encode, CStr, Plain;
    assert BeginsWith(b, first, path, lines);
  }

  lemma RequestIsAccepted(b: string, first: string, lines: seq<string>)
    requires Plain(first) && GoodRequestLine(CStr(first)) && HeaderLines(lines) && Encode([first] + lines) <= b
    ensures Parse(b, INITIAL).0.GetRequest?
  {
    hide HeaderLines, GoodRequestLine, CStr, Encode, Plain, ScanLine, CRLF;
    EncodeCons(first, lines);
    assert b[0..] == b;
    TakeStandingLine(b, 0, first, Encode(lines));
    HeaderIsAccepted(b, |first| + 2, lines);
  }

  // ---------- The verdict on any stream ----------

  ghost predicate GetLine(line: string) {
    exists path :: LineShape(CStr(line), {'\t'}, path)
  }

  /** What the complete lines of a stream and its rest mean: a request is complete with the first blank line
      behind a GET request line; a first line that is none, or a CR or LF outside a pair before that,
      makes it bad. */
  ghost function Meaning(lines: seq<string>, rest: string): HttpCode {
    if lines != [] && !GetLine(lines[0]) then BadRequest
    else if lines != [] && Blank(lines[1..]) then GetRequest
    else if Broken(rest) then BadRequest
    else NoRequest
  }

  lemma ParseRest(b: string, k: nat, state: CheckState)
    requires NotPastCr(b, k) && (Unended(b[k..]) || Broken(b[k..]))
    ensures Parse(b, Progress(k, k, state)).0 == if Broken(b[k..]) then BadRequest else NoRequest
  {
    ScanOfRest(b, k);
    hide ScanLine, Unended, Broken, GoodRequestLine;
  }

  lemma {:induction false} HeaderVerdict(b: string, k: nat, lines: seq<string>, rest: string)
    requires NotPastCr(b, k) && SplitsFrom(b, k, lines, rest)
    ensures Parse(b, Progress(k, k, CheckHeader)).0 ==
            if Blank(lines) then GetRequest else if Broken(rest) then BadRequest else NoRequest
    decreases |lines|
  {
    hide *;
    if lines == [] {
      RestVerdict(b, k, rest, CheckHeader);
    } else {
      BlankCons(lines);
      SplitsFromUncons(b, k, lines, rest);
      HeaderLineIsTaken(b, k, lines[0], Encode(lines[1..]) + rest);
      if CStr(lines[0]) != "" {
        HeaderVerdict(b, k + |lines[0]| + 2, lines[1..], rest);
      }
    }
  }

  lemma RestVerdict(b: string, k: nat, rest: string, state: CheckState)
    requires NotPastCr(b, k) && SplitsFrom(b, k, [], rest)
    ensures Parse(b, Progress(k, k, state)).0 == (if Broken(rest) then BadRequest else NoRequest) && !Blank([])
  {
    NoLinesFrom(b, k, rest);
    ParseRest(b, k, state);
  }

  lemma FirstLineVerdict(b: string, line: string, tail: string)
    requires Plain(line) && StandsAt(b, 0, (line + CRLF) + tail)
    ensures var end := |line| + 2;
            && end <= |b| && NotPastCr(b, end)
            && Parse(b, INITIAL).0 ==
               if GoodRequestLine(CStr(line)) then Parse(b, Progress(end, end, CheckHeader)).0 else BadRequest
  {
    hide StandsAt, Plain, CStr, GoodRequestLine, CRLF, ScanLine;
    TakeStandingLine(b, 0, line, tail);
  }

  /** The verdict on every stream. */
  lemma StreamVerdict(b: string, lines: seq<string>, rest: string)
    requires Splits(b, lines, rest)
    ensures Parse(b, INITIAL).0 == Meaning(lines, rest)
  {
    AllSplit(b, lines, rest);
    if lines == [] {
      RestVerdict(b, 0, rest, CheckRequestLine);
      hide Parse, Splits, SplitsFrom, Broken;
    } else {
      hide GetLine, Blank, Broken, Encode, Plain, CStr, Splits, SplitsFrom, Parse, LineShape, StandsAt, CRLF, GoodRequestLine;
      SplitsFromUncons(b, 0, lines, rest);
      FirstLineVerdict(b, lines[0], Encode(lines[1..]) + rest);
      GoodIsGet(lines[0]);
      if GetLine(lines[0]) {
        HeaderVerdict(b, |lines[0]| + 2, lines[1..], rest);
      }
    }
  }

  lemma GoodIsGet(line: string)
    ensures GetLine(line) <==> GoodRequestLine(CStr(line))
  {
    hide LineShape, GoodRequestLine;
    GoodLineHasShape(CStr(line));
  }

  /** The lines up to and with the first blank one. */
  lemma FirstBlank(lines: seq<string>) returns (n: nat)
    requires Blank(lines) && AllPlain(lines)
    ensures 0 < n <= |lines| && HeaderLines(lines[..n])
  {
    n := 1;
    while CStr(lines[n - 1]) != ""
      invariant 0 < n <= |lines| && forall i :: 0 <= i < n - 1 ==> CStr(lines[i]) != ""
      decreases |lines| - n
    {
      n := n + 1;
    }
  }

  lemma {:induction false} FrontIsPrefix(lines: seq<string>, n: nat)
    requires n <= |lines|
    ensures Encode(lines[..n]) <= Encode(lines)
  {
    if n == 0 {
      assert lines[..0] == [] && Encode([]) == "";
    } else {
      FrontIsPrefix(lines[1..], n - 1);
      assert lines[..n][1..] == lines[1..][..n - 1] && lines[..n][0] == lines[0];
    }
  }

  lemma FirstIsGet(b: string, lines: seq<string>, rest: string) returns (path: string)
    requires Splits(b, lines, rest) && lines != [] && GetLine(lines[0])
    ensures Plain(lines[0]) && LineShape(CStr(lines[0]), {'\t'}, path) && AllPlain(lines[1..]) && Encode(lines) <= b
  {
    hide LineShape, CStr, Encode;
    path :| LineShape(CStr(lines[0]), {'\t'}, path);
  }

  lemma FrontLines(lines: seq<string>, n: nat, b: string)
    requires n < |lines| && Encode(lines) <= b
    ensures Encode([lines[0]] + lines[1..][..n]) <= b
  {
    hide *;
    FrontJoins(lines, n);
    FrontIsPrefix(lines, n + 1);
    PrefixOfPrefix(Encode(lines[..n + 1]), Encode(lines), b);
  }

  lemma FrontJoins(lines: seq<string>, n: nat)
    requires n < |lines|
    ensures [lines[0]] + lines[1..][..n] == lines[..n + 1]
  {
  }

  lemma PrefixOfPrefix(a: string, b: string, c: string)
    requires a <= b <= c
    ensures a <= c
  {
  }

  lemma BeginsSo(b: string, lines: seq<string>, rest: string)
    requires Splits(b, lines, rest) && lines != [] && GetLine(lines[0]) && Blank(lines[1..])
    ensures BeginsWithRequest(b)
  {
    hide *;
    var path := FirstIsGet(b, lines, rest);
    var n := FirstBlank(lines[1..]);
    FrontLines(lines, n, b);
    ItBegins(b, lines[0], path, lines[1..][..n]);
  }

  /** The parser gets a request exactly when the stream begins with one. */
  lemma {:induction false} AcceptsExactlyRequests(b: string)
    ensures Parse(b, INITIAL).0.GetRequest? <==> BeginsWithRequest(b)
  {
    if Parse(b, INITIAL).0.GetRequest? {
      var lines, rest := EveryStreamSplits(b);
      StreamVerdict(b, lines, rest);
      hide Parse, BeginsWithRequest, Splits, GetLine, Blank, Broken;
      BeginsSo(b, lines, rest);
    }
    if BeginsWithRequest(b) {
      hide LineShape, HeaderLines, Encode;
      var first, path, lines :| BeginsWith(b, first, path, lines);
      GoodLineHasShape(CStr(first));
      RequestIsAccepted(b, first, lines);
    }
  }

  /** The stream is answered with an error: its first line is not a GET request line, or, before a blank line has
      come, a CR or LF stands in it that belongs to no pair. */
  ghost predicate IsRejected(b: string) {
    exists lines, rest :: RejectedAs(b, lines, rest)
  }

  ghost predicate RejectedAs(b: string, lines: seq<string>, rest: string) {
    && Splits(b, lines, rest)
    && ((lines != [] && !GetLine(lines[0])) || (Broken(rest) && (lines == [] || !Blank(lines[1..]))))
  }

  /** Without the parser: what is answered how. Nothing is said to a stream that is neither. */
  lemma {:induction false} AnswersExactly(b: string)
    ensures Parse(b, INITIAL).0.GetRequest? <==> BeginsWithRequest(b)
    ensures Parse(b, INITIAL).0.BadRequest? <==> IsRejected(b)
    ensures !(BeginsWithRequest(b) && IsRejected(b))
  {
    AcceptsExactlyRequests(b);
    var lines, rest := EveryStreamSplits(b);
    StreamVerdict(b, lines, rest);
    hide Parse, BeginsWithRequest, Splits, GetLine, Blank, Broken;
    if Parse(b, INITIAL).0.BadRequest? {
      assert RejectedAs(b, lines, rest);
    }
    if IsRejected(b) {
      var some, more :| RejectedAs(b, some, more);
      StreamVerdict(b, some, more);
    }
  }

  /** The reader's reply to a stream, however it is cut, in terms of its bytes alone: those that fit the
      buffer. */
  method ServeStream(chunks: seq<string>) returns (reply: Reply)
    requires forall i :: 0 <= i < |chunks| ==> chunks[i] != ""
    ensures var b := Fitting(Concat(chunks));
            && (reply == Correct <==> BeginsWithRequest(b))
            && (reply == Wrong <==> IsRejected(b))
            && (reply == Nothing <==> !BeginsWithRequest(b) && !IsRejected(b))
  {
    var reader := new RequestReader();
    ghost var rounds, calls;
    reply, rounds, calls := reader.Serve(chunks);
    AnswersExactly(Fitting(Concat(chunks)));
    hide Parse, BeginsWithRequest, IsRejected, Fitting;
  }

  // ---------- Printed requests ----------

  lemma PrintedLineIsGood(path: string)
    requires path != "" && path[0] == '/' && '\t' !in path && '\r' !in path && '\n' !in path && '\0' !in path
    ensures Plain(PrintedLine(path)) && GoodRequestLine(CStr(PrintedLine(path)))
  {
    hide *;
    var first := PrintedLine(path);
    PrintedLineParses(path, {'\t'});
    PrintedLineIsClean(path);
    GoodLine(first, path);
    PlainIf(first);
  }

  /** A request whose line is printed so is accepted, and the line parses back to the path. */
  lemma PrintedRequestParses(path: string, lines: seq<string>, more: string)
    requires path != "" && path[0] == '/' && '\t' !in path && '\r' !in path && '\n' !in path && '\0' !in path
    requires HeaderLines(lines)
    ensures ParseTarget(PrintedLine(path), {'\t'}) == Some(path)
    ensures Parse(Encode([PrintedLine(path)] + lines) + more, INITIAL).0.GetRequest?
  {
    var first := PrintedLine(path);
    PrintedLineParses(path, {'\t'});
    PrintedLineIsGood(path);
    hide *;
    RequestIsAccepted(Encode([first] + lines) + more, first, lines);
  }

  lemma PlainIf(line: string)
    requires '\r' !in line && '\n' !in line
    ensures Plain(line)
  {
  }

  lemma GoodLine(line: string, path: string)
    requires ParseTarget(line, {'\t'}) == Some(path)
    ensures GoodRequestLine(line)
  {
  }
}
