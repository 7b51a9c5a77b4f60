/** What the connection object answers to any stream, told from its lines: bad request lines, requests
    without a body, and heads after which a body is awaited. */
module RequestHeads {
  import opened CStrings
  import opened Decimals
  import opened HttpConns
  import opened LineBuffers
  import opened LineScanner
  import opened LineStreams
  import opened RequestBodies
  import opened RequestLines
  import opened Sequences
  import opened Wrappers

  // ---------- A head without a body ----------

  lemma {:induction false} BodilessCalls(h: Head, path: string, b: string, c: Conn, chunks: seq<string>)
    requires Proper(h, path) && BodyLength(h) == 0 && InStep(b + Concat(chunks), 0, Text(h))
    requires Sound(b, c) && |b| < |Text(h)| && Run(b, FRESH, true) == (NoRequest, c) && !c.state.CheckContent?
    ensures if |Text(h)| <= |b + Concat(chunks)| then RunCalls(b, c, chunks) == (GetRequest, HeadRead(h, path))
            else RunCalls(b, c, chunks).0 == NoRequest
    decreases |chunks|
  {
    hide Run, Text, InStep, BodyLength, Proper, HeadRead;
    if chunks == [] {
      ConcatOne("");
      assert b + Concat(chunks) == b;
    } else {
      var now, rest := b + chunks[0], chunks[1..];
      FirstChunk(b, chunks);
      InStepSooner(now, Concat(rest), Text(h));
      SoundGrows(b, chunks[0], c);
      RunResumes(b, chunks[0], FRESH, true);
      HeadInStep(now, h, path);
      var d := ParseReceived(now, c).1;
      hide Concat;
      if |now| < |Text(h)| {
        BodilessCalls(h, path, now, d, rest);
      }
    }
  }

  /** A request without a body, however it is cut into calls: as soon as its whole head has come, and not before,
      it is complete, with its path, its host, and the wish to keep the connection. */
  lemma BodilessVerdict(h: Head, path: string, chunks: seq<string>)
    requires Proper(h, path) && BodyLength(h) == 0 && InStep(Concat(chunks), 0, Text(h))
    ensures if |Text(h)| <= |Concat(chunks)| then
              var (code, d) := RunCalls("", FRESH, chunks);
              && code == GetRequest && d.url == path && d.host == HostOf(h.fields, "")
              && (d.linger <==> KeepsAlive(h.fields)) && d.checked == |Text(h)|
            else RunChunks("", FRESH, chunks) == NoRequest
  {
    TextLength(h);
    assert Run("", FRESH, true) == (NoRequest, FRESH);
    assert "" + Concat(chunks) == Concat(chunks);
    HeadIs(h, path);
    hide Run, Text, InStep, BodyLength, Proper, HeadRead, Concat, RunCalls;
    BodilessCalls(h, path, "", FRESH, chunks);
  }

  // ---------- A head with a body ----------

  /** What the head said is still remembered. */
  ghost predicate Remembers(c: Conn, h: Head, path: string) {
    c.state.CheckContent? && c.url == path && c.host == HostOf(h.fields, "") && (c.linger <==> KeepsAlive(h.fields))
  }

  lemma BodyKeepsHead(b: string, c: Conn, h: Head, path: string)
    requires Sound(b, c) && Remembers(c, h, path)
    ensures Remembers(Run(b, c, true).1, h, path)
  {
    hide Run;
    StateMovesForward(b, c, true);
  }

  lemma {:induction false} BodyCalls(h: Head, path: string, b: string, c: Conn, chunks: seq<string>)
    requires Proper(h, path) && BodyLength(h) != 0 && InStep(b + Concat(chunks), 0, Text(h)) && Sound(b, c)
    requires if |b| < |Text(h)| then Run(b, FRESH, true) == (NoRequest, c) && !c.state.CheckContent? else Remembers(c, h, path)
    ensures var (code, d) := RunCalls(b, c, chunks); code != NoRequest ==> Remembers(d, h, path)
    decreases |chunks|
  {
    hide Run, Text, InStep, BodyLength, Proper, HeadRead, Remembers;
    if chunks != [] {
      var now, rest := b + chunks[0], chunks[1..];
      FirstChunk(b, chunks);
      InStepSooner(now, Concat(rest), Text(h));
      SoundGrows(b, chunks[0], c);
      CallKeepsHead(h, path, b, chunks[0], c);
      var d := ParseReceived(now, c).1;
      hide Concat;
      BodyCalls(h, path, now, d, rest);
    }
  }

  lemma CallKeepsHead(h: Head, path: string, b: string, more: string, c: Conn)
    requires Proper(h, path) && BodyLength(h) != 0 && InStep(b + more, 0, Text(h)) && Sound(b, c) && Sound(b + more, c)
    requires if |b| < |Text(h)| then Run(b, FRESH, true) == (NoRequest, c) && !c.state.CheckContent? else Remembers(c, h, path)
    ensures var (code, d) := Run(b + more, c, true);
            if |b + more| < |Text(h)| then code.NoRequest? && Run(b + more, FRESH, true) == (code, d) && !d.state.CheckContent?
            else Remembers(d, h, path)
  {
    hide Run, Text, InStep, BodyLength, Proper, HeadRead, Remembers;
    if |b| < |Text(h)| {
      RunResumes(b, more, FRESH, true);
      HeadInStep(b + more, h, path);
      if |Text(h)| <= |b + more| {
        HeadRemembers(h, path);
        BodyKeepsHead(b + more, HeadRead(h, path), h, path);
      }
    } else {
      BodyKeepsHead(b + more, c, h, path);
    }
  }

  lemma HeadRemembers(h: Head, path: string)
    requires BodyLength(h) != 0
    ensures Remembers(HeadRead(h, path), h, path)
  {
    HeadIs(h, path);
  }

  /** Whenever a request with a body is completed, it is so with its path, its host, and the wish to keep the
      connection. */
  lemma CompletedAsAsked(h: Head, path: string, chunks: seq<string>)
    requires Proper(h, path) && BodyLength(h) != 0 && InStep(Concat(chunks), 0, Text(h))
    ensures var (code, d) := RunCalls("", FRESH, chunks);
            code == GetRequest ==> d.url == path && d.host == HostOf(h.fields, "") && (d.linger <==> KeepsAlive(h.fields))
  {
    TextLength(h);
    FreshIsSound(chunks);
    hide Run, Text, InStep, BodyLength, Proper, Concat, RunCalls;
    BodyCalls(h, path, "", FRESH, chunks);
  }

  // ---------- Any stream ----------

  /** A request line as this server wants it. */
  ghost predicate GetLine(line: string) {
    exists path :: LineShape(CStr(line), {' ', '\t'}, path)
  }

  /** The lines before the first blank one. */
  function FieldsOf(lines: seq<string>): seq<string> {
    if lines == [] || CStr(lines[0]) == "" then [] else [lines[0]] + FieldsOf(lines[1..])
  }

  /** What the complete lines of a stream mean: the first one must be a request line, a blank one ends the head,
      and if the head announces a body, that is awaited. What stands behind the complete lines makes no
      difference. */
  datatype Meaning = Bad | Partial | Complete | Awaiting

  ghost function MeaningOf(lines: seq<string>): Meaning {
    if lines == [] then Partial
    else if !GetLine(lines[0]) then Bad
    else if !Blank(lines[1..]) then Partial
    else if Announced(FieldsOf(lines[1..]), 0) == 0 then Complete
    else Awaiting
  }

  /** The result of a call on a fresh connection means that. */
  predicate Means(code: HttpCode, c: Conn, m: Meaning) {
    match m
    case Bad => code == BadRequest && c.state.CheckRequestLine?
    case Partial => code == NoRequest && !c.state.CheckContent?
    case Complete => code == GetRequest && !c.state.CheckContent?
    case Awaiting => code != BadRequest && c.state.CheckContent?
  }

  /** The state machine that goes on with the header meets a blank line or does not. */
  ghost function HeaderMeaning(lines: seq<string>, n: Int32): Meaning {
    if !Blank(lines) then Partial else if Announced(FieldsOf(lines), n) == 0 then Complete else Awaiting
  }

  lemma HeaderEnds(b: string, k: nat, rest: string, c: Conn)
    requires NotPastCr(b, k) && SplitsFrom(b, k, [], rest) && c.checked == c.start == k && c.state.CheckHeader?
    ensures var (code, d) := Run(b, c, true); Means(code, d, Partial)
    ensures HeaderMeaning([], c.contentLength) == Partial
  {
    NoLinesFrom(b, k, rest);
    ScanOfRest(b, k);
    hide Run, ScanLine, Unended, Broken;
    NoLineRound(b, c);
  }

  lemma HeaderMeaningCons(lines: seq<string>, n: Int32)
    requires lines != []
    ensures HeaderMeaning(lines, n) ==
            if CStr(lines[0]) != "" then HeaderMeaning(lines[1..], LengthAfter(CStr(lines[0]), n))
            else if n == 0 then Complete else Awaiting
  {
    BlankCons(lines);
    hide CStr, LengthAfter, Blank;
    if CStr(lines[0]) != "" {
      assert FieldsOf(lines)[1..] == FieldsOf(lines[1..]);
    }
  }

  lemma AwaitsFromHere(b: string, c: Conn)
    requires Sound(b, c) && c.state.CheckContent?
    ensures var (code, d) := Run(b, c, true); Means(code, d, Awaiting)
  {
    hide Run;
    StateMovesForward(b, c, true);
  }

  lemma {:induction false} HeaderVerdict(b: string, k: nat, lines: seq<string>, rest: string, c: Conn)
    requires NotPastCr(b, k) && SplitsFrom(b, k, lines, rest) && c.checked == c.start == k && c.state.CheckHeader?
    ensures var (code, d) := Run(b, c, true); Means(code, d, HeaderMeaning(lines, c.contentLength))
    decreases |lines|
  {
    hide *;
    if lines == [] {
      HeaderEnds(b, k, rest, c);
    } else {
      var line, end := CStr(lines[0]), k + |lines[0]| + 2;
      var e := LineRead(line, c, end);
      LineReadIs(line, c, end);
      HeaderMeaningCons(lines, c.contentLength);
      SplitsFromUncons(b, k, lines, rest);
      HeaderLine(b, k, lines[0], Encode(lines[1..]) + rest, c);
      if line != "" {
        HeaderVerdict(b, end, lines[1..], rest, e);
      } else if c.contentLength != 0 {
        AwaitsFromHere(b, e);
      }
    }
  }

  lemma LineReadIs(line: string, c: Conn, end: nat)
    requires c.state.CheckHeader?
    ensures var e := LineRead(line, c, end);
            && e.checked == e.start == end
            && (line != "" ==> e.state.CheckHeader? && e.contentLength == LengthAfter(line, c.contentLength))
            && (line == "" ==> (e.state.CheckContent? <==> c.contentLength != 0) && Means(GetRequest, e, if c.contentLength == 0 then Complete else Awaiting))
  {
  }

  /** A line that stands next in the header is read. */
  lemma HeaderLine(b: string, k: nat, line: string, tail: string, c: Conn)
    requires NotPastCr(b, k) && Plain(line) && StandsAt(b, k, (line + CRLF) + tail)
    requires c.checked == c.start == k && c.state.CheckHeader?
    ensures var end := k + |line| + 2; var e := LineRead(CStr(line), c, end);
            && end <= |b| && NotPastCr(b, end) && Sound(b, e)
            && Run(b, c, true) == if CStr(line) == "" && c.contentLength == 0 then (GetRequest, e) else Run(b, e, true)
  {
    hide Run, ScanLine, StandsAt, CStr, Plain, CRLF, LineRead;
    TakeStandingLine(b, k, line, tail);
    HeaderRound(b, c, k + |line| + 2);
  }

  lemma FirstLine(b: string, line: string, tail: string)
    requires Plain(line) && StandsAt(b, 0, (line + CRLF) + tail)
    ensures var end := |line| + 2;
            && end <= |b| && NotPastCr(b, end)
            && match ParseTarget(CStr(line), {' ', '\t'})
               case None => Run(b, FRESH, true) == (BadRequest, FRESH.(checked := end, start := end))
               case Some(path) =>
                 var e := FRESH.(checked := end, start := end, state := CheckHeader, url := path);
                 Sound(b, e) && Run(b, FRESH, true) == Run(b, e, true)
  {
    hide Run, ScanLine, StandsAt, CStr, Plain, CRLF, ParseTarget;
    TakeStandingLine(b, 0, line, tail);
    LineRound(b, FRESH, true);
  }

  lemma TargetIsShape(line: string)
    ensures GetLine(line) <==> ParseTarget(CStr(line), {' ', '\t'}).Some?
  {
    hide LineShape, ParseTarget, CStr;
    if ParseTarget(CStr(line), {' ', '\t'}).Some? {
      ParseTargetMeaning(CStr(line), {' ', '\t'}, ParseTarget(CStr(line), {' ', '\t'}).value);
    }
    if path :| LineShape(CStr(line), {' ', '\t'}, path) {
      ParseTargetMeaning(CStr(line), {' ', '\t'}, path);
    }
  }

  lemma NothingYet(b: string, rest: string)
    requires SplitsFrom(b, 0, [], rest)
    ensures var (code, d) := Run(b, FRESH, true); Means(code, d, Partial)
  {
    NoLinesFrom(b, 0, rest);
    ScanOfRest(b, 0);
    hide Run, ScanLine, Unended, Broken;
    NoLineRound(b, FRESH);
  }

  /** One call on the whole of any stream. */
  lemma StreamVerdict(b: string, lines: seq<string>, rest: string)
    requires Splits(b, lines, rest)
    ensures var (code, d) := Run(b, FRESH, true); Means(code, d, MeaningOf(lines))
  {
    hide Run, ParseTarget, Splits, SplitsFrom, StandsAt, Encode, CStr, Plain, CRLF, GetLine, Blank, Announced, FieldsOf, NotPastCr;
    AllSplit(b, lines, rest);
    if lines == [] {
      NothingYet(b, rest);
    } else {
      SplitsFromUncons(b, 0, lines, rest);
      FirstLine(b, lines[0], Encode(lines[1..]) + rest);
      TargetIsShape(lines[0]);
      match ParseTarget(CStr(lines[0]), {' ', '\t'})
      case None =>
      case Some(path) =>
        var end := |lines[0]| + 2;
        HeaderVerdict(b, end, lines[1..], rest, FRESH.(checked := end, start := end, state := CheckHeader, url := path));
    }
  }

  // ---------- Any stream in any number of calls ----------

  lemma {:induction false} LaterIsNotBad(b: string, c: Conn, chunks: seq<string>)
    requires Sound(b, c) && !c.state.CheckRequestLine?
    ensures RunChunks(b, c, chunks) != BadRequest
    decreases |chunks|
  {
    if chunks != [] {
      var now := b + chunks[0];
      SoundGrows(b, chunks[0], c);
      HeaderIsNotBad(now, c, true);
      StateMovesForward(now, c, true);
      hide Run;
      var (code, d) := ParseReceived(now, c);
      if code.NoRequest? { LaterIsNotBad(now, d, chunks[1..]); }
    }
  }

  lemma {:induction false} HeaderIsNotBad(b: string, c: Conn, lineOk: bool)
    requires Sound(b, c) && !c.state.CheckRequestLine?
    ensures Run(b, c, lineOk).0 != BadRequest
    decreases |b| - c.checked
  {
    if c.state.CheckContent? {
      StateMovesForward(b, c, lineOk);
    } else {
      ScanLeavesOff(b, c.checked);
      var (status, end) := ScanLine(b, c.checked);
      hide ScanLine, LineOf, ParseTarget, ReadHeader;
      if status.LineOk? {
        var (code, e) := ReadHeader(LineOf(b, c.start, end), c.(checked := end, start := end));
        if code.NoRequest? { HeaderIsNotBad(b, e, true); }
      }
    }
  }

  /** No part of a stream is bad that is not bad as a whole. */
  lemma {:induction false} PartsAreNotBad(b: string, c: Conn, chunks: seq<string>)
    requires Sound(b, c) && Sound(b + Concat(chunks), c) && Run(b + Concat(chunks), c, true).0 != BadRequest
    requires Run(b, c, true) == (NoRequest, c)
    ensures RunChunks(b, c, chunks) != BadRequest
    decreases |chunks|
  {
    if chunks != [] {
      var now, rest := b + chunks[0], Concat(chunks[1..]);
      FirstChunk(b, chunks);
      SoundGrows(b, chunks[0], c);
      RunResumes(now, rest, c, true);
      RunResumes(now, "", c, true);
      assert now + "" == now;
      hide Run, Concat;
      var (code, d) := ParseReceived(now, c);
      if code.NoRequest? {
        if d.state.CheckRequestLine? {
          PartsAreNotBad(now, d, chunks[1..]);
        } else {
          LaterIsNotBad(now, d, chunks[1..]);
        }
      }
    }
  }

  lemma FreshIsSound(chunks: seq<string>)
    ensures Sound("", FRESH) && Run("", FRESH, true) == (NoRequest, FRESH) && "" + Concat(chunks) == Concat(chunks)
    ensures Sound(Concat(chunks), FRESH)
  {
  }

  /** For every stream and every cut of it: the answer is BAD_REQUEST exactly when the first line is complete and
      no request line. Otherwise, unless the head announces a body, it is GET_REQUEST exactly when a blank
      line has come, and else there is none yet. */
  lemma {:induction false} AnswersExactly(chunks: seq<string>, lines: seq<string>, rest: string)
    requires Splits(Concat(chunks), lines, rest)
    ensures RunChunks("", FRESH, chunks) == BadRequest <==> lines != [] && !GetLine(lines[0])
    ensures MeaningOf(lines) != Awaiting ==>
              RunChunks("", FRESH, chunks) ==
              (match MeaningOf(lines) case Bad => BadRequest case Complete => GetRequest case _ => NoRequest)
  {
    hide Run, Splits, RunChunks, GetLine, Blank, Concat, CStr, Announced, FieldsOf;
    StreamVerdict(Concat(chunks), lines, rest);
    FreshIsSound(chunks);
    if MeaningOf(lines) != Awaiting {
      ChunkIndependence(chunks);
    } else {
      PartsAreNotBad("", FRESH, chunks);
    }
  }
}
