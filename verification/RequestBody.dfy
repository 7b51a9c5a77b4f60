/** Requests with a body: when the server takes one for complete, however it arrives. */
module RequestBodies {
  import opened CStrings
  import opened Decimals
  import opened HttpConns
  import opened LineBuffers
  import opened LineScanner
  import opened RequestLines
  import opened Sequences

  // ---------- The scan of a body, on its bytes ----------

  /** The end of the bytes, an LF, or a CR that no LF follows. */
  predicate StopsAt(b: string, i: nat)
    requires i <= |b|
  {
    i == |b| || b[i] == '\n' || (b[i] == '\r' && (i + 1 == |b| || b[i + 1] != '\n'))
  }

  /** Where a scan from `i` stops: it passes over bytes and over pairs of CR and LF. */
  function BodyStop(b: string, i: nat): (k: nat)
    requires i <= |b|
    ensures i <= k <= |b| && StopsAt(b, k) && (k == i <==> StopsAt(b, i))
    decreases |b| - i
  {
    if StopsAt(b, i) then i else BodyStop(b, if b[i] == '\r' then i + 2 else i + 1)
  }

  /** The end of the last pair passed on the way, or `last`. */
  function LinesEnd(b: string, i: nat, last: nat): (k: nat)
    requires last <= i <= |b|
    ensures last <= k <= BodyStop(b, i)
    decreases |b| - i
  {
    if StopsAt(b, i) then last
    else if b[i] == '\r' then LinesEnd(b, i + 2, i + 2)
    else LinesEnd(b, i + 1, last)
  }

  /** The line machine passes over the body pair by pair. */
  lemma {:induction false} ScanTellsStop(b: string, i: nat, last: nat)
    requires NotPastCr(b, i) && last <= i
    ensures var (status, end) := ScanLine(b, i);
            if status.LineOk? then
              && i + 2 <= end && NotPastCr(b, end)
              && BodyStop(b, i) == BodyStop(b, end) && LinesEnd(b, i, last) == LinesEnd(b, end, end)
            else BodyStop(b, i) == end && LinesEnd(b, i, last) == last
    decreases |b| - i
  {
    if i < |b| && b[i] != '\r' && b[i] != '\n' {
      ScanTellsStop(b, i + 1, last);
    }
  }

  /** A scan may be resumed where it stopped. */
  lemma {:induction false} StopResumes(b: string, more: string, i: nat)
    requires i <= |b|
    ensures BodyStop(b + more, BodyStop(b, i)) == BodyStop(b + more, i)
    decreases |b| - i
  {
    if !StopsAt(b, i) {
      StopResumes(b, more, if b[i] == '\r' then i + 2 else i + 1);
    }
  }

  // ---------- One call ----------

  /** A call that finds the body to begin at `i` and to have `length` bytes takes it for complete: all
      of it is there, or a sum with the end of a line of it does not fit an int. */
  predicate Completes(b: string, i: nat, length: int)
    requires i <= |b|
  {
    |b| >= length + i || length + LinesEnd(b, i, i) > INT_MAX
  }

  lemma BodyEndByCase(b: string, c: Conn)
    requires c.checked <= |b| <= INT_MAX
    ensures |b| >= BodyEnd(c) <==> |b| >= c.contentLength + c.checked || c.contentLength + c.checked > INT_MAX
  {
  }

  /** The test for the end of the body asks what it is meant to ask exactly while the sum fits an int. */
  lemma BodyTestIsExact(b: string, c: Conn)
    requires c.checked <= |b| <= INT_MAX
    ensures (|b| >= BodyEnd(c) <==> |b| >= c.contentLength + c.checked) <==> c.contentLength <= INT_MAX - c.checked
  {
    BodyEndByCase(b, c);
    hide BodyEnd;
  }

  lemma {:induction false} BodyScan(b: string, c: Conn)
    requires Sound(b, c) && c.state.CheckContent? && |b| <= INT_MAX && |b| < BodyEnd(c)
    ensures var (code, d) := Run(b, c, false);
            && (code == GetRequest <==> c.contentLength + LinesEnd(b, c.checked, c.checked) > INT_MAX)
            && (code != GetRequest ==> code == NoRequest && d.state == CheckContent && d.contentLength == c.contentLength
                                       && d.checked == BodyStop(b, c.checked))
    decreases |b| - c.checked
  {
    hide Run, ScanLine, BodyEnd;
    BodyEndByCase(b, c);
    BodyLine(b, c);
    ScanTellsStop(b, c.checked, c.checked);
    var (status, end) := ScanLine(b, c.checked);
    if status.LineOk? {
      var d := c.(checked := end, start := end);
      BodyEndByCase(b, d);
      if |b| < BodyEnd(d) {
        BodyScan(b, d);
      }
    }
  }

  /** What a call makes of a body that it finds awaited. */
  lemma CallOnBody(b: string, c: Conn)
    requires Sound(b, c) && c.state.CheckContent? && |b| <= INT_MAX
    ensures var (code, d) := ParseReceived(b, c);
            && (code == GetRequest <==> Completes(b, c.checked, c.contentLength))
            && (code != GetRequest ==> code == NoRequest && d.state == CheckContent && d.contentLength == c.contentLength
                                       && d.checked == BodyStop(b, c.checked))
  {
    hide Run, BodyEnd;
    BodyFirst(b, c);
    BodyEndByCase(b, c);
    var d := c.(start := c.checked);
    BodyEndByCase(b, d);
    if |b| < BodyEnd(d) {
      BodyScan(b, d);
    }
  }

  // ---------- The head ----------

  /** A request line and header fields, as they are sent. */
  datatype Head = Head(first: string, fields: seq<string>)

  function Text(h: Head): string {
    (h.first + CRLF) + FieldsText(h.fields)
  }

  /** Fields and the blank line. */
  function FieldsText(fields: seq<string>): string {
    if fields == [] then ("" + CRLF) + "" else (fields[0] + CRLF) + FieldsText(fields[1..])
  }

  ghost predicate ProperFields(fields: seq<string>) {
    forall i :: 0 <= i < |fields| ==> Plain(fields[i]) && CStr(fields[i]) != ""
  }

  /** A GET request line for `path`, as this server wants it, and fields that are not blank. */
  ghost predicate Proper(h: Head, path: string) {
    Plain(h.first) && LineShape(CStr(h.first), {' ', '\t'}, path) && ProperFields(h.fields)
  }

  /** The length announced by the last Content-Length field, after fields that announced `n`. */
  function Announced(fields: seq<string>, n: Int32): Int32 {
    if fields == [] then n else Announced(fields[1..], LengthAfter(CStr(fields[0]), n))
  }

  function LengthAfter(line: string, n: Int32): Int32 {
    if PrefixNoCase(line, "Content-Length:") then ToInt(Atol(FieldValue(line, 15))) else n
  }

  lemma TabsPassed(ws: string, t: string)
    requires Spaces(ws) && t != "" && !IsSpace(t[0])
    ensures var k := Span(ws + t, '\t'); k <= |ws| && (ws + t)[k..] == ws[k..] + t && Spaces(ws[k..])
  {
    assert (ws + t)[|ws|] == t[0] && t[0] != '\t';
  }

  /** A Content-Length field, its name in any case, announces the number behind spaces and perhaps a sign, as
      near as a long can be and then cut to an int. */
  lemma FieldAnnounces(name: string, ws: string, sign: string, ds: string, t: string, n: Int32)
    requires EqualNoCase(name, "Content-Length:") && Spaces(ws) && sign in ["", "-", "+"] && Digits(ds) && ds != ""
    requires t == "" || !IsDigit(t[0])
    ensures LengthAfter(name + (ws + (sign + (ds + t))), n) == ToInt(Nearest(if sign == "-" then 0 - Value(ds) else Value(ds)))
  {
    var number := sign + (ds + t);
    var line := name + (ws + number);
    assert |name| == 15 && line[..15] == name && line[15..] == ws + number;
    assert number[0] == if sign == "" then ds[0] else sign[0];
    hide EqualNoCase, Atol, Value, Nearest, ToInt;
    TabsPassed(ws, number);
    var k := Span(ws + number, '\t');
    AtolMeaning(ws[k..], sign, ds, t);
  }

  function BodyLength(h: Head): Int32 {
    Announced(h.fields, 0)
  }

  lemma FieldsLength(fields: seq<string>)
    ensures |FieldsText(fields)| >= 2
  {
  }

  /** A Connection field that asks to keep the connection. */
  predicate AsksToStay(line: string) {
    PrefixNoCase(line, "Connection:") && EqualNoCase(FieldValue(line, 11), "keep-alive")
  }

  ghost predicate KeepsAlive(fields: seq<string>) {
    exists i :: 0 <= i < |fields| && AsksToStay(CStr(fields[i]))
  }

  function HostAfter(line: string, host: string): string {
    if PrefixNoCase(line, "Host:") then FieldValue(line, 5) else host
  }

  /** The text of the last Host field. */
  function HostOf(fields: seq<string>, host: string): string {
    if fields == [] then host else HostOf(fields[1..], HostAfter(CStr(fields[0]), host))
  }

  /** Every field is read as what it is, whatever stood before it. */
  lemma FieldIsRead(line: string, c: Conn)
    requires line != ""
    ensures ReadHeader(line, c) ==
            (NoRequest, c.(contentLength := LengthAfter(line, c.contentLength), linger := c.linger || AsksToStay(line),
                           host := HostAfter(line, c.host)))
  {
    OneLetter(line, "Connection:", 3);
    OneLetter(line, "Content-Length:", 3);
    OneLetter(line, "Connection:", 0);
    OneLetter(line, "Content-Length:", 0);
    OneLetter(line, "Host:", 0);
    assert "Connection:"[3] == 'n' && "Content-Length:"[3] == 't';
    assert "Connection:"[0] == 'C' && "Content-Length:"[0] == 'C' && "Host:"[0] == 'H';
    hide Atol, EqualNoCase;
  }

  lemma OneLetter(line: string, p: string, i: nat)
    requires i < |p|
    ensures PrefixNoCase(line, p) ==> |p| <= |line| && Lower(line[i]) == Lower(p[i])
  {
    if PrefixNoCase(line, p) {
      assert line[..|p|][i] == line[i];
    }
  }

  /** What the connection remembers once fields that begin in `c` and the blank line behind them, up to `end`,
      have been read. */
  ghost function FieldsRead(fields: seq<string>, c: Conn, end: nat): Conn {
    var length := Announced(fields, c.contentLength);
    Conn(end, end, if length != 0 then CheckContent else CheckHeader, c.linger || KeepsAlive(fields), length, c.url,
         HostOf(fields, c.host))
  }

  /** What it remembers of a whole head. */
  ghost function HeadRead(h: Head, path: string): Conn {
    FieldsRead(h.fields, FRESH.(url := path), |Text(h)|)
  }

  lemma FieldsReadCons(fields: seq<string>, c: Conn, e: Conn, end: nat)
    requires fields != [] && e.url == c.url
    requires e.contentLength == LengthAfter(CStr(fields[0]), c.contentLength)
    requires e.linger == (c.linger || AsksToStay(CStr(fields[0]))) && e.host == HostAfter(CStr(fields[0]), c.host)
    ensures FieldsRead(fields, c, end) == FieldsRead(fields[1..], e, end)
    ensures Announced(fields, c.contentLength) == Announced(fields[1..], e.contentLength)
  {
    var rest := fields[1..];
    assert forall i :: 0 <= i < |rest| ==> rest[i] == fields[i + 1];
    hide CStr, AsksToStay, LengthAfter, HostAfter;
    if KeepsAlive(fields) && !AsksToStay(CStr(fields[0])) {
      var i :| 0 <= i < |fields| && AsksToStay(CStr(fields[i]));
      assert AsksToStay(CStr(rest[i - 1]));
    }
  }

  lemma NoFieldsRead(c: Conn, end: nat)
    ensures FieldsRead([], c, end) == c.(checked := end, start := end, state := if c.contentLength != 0 then CheckContent else CheckHeader)
    ensures Announced([], c.contentLength) == c.contentLength
  {
  }

  /** From `k` on, `b` is `s` as far as both go. */
  ghost predicate InStep(b: string, k: nat, s: string) {
    k <= |b| && (s <= b[k..] || b[k..] <= s)
  }

  /** The scan finds the line that comes next, or has seen too little of it. */
  lemma NextInStep(b: string, k: nat, line: string, tail: string)
    requires NotPastCr(b, k) && Plain(line) && InStep(b, k, (line + CRLF) + tail)
    ensures var end := k + |line| + 2;
            if end <= |b| then
              && ScanLine(b, k) == (LineOk, end) && b[k..end - 2] == line
              && NotPastCr(b, end) && InStep(b, end, tail)
            else ScanLine(b, k).0.LineOpen?
  {
    var all, end := (line + CRLF) + tail, k + |line| + 2;
    if end <= |b| {
      assert StandsAt(b, k, (line + CRLF) + "");
      TakeStandingLine(b, k, line, "");
      StepOver(b, k, line + CRLF, tail);
    } else {
      PartOfLine(b, k, line);
    }
  }

  lemma StepOver(b: string, k: nat, a: string, tail: string)
    requires InStep(b, k, a + tail) && k + |a| <= |b|
    ensures InStep(b, k + |a|, tail)
  {
    var s := b[k..];
    assert b[k + |a|..] == s[|a|..];
    if a + tail <= s {
      PrefixSplits(a, tail, s);
    } else {
      assert (a + tail)[|a|..] == tail;
      assert s == (a + tail)[..|s|];
      assert s[|a|..] == tail[..|s| - |a|];
    }
  }

  lemma PartOfLine(b: string, k: nat, line: string)
    requires NotPastCr(b, k) && Plain(line) && b[k..] <= line + CRLF && |b| - k < |line| + 2
    ensures ScanLine(b, k).0.LineOpen?
  {
    ScanFindsBreak(b, k);
    assert forall j :: 0 <= j < |line| ==> line[j] in line;
    var i := Break(b, k);
    if i < |b| {
      assert b[i] == b[k..][i - k] == (line + CRLF)[i - k];
    }
  }

  /** What the connection remembers after one line of the header, up to `end`. */
  function LineRead(line: string, c: Conn, end: nat): Conn {
    var d := c.(checked := end, start := end);
    if line == "" then d.(state := if c.contentLength != 0 then CheckContent else CheckHeader)
    else d.(contentLength := LengthAfter(line, c.contentLength), linger := c.linger || AsksToStay(line), host := HostAfter(line, c.host))
  }

  lemma HeaderRound(b: string, c: Conn, end: nat)
    requires Sound(b, c) && c.state.CheckHeader? && ScanLine(b, c.checked) == (LineOk, end)
    ensures c.start + 2 <= end <= |b|
    ensures var line := LineOf(b, c.start, end); var e := LineRead(line, c, end);
            && Sound(b, e)
            && Run(b, c, true) == if line == "" && c.contentLength == 0 then (GetRequest, e) else Run(b, e, true)
  {
    hide ScanLine, LineOf, Run, LengthAfter, AsksToStay, HostAfter;
    LineRound(b, c, true);
    var line := LineOf(b, c.start, end);
    if line != "" { FieldIsRead(line, c.(checked := end, start := end)); }
  }

  lemma NoLineRound(b: string, c: Conn)
    requires Sound(b, c) && !c.state.CheckContent? && !ScanLine(b, c.checked).0.LineOk?
    ensures Run(b, c, true).0.NoRequest? && !Run(b, c, true).1.state.CheckContent?
  {
    hide ScanLine, LineOf, Run;
    LineRound(b, c, true);
  }

  /** One line of the head, or too little of it. */
  lemma FieldRound(b: string, k: nat, line: string, tail: string, c: Conn)
    requires NotPastCr(b, k) && c.checked == c.start == k && c.state.CheckHeader?
    requires Plain(line) && InStep(b, k, (line + CRLF) + tail)
    ensures var end := k + |line| + 2;
            if end <= |b| then
              var e := LineRead(CStr(line), c, end);
              && NotPastCr(b, end) && InStep(b, end, tail) && Sound(b, e)
              && Run(b, c, true) == if CStr(line) == "" && c.contentLength == 0 then (GetRequest, e) else Run(b, e, true)
            else Run(b, c, true).0.NoRequest? && !Run(b, c, true).1.state.CheckContent?
  {
    hide CRLF, ScanLine, InStep, Plain, CStr, Run, LineRead;
    NextInStep(b, k, line, tail);
    if k + |line| + 2 <= |b| {
      HeaderRound(b, c, k + |line| + 2);
    } else {
      NoLineRound(b, c);
    }
  }

  lemma {:induction false} FieldsInStep(b: string, k: nat, fields: seq<string>, c: Conn)
    requires NotPastCr(b, k) && c.checked == c.start == k && c.state.CheckHeader?
    requires ProperFields(fields) && InStep(b, k, FieldsText(fields))
    ensures var end := k + |FieldsText(fields)|;
            if end <= |b| then
              var d := FieldsRead(fields, c, end);
              && Sound(b, d) && Run(b, c, true) == if Announced(fields, c.contentLength) == 0 then (GetRequest, d) else Run(b, d, true)
            else Run(b, c, true).0.NoRequest? && !Run(b, c, true).1.state.CheckContent?
    decreases |fields|
  {
    hide ScanLine, InStep, Plain, CStr, Run, LengthAfter, AsksToStay, HostAfter, FieldsRead, Announced, Sound, NotPastCr;
    FieldsTextParts(fields);
    if fields == [] {
      BlankIsPlain();
      FieldRound(b, k, "", "", c);
      NoFieldsRead(c, k + 2);
    } else {
      var rest, next := fields[1..], k + |fields[0]| + 2;
      FieldsLength(rest);
      FieldRound(b, k, fields[0], FieldsText(rest), c);
      if next <= |b| {
        var e := LineRead(CStr(fields[0]), c, next);
        FieldsReadCons(fields, c, e, k + |FieldsText(fields)|);
        FieldsInStep(b, next, rest, e);
      }
    }
  }

  lemma BlankIsPlain()
    ensures Plain("") && CStr("") == ""
  {
  }

  lemma FieldsTextParts(fields: seq<string>)
    ensures |FieldsText(fields)| == if fields == [] then 2 else |fields[0]| + 2 + |FieldsText(fields[1..])|
  {
    assert |CRLF| == 2;
  }

  lemma FirstLineRound(b: string, h: Head, path: string)
    requires Proper(h, path) && InStep(b, 0, Text(h))
    ensures var end := |h.first| + 2;
            if end <= |b| then
              var e := Conn(end, end, CheckHeader, false, 0, path, "");
              && NotPastCr(b, end) && InStep(b, end, FieldsText(h.fields)) && Sound(b, e) && Run(b, FRESH, true) == Run(b, e, true)
            else Run(b, FRESH, true).0.NoRequest? && !Run(b, FRESH, true).1.state.CheckContent?
  {
    hide CRLF, ScanLine, InStep, Plain, CStr, Run, FieldsText, ParseTarget, LineShape, ProperFields;
    ParseTargetMeaning(CStr(h.first), {' ', '\t'}, path);
    NextInStep(b, 0, h.first, FieldsText(h.fields));
    LineRound(b, FRESH, true);
  }

  lemma TextLength(h: Head)
    ensures |Text(h)| == |h.first| + 2 + |FieldsText(h.fields)| && |Text(h)| >= 4
  {
    assert |CRLF| == 2;
    FieldsLength(h.fields);
  }

  /** A call that has seen the whole head has read all of it, and completes the request unless a body is
      announced; one that has not returns NO_REQUEST. */
  lemma HeadInStep(b: string, h: Head, path: string)
    requires Proper(h, path) && InStep(b, 0, Text(h))
    ensures if |Text(h)| <= |b| then
              && Sound(b, HeadRead(h, path))
              && Run(b, FRESH, true) == if BodyLength(h) == 0 then (GetRequest, HeadRead(h, path)) else Run(b, HeadRead(h, path), true)
            else Run(b, FRESH, true).0.NoRequest? && !Run(b, FRESH, true).1.state.CheckContent?
  {
    hide InStep, Run, FieldsText, Announced, LineShape, ProperFields, Text, Sound, NotPastCr, Plain, CStr, FieldsRead;
    TextLength(h);
    FirstLineRound(b, h, path);
    var end := |h.first| + 2;
    if end <= |b| {
      var e := Conn(end, end, CheckHeader, false, 0, path, "");
      FieldsInStep(b, end, h.fields, e);
      SameFields(h.fields, e, FRESH.(url := path), |Text(h)|);
    }
  }

  lemma HeadIs(h: Head, path: string)
    ensures var d := HeadRead(h, path);
            && d.checked == |Text(h)| && d.contentLength == BodyLength(h) && d.url == path
            && d.state == (if BodyLength(h) != 0 then CheckContent else CheckHeader)
            && (d.linger <==> KeepsAlive(h.fields)) && d.host == HostOf(h.fields, "")
  {
  }

  lemma SameFields(fields: seq<string>, c: Conn, d: Conn, end: nat)
    requires c.linger == d.linger && c.contentLength == d.contentLength && c.url == d.url && c.host == d.host
    ensures FieldsRead(fields, c, end) == FieldsRead(fields, d, end)
  {
  }

  // ---------- Any number of calls ----------

  /** After calls on `b` the server waits for more: of the head, or of the body. */
  ghost predicate Waiting(h: Head, b: string, c: Conn) {
    && Sound(b, c)
    && if |b| < |Text(h)| then Run(b, FRESH, true) == (NoRequest, c) && !c.state.CheckContent?
       else c.state.CheckContent? && c.contentLength == BodyLength(h) && c.checked == BodyStop(b, |Text(h)|)
  }

  /** The call after more bytes have come to `was`, which make it `now`, completes the request: the head
      is there, and what is there behind the place where the body was last scanned to is as long as the
      body. */
  ghost predicate CallCompletes(h: Head, was: string, now: string) {
    && |Text(h)| <= |now| && |was| <= |now|
    && Completes(now, if |Text(h)| <= |was| then BodyStop(was, |Text(h)|) else |Text(h)|, BodyLength(h))
  }

  /** The call on the j-th chunk does so. */
  ghost predicate CompletesAt(h: Head, b: string, chunks: seq<string>, j: nat) {
    j < |chunks| && CallCompletes(h, b + Concat(chunks[..j]), b + Concat(chunks[..j + 1]))
  }

  lemma OneCall(h: Head, path: string, b: string, more: string, c: Conn)
    requires Proper(h, path) && BodyLength(h) != 0 && Waiting(h, b, c)
    requires InStep(b + more, 0, Text(h)) && |b + more| <= INT_MAX
    ensures Sound(b + more, c)
    ensures var (code, d) := ParseReceived(b + more, c);
            && (code == GetRequest <==> CallCompletes(h, b, b + more))
            && (code != GetRequest ==> code == NoRequest && Waiting(h, b + more, d))
  {
    hide Run, Text, InStep, BodyLength, Proper, Completes;
    SoundGrows(b, more, c);
    if |b| < |Text(h)| {
      RunResumes(b, more, FRESH, true);
      HeadInStep(b + more, h, path);
      HeadIs(h, path);
      if |Text(h)| <= |b + more| {
        CallOnBody(b + more, HeadRead(h, path));
      }
    } else {
      CallOnBody(b + more, c);
      StopResumes(b, more, |Text(h)|);
    }
  }

  lemma InStepSooner(b: string, more: string, s: string)
    requires InStep(b + more, 0, s)
    ensures InStep(b, 0, s)
  {
    var all := b + more;
    assert all[0..] == all && b[0..] == b && b == all[..|b|];
    if s <= all && |s| > |b| {
      assert s[..|b|] == b;
    }
  }

  lemma FirstChunk(b: string, chunks: seq<string>)
    requires chunks != []
    ensures b + Concat(chunks) == (b + chunks[0]) + Concat(chunks[1..])
    ensures b + Concat(chunks[..0]) == b && b + Concat(chunks[..1]) == b + chunks[0]
  {
    JoinAssociates(b, chunks[0], Concat(chunks[1..]));
    assert chunks[..0] == [] && chunks[..1] == [chunks[0]];
    ConcatOne(chunks[0]);
    NothingJoined(b);
    hide Concat;
  }

  lemma NothingJoined(b: string)
    ensures b + [] == b && "" + b == b
  {
  }

  lemma LaterChunk(h: Head, b: string, chunks: seq<string>, j: nat)
    requires chunks != []
    ensures CompletesAt(h, b + chunks[0], chunks[1..], j) <==> CompletesAt(h, b, chunks, j + 1)
  {
    hide CallCompletes;
    if j + 1 < |chunks| {
      FirstChunk(b, chunks[..j + 1]);
      FirstChunk(b, chunks[..j + 2]);
      assert chunks[..j + 1][1..] == chunks[1..][..j] && chunks[..j + 2][1..] == chunks[1..][..j + 1];
    }
  }

  lemma {:induction false} ChunksComplete(h: Head, path: string, b: string, c: Conn, chunks: seq<string>)
    requires Proper(h, path) && BodyLength(h) != 0 && Waiting(h, b, c)
    requires InStep(b + Concat(chunks), 0, Text(h)) && |b + Concat(chunks)| <= INT_MAX
    requires Sound(b, c)
    ensures RunChunks(b, c, chunks) == if exists j: nat :: CompletesAt(h, b, chunks, j) then GetRequest else NoRequest
    decreases |chunks|
  {
    hide Run, Text, InStep, BodyLength, Proper, CallCompletes, Waiting;
    if chunks != [] {
      var now, rest := b + chunks[0], chunks[1..];
      FirstChunk(b, chunks);
      InStepSooner(now, Concat(rest), Text(h));
      OneCall(h, path, b, chunks[0], c);
      if CallCompletes(h, b, now) {
        assert CompletesAt(h, b, chunks, 0);
      } else {
        var d := ParseReceived(now, c).1;
        assert Sound(now, d);
        ChunksComplete(h, path, now, d, rest);
        FromRest(h, b, chunks);
      }
    }
  }

  lemma FromRest(h: Head, b: string, chunks: seq<string>)
    requires chunks != [] && !CallCompletes(h, b, b + chunks[0])
    ensures (exists j: nat :: CompletesAt(h, b, chunks, j)) <==> exists j: nat :: CompletesAt(h, b + chunks[0], chunks[1..], j)
  {
    hide CallCompletes;
    FirstChunk(b, chunks);
    if j: nat :| CompletesAt(h, b, chunks, j) {
      LaterChunk(h, b, chunks, j - 1);
    }
    if j: nat :| CompletesAt(h, b + chunks[0], chunks[1..], j) {
      LaterChunk(h, b, chunks, j);
    }
  }

  /** A request with a body, however it is cut: it is completed by the first call, if any, that finds as
      many bytes as the body has behind the head, or behind the place up to which earlier calls have
      scanned the body for lines. */
  lemma BodyVerdict(h: Head, path: string, chunks: seq<string>)
    requires Proper(h, path) && BodyLength(h) != 0
    requires InStep(Concat(chunks), 0, Text(h)) && |Concat(chunks)| <= INT_MAX
    ensures RunChunks("", FRESH, chunks) == if exists j: nat :: CompletesAt(h, "", chunks, j) then GetRequest else NoRequest
  {
    TextLength(h);
    assert Run("", FRESH, true) == (NoRequest, FRESH);
    assert "" + Concat(chunks) == Concat(chunks);
    ChunksComplete(h, path, "", FRESH, chunks);
  }

  // ---------- In one piece and in two ----------

  lemma HeadStandsFirst(h: Head, body: string)
    ensures InStep(Text(h) + body, 0, Text(h))
  {
    var all := Text(h) + body;
    assert all[0..] == all;
  }

  /** In one piece with its head, a body completes the request exactly when all of it is there or the
      announced length, counted from the last line end in it, leaves the range of int. */
  lemma WholeBodyCompletes(h: Head, path: string, body: string)
    requires Proper(h, path) && BodyLength(h) != 0 && |Text(h) + body| <= INT_MAX
    ensures RunChunks("", FRESH, [Text(h) + body]) ==
            if |body| >= BodyLength(h) || BodyLength(h) > INT_MAX - LinesEnd(Text(h) + body, |Text(h)|, |Text(h)|)
            then GetRequest else NoRequest
  {
    hide Run, RunChunks, Text, Proper, InStep, LinesEnd;
    var all := Text(h) + body;
    HeadStandsFirst(h, body);
    var chunks := [all];
    OneOrTwo(h, all, "");
    BodyVerdict(h, path, chunks);
    assert CompletesAt(h, "", chunks, 0) <==> CallCompletes(h, "", all);
    assert (exists j: nat :: CompletesAt(h, "", chunks, j)) <==> CompletesAt(h, "", chunks, 0);
  }

  lemma OneOrTwo(h: Head, one: string, two: string)
    ensures Concat([one]) == one && Concat([one, two]) == one + two
    ensures "" + Concat([one][..0]) == "" && "" + Concat([one][..1]) == one
    ensures "" + Concat([one, two][..0]) == "" && "" + Concat([one, two][..1]) == one
    ensures "" + Concat([one, two][..2]) == one + two
  {
    FirstChunk("", [one]);
    FirstChunk("", [one, two]);
    ConcatOne(one);
    ConcatOne(two);
    NothingJoined(one);
    NothingJoined(one + two);
    assert [one, two][1..] == [two] && [one, two][..2] == [one, two];
  }

  lemma TwoCalls(h: Head, path: string, was: string, rest: string)
    requires Proper(h, path) && BodyLength(h) != 0 && InStep(was + rest, 0, Text(h)) && |was + rest| <= INT_MAX
    ensures RunChunks("", FRESH, [was, rest]) ==
            if CallCompletes(h, "", was) || CallCompletes(h, was, was + rest) then GetRequest else NoRequest
  {
    hide Run, RunChunks, Text, Proper, InStep, CallCompletes;
    var chunks := [was, rest];
    OneOrTwo(h, was, rest);
    BodyVerdict(h, path, chunks);
    assert CompletesAt(h, "", chunks, 0) <==> CallCompletes(h, "", was);
    assert CompletesAt(h, "", chunks, 1) <==> CallCompletes(h, was, was + rest);
  }

  /** Cut in two within the body, the request is completed exactly when there are as many bytes behind
      the end of the body as the first call has scanned of it. */
  lemma SplitBodyCompletes(h: Head, path: string, part: string, rest: string)
    requires Proper(h, path) && |part| < BodyLength(h) <= INT_MAX - |Text(h) + part + rest|
    ensures var scanned := BodyStop(Text(h) + part, |Text(h)|) - |Text(h)|;
            RunChunks("", FRESH, [Text(h) + part, rest]) ==
            if |part + rest| >= BodyLength(h) + scanned then GetRequest else NoRequest
  {
    hide *;
    JoinAssociates(Text(h), part, rest);
    HeadStandsFirst(h, part + rest);
    TwoCalls(h, path, Text(h) + part, rest);
    SplitCalls(h, part, rest);
  }

  lemma SplitCalls(h: Head, part: string, rest: string)
    requires |part| < BodyLength(h) <= INT_MAX - |Text(h) + part + rest|
    ensures !CallCompletes(h, "", Text(h) + part)
    ensures var scanned := BodyStop(Text(h) + part, |Text(h)|) - |Text(h)|;
            CallCompletes(h, Text(h) + part, Text(h) + part + rest) <==> |part + rest| >= BodyLength(h) + scanned
  {
    hide Text, LinesEnd, BodyStop, BodyLength;
    TextLength(h);
  }

  /** With nothing behind the body, exactly when the first part of it begins with what stops a scan. */
  lemma ExactSplitBodyCompletes(h: Head, path: string, part: string, rest: string)
    requires Proper(h, path) && |part| < BodyLength(h) == |part + rest| <= INT_MAX - |Text(h) + part + rest|
    ensures RunChunks("", FRESH, [Text(h) + part, rest]) ==
            if part == "" || part[0] == '\n' || (part[0] == '\r' && (|part| == 1 || part[1] != '\n'))
            then GetRequest else NoRequest
  {
    SplitBodyCompletes(h, path, part, rest);
    hide RunChunks, Text, Proper, BodyStop;
    var b, k := Text(h) + part, |Text(h)|;
    assert part != "" ==> b[k] == part[0];
    assert |part| > 1 ==> b[k + 1] == part[1];
    assert StopsAt(b, k) <==> part == "" || part[0] == '\n' || (part[0] == '\r' && (|part| == 1 || part[1] != '\n'));
  }

  // ---------- Requests that are completed too soon or not at all ----------

  /** A request for `path` with one field, which announces `n` bytes. */
  function PrintedHead(path: string, n: Int32): Head {
    Head(PrintedLine(path), ["Content-Length:\t" + PrintInt(n)])
  }

  lemma {:induction false} DigitsOnly(n: nat)
    ensures forall i :: 0 <= i < |PrintNat(n)| ==> IsDigit(PrintNat(n)[i])
  {
    if n >= 10 { DigitsOnly(n / 10); }
  }

  lemma LengthFieldIsPlain(n: nat)
    ensures var line := "Content-Length:\t" + PrintNat(n); Plain(line) && CStr(line) == line
  {
    var s := PrintNat(n);
    DigitsOnly(n);
    OutOfBoth('\r', "Content-Length:\t", s);
    OutOfBoth('\n', "Content-Length:\t", s);
    OutOfBoth('\0', "Content-Length:\t", s);
    var line := "Content-Length:\t" + s;
    hide PrintNat;
    assert line[..|line|] == line;
    CStrIs(line, |line|);
  }

  lemma LengthFieldIsRead(n: nat, before: Int32)
    requires n <= INT_MAX
    ensures LengthAfter("Content-Length:\t" + PrintInt(n), before) == n
  {
    var s := PrintInt(n);
    var line := "Content-Length:\t" + s;
    assert s[0] != '\t';
    hide PrintInt, PrintNat;
    assert line[..15] == "Content-Length:";
    assert line[15..] == "\t" + s && line[15..][1..] == s;
    IntReadsBack(n);
    hide Atol;
  }

  lemma PrintedFieldsAreRead(path: string, n: nat)
    requires n <= INT_MAX
    ensures ProperFields(PrintedHead(path, n).fields) && BodyLength(PrintedHead(path, n)) == n
  {
    LengthFieldIsPlain(n);
    LengthFieldIsRead(n, 0);
    hide Plain, CStr, LengthAfter;
    var line := "Content-Length:\t" + PrintInt(n);
    var fields := PrintedHead(path, n).fields;
    assert fields == [line] && fields[1..] == [];
    assert Announced([], LengthAfter(CStr(line), 0)) == n;
    assert CStr(line) != "";
  }

  /** A printed head is read as what it announces. */
  lemma PrintedHeadIsRead(path: string, n: nat)
    requires path != "" && path[0] == '/' && '\t' !in path && '\r' !in path && '\n' !in path && '\0' !in path
    requires n <= INT_MAX
    ensures Proper(PrintedHead(path, n), path) && BodyLength(PrintedHead(path, n)) == n
  {
    var first := PrintedLine(path);
    PrintedLineIsClean(path);
    PrintedLineParses(path, {' ', '\t'});
    PrintedFieldsAreRead(path, n);
    hide PrintedLine, LineShape, ProperFields, BodyLength, ParseTarget, CStr;
    ParseTargetMeaning(first, {' ', '\t'}, path);
  }

  lemma {:induction false} PrintIsShort(n: nat)
    ensures |PrintNat(n)| <= 1 + n / 10
  {
    if n >= 10 { PrintIsShort(n / 10); }
  }

  lemma PrintedHeadIsShort(path: string, n: nat)
    requires n <= INT_MAX
    ensures |Text(PrintedHead(path, n))| <= |path| + 100 + n / 10
  {
    PrintIsShort(n);
    FieldsTextParts(PrintedHead(path, n).fields);
    FieldsTextParts([]);
    hide PrintNat, FieldsText;
    assert |CRLF| == 2;
  }

  /** The longest body an int can announce: the request is completed before any of the body has come, and
      its sum with the index leaves int, so that the NUL behind it would be written outside the buffer. */
  lemma LongestBodyIsTakenAtOnce()
    ensures BodyLength(PrintedHead("/", INT_MAX)) == 2147483647
    ensures BodyLength(PrintedHead("/", INT_MAX)) > INT_MAX - |Text(PrintedHead("/", INT_MAX))|
    ensures RunChunks("", FRESH, [Text(PrintedHead("/", INT_MAX))]) == GetRequest
  {
    var h := PrintedHead("/", INT_MAX);
    PrintedHeadIsRead("/", INT_MAX);
    hide *;
    assert Text(h) + "" == Text(h);
    HeadStandsFirst(h, "");
    assert |Text(h)| <= INT_MAX by { PrintedHeadIsShort("/", INT_MAX); }
    WholeBodyCompletes(h, "/", "");
  }

  lemma TwoBytes(h: Head, path: string, first: string, second: string)
    requires Proper(h, path) && BodyLength(h) == 2 && |Text(h)| < 1000
    requires |first| == |second| == 1 && first[0] != '\n' && first[0] != '\r'
    ensures RunChunks("", FRESH, [Text(h) + (first + second)]) == GetRequest
    ensures RunChunks("", FRESH, [Text(h) + first, second]) == NoRequest
  {
    assert 10_000 < INT_MAX;
    hide *;
    WholeBodyCompletes(h, path, first + second);
    ExactSplitBodyCompletes(h, path, first, second);
  }

  /** Two bytes of body sent one by one are lost, though the request is complete. */
  lemma SplitBodyIsLost()
    ensures var h := Text(PrintedHead("/", 2));
            && RunChunks("", FRESH, [h + "ab"]) == GetRequest
            && RunChunks("", FRESH, [h + "a", "b"]) == NoRequest
  {
    PrintedHeadIsRead("/", 2);
    PrintedHeadIsShort("/", 2);
    hide *;
    assert "a" + "b" == "ab";
    TwoBytes(PrintedHead("/", 2), "/", "a", "b");
  }
}
