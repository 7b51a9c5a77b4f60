/** The server's connection object: reading and parsing requests. */
module HttpConns {
  import opened CStrings
  import opened Decimals
  import opened LineBuffers
  import opened LineScanner
  import opened RequestLines
  import opened Sequences
  import opened Sockets
  import opened Wrappers

  const READ_BUFFER_SIZE: nat := 2048

  datatype CheckState = CheckRequestLine | CheckHeader | CheckContent
  datatype HttpCode = NoRequest | GetRequest | BadRequest | NoResource | ForbiddenRequest | FileRequest | InternalError

  /** What the connection remembers between calls. */
  datatype Conn = Conn(checked: nat, start: nat, state: CheckState, linger: bool, contentLength: Int32, url: string, host: string)

  const FRESH := Conn(0, 0, CheckRequestLine, false, 0, "", "")

  // ---------- Specification on the byte stream ----------

  ghost predicate Sound(b: string, c: Conn) {
    c.start <= c.checked && NotPastCr(b, c.checked)
  }

  /** Where the body is taken to end: an int sum, which wraps around. */
  function BodyEnd(c: Conn): Int32 {
    ToInt(c.contentLength + c.checked)
  }

  /** The NUL behind a body that is taken for complete lies in the buffer exactly when the length reaches no
      further back than to its start and its sum with the index fits an int. */
  lemma MarkIsInBuffer(readIdx: nat, checked: nat, temp: nat, length: Int32)
    requires temp <= checked <= readIdx < READ_BUFFER_SIZE && readIdx >= ToInt(length + checked)
    ensures 0 <= temp + length < READ_BUFFER_SIZE <==> 0 <= temp + length && length <= INT_MAX - checked
  {
  }

  function FieldValue(line: string, n: nat): string
    requires n <= |line|
  {
    line[n..][Span(line[n..], '\t')..]
  }

  /** One header line; the blank one ends the request, unless a body was announced. */
  function ReadHeader(line: string, c: Conn): (r: (HttpCode, Conn))
    ensures r.1.checked == c.checked && r.1.start == c.start && r.1.url == c.url
    ensures r.0 == if line == "" && c.contentLength == 0 then GetRequest else NoRequest
    ensures r.1.state == if line == "" && c.contentLength != 0 then CheckContent else c.state
  {
    if line == "" then
      if c.contentLength != 0 then (NoRequest, c.(state := CheckContent)) else (GetRequest, c)
    else if PrefixNoCase(line, "Connection:") then
      (NoRequest, if EqualNoCase(FieldValue(line, 11), "keep-alive") then c.(linger := true) else c)
    else if PrefixNoCase(line, "Content-Length:") then
      (NoRequest, c.(contentLength := ToInt(Atol(FieldValue(line, 15)))))
    else (NoRequest, if PrefixNoCase(line, "Host:") then c.(host := FieldValue(line, 5)) else c)
  }

  /** What one call makes of the bytes received so far; GetRequest means that do_request is called.
      `lineOk` tells that the last scan, if any, found a complete line. */
  function Run(b: string, c: Conn, lineOk: bool): (r: (HttpCode, Conn))
    requires Sound(b, c)
    ensures Sound(b, r.1) && c.checked <= r.1.checked
    decreases |b| - c.checked, lineOk
  {
    if c.state.CheckContent? && lineOk then
      var d := c.(start := c.checked);
      if |b| >= BodyEnd(d) then (GetRequest, d) else Run(b, d, false)
    else
      ScanLeavesOff(b, c.checked);
      var (status, end) := ScanLine(b, c.checked);
      if !status.LineOk? then (NoRequest, c.(checked := end))
      else
        var line, d := LineOf(b, c.start, end), c.(checked := end, start := end);
        match c.state
        case CheckRequestLine =>
          (match ParseTarget(line, {' ', '\t'})
           case None => (BadRequest, d)
           case Some(path) => Run(b, d.(state := CheckHeader, url := path), true))
        case CheckHeader =>
          var (code, e) := ReadHeader(line, d);
          if code.GetRequest? then (GetRequest, e) else Run(b, e, true)
        case CheckContent =>
          if |b| >= BodyEnd(d) then (GetRequest, d) else Run(b, d, false)
  }

  /** What the main state machine does with a line, `n` bytes having been received: a verdict, or
      the state and line status for its next round. */
  function Judge(n: nat, line: string, d: Conn): (Option<HttpCode>, Conn, bool) {
    match d.state
    case CheckRequestLine =>
      (match ParseTarget(line, {' ', '\t'})
       case None => (Some(BadRequest), d, true)
       case Some(path) => (None, d.(state := CheckHeader, url := path), true))
    case CheckHeader =>
      var (code, e) := ReadHeader(line, d);
      (if code.GetRequest? then Some(GetRequest) else None, e, true)
    case CheckContent => (if n >= BodyEnd(d) then Some(GetRequest) else None, d, false)
  }

  lemma JudgedIsOver(n: nat, line: string, d: Conn)
    ensures Judge(n, line, d).0 != Some(NoRequest)
  {
  }

  /** A round that started in `c` ended in `d`, with a verdict or going on. */
  ghost predicate Round(b: string, c: Conn, lineOk: bool, verdict: Option<HttpCode>, d: Conn, ok: bool) {
    && Sound(b, c) && Sound(b, d)
    && match verdict
       case Some(code) => Run(b, c, lineOk) == (code, d)
       case None => Run(b, c, lineOk) == Run(b, d, ok) && c.checked <= d.checked && (c.checked == d.checked ==> lineOk && !ok)
  }

  lemma LineRound(b: string, c: Conn, lineOk: bool)
    requires Sound(b, c) && !(c.state.CheckContent? && lineOk)
    ensures var (status, end) := ScanLine(b, c.checked);
            if status.LineOk? then
              && c.start + 2 <= end
              && var (verdict, e, ok) := Judge(|b|, LineOf(b, c.start, end), c.(checked := end, start := end));
                 Round(b, c, lineOk, verdict, e, ok)
            else Round(b, c, lineOk, Some(NoRequest), c.(checked := end), false)
  {
    ScanLeavesOff(b, c.checked);
  }

  lemma BodyRound(b: string, c: Conn)
    requires Sound(b, c) && c.state.CheckContent?
    ensures Round(b, c, true, if |b| >= BodyEnd(c) then Some(GetRequest) else None, c.(start := c.checked), false)
  {
  }

  /** process_read starts with a line status of LINE_OK. */
  function ParseReceived(b: string, c: Conn): (HttpCode, Conn)
    requires Sound(b, c)
  {
    Run(b, c, true)
  }

  function Rank(s: CheckState): nat {
    match s case CheckRequestLine => 0 case CheckHeader => 1 case CheckContent => 2
  }

  /** The state only moves forward, and only GetRequest, BadRequest or NoRequest come out. */
  lemma {:induction false} StateMovesForward(b: string, c: Conn, lineOk: bool)
    requires Sound(b, c)
    ensures Rank(c.state) <= Rank(Run(b, c, lineOk).1.state)
    ensures c.state.CheckContent? ==> var d := Run(b, c, lineOk).1; d == c.(checked := d.checked, start := d.start)
    ensures Run(b, c, lineOk).0 in {NoRequest, GetRequest, BadRequest}
    ensures c.state.CheckContent? ==> !Run(b, c, lineOk).0.BadRequest?
    decreases |b| - c.checked, lineOk
  {
    if c.state.CheckContent? && lineOk {
      var d := c.(start := c.checked);
      if |b| < BodyEnd(d) { StateMovesForward(b, d, false); }
    } else {
      ScanLeavesOff(b, c.checked);
      var (status, end) := ScanLine(b, c.checked);
      if status.LineOk? {
        var line, d := LineOf(b, c.start, end), c.(checked := end, start := end);
        match c.state
        case CheckRequestLine =>
          var target := ParseTarget(line, {' ', '\t'});
          if target.Some? { StateMovesForward(b, d.(state := CheckHeader, url := target.value), true); }
        case CheckHeader =>
          if ReadHeader(line, d).0.NoRequest? { StateMovesForward(b, ReadHeader(line, d).1, true); }
        case CheckContent =>
          if |b| < BodyEnd(d) { StateMovesForward(b, d, false); }
      }
    }
  }

  // ---------- Requests without a body ----------

  /** A verdict stands whatever follows. Without one, and with no body awaited, the next call goes
      on as if it had seen all at once; a bad line is never got over. */
  lemma {:induction false} RunResumes(b: string, more: string, c: Conn, lineOk: bool)
    requires Sound(b, c)
    ensures Sound(b + more, c) && Sound(b + more, Run(b, c, lineOk).1)
    ensures !Run(b, c, lineOk).0.NoRequest? ==> Run(b + more, c, lineOk).0 == Run(b, c, lineOk).0
    ensures Run(b, c, lineOk).0.NoRequest? ==>
              if Run(b, c, lineOk).1.state.CheckContent? then Run(b + more, c, lineOk).1.state.CheckContent?
              else Run(b + more, c, lineOk) == Run(b + more, Run(b, c, lineOk).1, true)
    decreases |b| - c.checked, lineOk
  {
    var B := b + more;
    assert c.checked > 0 ==> B[c.checked - 1] == b[c.checked - 1];
    SoundGrows(b, more, Run(b, c, lineOk).1);
    if c.state.CheckContent? {
      BodyResumes(b, more, c, lineOk);
    } else {
      ScanResumes(b, more, c.checked);
      ScanLeavesOff(b, c.checked);
      SoundGrows(b, more, c);
      hide Run, ScanLine, LineOf, Judge;
      var (status, end) := ScanLine(b, c.checked);
      if status.LineOk? {
        LineOfPrefix(b, more, c.start, end);
        LineRound(b, c, lineOk);
        LineRound(B, c, lineOk);
        var line, d := LineOf(b, c.start, end), c.(checked := end, start := end);
        JudgedAlike(|b|, |B|, line, d);
        var (verdict, e, ok) := Judge(|b|, line, d);
        if verdict == None { RunResumes(b, more, e, ok); }
      } else {
        NoLineResumes(b, more, c, lineOk);
      }
    }
  }

  lemma JudgedAlike(n: nat, m: nat, line: string, d: Conn)
    requires !d.state.CheckContent?
    ensures Judge(n, line, d) == Judge(m, line, d) && Judge(n, line, d).0 != Some(NoRequest)
    ensures Judge(n, line, d).0 == None ==> Judge(n, line, d).1.checked == d.checked && Judge(n, line, d).2
  {
  }

  lemma {:induction false} NoLineResumes(b: string, more: string, c: Conn, lineOk: bool)
    requires Sound(b, c) && !c.state.CheckContent? && !ScanLine(b, c.checked).0.LineOk?
    ensures Run(b, c, lineOk) == (NoRequest, c.(checked := ScanLine(b, c.checked).1))
    ensures Sound(b + more, c) && Sound(b + more, Run(b, c, lineOk).1)
    ensures Run(b + more, c, lineOk) == Run(b + more, Run(b, c, lineOk).1, true)
  {
    ScanResumes(b, more, c.checked);
    ScanLeavesOff(b, c.checked);
    SoundGrows(b, more, c);
    var (status, end) := ScanLine(b, c.checked);
    SoundGrows(b, more, c.(checked := end));
    if status.LineBad? { BadLineSticks(b + more, c.checked); }
    hide LineOf, ParseTarget, ReadHeader;
    assert ScanLine(b + more, c.checked) == ScanLine(b + more, end);
  }

  lemma SoundGrows(b: string, more: string, c: Conn)
    requires Sound(b, c)
    ensures Sound(b + more, c)
  {
    assert c.checked > 0 ==> (b + more)[c.checked - 1] == b[c.checked - 1];
  }

  lemma BadLineSticks(b: string, i: nat)
    requires NotPastCr(b, i) && ScanLine(b, i).0.LineBad?
    ensures ScanLine(b, ScanLine(b, i).1) == ScanLine(b, i)
  {
    ScanFindsBreak(b, i);
    ScanLeavesOff(b, i);
    ScanFindsBreak(b, ScanLine(b, i).1);
  }

  /** A round that scans while a body is awaited. */
  lemma BodyLine(b: string, c: Conn)
    requires Sound(b, c) && c.state.CheckContent?
    ensures var (status, end) := ScanLine(b, c.checked);
            if status.LineOk? then
              var d := c.(checked := end, start := end);
              && c.checked < end && Sound(b, d)
              && Run(b, c, false) == if |b| >= BodyEnd(d) then (GetRequest, d) else Run(b, d, false)
            else Run(b, c, false) == (NoRequest, c.(checked := end))
  {
    ScanLeavesOff(b, c.checked);
  }

  /** The round before that, which does not scan. */
  lemma BodyFirst(b: string, c: Conn)
    requires Sound(b, c) && c.state.CheckContent?
    ensures var d := c.(start := c.checked);
            Run(b, c, true) == if |b| >= BodyEnd(d) then (GetRequest, d) else Run(b, d, false)
  {
  }

  lemma {:induction false} BodyScanResumes(b: string, more: string, c: Conn)
    requires Sound(b, c) && Sound(b + more, c) && c.state.CheckContent?
    ensures Run(b, c, false).0.GetRequest? ==> Run(b + more, c, false).0.GetRequest?
    decreases |b| - c.checked
  {
    hide Run, ScanLine, BodyEnd;
    ScanResumes(b, more, c.checked);
    BodyLine(b, c);
    BodyLine(b + more, c);
    var (status, end) := ScanLine(b, c.checked);
    var d := c.(checked := end, start := end);
    if status.LineOk? && |b| < BodyEnd(d) {
      SoundGrows(b, more, d);
      BodyScanResumes(b, more, d);
    }
  }

  lemma BodyResumes(b: string, more: string, c: Conn, lineOk: bool)
    requires Sound(b, c) && Sound(b + more, c) && c.state.CheckContent?
    ensures Run(b, c, lineOk).1.state.CheckContent? && Run(b + more, c, lineOk).1.state.CheckContent?
    ensures !Run(b, c, lineOk).0.NoRequest? ==> Run(b + more, c, lineOk).0 == Run(b, c, lineOk).0
  {
    hide Run, BodyEnd;
    StateMovesForward(b, c, lineOk);
    StateMovesForward(b + more, c, lineOk);
    BodyFirst(b, c);
    BodyFirst(b + more, c);
    BodyScanResumes(b, more, if lineOk then c.(start := c.checked) else c);
  }

  /** The first verdict when every chunk is followed by a call, and what is remembered then. */
  function RunCalls(b: string, c: Conn, chunks: seq<string>): (HttpCode, Conn)
    requires Sound(b, c)
    decreases |chunks|
  {
    if chunks == [] then (NoRequest, c)
    else
      assert c.checked > 0 ==> (b + chunks[0])[c.checked - 1] == b[c.checked - 1];
      var (code, d) := ParseReceived(b + chunks[0], c);
      if code.NoRequest? then RunCalls(b + chunks[0], d, chunks[1..]) else (code, d)
  }

  function RunChunks(b: string, c: Conn, chunks: seq<string>): HttpCode
    requires Sound(b, c)
  {
    RunCalls(b, c, chunks).0
  }

  lemma {:induction false} ChunksResume(b: string, c: Conn, chunks: seq<string>)
    requires Sound(b, c) && ParseReceived(b, c) == (NoRequest, c) && !c.state.CheckContent?
    ensures Sound(b + Concat(chunks), c)
    ensures !ParseReceived(b + Concat(chunks), c).1.state.CheckContent? ==>
              RunChunks(b, c, chunks) == ParseReceived(b + Concat(chunks), c).0
    decreases |chunks|
  {
    RunResumes(b, Concat(chunks), c, true);
    if chunks == [] {
      assert b + Concat(chunks) == b;
    } else {
      var e, rest := b + chunks[0], Concat(chunks[1..]);
      assert e + rest == b + Concat(chunks) && e + "" == e;
      RunResumes(b, chunks[0], c, true);
      RunResumes(e, rest, c, true);
      RunResumes(e, "", c, true);
      var (code, d) := ParseReceived(e, c);
      hide Run;
      if code.NoRequest? && !d.state.CheckContent? {
        ChunksResume(e, d, chunks[1..]);
      }
    }
  }

  /** Chunk independence: a stream that never makes the parser await a body, because no
      Content-Length or a zero one stands before the blank line, gives the same verdict however it
      is cut. */
  lemma {:induction false} ChunkIndependence(chunks: seq<string>)
    requires !ParseReceived(Concat(chunks), FRESH).1.state.CheckContent?
    ensures RunChunks("", FRESH, chunks) == ParseReceived(Concat(chunks), FRESH).0
  {
    ChunksResume("", FRESH, chunks);
    assert "" + Concat(chunks) == Concat(chunks);
  }

  ghost predicate LineStart(b: string, i: nat) {
    i == 0 || (2 <= i <= |b| && b[i - 2] == '\r' && b[i - 1] == '\n')
  }

  /** A line, its CR LF included, stands at `i..j`. */
  ghost predicate IsLine(b: string, i: nat, j: nat) {
    i + 2 <= j <= |b| && LineStart(b, i) && LineStart(b, j)
  }

  /** No Content-Length in the stream, or only zero ones. */
  ghost predicate AnnouncesNoBody(b: string) {
    forall i: nat, j: nat :: IsLine(b, i, j) ==> ReadHeader(LineOf(b, i, j), FRESH).1.contentLength == 0
  }

  lemma HeaderKeepsNoBody(line: string, c: Conn)
    requires c.contentLength == 0 && ReadHeader(line, FRESH).1.contentLength == 0
    ensures ReadHeader(line, c).1.contentLength == 0
  {
  }

  lemma ScannedLineIsLine(b: string, start: nat, i: nat)
    requires NotPastCr(b, i) && LineStart(b, start) && start <= i && ScanLine(b, i).0.LineOk?
    ensures IsLine(b, start, ScanLine(b, i).1)
  {
    ScanFindsBreak(b, i);
  }

  lemma {:induction false} NoBodyIsAwaited(b: string, c: Conn, lineOk: bool)
    requires Sound(b, c) && !c.state.CheckContent? && c.contentLength == 0
    requires LineStart(b, c.start) && AnnouncesNoBody(b)
    ensures !Run(b, c, lineOk).1.state.CheckContent?
    decreases |b| - c.checked
  {
    ScanLeavesOff(b, c.checked);
    var (status, end) := ScanLine(b, c.checked);
    if status.LineOk? {
      ScannedLineIsLine(b, c.start, c.checked);
      var line, d := LineOf(b, c.start, end), c.(checked := end, start := end);
      hide ScanLine, LineOf, ParseTarget, ReadHeader;
      match c.state
      case CheckRequestLine =>
        var target := ParseTarget(line, {' ', '\t'});
        if target.Some? { NoBodyIsAwaited(b, d.(state := CheckHeader, url := target.value), true); }
      case CheckHeader =>
        HeaderKeepsNoBody(line, d);
        if ReadHeader(line, d).0.NoRequest? { NoBodyIsAwaited(b, ReadHeader(line, d).1, true); }
    }
  }

  /** Requests whose Content-Length is absent or zero give the same verdict however they are cut. */
  lemma {:induction false} BodilessChunkIndependence(chunks: seq<string>)
    requires AnnouncesNoBody(Concat(chunks))
    ensures RunChunks("", FRESH, chunks) == ParseReceived(Concat(chunks), FRESH).0
  {
    NoBodyIsAwaited(Concat(chunks), FRESH, true);
    ChunkIndependence(chunks);
  }

  // ---------- Over the buffer ----------

  /** What the file system says about the requested path. */
  datatype FileStatus = NoFile | File(othersMayRead: bool, directory: bool)

  function DoRequest(file: FileStatus): HttpCode {
    if file.NoFile? then NoResource
    else if !file.othersMayRead then ForbiddenRequest
    else if file.directory then BadRequest
    else FileRequest
  }

  function Answer(code: HttpCode, file: FileStatus): HttpCode {
    if code.GetRequest? then DoRequest(file) else code
  }

  function Answered(r: (HttpCode, Conn), file: FileStatus): (HttpCode, Conn) {
    (Answer(r.0, file), r.1)
  }

  /** The calls on the first `i` bursts gave no verdict and left `b` received and the state `c`. */
  ghost predicate OnTrack(bursts: seq<string>, i: nat, b: string, c: Conn) {
    && i <= |bursts| && Sound(b, c)
    && forall m :: i <= m <= |bursts| ==> RunCalls("", FRESH, bursts[..m]) == RunCalls(b, c, bursts[i..m])
  }

  lemma TrackStarts(bursts: seq<string>)
    ensures OnTrack(bursts, 0, "", FRESH)
  {
    assert forall m :: 0 <= m <= |bursts| ==> bursts[0..m] == bursts[..m];
  }

  lemma TrackStep(bursts: seq<string>, i: nat, b: string, c: Conn)
    requires OnTrack(bursts, i, b, c) && i < |bursts|
    ensures Sound(b + bursts[i], c) && RunCalls("", FRESH, bursts[..i]) == (NoRequest, c)
    ensures var (code, d) := ParseReceived(b + bursts[i], c);
            if code.NoRequest? then OnTrack(bursts, i + 1, b + bursts[i], d)
            else RunCalls("", FRESH, bursts[..i + 1]) == (code, d) == RunCalls("", FRESH, bursts)
  {
    hide Run;
    SoundGrows(b, bursts[i], c);
    assert bursts[i..i] == [] && bursts[..|bursts|] == bursts;
    forall m | i < m <= |bursts|
      ensures bursts[i..m][0] == bursts[i] && bursts[i..m][1..] == bursts[i + 1..m]
    {
    }
  }

  lemma TrackEnds(bursts: seq<string>, b: string, c: Conn)
    requires OnTrack(bursts, |bursts|, b, c)
    ensures RunCalls("", FRESH, bursts) == (NoRequest, c)
  {
    assert bursts[..|bursts|] == bursts && bursts[|bursts|..|bursts|] == [];
  }

  class HttpConn {
    const readBuf: array<char>
    var readIdx: nat
    var checkedIdx: nat
    var startLine: nat
    var checkState: CheckState
    var linger: bool
    var contentLength: Int32
    /** The text behind "Host:". */
    var host: string
    /** Where in the buffer the path of the request stands. */
    var url: nat
    ghost var path: string
    ghost var received: string

    ghost function State(): Conn
      reads this
    {
      Conn(checkedIdx, startLine, checkState, linger, contentLength, path, host)
    }

    /** Once the request line is done, the path stands as a C string behind the current line. */
    ghost predicate UrlStands()
      reads this, readBuf
    {
      !checkState.CheckRequestLine? ==> StrAt(readBuf[..], url, path) && url + |path| < startLine
    }

    ghost predicate Valid()
      reads this, readBuf
    {
      && readBuf.Length == READ_BUFFER_SIZE && readIdx == |received|
      && Holding(readBuf[..], received, startLine, checkedIdx) && UrlStands()
    }

    constructor ()
      ensures Valid() && State() == FRESH && received == "" && fresh(readBuf)
    {
      readBuf := new char[READ_BUFFER_SIZE](_ => '\0');
      readIdx, checkedIdx, startLine, checkState := 0, 0, 0, CheckRequestLine;
      linger, contentLength, url, path, host, received := false, 0, 0, "", "", "";
    }

    lemma StateIs()
      ensures State() == Conn(checkedIdx, startLine, checkState, linger, contentLength, path, host)
    {
    }

    lemma StateIsSound()
      requires Valid()
      ensures Sound(received, State()) && checkedIdx <= readIdx <= READ_BUFFER_SIZE && readIdx == |received|
    {
      HoldingIsSound(readBuf[..], received, startLine, checkedIdx);
    }

    /** Takes in what one call to recv delivered. */
    method Store(data: string)
      requires Valid() && readIdx + |data| <= READ_BUFFER_SIZE
      modifies this`readIdx, this`received, readBuf
      ensures Valid() && received == old(received) + data
    {
      StateIsSound();
      ReceivedMore(readBuf[..], received, data, startLine, checkedIdx);
      ghost var was, at := readBuf[..], url;
      hide Holding, StrAt;
      CopyIn(readBuf, readIdx, data);
      readIdx := readIdx + |data|;
      received := received + data;
      UrlKept(was);
    }

    /** Takes in what the socket has to offer before recv says `quiet`, in whatever pieces; fails when
        that fills the buffer or the connection ends. */
    method Read(data: string, quiet: Quiet) returns (ok: bool)
      requires Valid()
      modifies this`readIdx, this`received, readBuf
      ensures Valid() && (ok <==> quiet == Again && |old(received)| + |data| < READ_BUFFER_SIZE)
      ensures ok ==> received == old(received) + data
    {
      StateIsSound();
      if readIdx >= READ_BUFFER_SIZE { return false; }
      var rest := data;
      ghost var all := received + data;
      hide Holding, UrlStands;
      while true
        invariant Valid() && readIdx <= READ_BUFFER_SIZE && received + rest == all
        decreases |rest|
      {
        var room := READ_BUFFER_SIZE - readIdx;
        if room == 0 {
          // recv has no room to read into and returns 0.
          return false;
        }
        if rest == "" {
          assert received == all;
          return quiet == Again;
        }
        var n: nat :| 1 <= n <= room && n <= |rest|;
        Store(rest[..n]);
        rest := rest[n..];
        assert received + rest == all;
      }
    }

    /** A path in front of `p` is not disturbed from there on. */
    lemma UrlKeptBelow(was: string, p: nat)
      requires |was| == readBuf.Length && p <= startLine
      requires !checkState.CheckRequestLine? ==> StrAt(was, url, path) && url + |path| < p
      requires forall i :: 0 <= i < p && i < |was| ==> readBuf[i] == was[i]
      ensures UrlStands()
    {
      if !checkState.CheckRequestLine? {
        assert p <= |was| ==> readBuf[..][url..url + |path| + 1] == was[url..url + |path| + 1];
        StrAtKeeps(was, readBuf[..], url, path);
      }
    }

    lemma UrlKept(was: string)
      requires |was| == readBuf.Length
      requires !checkState.CheckRequestLine? ==> StrAt(was, url, path) && url + |path| < startLine
      requires forall i :: 0 <= i < startLine && i < |was| ==> readBuf[i] == was[i]
      ensures UrlStands()
    {
      UrlKeptBelow(was, startLine);
    }

    /** Scans on; a complete line is left as a C string at `temp` and the next line begins. */
    method NextLine() returns (status: LineStatus, temp: nat, ghost line: string)
      requires Valid()
      modifies this`checkedIdx, this`startLine, readBuf
      ensures Valid() && (status, checkedIdx) == ScanLine(received, old(checkedIdx))
      ensures if status.LineOk? then startLine == checkedIdx > old(checkedIdx) else startLine == old(startLine)
      ensures status.LineOk? ==>
                && temp == old(startLine) && temp + 2 <= checkedIdx && line == LineOf(received, temp, checkedIdx)
                && StrAt(readBuf[..], temp, line) && temp + |line| < checkedIdx
                && (!checkState.CheckRequestLine? ==> url + |path| < temp)
    {
      StateIsSound();
      hide Holding, StrAt;
      temp := startLine;
      ghost var rounds, was := 0, readBuf[..];
      status, checkedIdx, line, rounds := TakeLine(readBuf, checkedIdx, readIdx, startLine, received);
      UrlKept(was);
      if status.LineOk? {
        startLine := checkedIdx;
      }
    }

    method TakeRequestLine(temp: nat, ghost line: string) returns (good: bool)
      requires Valid() && checkState.CheckRequestLine?
      requires StrAt(readBuf[..], temp, line) && temp + |line| < startLine
      modifies this`checkState, this`url, this`path, readBuf
      ensures Valid() && good == ParseTarget(line, {' ', '\t'}).Some?
      ensures State() == if good then old(State()).(state := CheckHeader, url := ParseTarget(line, {' ', '\t'}).value) else old(State())
    {
      hide StrAt, Holding, ParseTarget;
      ghost var was := readBuf[..];
      var at := ParseRequestLine(readBuf, temp, {' ', '\t'}, line);
      good := at.Some?;
      if good {
        checkState, url, path := CheckHeader, at.value, ParseTarget(line, {' ', '\t'}).value;
      }
      HoldingAbove(was, readBuf[..], received, startLine, checkedIdx);
    }

    method ParseHeaders(temp: nat, ghost line: string) returns (code: HttpCode)
      requires Valid() && checkState.CheckHeader? && StrAt(readBuf[..], temp, line)
      modifies this`checkState, this`linger, this`contentLength, this`host
      ensures Valid() && (code, State()) == ReadHeader(line, old(State()))
    {
      StrAtHead(readBuf[..], temp, line);
      code := NoRequest;
      if readBuf[temp] == '\0' {
        if contentLength != 0 {
          checkState := CheckContent;
        } else {
          code := GetRequest;
        }
      } else {
        ParseField(temp, line);
      }
    }

    method ParseField(temp: nat, ghost line: string)
      requires StrAt(readBuf[..], temp, line) && line != ""
      modifies this`linger, this`contentLength, this`host
      ensures State() == ReadHeader(line, old(State())).1
    {
      StrAtIsCStr(readBuf[..], temp, line);
      PrefixFits(line, "Connection:");
      PrefixFits(line, "Content-Length:");
      PrefixFits(line, "Host:");
      hide StrAt, EqualNoCase, PrefixNoCase, FieldValue;
      if PrefixNoCase(CStr(readBuf[..][temp..]), "Connection:") {
        var value := FieldText(temp, 11, line);
        if EqualNoCase(value, "keep-alive") {
          linger := true;
        }
      } else if PrefixNoCase(CStr(readBuf[..][temp..]), "Content-Length:") {
        var value := FieldText(temp, 15, line);
        contentLength := ToInt(Atol(value));
      } else if PrefixNoCase(CStr(readBuf[..][temp..]), "Host:") {
        host := FieldText(temp, 5, line);
      }
    }

    /** The value of the header field at `temp` whose name and colon take `n` characters. */
    method FieldText(temp: nat, n: nat, ghost line: string) returns (value: string)
      requires StrAt(readBuf[..], temp, line) && n <= |line|
      ensures value == FieldValue(line, n)
    {
      hide StrAt;
      StrAtSuffix(readBuf[..], temp, line, n);
      var p := SkipTabs(readBuf, temp + n, line[n..]);
      StrAtIsCStr(readBuf[..], p, FieldValue(line, n));
      value := CStr(readBuf[..][p..]);
    }

    /** The body is not looked at, only waited for; behind `temp`, its end is marked by a NUL where that lies
        in the buffer. */
    method ParseContent(temp: nat) returns (complete: bool)
      requires Valid() && checkState.CheckContent? && startLine == checkedIdx && readIdx < READ_BUFFER_SIZE
      requires url + |path| < temp <= startLine
      modifies readBuf
      ensures complete <==> readIdx >= BodyEnd(State())
      ensures !complete ==> Valid()
      ensures readBuf[..] == if complete && 0 <= temp + contentLength && contentLength <= INT_MAX - checkedIdx
                             then old(readBuf[..])[temp + contentLength := '\0'] else old(readBuf[..])
      ensures contentLength >= 0 ==> UrlStands()
    {
      complete := readIdx >= ToInt(contentLength + checkedIdx);
      if complete { MarkIsInBuffer(readIdx, checkedIdx, temp, contentLength); }
      var end := temp + contentLength;
      if complete && 0 <= end < readBuf.Length {
        ghost var was := readBuf[..];
        hide StrAt, Holding;
        readBuf[end] := '\0';
        if contentLength >= 0 { UrlKeptBelow(was, temp); }
      }
    }

    method ProcessLine(temp: nat, ghost line: string) returns (verdict: Option<HttpCode>, ok: bool)
      requires Valid() && readIdx < READ_BUFFER_SIZE && startLine == checkedIdx
      requires StrAt(readBuf[..], temp, line) && temp + |line| < startLine
      requires checkState.CheckContent? ==> url + |path| < temp
      modifies this`checkState, this`url, this`path, this`linger, this`contentLength, this`host, readBuf
      ensures (verdict, State(), ok) == Judge(readIdx, line, old(State()))
      ensures verdict == None ==> Valid()
      ensures verdict == Some(GetRequest) && contentLength >= 0 ==> !checkState.CheckRequestLine? && UrlStands()
    {
      hide Holding, StrAt, ParseTarget;
      match checkState
      case CheckRequestLine =>
        var good := TakeRequestLine(temp, line);
        verdict, ok := if good then None else Some(BadRequest), true;
      case CheckHeader =>
        var code := ParseHeaders(temp, line);
        verdict, ok := if code.GetRequest? then Some(GetRequest) else None, true;
      case CheckContent =>
        var complete := ParseContent(temp);
        verdict, ok := if complete then Some(GetRequest) else None, false;
    }

    /** A round that waits for the body without scanning. */
    method AwaitBody() returns (verdict: Option<HttpCode>)
      requires Valid() && readIdx < READ_BUFFER_SIZE && checkState.CheckContent?
      modifies this`startLine, readBuf
      ensures Round(received, old(State()), true, verdict, State(), false)
      ensures verdict == None || verdict == Some(NoRequest) ==> Valid()
      ensures contentLength >= 0 ==> UrlStands()
    {
      StateIsSound();
      BodyRound(received, State());
      HoldingLater(readBuf[..], received, startLine, checkedIdx);
      hide Holding, StrAt, Round;
      var temp := startLine;
      startLine := checkedIdx;
      var complete := ParseContent(temp);
      verdict := if complete then Some(GetRequest) else None;
    }

    /** A round that scans for a line and deals with it. */
    method DealWithLine(lineOk: bool) returns (verdict: Option<HttpCode>, ok: bool)
      requires Valid() && readIdx < READ_BUFFER_SIZE && !(checkState.CheckContent? && lineOk)
      modifies this, readBuf
      ensures readIdx == old(readIdx) && received == old(received)
      ensures Round(received, old(State()), lineOk, verdict, State(), ok)
      ensures verdict == None || verdict == Some(NoRequest) ==> Valid()
      ensures verdict == Some(GetRequest) && contentLength >= 0 ==> !checkState.CheckRequestLine? && UrlStands()
    {
      hide *;
      StateIs();
      StateIsSound();
      LineRound(received, State(), lineOk);
      var status, temp;
      ghost var line;
      status, temp, line := NextLine();
      StateIs();
      if status != LineOk { return Some(NoRequest), false; }
      JudgedIsOver(readIdx, line, State());
      verdict, ok := ProcessLine(temp, line);
    }

    /** One round of the main state machine: a verdict, or the line status for the next round. */
    method ProcessNext(lineOk: bool) returns (verdict: Option<HttpCode>, ok: bool)
      requires Valid() && readIdx < READ_BUFFER_SIZE
      modifies this, readBuf
      ensures readIdx == old(readIdx) && received == old(received)
      ensures Round(received, old(State()), lineOk, verdict, State(), ok)
      ensures verdict == None || verdict == Some(NoRequest) ==> Valid()
      ensures verdict == Some(GetRequest) && contentLength >= 0 ==> !checkState.CheckRequestLine? && UrlStands()
    {
      hide Holding, StrAt, Round;
      if checkState.CheckContent? && lineOk {
        verdict := AwaitBody();
        ok := false;
      } else {
        verdict, ok := DealWithLine(lineOk);
      }
    }

    /** Takes what the buffer holds as far as it goes; a complete request is answered with what
        do_request makes of the file. The path then still stands in the buffer, unless a negative
        length was announced. */
    method ProcessRead(file: FileStatus) returns (code: HttpCode)
      requires Valid() && readIdx < READ_BUFFER_SIZE
      modifies this, readBuf
      ensures readIdx == old(readIdx) && received == old(received)
      ensures old(Sound(received, State())) && (code, State()) == Answered(ParseReceived(received, old(State())), file)
      ensures code == NoRequest ==> Valid()
      ensures ParseReceived(received, old(State())).0.GetRequest? && contentLength >= 0 ==>
                StrAt(readBuf[..], url, path) && path == State().url
    {
      StateIsSound();
      ghost var c := State();
      hide Holding, Run;
      var verdict, lineOk := ProcessNext(true);
      while verdict == None
        invariant readIdx == old(readIdx) < READ_BUFFER_SIZE && received == old(received) && Sound(received, State())
        invariant match verdict
                  case Some(code) => Run(received, c, true) == (code, State())
                  case None => Run(received, c, true) == Run(received, State(), lineOk) && Valid()
        invariant verdict == Some(NoRequest) ==> Valid()
        invariant verdict == Some(GetRequest) && contentLength >= 0 ==> !checkState.CheckRequestLine? && UrlStands()
        decreases verdict == None, readIdx - checkedIdx, lineOk
      {
        StateIsSound();
        verdict, lineOk := ProcessNext(lineOk);
      }
      code := Answer(verdict.value, file);
    }

    /** One event after the other, until there is something to answer or the buffer is full: the answer
        is that to the bursts, read one by one. */
    method Serve(bursts: seq<string>, file: FileStatus) returns (code: HttpCode, n: nat, closed: bool)
      requires Valid() && State() == FRESH && received == ""
      modifies this, readBuf
      ensures n <= |bursts| && |Concat(bursts[..n])| < READ_BUFFER_SIZE
      ensures (code, State()) == Answered(RunCalls("", FRESH, bursts[..n]), file)
      ensures closed <==> code == NoRequest && n < |bursts|
      ensures if closed then |Concat(bursts[..n + 1])| >= READ_BUFFER_SIZE
              else (code, State()) == Answered(RunCalls("", FRESH, bursts), file)
      ensures RunChunks("", FRESH, bursts[..n]) == GetRequest && contentLength >= 0 ==>
                StrAt(readBuf[..], url, path) && path == State().url
    {
      hide Run, Holding, UrlStands, RunCalls;
      n, closed := 0, false;
      TrackStarts(bursts);
      NothingRead(bursts);
      while n < |bursts|
        invariant n <= |bursts| && Valid() && OnTrack(bursts, n, received, State())
        invariant received == Concat(bursts[..n]) && |received| < READ_BUFFER_SIZE
      {
        TrackStep(bursts, n, received, State());
        ConcatNext(bursts, n);
        var ok := Read(bursts[n], Again);
        if !ok { return NoRequest, n, true; }
        code := ProcessRead(file);
        n := n + 1;
        if code != NoRequest { return code, n, false; }
      }
      TrackEnds(bursts, received, State());
      assert bursts[..n] == bursts;
      code := NoRequest;
    }
  }

  lemma NothingRead(bursts: seq<string>)
    ensures Concat(bursts[..0]) == ""
  {
  }

  lemma PrefixFits(s: string, p: string)
    ensures PrefixNoCase(s, p) ==> |p| <= |s|
  {
  }
}
