/** The incremental request parser over one fixed buffer that is filled chunk by chunk. */
module RequestParsers {
  import opened CStrings
  import opened LineBuffers
  import opened LineScanner
  import opened RequestLines
  import opened Sequences
  import opened Wrappers

  const BUFFER_SIZE: nat := 4096

  datatype CheckState = CheckRequestLine | CheckHeader
  datatype HttpCode = NoRequest | GetRequest | BadRequest

  /** How far the parser got: bytes scanned, start of the current line, what that line is. */
  datatype Progress = Progress(checked: nat, start: nat, state: CheckState)

  const INITIAL := Progress(0, 0, CheckRequestLine)

  // ---------- Specification on the byte stream ----------

  ghost predicate Sound(b: string, p: Progress) {
    p.start <= p.checked && NotPastCr(b, p.checked)
  }

  predicate GoodRequestLine(line: string) {
    ParseTarget(line, {'\t'}).Some?
  }

  /** What one call makes of the bytes received so far. */
  function Parse(b: string, p: Progress): (r: (HttpCode, Progress))
    requires Sound(b, p)
    ensures Sound(b, r.1) && p.checked <= r.1.checked
    decreases |b| - p.checked
  {
    ScanLeavesOff(b, p.checked);
    var (status, end) := ScanLine(b, p.checked);
    match status
    case LineOpen => (NoRequest, p.(checked := end))
    case LineBad => (BadRequest, p.(checked := end))
    case LineOk =>
      var line := LineOf(b, p.start, end);
      var next := Progress(end, end, CheckHeader);
      if p.state.CheckRequestLine? then
        if GoodRequestLine(line) then Parse(b, next) else (BadRequest, Progress(end, end, CheckRequestLine))
      else if line == "" then (GetRequest, next)
      else Parse(b, next)
  }

  /** A verdict stands whatever follows; without one, the parser goes on as if it had seen all at once. */
  lemma {:induction false} ParseResumes(b: string, more: string, p: Progress)
    requires Sound(b, p)
    ensures Sound(b + more, p) && Sound(b + more, Parse(b, p).1)
    ensures if Parse(b, p).0.NoRequest? then Parse(b + more, p) == Parse(b + more, Parse(b, p).1)
            else Parse(b + more, p) == Parse(b, p)
    decreases |b| - p.checked
  {
    var B := b + more;
    hide GoodRequestLine, LineOf, ScanLine;
    assert p.checked > 0 ==> B[p.checked - 1] == b[p.checked - 1];
    ScanResumes(b, more, p.checked);
    ScanLeavesOff(b, p.checked);
    var (status, end) := ScanLine(b, p.checked);
    assert end > 0 ==> B[end - 1] == b[end - 1];
    if status.LineOpen? {
      assert Parse(b, p) == (NoRequest, p.(checked := end));
    } else if status.LineOk? {
      LineOfPrefix(b, more, p.start, end);
      ParseResumes(b, more, Progress(end, end, CheckHeader));
    }
  }

  /** The first verdict when the stream arrives chunk by chunk after `b`. */
  function ParseChunks(b: string, p: Progress, chunks: seq<string>): HttpCode
    requires Sound(b, p)
    decreases |chunks|
  {
    if chunks == [] then NoRequest
    else
      assert p.checked > 0 ==> (b + chunks[0])[p.checked - 1] == b[p.checked - 1];
      var (code, next) := Parse(b + chunks[0], p);
      if code.NoRequest? then ParseChunks(b + chunks[0], next, chunks[1..]) else code
  }

  lemma {:induction false} ChunksResume(b: string, p: Progress, chunks: seq<string>)
    requires Sound(b, p) && Parse(b, p) == (NoRequest, p)
    ensures Sound(b + Concat(chunks), p) && ParseChunks(b, p, chunks) == Parse(b + Concat(chunks), p).0
    decreases |chunks|
  {
    ParseResumes(b, Concat(chunks), p);
    if chunks == [] {
      assert b + Concat(chunks) == b;
    } else {
      var c, rest := b + chunks[0], Concat(chunks[1..]);
      assert c + rest == b + Concat(chunks) && c + "" == c;
      ParseResumes(b, chunks[0], p);
      ParseResumes(c, rest, p);
      ParseResumes(c, "", p);
      if Parse(c, p).0.NoRequest? {
        ChunksResume(c, Parse(c, p).1, chunks[1..]);
      }
    }
  }

  /** Chunk independence: however the stream is cut, the first verdict is that of the whole stream. */
  lemma ChunkIndependence(chunks: seq<string>)
    ensures ParseChunks("", INITIAL, chunks) == Parse(Concat(chunks), INITIAL).0
  {
    ChunksResume("", INITIAL, chunks);
    assert "" + Concat(chunks) == Concat(chunks);
  }

  // ---------- Over the buffer ----------

  /** The part of the stream that the buffer has room for. */
  function Fitting(stream: string): string {
    if |stream| <= BUFFER_SIZE then stream else stream[..BUFFER_SIZE]
  }

  lemma FittingStep(chunks: seq<string>, i: nat)
    requires i < |chunks|
    ensures Fitting(Concat(chunks[..i + 1])) == Fitting(Fitting(Concat(chunks[..i])) + chunks[i])
    ensures |Fitting(Concat(chunks[..i]))| == BUFFER_SIZE ==> Fitting(Concat(chunks[..i + 1])) == Fitting(Concat(chunks[..i]))
  {
    var up := chunks[..i + 1];
    ConcatSplits(up, i);
    assert up[..i] == chunks[..i] && up[i..] == [chunks[i]];
    assert Concat([chunks[i]]) == chunks[i] + "" == chunks[i];
    var front, data := Concat(chunks[..i]), chunks[i];
    if |front| > BUFFER_SIZE {
      assert (front + data)[..BUFFER_SIZE] == (front[..BUFFER_SIZE] + data)[..BUFFER_SIZE];
    }
  }

  lemma FittingPrefix(chunks: seq<string>, i: nat)
    requires i <= |chunks|
    ensures Fitting(Concat(chunks[..i])) <= Fitting(Concat(chunks))
    ensures |Fitting(Concat(chunks[..i]))| == BUFFER_SIZE ==> Fitting(Concat(chunks)) == Fitting(Concat(chunks[..i]))
  {
    ConcatSplits(chunks, i);
  }

  /** A verdict on what was received so far is the verdict on all that fits. */
  lemma VerdictStands(b: string, chunks: seq<string>, i: nat)
    requires i <= |chunks| && b == Fitting(Concat(chunks[..i]))
    ensures b <= Fitting(Concat(chunks))
    ensures |b| == BUFFER_SIZE ==> b == Fitting(Concat(chunks))
    ensures !Parse(b, INITIAL).0.NoRequest? ==> Parse(Fitting(Concat(chunks)), INITIAL) == Parse(b, INITIAL)
  {
    FittingPrefix(chunks, i);
    var all := Fitting(Concat(chunks));
    ParseResumes(b, all[|b|..], INITIAL);
    assert b + all[|b|..] == all;
  }

  lemma NothingYet()
    ensures Concat([]) == "" && Fitting("") == "" && Parse("", INITIAL) == (NoRequest, INITIAL)
  {
  }

  datatype Reply = Correct | Wrong | Nothing

  function ReplyTo(code: HttpCode): Reply {
    match code
    case NoRequest => Nothing
    case GetRequest => Correct
    case BadRequest => Wrong
  }

  class RequestReader {
    const buffer: array<char>
    var readIndex: nat
    var checkedIndex: nat
    var startLine: nat
    var checkState: CheckState
    ghost var received: string

    ghost function Place(): Progress
      reads this
    {
      Progress(checkedIndex, startLine, checkState)
    }

    ghost predicate Valid()
      reads this, buffer
    {
      buffer.Length == BUFFER_SIZE && readIndex == |received| && Holding(buffer[..], received, startLine, checkedIndex)
    }

    constructor ()
      ensures Valid() && Place() == INITIAL && received == "" && fresh(buffer)
    {
      buffer := new char[BUFFER_SIZE](_ => '\0');
      readIndex, checkedIndex, startLine, checkState := 0, 0, 0, CheckRequestLine;
      received := "";
    }

    /** Takes in the bytes that recv delivered, as many as there is room for. */
    method Receive(data: string) returns (n: nat)
      requires Valid()
      modifies this`readIndex, this`received, buffer
      ensures Valid() && n == if |data| <= BUFFER_SIZE - |old(received)| then |data| else BUFFER_SIZE - |old(received)|
      ensures received == old(received) + data[..n]
    {
      n := if |data| <= BUFFER_SIZE - readIndex then |data| else BUFFER_SIZE - readIndex;
      ReceivedMore(buffer[..], received, data[..n], startLine, checkedIndex);
      hide Holding;
      CopyIn(buffer, readIndex, data[..n]);
      received := received + data[..n];
      readIndex := readIndex + n;
    }

    /** An empty line ends the request. */
    method ParseHeaders(temp: nat, ghost line: string) returns (code: HttpCode)
      requires StrAt(buffer[..], temp, line)
      ensures code == if line == "" then GetRequest else NoRequest
    {
      StrAtHead(buffer[..], temp, line);
      code := if buffer[temp] == '\0' then GetRequest else NoRequest;
    }

    /** Scans on; a complete line is left as a C string at `temp` and the next line begins. */
    method NextLine() returns (status: LineStatus, temp: nat, ghost line: string, ghost rounds: nat)
      requires Valid()
      modifies this`checkedIndex, this`startLine, buffer
      ensures Valid() && (status, checkedIndex) == ScanLine(received, old(checkedIndex))
      ensures rounds <= checkedIndex - old(checkedIndex) + 1
      ensures if status.LineOk? then startLine == checkedIndex else startLine == old(startLine)
      ensures status.LineOk? ==>
                && temp == old(startLine) && temp + 2 <= checkedIndex && line == LineOf(received, temp, checkedIndex)
                && StrAt(buffer[..], temp, line) && temp + |line| < checkedIndex
    {
      hide Holding, ScanLine, StrAt;
      temp := startLine;
      status, checkedIndex, line, rounds := TakeLine(buffer, checkedIndex, readIndex, startLine, received);
      if status.LineOk? {
        startLine := checkedIndex;
      }
    }

    /** Analyses the request line at `temp`, which lies behind the current line. */
    method TakeRequestLine(temp: nat, ghost line: string) returns (good: bool)
      requires Valid() && StrAt(buffer[..], temp, line) && temp + |line| < startLine
      modifies this`checkState, buffer
      ensures Valid() && good == GoodRequestLine(line)
      ensures checkState == if good then CheckHeader else old(checkState)
    {
      hide StrAt, Holding, ParseTarget;
      ghost var was := buffer[..];
      var path := ParseRequestLine(buffer, temp, {'\t'}, line);
      good := path.Some?;
      if good {
        checkState := CheckHeader;
      }
      HoldingAbove(was, buffer[..], received, startLine, checkedIndex);
    }

    /** One round of the main state machine: a verdict, or one line more is done with. */
    method ParseNext() returns (verdict: Option<HttpCode>, ghost rounds: nat)
      requires Valid()
      modifies this`checkedIndex, this`startLine, this`checkState, buffer
      ensures Valid() && rounds <= checkedIndex - old(checkedIndex) + 1
      ensures match verdict
              case Some(code) => Parse(received, old(Place())) == (code, Place())
              case None => old(checkedIndex) < checkedIndex && Parse(received, old(Place())) == Parse(received, Place())
    {
      PlaceIsSound();
      hide Holding, ScanLine, LineOf, GoodRequestLine;
      var status, temp;
      ghost var line;
      status, temp, line, rounds := NextLine();
      if status != LineOk {
        return Some(if status.LineOpen? then NoRequest else BadRequest), rounds;
      }
      if checkState.CheckRequestLine? {
        var good := TakeRequestLine(temp, line);
        verdict := if good then None else Some(BadRequest);
      } else {
        var code := ParseHeaders(temp, line);
        verdict := if code.GetRequest? then Some(code) else None;
      }
    }

    /** The main state machine: takes every complete line out of the buffer. */
    method ParseContent() returns (code: HttpCode, ghost rounds: nat, ghost calls: nat)
      requires Valid()
      modifies this`checkedIndex, this`startLine, this`checkState, buffer
      ensures Valid() && (code, Place()) == Parse(received, old(Place()))
      ensures rounds <= checkedIndex - old(checkedIndex) + calls
    {
      PlaceIsSound();
      hide Holding, Parse;
      var verdict;
      verdict, rounds := ParseNext();
      calls := 1;
      while verdict == None
        invariant Valid() && rounds <= checkedIndex - old(checkedIndex) + calls
        invariant match verdict
                  case Some(c) => Parse(received, old(Place())) == (c, Place())
                  case None => Parse(received, old(Place())) == Parse(received, Place())
        decreases readIndex - checkedIndex, verdict == None
      {
        ghost var more;
        PlaceIsSound();
        verdict, more := ParseNext();
        PlaceIsSound();
        rounds, calls := rounds + more, calls + 1;
      }
      code := verdict.value;
    }

    lemma PlaceIsSound()
      requires Valid()
      ensures Sound(received, Place()) && checkedIndex <= readIndex <= BUFFER_SIZE
    {
      HoldingIsSound(buffer[..], received, startLine, checkedIndex);
    }

    /** One round of the main loop: receives and analyses, unless the buffer is full. */
    method ServeOnce(data: string) returns (n: nat, code: HttpCode, ghost rounds: nat, ghost calls: nat)
      requires Valid() && Parse(received, INITIAL) == (NoRequest, Place())
      modifies this, buffer
      ensures Valid() && Parse(received, INITIAL) == (code, Place())
      ensures received == Fitting(old(received) + data) && (n == 0 ==> received == old(received))
      ensures n == 0 <==> data == "" || |old(received)| == BUFFER_SIZE
      ensures rounds <= checkedIndex - old(checkedIndex) + calls
    {
      ghost var was := received;
      n := Receive(data);
      code, rounds, calls := NoRequest, 0, 0;
      assert received == Fitting(was + data);
      if n == 0 {
        assert received == was;
        return;
      }
      hide Holding, Parse;
      ParseResumes(was, data[..n], INITIAL);
      code, rounds, calls := ParseContent();
    }

    /** Reads and analyses until there is a verdict, the connection ends, or the buffer is full.
        However the stream is cut into chunks, the reply is that to the whole stream. The scan loop
        runs at most once per byte received and once per call of the line machine. */
    method Serve(chunks: seq<string>) returns (reply: Reply, ghost rounds: nat, ghost calls: nat)
      requires Valid() && Place() == INITIAL && received == ""
      requires forall i :: 0 <= i < |chunks| ==> chunks[i] != ""
      modifies this, buffer
      ensures reply == ReplyTo(Parse(Fitting(Concat(chunks)), INITIAL).0)
      ensures rounds <= |received| + calls && received <= Fitting(Concat(chunks))
    {
      rounds, calls := 0, 0;
      reply := Nothing;
      var i := 0;
      hide Holding, Parse, Fitting;
      NothingYet();
      while i < |chunks|
        invariant i <= |chunks| && Valid() && rounds <= checkedIndex + calls
        invariant received == Fitting(Concat(chunks[..i])) && Parse(received, INITIAL) == (NoRequest, Place())
      {
        ghost var more, again;
        var n, code;
        n, code, more, again := ServeOnce(chunks[i]);
        rounds, calls := rounds + more, calls + again;
        FittingStep(chunks, i);
        i := i + 1;
        PlaceIsSound();
        VerdictStands(received, chunks, i);
        if n == 0 { break; }
        if code != NoRequest { return ReplyTo(code), rounds, calls; }
      }
      PlaceIsSound();
      if i == |chunks| { assert chunks[..i] == chunks; }
    }
  }
}
