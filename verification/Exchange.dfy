/** What a client reads of the answer to its request: reading, looking up the file and printing together. */
module Exchanges {
  import opened Decimals
  import opened HttpConns
  import opened LineStreams
  import opened RequestBodies
  import opened RequestHeads
  import opened Responses
  import opened Sequences

  /** The status line a client should get for a complete request, word for word. */
  function Expected(file: FileStatus): string {
    match file
    case NoFile => "HTTP/1.1 404 Not Found"
    case File(false, _) => "HTTP/1.1 403 Forbidden"
    case File(true, true) => "HTTP/1.1 400 Bad Request"
    case File(true, false) => "HTTP/1.1 200 OK"
  }

  /** The client reads this status, as many bytes behind the head as are announced, and whether the connection
      stays. */
  ghost predicate ErrorRead(response: string, status: string, linger: bool) {
    exists form :: form != "" && IsRead(response, status, |form|, linger, form)
  }

  lemma FormIsRead(response: string, code: HttpCode, linger: bool)
    requires IsError(code) && IsRead(response, StatusOf(code), |PageOf(code).form|, linger, PageOf(code).form)
    ensures ErrorRead(response, StatusOf(code), linger)
  {
    assert PageOf(code).form != "" by { FormsAreThere(code); }
    hide IsRead, PageOf;
  }

  lemma FormsAreThere(code: HttpCode)
    requires IsError(code)
    ensures PageOf(code).form != ""
  {
  }

  /** Reads what comes, burst by burst, and prints the response when there is an answer; `size` is that of the
      file. A connection whose buffer fills, or whose response is refused, is closed. */
  method Respond(bursts: seq<string>, file: FileStatus, size: nat) returns (response: string, second: nat, closed: bool)
    ensures |Concat(bursts)| < READ_BUFFER_SIZE ==>
              var (code, d) := Answered(RunCalls("", FRESH, bursts), file);
              if IsError(code) then !closed && ErrorRead(response, StatusOf(code), d.linger)
              else if !code.FileRequest? then !closed && response == ""
              else if size == 0 then closed
              else !closed && second == size && IsRead(response, StatusOf(code), ToInt(size), d.linger, "")
  {
    hide *;
    var conn := new HttpConn();
    var code, n;
    code, n, closed := conn.Serve(bursts, file);
    response, second := "", 0;
    if closed {
      FrontIsShorter(bursts, n);
      return;
    }
    conn.StateIs();
    ErrorsAre();
    if code != NoRequest && code != GetRequest {
      var writer := new ResponseWriter(conn.linger);
      var ok := writer.ProcessWrite(code, size);
      writer.Bounds();
      closed := !ok;
      response := writer.writeBuf[..writer.writeIdx];
      second := size;
      if IsError(code) { FormIsRead(response, code, conn.linger); }
    }
  }

  lemma FrontIsShorter(bursts: seq<string>, n: nat)
    requires n < |bursts| && |Concat(bursts[..n + 1])| >= READ_BUFFER_SIZE
    ensures |Concat(bursts)| >= READ_BUFFER_SIZE
  {
    hide Concat;
    ConcatSplits(bursts, n + 1);
  }

  lemma ExpectedStatus(file: FileStatus)
    ensures var code := DoRequest(file);
            && (IsError(code) || code.FileRequest?) && StatusOf(code) == Expected(file)
            && (code.FileRequest? <==> file == File(true, false))
            && (code.FileRequest? ==> StatusOf(code) == "HTTP/1.1 200 OK")
  {
  }

  /** A request without a body, in any bursts: when its whole head has come, the client reads what the file calls for,
      with the number of bytes that follow if that fits an int, and that the connection stays if it has asked
      for it; before that it reads nothing. */
  method Ask(ghost h: Head, ghost path: string, bursts: seq<string>, file: FileStatus, size: nat)
      returns (response: string, second: nat, closed: bool)
    requires Proper(h, path) && BodyLength(h) == 0 && InStep(Concat(bursts), 0, Text(h)) && |Concat(bursts)| < READ_BUFFER_SIZE
    ensures |Concat(bursts)| < |Text(h)| ==> !closed && response == ""
    ensures |Text(h)| <= |Concat(bursts)| && file != File(true, false) ==>
              !closed && ErrorRead(response, Expected(file), KeepsAlive(h.fields))
    ensures |Text(h)| <= |Concat(bursts)| && file == File(true, false) ==>
              if size == 0 then closed
              else !closed && second == size && IsRead(response, "HTTP/1.1 200 OK", ToInt(size), KeepsAlive(h.fields), "")
  {
    hide *;
    HeadAnswer(h, path, bursts, file);
    ExpectedStatus(file);
    ErrorsAre();
    response, second, closed := Respond(bursts, file, size);
  }

  lemma HeadAnswer(h: Head, path: string, bursts: seq<string>, file: FileStatus)
    requires Proper(h, path) && BodyLength(h) == 0 && InStep(Concat(bursts), 0, Text(h))
    ensures var (code, d) := Answered(RunCalls("", FRESH, bursts), file);
            if |Text(h)| <= |Concat(bursts)| then code == DoRequest(file) && (d.linger <==> KeepsAlive(h.fields))
            else code == NoRequest
  {
    BodilessVerdict(h, path, bursts);
    hide RunCalls, Proper, Text, BodyLength, InStep, KeepsAlive, HostOf, DoRequest, Concat;
  }

  /** A stream whose first line is complete and no request line. */
  method AskBadly(ghost lines: seq<string>, ghost rest: string, bursts: seq<string>, file: FileStatus, size: nat)
      returns (response: string, closed: bool)
    requires Splits(Concat(bursts), lines, rest) && lines != [] && !GetLine(lines[0]) && |Concat(bursts)| < READ_BUFFER_SIZE
    ensures !closed && ErrorRead(response, "HTTP/1.1 400 Bad Request", Answered(RunCalls("", FRESH, bursts), file).1.linger)
  {
    hide *;
    BadAnswer(bursts, lines, rest, file);
    BadIsError();
    var second;
    response, second, closed := Respond(bursts, file, size);
  }

  lemma BadAnswer(bursts: seq<string>, lines: seq<string>, rest: string, file: FileStatus)
    requires Splits(Concat(bursts), lines, rest) && lines != [] && !GetLine(lines[0])
    ensures Answered(RunCalls("", FRESH, bursts), file).0 == BadRequest
  {
    AnswersExactly(bursts, lines, rest);
    hide RunCalls, Splits, GetLine, MeaningOf;
  }

  lemma BadIsError()
    ensures IsError(BadRequest) && StatusOf(BadRequest) == "HTTP/1.1 400 Bad Request"
  {
  }
}
