/** The CGI server's connection: it accumulates bytes until the first CR LF and takes what is before
    that for the name of the program to run. */
module CgiScans {

  import opened CStrings
  import opened Sequences
  import opened Sockets
  import opened Wrappers

  const BUFFER_SIZE := 1024
  const ROOM := BUFFER_SIZE - 1

  /** Waiting for more bytes, closed without a name, or a name to run. */
  datatype Outcome = Waiting | Dropped | Named(file: string)

  // ---------- Specification on the whole stream ----------

  ghost predicate CrLfEndsAt(s: string, k: nat) {
    1 <= k < |s| && s[k - 1] == '\r' && s[k] == '\n'
  }

  /** Where the first CR LF that ends at `i` or later ends, or the length. */
  function LineEnd(s: string, i: nat): (k: nat)
    requires i <= |s|
    ensures i <= k <= |s| && (k < |s| ==> CrLfEndsAt(s, k))
    ensures forall j :: i <= j < k ==> !CrLfEndsAt(s, j)
    decreases |s| - i
  {
    if i == |s| || (1 <= i && s[i - 1] == '\r' && s[i] == '\n') then i else LineEnd(s, i + 1)
  }

  /** The bytes that can get into the buffer. */
  function Fitting(stream: string): string {
    if |stream| <= ROOM then stream else stream[..ROOM]
  }

  /** What becomes of a connection that has sent `stream` when recv then says `quiet`. */
  function Verdict(stream: string, quiet: Quiet): Outcome {
    var s := Fitting(stream);
    var k := LineEnd(s, 0);
    if k < |s| then Named(CStr(s[..k - 1]))
    else if |s| == ROOM || quiet != Again then Dropped
    else Waiting
  }

  lemma LineEndIs(s: string, k: nat)
    requires CrLfEndsAt(s, k) && forall j :: 0 <= j < k ==> !CrLfEndsAt(s, j)
    ensures LineEnd(s, 0) == k
  {
  }

  /** The first CR LF found in some of the bytes is the first of all of them. */
  lemma FoundEarly(s: string, t: string)
    requires s <= t && LineEnd(s, 0) < |s|
    ensures LineEnd(t, 0) == LineEnd(s, 0)
  {
    var k := LineEnd(s, 0);
    assert forall j :: 0 <= j <= k ==> (CrLfEndsAt(t, j) <==> CrLfEndsAt(s, j));
    LineEndIs(t, k);
  }

  lemma FittingOfPrefix(s: string, t: string)
    requires s <= t
    ensures Fitting(s) <= Fitting(t)
  {
  }

  /** Once a prefix of the stream has settled the outcome, the rest makes no difference. */
  lemma SettledEarly(s: string, t: string, q: Quiet)
    requires s <= t && Verdict(s, Again) != Waiting
    ensures Verdict(t, q) == Verdict(s, Again)
  {
    var a, b := Fitting(s), Fitting(t);
    FittingOfPrefix(s, t);
    if LineEnd(a, 0) < |a| {
      FoundEarly(a, b);
      assert a[..LineEnd(a, 0) - 1] == b[..LineEnd(b, 0) - 1];
    } else {
      assert a == b;
    }
  }

  /** The stream starts with `line` and a CR LF, and no CR LF ends before that. */
  ghost predicate StartsWithLine(stream: string, line: string) {
    && |line| + 2 <= |stream| && stream[..|line|] == line && CrLfEndsAt(stream, |line| + 1)
    && forall j :: 0 <= j <= |line| ==> !CrLfEndsAt(stream, j)
  }

  lemma LineOfPrefix(s: string, t: string, line: string)
    requires s <= t && |line| + 2 <= |s|
    ensures StartsWithLine(s, line) <==> StartsWithLine(t, line)
  {
    assert s[..|line|] == t[..|line|];
    assert forall j :: 0 <= j < |s| ==> (CrLfEndsAt(t, j) <==> CrLfEndsAt(s, j));
  }

  /** A line that ends within the buffer is run: it is the text before the first CR LF, up to a NUL. */
  lemma {:induction false} LineIsNamed(stream: string, line: string, q: Quiet)
    requires StartsWithLine(stream, line) && |line| + 2 <= ROOM
    ensures Verdict(stream, q) == Named(CStr(line))
  {
    var s := Fitting(stream);
    LineOfPrefix(s, stream, line);
    LineEndIs(s, |line| + 1);
  }

  /** Nothing else is run. */
  lemma NamedHasLine(stream: string, q: Quiet)
    requires Verdict(stream, q).Named?
    ensures exists line :: StartsWithLine(stream, line) && |line| + 2 <= ROOM && Verdict(stream, q).file == CStr(line)
  {
    var s := Fitting(stream);
    var line := s[..LineEnd(s, 0) - 1];
    LineOfPrefix(s, stream, line);
    assert StartsWithLine(stream, line);
  }

  /** A line that fits the buffer has come. */
  ghost predicate HasLine(stream: string) {
    exists line :: StartsWithLine(stream, line) && |line| + 2 <= ROOM
  }

  /** A connection gets its program run exactly when a line that fits has come. Without one it is dropped exactly when
      the buffer has filled or the connection has ended or failed; else it waits. */
  lemma {:induction false} OutcomeExactly(stream: string, q: Quiet)
    ensures Verdict(stream, q).Named? <==> HasLine(stream)
    ensures Verdict(stream, q).Dropped? <==> !HasLine(stream) && (|stream| >= 1023 || q != Again)
    ensures Verdict(stream, q).Waiting? <==> !HasLine(stream) && |stream| < 1023 && q == Again
  {
    if Verdict(stream, q).Named? { NamedHasLine(stream, q); }
    if line :| StartsWithLine(stream, line) && |line| + 2 <= ROOM {
      LineIsNamed(stream, line, q);
    }
    hide StartsWithLine, LineEnd, CStr;
  }

  /** No CR LF ends before the place where a scan left off, so that the next one may start there. */
  lemma ScanResumes(s: string, t: string)
    requires s <= t && LineEnd(s, 0) == |s|
    ensures LineEnd(t, |s|) == LineEnd(t, 0)
  {
    var k := LineEnd(t, |s|);
    assert forall j :: 0 <= j < |s| ==> (CrLfEndsAt(t, j) <==> CrLfEndsAt(s, j));
    if k < |t| { LineEndIs(t, k); }
  }

  lemma NamedEarly(s: string, stream: string, q: Quiet)
    requires s <= stream && |s| <= ROOM && LineEnd(s, 0) < |s|
    ensures Verdict(stream, q) == Named(CStr(s[..LineEnd(s, 0) - 1]))
  {
    SettledEarly(s, stream, q);
  }

  lemma NothingYet()
    ensures LineEnd("", 0) == 0 && Verdict("", Again) == Waiting
  {
  }

  lemma ConcatStep(s: string, bursts: seq<string>, i: nat)
    requires i < |bursts|
    ensures s + Concat(bursts[i..]) == s + bursts[i] + Concat(bursts[i + 1..])
    ensures s + bursts[i] <= s + Concat(bursts[i..])
  {
    var rest := Concat(bursts[i + 1..]);
    assert bursts[i..][1..] == bursts[i + 1..];
    assert s + bursts[i] + rest == s + (bursts[i] + rest);
  }

  lemma ConcatAll(bursts: seq<string>)
    ensures "" + Concat(bursts[0..]) == Concat(bursts)
    ensures forall s: string :: s + Concat(bursts[|bursts|..]) == s
  {
    assert bursts[0..] == bursts;
    assert Concat(bursts[|bursts|..]) == "";
    assert forall s: string :: s + "" == s;
  }

  // ---------- The connection ----------

  class CgiConn {
    const buf: array<char>
    var readIdx: nat

    ghost predicate Valid()
      reads this, buf
    {
      buf.Length == BUFFER_SIZE && readIdx <= ROOM
    }

    ghost function Received(): string
      reads this, buf
      requires Valid()
    {
      buf[..readIdx]
    }

    constructor ()
      ensures Valid() && fresh(buf) && Received() == ""
    {
      buf := new char[BUFFER_SIZE](_ => '\0');
      readIdx := 0;
    }

    /** Puts some bytes at the end of what has been received. */
    method Store(bytes: string)
      requires Valid() && readIdx + |bytes| <= ROOM
      modifies this`readIdx, buf
      ensures Valid() && Received() == old(Received()) + bytes
    {
      for i := 0 to |bytes|
        invariant buf[..readIdx] == old(Received())
        invariant buf[readIdx..readIdx + i] == bytes[..i]
        modifies buf
      {
        buf[readIdx + i] := bytes[i];
      }
      readIdx := readIdx + |bytes|;
      assert buf[..readIdx] == buf[..old(readIdx)] + buf[old(readIdx)..readIdx];
    }

    /** Looks for a CR LF that ends at `from` or later. */
    method Scan(from: nat) returns (idx: nat)
      requires Valid() && from <= readIdx
      ensures idx == LineEnd(Received(), from)
    {
      idx := from;
      while idx < readIdx
        invariant from <= idx <= readIdx
        invariant LineEnd(Received(), idx) == LineEnd(Received(), from)
      {
        if idx >= 1 && buf[idx - 1] == '\r' && buf[idx] == '\n' {
          return;
        }
        idx := idx + 1;
      }
    }

    /** Ends the name where the CR is, and reads it as a C string. */
    method TakeName(idx: nat) returns (file: string)
      requires Valid() && 1 <= idx < readIdx
      modifies buf
      ensures file == CStr(old(Received())[..idx - 1])
    {
      buf[idx - 1] := '\0';
      var i := 0;
      while buf[i] != '\0'
        invariant 0 <= i <= idx - 1
        invariant '\0' !in buf[..i]
        decreases idx - i
      {
        i := i + 1;
      }
      file := buf[..i];
      ghost var text := old(Received())[..idx - 1];
      assert text == buf[..idx - 1];
      assert text[..i] == file;
      CStrIs(text, i);
    }

    /** The bytes received so far make no complete line. */
    ghost predicate Unfinished()
      reads this, buf
    {
      Valid() && LineEnd(Received(), 0) == readIdx
    }

    /** Takes what one call to recv delivered, and the name if it is complete now. */
    method Take(bytes: string) returns (name: Option<string>)
      requires Unfinished() && readIdx + |bytes| <= ROOM
      modifies this`readIdx, buf
      ensures Valid()
      ensures var s := old(Received()) + bytes;
              var k := LineEnd(s, 0);
              if k == |s| then name == None && Unfinished() && Received() == s
              else name == Some(CStr(s[..k - 1]))
    {
      ghost var before := Received();
      var idx := readIdx;
      Store(bytes);
      ScanResumes(before, Received());
      idx := Scan(idx);
      if idx == readIdx {
        return None;
      }
      var file := TakeName(idx);
      name := Some(file);
    }

    /** Reads all there is, in whatever pieces recv hands it over, until a name is complete. `incoming`
        are the bytes that arrive before recv says `quiet`. */
    method Process(incoming: string, quiet: Quiet) returns (outcome: Outcome)
      requires Unfinished()
      modifies this`readIdx, buf
      ensures Valid() && outcome == Verdict(old(Received()) + incoming, quiet)
      ensures outcome == Waiting ==> Unfinished() && Received() == old(Received()) + incoming
    {
      hide LineEnd, CStr;
      var rest := incoming;
      ghost var stream := Received() + incoming;
      while true
        invariant Unfinished() && Received() + rest == stream
        decreases |rest|
      {
        var room := ROOM - readIdx;
        if room == 0 {
          // recv has no room to read into and returns 0.
          assert Received() == Fitting(stream);
          return Dropped;
        }
        if rest == "" {
          assert stream == Received();
          return if quiet == Again then Waiting else Dropped;
        }
        var n: nat :| 1 <= n <= room && n <= |rest|;
        ghost var s := Received() + rest[..n];
        var name := Take(rest[..n]);
        rest := rest[n..];
        if name != None {
          NamedEarly(s, stream, quiet);
          return Named(name.value);
        }
        assert Received() + rest == stream;
      }
    }

    /** The connection's whole life, one call for each burst of bytes: the outcome depends on nothing
        but all the bytes together. */
    method Serve(bursts: seq<string>) returns (outcome: Outcome)
      requires Valid() && Received() == ""
      modifies this`readIdx, buf
      ensures Valid() && outcome == Verdict(Concat(bursts), Again)
      ensures outcome.Named? <==> HasLine(Concat(bursts))
      ensures outcome.Dropped? <==> !HasLine(Concat(bursts)) && |Concat(bursts)| >= 1023
    {
      hide LineEnd, CStr, Verdict, Concat, HasLine;
      OutcomeExactly(Concat(bursts), Again);
      NothingYet();
      ConcatAll(bursts);
      for i := 0 to |bursts|
        invariant Unfinished() && Verdict(Received(), Again) == Waiting
        invariant Received() + Concat(bursts[i..]) == Concat(bursts)
      {
        ghost var s := Received() + bursts[i];
        ConcatStep(Received(), bursts, i);
        outcome := Process(bursts[i], Again);
        if outcome != Waiting {
          SettledEarly(s, Concat(bursts), Again);
          return;
        }
      }
      outcome := Waiting;
    }
  }
}
