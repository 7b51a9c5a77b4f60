/** The read buffer that both HTTP parsers split into lines while it is being filled. */
module LineBuffers {
  import opened CStrings
  import opened LineScanner

  /** The line that ends before `end`, as a C string. */
  function LineOf(b: string, start: nat, end: nat): string
    requires start + 2 <= end <= |b|
  {
    CStr(b[start..end - 2])
  }

  lemma LineOfPrefix(b: string, more: string, start: nat, end: nat)
    requires start + 2 <= end <= |b|
    ensures LineOf(b + more, start, end) == LineOf(b, start, end)
  {
    assert (b + more)[start..end - 2] == b[start..end - 2];
  }

  /** From the start of the current line on, the buffer holds the bytes `b` as received. */
  ghost predicate Holding(buf: string, b: string, start: nat, checked: nat) {
    && start <= checked && NotPastCr(b, checked)
    && |b| <= |buf| && NotPastCr(buf[..|b|], checked) && buf[start..|b|] == b[start..]
  }

  lemma HoldingIsSound(buf: string, b: string, start: nat, checked: nat)
    requires Holding(buf, b, start, checked)
    ensures start <= checked && NotPastCr(b, checked) && |b| <= |buf|
  {
  }

  /** The current line may be given up to where the scan is. */
  lemma HoldingLater(buf: string, b: string, start: nat, checked: nat)
    requires Holding(buf, b, start, checked)
    ensures Holding(buf, b, checked, checked)
  {
    assert buf[checked..|b|] == buf[start..|b|][checked - start..] == b[start..][checked - start..] == b[checked..];
  }

  lemma ReceivedMore(was: string, b: string, more: string, start: nat, checked: nat)
    requires Holding(was, b, start, checked) && |b| + |more| <= |was|
    ensures Holding(was[..|b|] + more + was[|b| + |more|..], b + more, start, checked)
  {
    var now := was[..|b|] + more + was[|b| + |more|..];
    assert now[start..|b| + |more|] == was[start..|b|] + more;
    assert (b + more)[start..] == b[start..] + more;
    if checked > 0 {
      assert now[checked - 1] == was[..|b|][checked - 1] && (b + more)[checked - 1] == b[checked - 1];
    }
  }

  /** Scanning the buffer is scanning the stream. */
  lemma ScanInBuffer(buf: string, b: string, start: nat, checked: nat)
    requires Holding(buf, b, start, checked)
    ensures ScanLine(buf[..|b|], checked) == ScanLine(b, checked)
    ensures Holding(buf, b, start, ScanLine(b, checked).1)
  {
    var c, i := buf[..|b|], checked;
    assert c[i..] == buf[start..|b|][i - start..] == b[start..][i - start..] == b[i..];
    ScanIgnoresPast(c, b, i);
    ScanLeavesOff(c, i);
    ScanLeavesOff(b, i);
  }

  /** The scan ended the current line in the buffer: it is there as a C string, and what follows
      is as received. */
  lemma LineInBuffer(was: string, b: string, start: nat, checked: nat, end: nat)
    requires Holding(was, b, start, checked) && start + 2 <= end <= |b|
    ensures var now := was[end - 2 := '\0'][end - 1 := '\0'];
            && StrAt(now, start, LineOf(b, start, end))
            && (NotPastCr(b, end) ==> Holding(now, b, end, end))
  {
    var now := was[end - 2 := '\0'][end - 1 := '\0'];
    var line := b[start..end - 2];
    assert was[start..|b|][..end - 2 - start] == line;
    assert now[start..end - 2] == line;
    assert now[end..|b|] == was[start..|b|][end - start..] == b[end..];
    CStrIsStrAt(now, start) by { assert now[start..][end - 2 - start] == '\0'; }
    CStrOfFront(now[start..], line);
  }

  lemma {:induction false} CStrOfFront(s: string, front: string)
    requires |front| < |s| && s[..|front|] == front && s[|front|] == '\0'
    ensures CStr(s) == CStr(front)
  {
    if front != "" {
      assert s[0] == front[0] && s[1..][..|front| - 1] == front[1..];
      CStrOfFront(s[1..], front[1..]);
    }
  }

  /** Writes behind the current line do not disturb it. */
  lemma HoldingAbove(was: string, now: string, b: string, start: nat, checked: nat)
    requires Holding(was, b, start, checked) && |now| == |was|
    requires forall i :: start <= i + 1 && 0 <= i < |was| ==> now[i] == was[i]
    ensures Holding(now, b, start, checked)
  {
    assert now[start..|b|] == was[start..|b|];
  }

  /** Scans on from `checkedIndex`. A complete line is left as a C string at `startLine`. */
  method TakeLine(buffer: array<char>, checkedIndex: nat, readIndex: nat, ghost startLine: nat, ghost received: string)
      returns (status: LineStatus, checked: nat, ghost line: string, ghost rounds: nat)
    requires readIndex == |received| && Holding(buffer[..], received, startLine, checkedIndex)
    modifies buffer
    ensures (status, checked) == ScanLine(received, checkedIndex)
    ensures rounds <= checked - checkedIndex + 1 && NotPastCr(received, checked)
    ensures !status.LineOk? ==> buffer[..] == old(buffer[..]) && Holding(buffer[..], received, startLine, checked)
    ensures status.LineOk? ==>
              && startLine + 2 <= checked && line == LineOf(received, startLine, checked)
              && StrAt(buffer[..], startLine, line) && startLine + |line| < checked
              && Holding(buffer[..], received, checked, checked)
              && buffer[..] == old(buffer[..])[checked - 2 := '\0'][checked - 1 := '\0']
  {
    line := "";
    ghost var was := buffer[..];
    assert buffer[..readIndex] == buffer[..][..|received|];
    ScanInBuffer(buffer[..], received, startLine, checkedIndex);
    ScanLeavesOff(received, checkedIndex);
    hide ScanLine;
    status, checked, rounds := ParseLine(buffer, checkedIndex, readIndex);
    if status.LineOk? {
      LineInBuffer(was, received, startLine, checkedIndex, checked);
      line := LineOf(received, startLine, checked);
    }
  }

  method CopyIn(buffer: array<char>, at: nat, data: string)
    requires at + |data| <= buffer.Length
    modifies buffer
    ensures buffer[..] == old(buffer[..at]) + data + old(buffer[at + |data|..])
  {
    for i := 0 to |data|
      invariant buffer[..] == old(buffer[..at]) + data[..i] + old(buffer[at + i..])
    {
      buffer[at + i] := data[i];
    }
  }
}
