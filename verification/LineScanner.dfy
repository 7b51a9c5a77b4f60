/** The line-splitting machine shared by the two HTTP parsers. */
module LineScanner {

  import opened Sequences

  datatype LineStatus = LineOk | LineBad | LineOpen

  /** What one scan from `i` makes of the bytes received so far, and where it stops. */
  function ScanLine(b: string, i: nat): (r: (LineStatus, nat))
    requires i <= |b|
    ensures i <= r.1 <= |b|
    ensures r.0.LineOk? ==> i < r.1 && 2 <= r.1
    decreases |b| - i
  {
    if i == |b| then (LineOpen, i)
    else if b[i] == '\r' then
      if i + 1 == |b| then (LineOpen, i)
      else if b[i + 1] == '\n' then (LineOk, i + 2)
      else (LineBad, i)
    else if b[i] == '\n' then
      if i > 1 && b[i - 1] == '\r' then (LineOk, i + 1) else (LineBad, i)
    else ScanLine(b, i + 1)
  }

  /** The scan has not gone past a CR. */
  ghost predicate NotPastCr(b: string, i: nat) {
    i <= |b| && (i > 0 ==> b[i - 1] != '\r')
  }

  /** First CR or LF from `i` on. */
  function Break(b: string, i: nat): (k: nat)
    requires i <= |b|
    ensures i <= k <= |b| && (k < |b| ==> b[k] == '\r' || b[k] == '\n')
    ensures forall j :: i <= j < k ==> b[j] != '\r' && b[j] != '\n'
    decreases |b| - i
  {
    if i == |b| || b[i] == '\r' || b[i] == '\n' then i else Break(b, i + 1)
  }

  /** What a scan finds, told from the first CR or LF alone: a line ends at CR LF and nowhere else.
      In particular the scan never takes the branch for an LF whose CR was passed before. */
  lemma {:induction false} ScanFindsBreak(b: string, i: nat)
    requires NotPastCr(b, i)
    ensures var k := Break(b, i);
            ScanLine(b, i) ==
              if k == |b| then (LineOpen, k)
              else if b[k] == '\n' then (LineBad, k)
              else if k + 1 == |b| then (LineOpen, k)
              else if b[k + 1] == '\n' then (LineOk, k + 2)
              else (LineBad, k)
    decreases |b| - i
  {
    if i < |b| && b[i] != '\r' && b[i] != '\n' {
      ScanFindsBreak(b, i + 1);
    }
  }

  /** Where the scan stops it may be resumed, and a complete line has its CR LF behind the start. */
  lemma ScanLeavesOff(b: string, i: nat)
    requires NotPastCr(b, i)
    ensures var (s, end) := ScanLine(b, i); NotPastCr(b, end) && (s.LineOk? ==> i + 2 <= end)
  {
    ScanFindsBreak(b, i);
  }

  /** The scan sees only the bytes from where it starts: the buffer, with its NULs behind, gives
      what the stream gives. */
  lemma {:induction false} ScanIgnoresPast(b: string, c: string, i: nat)
    requires |b| == |c| && NotPastCr(b, i) && NotPastCr(c, i) && b[i..] == c[i..]
    ensures ScanLine(b, i) == ScanLine(c, i)
    decreases |b| - i
  {
    if i < |b| {
      assert b[i] == b[i..][0] == c[i..][0] == c[i];
      if i + 1 < |b| { assert b[i + 1] == b[i..][1] == c[i..][1] == c[i + 1]; }
      assert b[i + 1..] == b[i..][1..] == c[i..][1..] == c[i + 1..];
      if b[i] != '\r' {
        if b[i] != '\n' {
          ScanIgnoresPast(b, c, i + 1);
        }
      }
    }
  }

  /** More bytes do not change a verdict, and an open line is resumed where the scan stopped. */
  lemma {:induction false} ScanResumes(b: string, more: string, i: nat)
    requires NotPastCr(b, i)
    ensures var (s, k) := ScanLine(b, i);
            if s.LineOpen? then ScanLine(b + more, i) == ScanLine(b + more, k)
            else ScanLine(b + more, i) == (s, k)
    decreases |b| - i
  {
    if i < |b| {
      assert (b + more)[i] == b[i];
      if i + 1 < |b| { assert (b + more)[i + 1] == b[i + 1]; }
      if i > 0 { assert (b + more)[i - 1] == b[i - 1]; }
      if b[i] != '\r' && b[i] != '\n' {
        ScanResumes(b, more, i + 1);
      }
    }
  }

  // ---------- Lines as they are sent ----------

  const CRLF := "\r\n"

  ghost predicate Plain(line: string) {
    '\r' !in line && '\n' !in line
  }

  /** Lines as they are sent, each ended by CR LF. */
  function Encode(lines: seq<string>): string {
    if lines == [] then "" else lines[0] + CRLF + Encode(lines[1..])
  }

  /** `s` stands in `b` from `k` on. */
  ghost predicate StandsAt(b: string, k: nat, s: string) {
    k <= |b| && s <= b[k..]
  }

  lemma EncodeNothing()
    ensures Encode([]) == ""
  {
  }

  lemma EncodeCons(first: string, lines: seq<string>)
    ensures Encode([first] + lines) == (first + CRLF) + Encode(lines)
  {
    assert ([first] + lines)[1..] == lines;
  }

  lemma ScanPlainLine(b: string, i: nat, line: string)
    requires NotPastCr(b, i) && Plain(line) && line + CRLF <= b[i..]
    ensures ScanLine(b, i) == (LineOk, i + |line| + 2) && b[i..i + |line|] == line
  {
    var l := line + CRLF;
    assert forall k :: 0 <= k < |l| ==> b[i + k] == b[i..][k] == l[k];
    ScanFindsBreak(b, i);
    var k := Break(b, i);
    assert b[i + |line|] == '\r' && b[i + |line| + 1] == '\n';
    assert forall j :: 0 <= j < |line| ==> b[i + j] == line[j] && line[j] in line;
    assert k == i + |line|;
  }

  /** A line that stands where the scan is is the next line, and what follows it stands behind. */
  lemma TakeStandingLine(b: string, k: nat, line: string, tail: string)
    requires NotPastCr(b, k) && Plain(line) && StandsAt(b, k, (line + CRLF) + tail)
    ensures var end := k + |line| + 2;
            && ScanLine(b, k) == (LineOk, end) && b[k..end - 2] == line
            && NotPastCr(b, end) && StandsAt(b, end, tail)
  {
    hide ScanLine, Plain;
    PrefixSplits(line + CRLF, tail, b[k..]);
    ScanPlainLine(b, k, line);
    ScanLeavesOff(b, k);
    assert b[k..][|line| + 2..] == b[k + |line| + 2..];
  }

  lemma ScannedLineIsPlain(b: string, i: nat)
    requires NotPastCr(b, i) && ScanLine(b, i).0.LineOk?
    ensures var end := ScanLine(b, i).1;
            i + 2 <= end && Plain(b[i..end - 2]) && b[i..] == b[i..end - 2] + CRLF + b[end..]
  {
    ScanFindsBreak(b, i);
    var end := ScanLine(b, i).1;
    assert b[i..] == b[i..end - 2] + [b[end - 2], b[end - 1]] + b[end..];
  }

  // ---------- In place ----------

  /** Scans the buffer in place and terminates a complete line with NULs. The loop body is entered
      at most once more than the scan advances. */
  method ParseLine(buffer: array<char>, checkedIndex: nat, readIndex: nat)
      returns (status: LineStatus, checked: nat, ghost rounds: nat)
    requires checkedIndex <= readIndex <= buffer.Length
    modifies buffer
    ensures (status, checked) == ScanLine(old(buffer[..readIndex]), checkedIndex)
    ensures buffer[..] == if status.LineOk? then old(buffer[..])[checked - 2 := '\0'][checked - 1 := '\0'] else old(buffer[..])
    ensures rounds <= checked - checkedIndex + 1
  {
    ghost var b := buffer[..readIndex];
    checked, rounds := checkedIndex, 0;
    while checked < readIndex
      invariant checkedIndex <= checked <= readIndex && rounds == checked - checkedIndex
      invariant buffer[..] == old(buffer[..])
      invariant ScanLine(b, checkedIndex) == ScanLine(b, checked)
    {
      rounds := rounds + 1;
      var temp := buffer[checked];
      if temp == '\r' {
        if checked + 1 == readIndex {
          return LineOpen, checked, rounds;
        } else if buffer[checked + 1] == '\n' {
          buffer[checked] := '\0';
          checked := checked + 1;
          buffer[checked] := '\0';
          checked := checked + 1;
          return LineOk, checked, rounds;
        }
        return LineBad, checked, rounds;
      } else if temp == '\n' {
        if checked > 1 && buffer[checked - 1] == '\r' {
          buffer[checked - 1] := '\0';
          buffer[checked] := '\0';
          checked := checked + 1;
          return LineOk, checked, rounds;
        }
        return LineBad, checked, rounds;
      }
      checked := checked + 1;
    }
    return LineOpen, checked, rounds;
  }
}
