/** Any byte stream as the complete lines at its front and what is left behind them. */
module LineStreams {
  import opened CStrings
  import opened LineScanner
  import opened Sequences

  /** No line has ended: there is no CR and no LF, except perhaps a CR at the very end. */
  ghost predicate Unended(rest: string) {
    forall i :: 0 <= i < |rest| ==> rest[i] != '\n' && (rest[i] == '\r' ==> i == |rest| - 1)
  }

  /** The first CR or LF belongs to no pair of CR and LF, and is no CR at the very end. */
  ghost predicate BrokenAt(rest: string, k: nat) {
    && k < |rest| && Plain(rest[..k])
    && (rest[k] == '\n' || (rest[k] == '\r' && k + 1 < |rest| && rest[k + 1] != '\n'))
  }

  ghost predicate Broken(rest: string) {
    exists k: nat :: BrokenAt(rest, k)
  }

  ghost predicate AllPlain(lines: seq<string>) {
    forall i :: 0 <= i < |lines| ==> Plain(lines[i])
  }

  /** The stream is these lines, each ended by CR LF, and a rest in which no further line ends. */
  ghost predicate Splits(b: string, lines: seq<string>, rest: string) {
    AllPlain(lines) && b == Encode(lines) + rest && (Unended(rest) || Broken(rest))
  }

  /** The stream from `k` on. */
  ghost predicate SplitsFrom(b: string, k: nat, lines: seq<string>, rest: string) {
    k <= |b| && Splits(b[k..], lines, rest)
  }

  lemma NotBoth(rest: string)
    ensures !(Unended(rest) && Broken(rest))
  {
    if k: nat :| BrokenAt(rest, k) {
      assert rest[k] == '\n' || rest[k] == '\r';
    }
  }

  lemma PlainBefore(b: string, i: nat)
    requires i <= |b|
    ensures Plain(b[i..Break(b, i)])
  {
    var line := b[i..Break(b, i)];
    forall j | 0 <= j < |line| ensures line[j] != '\r' && line[j] != '\n' {
      assert line[j] == b[i + j];
    }
  }

  /** Either a first line ends, or none does. */
  lemma FirstLineEnds(b: string) returns (ends: bool, front: string, back: string)
    ensures if ends then Plain(front) && b == (front + CRLF) + back && |back| < |b| else Unended(b) || Broken(b)
  {
    var k := Break(b, 0);
    PlainBefore(b, 0);
    assert b[0..k] == b[..k];
    front, back := b[..k], "";
    ends := k + 1 < |b| && b[k] == '\r' && b[k + 1] == '\n';
    if ends {
      back := b[k + 2..];
      assert b == (front + CRLF) + back;
    } else if k < |b| && !(b[k] == '\r' && k + 1 == |b|) {
      assert BrokenAt(b, k);
    }
  }

  lemma NothingSplit(b: string)
    requires Unended(b) || Broken(b)
    ensures Splits(b, [], b)
  {
    assert "" + b == b;
  }

  lemma OneMoreSplit(front: string, back: string, lines: seq<string>, rest: string)
    requires Plain(front) && Splits(back, lines, rest)
    ensures Splits((front + CRLF) + back, [front] + lines, rest)
  {
    EncodeCons(front, lines);
    JoinAssociates(front + CRLF, Encode(lines), rest);
    hide Plain, Encode, Unended, Broken;
  }

  /** Every stream is of this kind. */
  lemma {:induction false} EveryStreamSplits(b: string) returns (lines: seq<string>, rest: string)
    ensures Splits(b, lines, rest)
    decreases |b|
  {
    hide *;
    var ends, front, back := FirstLineEnds(b);
    if ends {
      lines, rest := EveryStreamSplits(back);
      OneMoreSplit(front, back, lines, rest);
      lines := [front] + lines;
    } else {
      NothingSplit(b);
      lines, rest := [], b;
    }
  }

  lemma SplitsUncons(b: string, lines: seq<string>, rest: string)
    requires Splits(b, lines, rest) && lines != []
    ensures Plain(lines[0]) && b == (lines[0] + CRLF) + (Encode(lines[1..]) + rest)
    ensures Splits(Encode(lines[1..]) + rest, lines[1..], rest)
  {
    assert lines == [lines[0]] + lines[1..];
    EncodeCons(lines[0], lines[1..]);
    JoinAssociates(lines[0] + CRLF, Encode(lines[1..]), rest);
    hide Plain, Encode, Unended, Broken;
  }

  lemma RestFrom(s: string, n: nat, b: string, k: nat)
    requires k <= |b| && s == b[k..] && n <= |s|
    ensures k + n <= |b| && b[k + n..] == s[n..]
  {
  }

  lemma LineBehind(line: string, tail: string)
    ensures |line| + 2 <= |(line + CRLF) + tail| && ((line + CRLF) + tail)[|line| + 2..] == tail
  {
    assert |CRLF| == 2;
  }

  lemma LineStands(b: string, k: nat, s: string)
    requires k <= |b| && b[k..] == s
    ensures StandsAt(b, k, s)
  {
  }

  /** The first of the lines stands there, and the others split what is behind it. */
  lemma SplitsFromUncons(b: string, k: nat, lines: seq<string>, rest: string)
    requires SplitsFrom(b, k, lines, rest) && lines != []
    ensures Plain(lines[0]) && StandsAt(b, k, (lines[0] + CRLF) + (Encode(lines[1..]) + rest))
    ensures SplitsFrom(b, k + |lines[0]| + 2, lines[1..], rest)
  {
    var line, tail := lines[0], Encode(lines[1..]) + rest;
    hide Splits, Encode, Plain, StandsAt, CRLF;
    SplitsUncons(b[k..], lines, rest);
    LineStands(b, k, (line + CRLF) + tail);
    LineBehind(line, tail);
    RestFrom((line + CRLF) + tail, |line| + 2, b, k);
  }

  lemma AllSplit(b: string, lines: seq<string>, rest: string)
    requires Splits(b, lines, rest)
    ensures SplitsFrom(b, 0, lines, rest)
  {
    assert b[0..] == b;
  }

  lemma NoLinesFrom(b: string, k: nat, rest: string)
    requires SplitsFrom(b, k, [], rest)
    ensures k <= |b| && b[k..] == rest && (Unended(rest) || Broken(rest))
  {
    assert "" + rest == rest;
  }

  /** Behind the last complete line the scan finds what the rest is. */
  lemma ScanOfRest(b: string, k: nat)
    requires NotPastCr(b, k) && (Unended(b[k..]) || Broken(b[k..]))
    ensures ScanLine(b, k).0 == if Broken(b[k..]) then LineBad else LineOpen
  {
    var rest := b[k..];
    NotBoth(rest);
    ScanFindsBreak(b, k);
    var i := Break(b, k);
    if n: nat :| BrokenAt(rest, n) {
      assert forall j :: 0 <= j < n ==> rest[..n][j] == b[k + j] && rest[..n][j] in rest[..n];
      assert rest[n] == b[k + n];
      assert n + 1 < |rest| ==> rest[n + 1] == b[k + n + 1];
      assert i == k + n;
    } else if i < |b| {
      assert rest[i - k] == b[i];
    }
  }

  /** One of the lines is empty as a C string. */
  ghost predicate Blank(lines: seq<string>) {
    exists i :: 0 <= i < |lines| && CStr(lines[i]) == ""
  }

  lemma BlankCons(lines: seq<string>)
    requires lines != []
    ensures Blank(lines) <==> CStr(lines[0]) == "" || Blank(lines[1..])
  {
    assert forall i :: 0 <= i < |lines| - 1 ==> lines[1..][i] == lines[i + 1];
    if Blank(lines) && CStr(lines[0]) != "" {
      var i :| 0 <= i < |lines| && CStr(lines[i]) == "";
      assert CStr(lines[1..][i - 1]) == "";
    }
  }
}
