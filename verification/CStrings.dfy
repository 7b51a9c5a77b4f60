/** The C string functions the parsers call, on the text before the terminating NUL. */
module CStrings {

  /** The C string at the front of `s`: everything before the first NUL. */
  function CStr(s: string): (r: string)
    ensures |r| <= |s| && r == s[..|r|] && '\0' !in r
    ensures |r| < |s| ==> s[|r|] == '\0'
  {
    if s == "" || s[0] == '\0' then "" else [s[0]] + CStr(s[1..])
  }

  /** Index of the first character out of `delims`, or the length: strpbrk and strchr. */
  function Find(s: string, delims: set<char>): (k: nat)
    ensures k <= |s| && (k < |s| ==> s[k] in delims)
    ensures forall i :: 0 <= i < k ==> s[i] !in delims
  {
    if s == "" || s[0] in delims then 0 else 1 + Find(s[1..], delims)
  }

  /** Length of the run of `c` at the front: strspn with one character. */
  function Span(s: string, c: char): (k: nat)
    ensures k <= |s| && (k < |s| ==> s[k] != c)
    ensures forall i :: 0 <= i < k ==> s[i] == c
  {
    if s == "" || s[0] != c then 0 else 1 + Span(s[1..], c)
  }

  function Lower(c: char): char {
    if 'A' <= c <= 'Z' then c - 'A' + 'a' else c
  }

  /** strcasecmp says equal. */
  predicate EqualNoCase(a: string, b: string) {
    |a| == |b| && forall i :: 0 <= i < |a| ==> Lower(a[i]) == Lower(b[i])
  }

  /** The same letter, large or small, or the same character. */
  predicate SameLetter(c: char, d: char) {
    c == d || ('A' <= c <= 'Z' && d as int == c as int + 32) || ('A' <= d <= 'Z' && c as int == d as int + 32)
  }

  lemma EqualUpToCase(a: string, b: string)
    ensures EqualNoCase(a, b) <==> |a| == |b| && forall i :: 0 <= i < |a| ==> SameLetter(a[i], b[i])
  {
    assert |a| == |b| ==> forall i :: 0 <= i < |a| ==> (Lower(a[i]) == Lower(b[i]) <==> SameLetter(a[i], b[i]));
  }

  /** strncasecmp with the length of `p` says equal. */
  predicate PrefixNoCase(s: string, p: string) {
    |p| <= |s| && EqualNoCase(s[..|p|], p)
  }

  lemma {:induction false} CStrIs(s: string, n: nat)
    requires n <= |s| && '\0' !in s[..n] && (n < |s| ==> s[n] == '\0')
    ensures CStr(s) == s[..n]
  {
    if n > 0 {
      assert s[0] == s[..n][0] && s[1..][..n - 1] == s[..n][1..];
      CStrIs(s[1..], n - 1);
    }
  }

  lemma FindIs(s: string, delims: set<char>, k: nat)
    requires k <= |s| && (k < |s| ==> s[k] in delims)
    requires forall i :: 0 <= i < k ==> s[i] !in delims
    ensures Find(s, delims) == k
  {
  }

  lemma SpanIs(s: string, c: char, k: nat)
    requires k <= |s| && (k < |s| ==> s[k] != c)
    requires forall i :: 0 <= i < k ==> s[i] == c
    ensures Span(s, c) == k
  {
  }

  /** The C string at position `p` of a buffer is `s`. */
  ghost predicate StrAt(buf: string, p: nat, s: string) {
    p + |s| < |buf| && buf[p..p + |s|] == s && buf[p + |s|] == '\0' && '\0' !in s
  }

  lemma StrAtIsCStr(buf: string, p: nat, s: string)
    requires StrAt(buf, p, s)
    ensures p <= |buf| && CStr(buf[p..]) == s
  {
    assert buf[p..][..|s|] == s;
    CStrIs(buf[p..], |s|);
  }

  lemma CStrIsStrAt(buf: string, p: nat)
    requires p <= |buf| && '\0' in buf[p..]
    ensures StrAt(buf, p, CStr(buf[p..]))
  {
    var s := CStr(buf[p..]);
    assert buf[p..][..|buf| - p] == buf[p..];
    assert buf[p..p + |s|] == buf[p..][..|s|];
  }

  lemma StrAtHead(buf: string, p: nat, s: string)
    requires StrAt(buf, p, s)
    ensures p < |buf| && buf[p] == if s == "" then '\0' else s[0]
  {
    if s != "" { assert buf[p] == buf[p..p + |s|][0]; }
  }

  lemma StrAtSuffix(buf: string, p: nat, s: string, k: nat)
    requires StrAt(buf, p, s) && k <= |s|
    ensures StrAt(buf, p + k, s[k..])
  {
    assert buf[p + k..p + |s|] == buf[p..p + |s|][k..];
  }

  /** A NUL written into a string makes two strings of it. */
  lemma StrAtCut(buf: string, p: nat, s: string, k: nat)
    requires StrAt(buf, p, s) && k < |s|
    ensures StrAt(buf[p + k := '\0'], p, s[..k]) && StrAt(buf[p + k := '\0'], p + k + 1, s[k + 1..])
  {
    var cut := buf[p + k := '\0'];
    assert cut[p..p + k] == buf[p..p + |s|][..k];
    assert cut[p + k + 1..p + |s|] == buf[p..p + |s|][k + 1..];
  }

  lemma StrAtKeeps(buf: string, changed: string, p: nat, s: string)
    requires StrAt(buf, p, s) && |changed| == |buf| && changed[p..p + |s| + 1] == buf[p..p + |s| + 1]
    ensures StrAt(changed, p, s)
  {
    assert changed[p..p + |s|] == changed[p..p + |s| + 1][..|s|];
    assert changed[p + |s|] == changed[p..p + |s| + 1][|s|];
    assert buf[p + |s|] == buf[p..p + |s| + 1][|s|];
    assert buf[p..p + |s|] == buf[p..p + |s| + 1][..|s|];
  }
}
