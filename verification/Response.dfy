/** The server's connection object: printing responses into the write buffer. */
module Responses {
  import opened CStrings
  import opened Decimals
  import HttpConns

  const WRITE_BUFFER_SIZE: nat := 1024

  // ---------- Specification on the text ----------

  predicate Fits(w: string, text: string) {
    |w| + |text| < WRITE_BUFFER_SIZE - 1
  }

  /** A text that does not fit is dropped whole. */
  function Append(w: string, text: string): string {
    if Fits(w, text) then w + text else w
  }

  function StatusLine(status: int, title: string): string {
    "HTTP/1.1 " + PrintInt(status) + " " + title + "\r\n"
  }

  function LengthLine(length: int): string {
    "Content-Length: " + PrintInt(length) + "\r\n"
  }

  function LingerLine(linger: bool): string {
    "Connection: " + (if linger then "keep-alive" else "close") + "\r\n"
  }

  function WithHeaders(w: string, length: int, linger: bool): string {
    Append(Append(Append(w, LengthLine(length)), LingerLine(linger)), "\r\n")
  }

  datatype ErrorPage = ErrorPage(status: int, title: string, form: string)

  predicate IsError(code: HttpConns.HttpCode) {
    code in {HttpConns.InternalError, HttpConns.BadRequest, HttpConns.NoResource, HttpConns.ForbiddenRequest}
  }

  const PAGE_500 := ErrorPage(500, "Internal Error", "There was an unusual problem serving the requested file.\n")
  const PAGE_400 := ErrorPage(400, "Bad Request", "Your Request has bad syntax or is inherently impossible to satisfy.\n")
  const PAGE_404 := ErrorPage(404, "Not Found", "The requested file was not found on this server.\n")
  const PAGE_403 := ErrorPage(403, "Forbidden", "You do not have permission to get file from this server.\n")

  function PageOf(code: HttpConns.HttpCode): ErrorPage
    requires IsError(code)
  {
    match code
    case InternalError => PAGE_500
    case BadRequest => PAGE_400
    case NoResource => PAGE_404
    case ForbiddenRequest => PAGE_403
  }

  const EMPTY_PAGE := "<html><body></body></html>"

  /** What is in the buffer after the headers of a response. */
  function HeadersAfter(w: string, status: int, title: string, length: int, linger: bool): string {
    WithHeaders(Append(w, StatusLine(status, title)), length, linger)
  }

  // ---------- What a client gets ----------

  /** Status line, length of the body, connection, blank line, body. */
  function WholeResponse(page: ErrorPage, linger: bool): string {
    StatusLine(page.status, page.title) + LengthLine(|page.form|) + LingerLine(linger) + "\r\n" + page.form
  }

  lemma PrintedLength(n: nat)
    requires n < 1000
    ensures |PrintInt(n)| <= 3
  {
    if n >= 10 {
      assert |PrintNat(n)| == |PrintNat(n / 10)| + 1;
      if n / 10 >= 10 {
        assert |PrintNat(n / 10)| == |PrintNat(n / 10 / 10)| + 1 == 2;
      }
    }
  }

  predicate Short(page: ErrorPage) {
    |page.title| < 20 && |page.form| < 100 && 0 <= page.status < 1000
  }

  lemma Page500IsShort()
    ensures Short(PAGE_500)
  {
  }

  lemma Page400IsShort()
    ensures Short(PAGE_400)
  {
  }

  lemma Page404IsShort()
    ensures Short(PAGE_404)
  {
  }

  lemma Page403IsShort()
    ensures Short(PAGE_403)
  {
  }

  lemma PageIsShort(code: HttpConns.HttpCode)
    requires IsError(code)
    ensures Short(PageOf(code))
  {
    hide PAGE_500, PAGE_400, PAGE_404, PAGE_403;
    match code
    case InternalError => Page500IsShort();
    case BadRequest => Page400IsShort();
    case NoResource => Page404IsShort();
    case ForbiddenRequest => Page403IsShort();
  }

  lemma PartsAreShort(page: ErrorPage, linger: bool)
    requires Short(page)
    ensures |StatusLine(page.status, page.title)| + |LengthLine(|page.form|)| + |LingerLine(linger)| + 2 + |page.form| < WRITE_BUFFER_SIZE - 1
  {
    PrintedLength(page.status);
    PrintedLength(|page.form|);
    hide PrintInt;
  }

  lemma FittingParts(a: string, b: string, c: string, length: int, linger: bool)
    requires b == LengthLine(length) && c == LingerLine(linger)
    requires |a| + |b| + |c| + 2 < WRITE_BUFFER_SIZE - 1
    ensures WithHeaders(Append("", a), length, linger) == a + b + c + "\r\n"
  {
    hide LengthLine, LingerLine;
    assert "" + a == a;
  }

  /** An error response printed into an empty buffer is complete, with the length of its body. */
  lemma ErrorResponseIsWhole(code: HttpConns.HttpCode, linger: bool)
    requires IsError(code)
    ensures var page := PageOf(code);
            var w := HeadersAfter("", page.status, page.title, |page.form|, linger);
            Fits(w, page.form) && w + page.form == WholeResponse(page, linger)
  {
    var page := PageOf(code);
    hide PageOf, Short;
    PageIsShort(code);
    PartsAreShort(page, linger);
    hide StatusLine, LengthLine, LingerLine;
    var a, b, c := StatusLine(page.status, page.title), LengthLine(|page.form|), LingerLine(linger);
    FittingParts(a, b, c, |page.form|, linger);
  }

  lemma PrintedField(value: string)
    ensures var line := "Content-Length: " + value;
            && line != "" && PrefixNoCase(line, "Content-Length:") && !PrefixNoCase(line, "Connection:")
            && |line| >= 15 && HttpConns.FieldValue(line, 15) == " " + value
  {
    var line := "Content-Length: " + value;
    assert line[..15] == "Content-Length:" && line[15..] == " " + value;
    assert line[..11][3] == 't' && "Connection:"[3] == 'n';
  }

  /** The printed length is read back by the parser of header lines. */
  lemma PrintedLengthIsParsed(n: int, c: HttpConns.Conn)
    requires INT_MIN <= n <= INT_MAX
    ensures HttpConns.ReadHeader("Content-Length: " + PrintInt(n), c) == (HttpConns.NoRequest, c.(contentLength := n))
  {
    var line := "Content-Length: " + PrintInt(n);
    IntReadsBack(n);
    PrintedField(PrintInt(n));
    hide PrintInt, Atol, ToInt, PrefixNoCase, EqualNoCase, HttpConns.FieldValue;
  }

  // ---------- As a client reads it ----------

  ghost predicate BlankAt(w: string, k: nat) {
    k + 4 <= |w| && w[k] == '\r' && w[k + 1] == '\n' && w[k + 2] == '\r' && w[k + 3] == '\n'
  }

  /** The first blank line. */
  ghost predicate HeadEnds(w: string, k: nat) {
    BlankAt(w, k) && forall j :: 0 <= j < k ==> !BlankAt(w, j)
  }

  /** A line begins at `p` with this name. */
  ghost predicate FieldAt(w: string, p: nat, name: string) {
    2 <= p <= |w| && w[p - 2] == '\r' && w[p - 1] == '\n' && name <= w[p..]
  }

  /** The head up to `k` has a line of this name, and no two. */
  ghost predicate OneField(w: string, k: nat, p: nat, name: string) {
    p < k && FieldAt(w, p, name) && forall q: nat :: q < k && FieldAt(w, q, name) ==> q == p
  }

  /** The response `w`, with its blank line at `k` and these two fields at `p` and `q`, is read as: a status line, the
      number of bytes announced, whether the connection stays, and the bytes behind the head. */
  ghost predicate ReadAt(w: string, k: nat, p: nat, q: nat, status: string, length: int, linger: bool, body: string) {
    && HeadEnds(w, k) && status + "\r\n" <= w && w[k + 4..] == body
    && OneField(w, k, p, "Content-Length: ") && Atol(w[p + 16..]) == length
    && OneField(w, k, q, "Connection: ") && (if linger then "keep-alive\r\n" else "close\r\n") <= w[q + 12..]
  }

  ghost predicate IsRead(w: string, status: string, length: int, linger: bool, body: string) {
    exists k: nat, p: nat, q: nat :: ReadAt(w, k, p, q, status, length, linger, body)
  }

  /** Three lines, a blank one, and what is behind them. */
  function Lines(a: string, b: string, c: string, body: string): string {
    a + "\r\n" + b + "\r\n" + c + "\r\n" + "\r\n" + body
  }

  ghost predicate OneLine(s: string) {
    s != "" && '\r' !in s
  }

  lemma CrsOf(a: string, b: string, c: string, body: string, j: nat)
    requires OneLine(a) && OneLine(b) && OneLine(c)
    ensures var w := Lines(a, b, c, body); var k := |a| + |b| + |c| + 4;
            && k + 4 <= |w| && BlankAt(w, k) && w[k + 4..] == body
            && (j < k ==> (w[j] == '\r' <==> j == |a| || j == |a| + 2 + |b|))
  {
    var w, k := Lines(a, b, c, body), |a| + |b| + |c| + 4;
    assert w[k..] == "\r\n" + "\r\n" + body;
    if j < |a| {
      assert w[j] == a[j];
    } else if |a| + 2 <= j < |a| + 2 + |b| {
      assert w[j] == b[j - |a| - 2];
    } else if |a| + |b| + 4 <= j < k {
      assert w[j] == c[j - |a| - |b| - 4];
    }
  }

  lemma SecondLine(a: string, b: string, c: string, body: string)
    ensures var w, p := Lines(a, b, c, body), |a| + 2;
            && p <= |w| && w[p - 2] == '\r' && w[p - 1] == '\n'
            && w[p..] == b + ("\r\n" + c + "\r\n" + "\r\n" + body) && a + "\r\n" <= w
  {
  }

  lemma ThirdLine(a: string, b: string, c: string, body: string)
    ensures var w, q := Lines(a, b, c, body), |a| + |b| + 4;
            && q <= |w| && w[q - 2] == '\r' && w[q - 1] == '\n' && w[q..] == c + ("\r\n" + "\r\n" + body)
  {
  }

  /** The head ends behind the three lines, and lines begin in it where the second and the third do. */
  lemma HeadOfLines(a: string, b: string, c: string, body: string)
    requires OneLine(a) && OneLine(b) && OneLine(c)
    ensures var w, k := Lines(a, b, c, body), |a| + |b| + |c| + 4;
            && |a| > 0 && |b| > 0 && |c| > 0 && HeadEnds(w, k) && k + 4 <= |w| && w[k + 4..] == body
            && forall q: nat, name :: q < k && FieldAt(w, q, name) ==> q == |a| + 2 || q == |a| + |b| + 4
  {
    var w, k := Lines(a, b, c, body), |a| + |b| + |c| + 4;
    CrsOf(a, b, c, body, 0);
    forall j | 0 <= j < k ensures w[j] == '\r' <==> j == |a| || j == |a| + 2 + |b| {
      CrsOf(a, b, c, body, j);
    }
    hide Lines;
  }

  function LengthText(n: int): string {
    "Content-Length: " + PrintInt(n)
  }

  function LingerText(linger: bool): string {
    "Connection: " + (if linger then "keep-alive" else "close")
  }

  lemma TextsAreLines(a: string, n: int, linger: bool, body: string)
    ensures a + "\r\n" + LengthLine(n) + LingerLine(linger) + "\r\n" + body == Lines(a, LengthText(n), LingerText(linger), body)
    ensures OneLine(LengthText(n)) && OneLine(LingerText(linger))
  {
    IntHasNoCr(n);
    hide PrintInt;
  }

  lemma FieldsOfLines(a: string, n: int, linger: bool, body: string)
    requires OneLine(a) && INT_MIN <= n <= INT_MAX
    ensures IsRead(a + "\r\n" + LengthLine(n) + LingerLine(linger) + "\r\n" + body, a, n, linger, body)
  {
    var b, c := LengthText(n), LingerText(linger);
    var w, p, q, k := Lines(a, b, c, body), |a| + 2, |a| + |b| + 4, |a| + |b| + |c| + 4;
    hide *;
    TextsAreLines(a, n, linger, body);
    HeadOfLines(a, b, c, body);
    SecondIsLength(a, n, c, body);
    ThirdIsLinger(a, b, linger, body);
    ItIsRead(w, k, p, q, a, n, linger, body);
  }

  lemma SecondIsLength(a: string, n: int, c: string, body: string)
    requires INT_MIN <= n <= INT_MAX
    ensures var w, p := Lines(a, LengthText(n), c, body), |a| + 2;
            && FieldAt(w, p, "Content-Length: ") && !FieldAt(w, p, "Connection: ") && |w| >= p + 16 && Atol(w[p + 16..]) == n
            && a + "\r\n" <= w
  {
    hide *;
    SecondLine(a, LengthText(n), c, body);
    LengthIsRead(Lines(a, LengthText(n), c, body), |a| + 2, n, c, body);
  }

  lemma ThirdIsLinger(a: string, b: string, linger: bool, body: string)
    ensures var w, q := Lines(a, b, LingerText(linger), body), |a| + |b| + 4;
            && FieldAt(w, q, "Connection: ") && !FieldAt(w, q, "Content-Length: ") && |w| >= q + 12
            && (if linger then "keep-alive\r\n" else "close\r\n") <= w[q + 12..]
  {
    hide *;
    ThirdLine(a, b, LingerText(linger), body);
    LingerIsRead(Lines(a, b, LingerText(linger), body), |a| + |b| + 4, linger, body);
  }

  lemma ItIsRead(w: string, k: nat, p: nat, q: nat, status: string, length: int, linger: bool, body: string)
    requires HeadEnds(w, k) && k + 4 <= |w| && w[k + 4..] == body && status + "\r\n" <= w && p < k && q < k && p != q
    requires forall r: nat, name :: r < k && FieldAt(w, r, name) ==> r == p || r == q
    requires FieldAt(w, p, "Content-Length: ") && !FieldAt(w, p, "Connection: ") && |w| >= p + 16 && Atol(w[p + 16..]) == length
    requires FieldAt(w, q, "Connection: ") && !FieldAt(w, q, "Content-Length: ") && |w| >= q + 12
    requires (if linger then "keep-alive\r\n" else "close\r\n") <= w[q + 12..]
    ensures IsRead(w, status, length, linger, body)
  {
    hide HeadEnds, FieldAt, Atol;
    assert OneField(w, k, p, "Content-Length: ") && OneField(w, k, q, "Connection: ");
    assert ReadAt(w, k, p, q, status, length, linger, body);
  }

  lemma LengthIsRead(w: string, p: nat, n: int, c: string, body: string)
    requires 2 <= p <= |w| && w[p - 2] == '\r' && w[p - 1] == '\n'
    requires w[p..] == LengthText(n) + ("\r\n" + c + "\r\n" + "\r\n" + body) && INT_MIN <= n <= INT_MAX
    ensures FieldAt(w, p, "Content-Length: ") && !FieldAt(w, p, "Connection: ") && |w| >= p + 16 && Atol(w[p + 16..]) == n
  {
    var t := "\r\n" + c + "\r\n" + "\r\n" + body;
    assert t != "" && !IsDigit(t[0]);
    IntIsRead(n, t);
    LengthTextIs(n, t);
    NamesDiffer();
    hide *;
    NameStands(w, p, "Content-Length: ", PrintInt(n) + t);
    OtherName(w, p, "Content-Length: ", "Connection: ", 3);
  }

  lemma LengthTextIs(n: int, t: string)
    ensures LengthText(n) + t == "Content-Length: " + (PrintInt(n) + t)
  {
  }

  lemma NamesDiffer()
    ensures "Content-Length: "[3] == 't' && "Connection: "[3] == 'n' && |"Content-Length: "| == 16 && |"Connection: "| == 12
  {
  }

  lemma NameStands(w: string, p: nat, name: string, t: string)
    requires 2 <= p <= |w| && w[p - 2] == '\r' && w[p - 1] == '\n' && w[p..] == name + t
    ensures FieldAt(w, p, name) && |w| >= p + |name| && w[p + |name|..] == t
  {
    assert w[p + |name|..] == w[p..][|name|..];
  }

  lemma OtherName(w: string, p: nat, name: string, other: string, i: nat)
    requires FieldAt(w, p, name) && i < |name| && i < |other| && name[i] != other[i]
    ensures !FieldAt(w, p, other)
  {
    assert w[p..][i] == name[i];
  }

  lemma LingerIsRead(w: string, q: nat, linger: bool, body: string)
    requires 2 <= q <= |w| && w[q - 2] == '\r' && w[q - 1] == '\n'
    requires w[q..] == LingerText(linger) + ("\r\n" + "\r\n" + body)
    ensures FieldAt(w, q, "Connection: ") && !FieldAt(w, q, "Content-Length: ") && |w| >= q + 12
    ensures (if linger then "keep-alive\r\n" else "close\r\n") <= w[q + 12..]
  {
    var t := "\r\n" + "\r\n" + body;
    LingerTextIs(linger, t);
    NamesDiffer();
    hide *;
    NameStands(w, q, "Connection: ", (if linger then "keep-alive" else "close") + t);
    OtherName(w, q, "Connection: ", "Content-Length: ", 3);
  }

  lemma LingerTextIs(linger: bool, t: string)
    requires "\r\n" <= t
    ensures LingerText(linger) + t == "Connection: " + ((if linger then "keep-alive" else "close") + t)
    ensures (if linger then "keep-alive\r\n" else "close\r\n") <= (if linger then "keep-alive" else "close") + t
  {
  }

  lemma {:induction false} NatHasNoCr(n: nat)
    ensures '\r' !in PrintNat(n)
  {
    if n >= 10 { NatHasNoCr(n / 10); }
  }

  lemma IntHasNoCr(n: int)
    ensures '\r' !in PrintInt(n)
  {
    NatHasNoCr(if n < 0 then -n else n);
  }

  /** The status lines, word for word. */
  function StatusOf(code: HttpConns.HttpCode): string
    requires IsError(code) || code.FileRequest?
  {
    match code
    case InternalError => "HTTP/1.1 500 Internal Error"
    case BadRequest => "HTTP/1.1 400 Bad Request"
    case NoResource => "HTTP/1.1 404 Not Found"
    case ForbiddenRequest => "HTTP/1.1 403 Forbidden"
    case FileRequest => "HTTP/1.1 200 OK"
  }

  lemma StatusLineIs(status: nat, title: string)
    requires 100 <= status < 1000
    ensures StatusLine(status, title) ==
            "HTTP/1.1 " + [Digit(status / 100), Digit(status / 10 % 10), Digit(status % 10)] + " " + title + "\r\n"
  {
    assert PrintNat(status / 100) == [Digit(status / 100)];
    assert PrintNat(status / 10) == PrintNat(status / 100) + [Digit(status / 10 % 10)];
    assert PrintNat(status) == PrintNat(status / 10) + [Digit(status % 10)];
  }

  lemma FileStatusLine()
    ensures StatusLine(200, "OK") == "HTTP/1.1 200 OK" + "\r\n"
  {
    StatusLineIs(200, "OK");
  }

  lemma Status500()
    ensures StatusLine(PAGE_500.status, PAGE_500.title) == "HTTP/1.1 500 Internal Error" + "\r\n"
  {
    StatusLineIs(500, "Internal Error");
  }

  lemma Status400()
    ensures StatusLine(PAGE_400.status, PAGE_400.title) == "HTTP/1.1 400 Bad Request" + "\r\n"
  {
    StatusLineIs(400, "Bad Request");
  }

  lemma Status404()
    ensures StatusLine(PAGE_404.status, PAGE_404.title) == "HTTP/1.1 404 Not Found" + "\r\n"
  {
    StatusLineIs(404, "Not Found");
  }

  lemma Status403()
    ensures StatusLine(PAGE_403.status, PAGE_403.title) == "HTTP/1.1 403 Forbidden" + "\r\n"
  {
    StatusLineIs(403, "Forbidden");
  }

  lemma ErrorStatusLine(code: HttpConns.HttpCode)
    requires IsError(code)
    ensures var page := PageOf(code); StatusLine(page.status, page.title) == StatusOf(code) + "\r\n"
  {
    hide PAGE_500, PAGE_400, PAGE_404, PAGE_403, StatusLine;
    match code
    case InternalError => Status500();
    case BadRequest => Status400();
    case NoResource => Status404();
    case ForbiddenRequest => Status403();
  }

  lemma StatusIsOneLine(code: HttpConns.HttpCode)
    requires IsError(code) || code.FileRequest?
    ensures OneLine(StatusOf(code))
  {
  }

  /** A client reads of each error response its status, the wish to keep the connection, and as many bytes behind the
      head as were announced. */
  lemma ErrorIsRead(code: HttpConns.HttpCode, linger: bool)
    requires IsError(code)
    ensures var form := PageOf(code).form; IsRead(WholeResponse(PageOf(code), linger), StatusOf(code), |form|, linger, form)
  {
    var page := PageOf(code);
    PageIsShort(code);
    hide *;
    StatusIsOneLine(code);
    ErrorStatusLine(code);
    ShortIsInt(page);
    FieldsOfLines(StatusOf(code), |page.form|, linger, page.form);
    WholeResponseIs(page, linger);
  }

  lemma ShortIsInt(page: ErrorPage)
    requires Short(page)
    ensures INT_MIN <= |page.form| <= INT_MAX
  {
  }

  lemma WholeResponseIs(page: ErrorPage, linger: bool)
    ensures WholeResponse(page, linger) ==
            StatusLine(page.status, page.title) + LengthLine(|page.form|) + LingerLine(linger) + "\r\n" + page.form
  {
  }

  /** Printed into an empty buffer, it is all there. */
  lemma ErrorIsWritten(code: HttpConns.HttpCode, linger: bool)
    requires IsError(code)
    ensures var page := PageOf(code);
            var w := HeadersAfter("", page.status, page.title, |page.form|, linger);
            && Fits(w, page.form) && Append(w, page.form) == WholeResponse(page, linger)
            && IsRead(WholeResponse(page, linger), StatusOf(code), |page.form|, linger, page.form)
  {
    hide IsError, PageOf, HeadersAfter, WholeResponse, IsRead, Fits, StatusOf;
    ErrorResponseIsWhole(code, linger);
    ErrorIsRead(code, linger);
  }

  lemma FoundStatus()
    ensures StatusOf(HttpConns.FileRequest) == "HTTP/1.1 200 OK"
  {
  }

  lemma SizeIsKept(size: nat)
    ensures ToInt(size) == size <==> size <= INT_MAX
  {
  }

  lemma ErrorsAre()
    ensures forall code :: IsError(code) <==> !code.NoRequest? && !code.GetRequest? && !code.FileRequest?
  {
  }

  function Power(k: nat): nat {
    if k == 0 then 1 else 10 * Power(k - 1)
  }

  lemma {:induction false} DigitsBelow(n: nat, k: nat)
    requires 0 < k && n < Power(k)
    ensures |PrintNat(n)| <= k
    decreases k
  {
    if n >= 10 {
      assert Power(1) == 10;
      DigitsBelow(n / 10, k - 1);
    }
  }

  lemma IntIsShort(n: int)
    requires INT_MIN <= n <= INT_MAX
    ensures |PrintInt(n)| <= 11
  {
    assert Power(2) == 100 && Power(4) == 10000 && Power(6) == 1000000 && Power(8) == 100000000 && Power(10) == 10000000000;
    DigitsBelow(if n < 0 then -n else n, 10);
  }

  lemma FileHeadIsShort(n: int, linger: bool)
    requires INT_MIN <= n <= INT_MAX
    ensures |StatusLine(200, "OK")| + |LengthLine(n)| + |LingerLine(linger)| + 2 < 100
  {
    FileStatusLine();
    IntIsShort(n);
    hide PrintInt, StatusLine;
  }

  /** Of a file's head printed into an empty buffer, that it is found, and the size as an int. */
  lemma FileHeadIsRead(n: int, linger: bool)
    requires INT_MIN <= n <= INT_MAX
    ensures IsRead(HeadersAfter("", 200, "OK", n, linger), "HTTP/1.1 200 OK", n, linger, "")
  {
    var a, b, c := StatusLine(200, "OK"), LengthLine(n), LingerLine(linger);
    FileHeadIsShort(n, linger);
    FileStatusLine();
    FoundIsOneLine();
    hide StatusLine, LengthLine, LingerLine, WithHeaders, IsRead, OneLine;
    FittingParts(a, b, c, n, linger);
    FieldsOfLines("HTTP/1.1 200 OK", n, linger, "");
    assert a + b + c + "\r\n" + "" == a + b + c + "\r\n";
  }

  lemma FoundIsOneLine()
    ensures OneLine("HTTP/1.1 200 OK")
  {
  }

  // ---------- Into the buffer ----------

  class ResponseWriter {
    const writeBuf: array<char>
    var writeIdx: nat
    var linger: bool
    /** The two pieces handed to writev: bytes of the write buffer and bytes of the mapped file. */
    var iov0Len: nat
    var iov1Len: nat
    var iovCount: nat

    ghost predicate Valid()
      reads this, writeBuf
    {
      writeBuf.Length == WRITE_BUFFER_SIZE && writeIdx < WRITE_BUFFER_SIZE - 1
    }

    ghost function Contents(): string
      reads this, writeBuf
      requires writeIdx <= writeBuf.Length
    {
      writeBuf[..writeIdx]
    }

    lemma Bounds()
      requires Valid()
      ensures writeIdx <= writeBuf.Length && Contents() == writeBuf[..writeIdx]
    {
    }

    constructor (linger: bool)
      ensures Valid() && Contents() == "" && this.linger == linger && fresh(writeBuf)
    {
      writeBuf := new char[WRITE_BUFFER_SIZE](_ => '\0');
      writeIdx, this.linger := 0, linger;
      iov0Len, iov1Len, iovCount := 0, 0, 0;
    }

    /** vsnprintf cuts off what does not fit, and then the text does not count. */
    method AddResponse(text: string) returns (ok: bool)
      requires Valid()
      modifies this`writeIdx, writeBuf
      ensures Valid() && ok == Fits(old(Contents()), text) && Contents() == Append(old(Contents()), text)
    {
      if writeIdx >= WRITE_BUFFER_SIZE { return false; }
      var space := WRITE_BUFFER_SIZE - 1 - writeIdx;
      var n := if |text| <= space - 1 then |text| else space - 1;
      for i := 0 to n
        modifies writeBuf
        invariant writeBuf[..writeIdx] == old(Contents())
        invariant writeBuf[writeIdx..writeIdx + i] == text[..i]
      {
        writeBuf[writeIdx + i] := text[i];
      }
      writeBuf[writeIdx + n] := '\0';
      if |text| >= space { return false; }
      assert writeBuf[..writeIdx + n] == writeBuf[..writeIdx] + writeBuf[writeIdx..writeIdx + n];
      writeIdx := writeIdx + |text|;
      ok := true;
    }

    method AddStatusLine(status: int, title: string) returns (ok: bool)
      requires Valid()
      modifies this`writeIdx, writeBuf
      ensures Valid() && ok == Fits(old(Contents()), StatusLine(status, title))
      ensures Contents() == Append(old(Contents()), StatusLine(status, title))
    {
      ok := AddResponse("HTTP/1.1" + " " + PrintInt(status) + " " + title + "\r\n");
    }

    /** Failures of the three parts are not reported. */
    method AddHeaders(length: int)
      requires Valid()
      modifies this`writeIdx, writeBuf
      ensures Valid() && Contents() == WithHeaders(old(Contents()), length, linger)
    {
      var ok := AddResponse("Content-Length: " + PrintInt(length) + "\r\n");
      ok := AddResponse("Connection: " + (if linger then "keep-alive" else "close") + "\r\n");
      ok := AddResponse("\r\n");
    }

    method AddPage(page: ErrorPage) returns (ok: bool)
      requires Valid()
      modifies this`writeIdx, writeBuf
      ensures Valid()
      ensures var w := HeadersAfter(old(Contents()), page.status, page.title, |page.form|, linger);
              ok == Fits(w, page.form) && Contents() == Append(w, page.form)
    {
      hide Fits, Append, StatusLine, WithHeaders;
      ok := AddStatusLine(page.status, page.title);
      AddHeaders(|page.form|);
      ok := AddResponse(page.form);
    }

    /** The four error codes. */
    method WriteError(page: ErrorPage) returns (ok: bool)
      requires Valid()
      modifies this`writeIdx, this`iov0Len, this`iovCount, writeBuf
      ensures Valid()
      ensures var w := HeadersAfter(old(Contents()), page.status, page.title, |page.form|, linger);
              ok == Fits(w, page.form) && Contents() == Append(w, page.form)
      ensures ok ==> iovCount == 1 && iov0Len == writeIdx
    {
      hide Fits, Append, HeadersAfter;
      ok := AddPage(page);
      if ok {
        iov0Len, iovCount := writeIdx, 1;
      }
    }

    /** A file that was found. One of size zero is printed as an empty page and then refused all the
        same. */
    method WriteFile(fileSize: nat) returns (ok: bool)
      requires Valid()
      modifies this`writeIdx, this`iov0Len, this`iov1Len, this`iovCount, writeBuf
      ensures Valid() && ok == (fileSize != 0)
      ensures fileSize != 0 ==>
                && Contents() == HeadersAfter(old(Contents()), 200, "OK", ToInt(fileSize), linger)
                && iovCount == 2 && iov0Len == writeIdx && iov1Len == fileSize
      ensures fileSize == 0 ==> Contents() == Append(HeadersAfter(old(Contents()), 200, "OK", |EMPTY_PAGE|, linger), EMPTY_PAGE)
    {
      hide Fits, Append, StatusLine, WithHeaders, EMPTY_PAGE;
      if fileSize != 0 {
        ok := AddStatusLine(200, "OK");
        AddHeaders(ToInt(fileSize));
        iov0Len, iov1Len, iovCount, ok := writeIdx, fileSize, 2, true;
      } else {
        ok := AddPage(ErrorPage(200, "OK", EMPTY_PAGE));
        ok := false;
      }
    }

    /** Prints the response to a request; false means that the connection is to be closed. */
    method ProcessWrite(code: HttpConns.HttpCode, fileSize: nat) returns (ok: bool)
      requires Valid()
      modifies this`writeIdx, this`iov0Len, this`iov1Len, this`iovCount, writeBuf
      ensures Valid()
      ensures IsError(code) ==>
                var page := PageOf(code); var w := HeadersAfter(old(Contents()), page.status, page.title, |page.form|, linger);
                && ok == Fits(w, page.form) && Contents() == Append(w, page.form)
                && (ok ==> iovCount == 1 && iov0Len == writeIdx)
      ensures IsError(code) && old(Contents()) == "" ==>
                && ok && Contents() == WholeResponse(PageOf(code), linger)
                && IsRead(Contents(), StatusOf(code), |PageOf(code).form|, linger, PageOf(code).form)
      ensures code.FileRequest? && fileSize != 0 ==>
                && ok && Contents() == HeadersAfter(old(Contents()), 200, "OK", ToInt(fileSize), linger)
                && iovCount == 2 && iov0Len == writeIdx && iov1Len == fileSize
      ensures code.FileRequest? && fileSize != 0 && old(Contents()) == "" ==>
                IsRead(Contents(), StatusOf(code), ToInt(iov1Len), linger, "") && (ToInt(iov1Len) == iov1Len <==> iov1Len <= INT_MAX)
      ensures code.FileRequest? && fileSize == 0 ==>
                !ok && Contents() == Append(HeadersAfter(old(Contents()), 200, "OK", |EMPTY_PAGE|, linger), EMPTY_PAGE)
      ensures !IsError(code) && !code.FileRequest? ==> !ok && Contents() == old(Contents())
    {
      hide *;
      if IsError(code) {
        ErrorIsWritten(code, linger);
      } else if code.FileRequest? {
        FileHeadIsRead(ToInt(fileSize), linger);
        FoundStatus();
        SizeIsKept(fileSize);
      }
      ErrorsAre();
      ok := false;
      if IsError(code) {
        ok := WriteError(PageOf(code));
      } else if code.FileRequest? {
        ok := WriteFile(fileSize);
      }
    }
  }
}
