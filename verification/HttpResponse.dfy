/**
 The responses of `HTTPParams.cpp`, and what a client finds in them: a status line, header lines,
 a blank line and Content-Length bytes.
 */
module HttpResponse {
  import opened Common
  import opened CppString

  const CRLF: string := "\r\n"
  const BLANK_LINE: string := "\r\n\r\n"

  // ----- the client's view -----

  /** The header block ends at `i`: the first blank line starts there. */
  ghost predicate HeadEndsAt(s: string, i: nat) {
    Occurs(s, BLANK_LINE, i) && forall j :: 0 <= j < i ==> !Occurs(s, BLANK_LINE, j)
  }

  /** Header lines, each with its line end. */
  function Head(lines: seq<string>): string {
    if lines == [] then [] else Head(lines[..|lines| - 1]) + lines[|lines| - 1] + CRLF
  }

  /** A line that cannot be mistaken for the end of the header block. */
  predicate IsPlainLine(l: string) {
    l != "" && l[0] != '\r' && '\n' !in l
  }

  ghost predicate ArePlain(lines: seq<string>) {
    forall i :: 0 <= i < |lines| ==> IsPlainLine(lines[i])
  }

  /** No newline is followed by a carriage return. */
  ghost predicate NoBlankLine(s: string) {
    forall k :: 0 <= k < |s| - 1 && s[k] == '\n' ==> s[k + 1] != '\r'
  }

  lemma {:induction false} HeadHasNoBlankLine(lines: seq<string>)
    requires ArePlain(lines)
    ensures NoBlankLine(Head(lines))
    ensures lines != [] ==> var h := Head(lines); |h| >= 2 && h[|h| - 2..] == CRLF
  {
    if lines != [] {
      var n := |lines| - 1;
      HeadHasNoBlankLine(lines[..n]);
      var h, l := Head(lines[..n]), lines[n];
      assert IsPlainLine(l);
      var s := h + l + CRLF;
      forall k | 0 <= k < |s| - 1 ensures s[k] == '\n' ==> s[k + 1] != '\r' {
        if k == |h| - 1 {
          assert s[k + 1] == l[0];
        } else if |h| <= k < |h| + |l| {
          assert s[k] == l[k - |h|];
        }
      }
      assert s[|s| - 2..] == CRLF;
    }
  }

  /** Plain header lines, a blank line and anything: the header block ends where it should. */
  lemma HeadEndsAfter(lines: seq<string>, rest: string)
    requires ArePlain(lines) && lines != []
    ensures var s, i := Head(lines) + CRLF + rest, |Head(lines)| - 2;
            i >= 0 && HeadEndsAt(s, i) && s[i + 4..] == rest
  {
    HeadHasNoBlankLine(lines);
    var h := Head(lines);
    hide Head;
    var s, i := h + CRLF + rest, |h| - 2;
    assert s[i..i + 4] == h[i..] + CRLF == BLANK_LINE;
    forall j | 0 <= j < i ensures !Occurs(s, BLANK_LINE, j) {
      NoOccurrence(h, s, j);
    }
  }

  /** A text without blank line cannot hold one that ends inside it. */
  lemma NoOccurrence(h: string, s: string, j: nat)
    requires NoBlankLine(h) && h <= s && j + 2 < |h|
    ensures !Occurs(s, BLANK_LINE, j)
  {
    if j + 4 <= |s| {
      var w := s[j..j + 4];
      assert w[1] == s[j + 1] == h[j + 1] && w[2] == s[j + 2] == h[j + 2];
      assert BLANK_LINE[1] == '\n' && BLANK_LINE[2] == '\r';
    }
  }

  lemma HeadNeverEnds(lines: seq<string>, j: nat)
    requires ArePlain(lines)
    ensures !Occurs(Head(lines), BLANK_LINE, j)
  {
    HeadHasNoBlankLine(lines);
    var h := Head(lines);
    hide Head;
    if j + 4 <= |h| {
      NoOccurrence(h, h, j);
    }
  }

  // ----- decimal numbers -----

  function Digit(d: nat): (c: char)
    requires d < 10
    ensures '0' <= c <= '9'
  {
    '0' + d as char
  }

  function Decimal(n: nat): (s: string)
    ensures s != "" && forall c :: c in s ==> '0' <= c <= '9'
  {
    if n < 10 then [Digit(n)] else Decimal(n / 10) + [Digit(n % 10)]
  }

  /** How a client reads a number. */
  function ReadDecimal(s: string): nat
    requires forall c :: c in s ==> '0' <= c <= '9'
  {
    if s == "" then 0
    else
      var n := |s| - 1;
      assert s[n] in s && forall c :: c in s[..n] ==> c in s;
      ReadDecimal(s[..n]) * 10 + (s[n] as int - '0' as int)
  }

  lemma {:induction false} ReadPrinted(n: nat)
    ensures ReadDecimal(Decimal(n)) == n
  {
    if n < 10 {
      assert Decimal(n)[..0] == "";
    } else {
      ReadPrinted(n / 10);
      assert Decimal(n)[..|Decimal(n)| - 1] == Decimal(n / 10);
    }
  }

  /** Numbers are printed and read in base ten, the highest digit first. */
  lemma DecimalIs(n: nat, d: nat)
    requires 0 < n && d < 10
    ensures Decimal(10 * n + d) == Decimal(n) + ["0123456789"[d]]
    ensures Decimal(d) == ["0123456789"[d]]
  {
    assert (10 * n + d) / 10 == n && (10 * n + d) % 10 == d;
    assert forall k :: 0 <= k < 10 ==> "0123456789"[k] == '0' + k as char;
  }

  // ----- framing -----

  const CONTENT_LENGTH: string := "Content-Length: "

  /** A header block of these lines and a last one that declares a length of `n`. */
  ghost predicate Declares(head: string, lines: seq<string>, n: nat) {
    exists digits ::
      && ArePlain(lines) && head == Head(lines + [CONTENT_LENGTH + digits])
      && (forall c :: c in digits ==> '0' <= c <= '9') && ReadDecimal(digits) == n
  }

  /** The client finds these header lines and one that declares `declared` bytes, and then `body`. */
  ghost predicate Framed(s: string, lines: seq<string>, declared: nat, body: string) {
    exists i :: HeadEndsAt(s, i) && Declares(s[..i + 2], lines, declared) && s[i + 4..] == body
  }

  /** The client finds these header lines and then `body`. */
  ghost predicate HeadThen(s: string, lines: seq<string>, body: string) {
    exists i :: HeadEndsAt(s, i) && ArePlain(lines) && s[..i + 2] == Head(lines) && s[i + 4..] == body
  }

  /** Header lines, the length of `body`, a blank line and `rest`. */
  function Respond(lines: seq<string>, body: string, rest: string): string {
    Head(lines + [CONTENT_LENGTH + Decimal(|body|)]) + CRLF + rest
  }

  /** Whatever follows the blank line, the client finds it, and finds the length of `body` declared. */
  lemma Framing(lines: seq<string>, body: string, rest: string)
    requires ArePlain(lines)
    ensures Framed(Respond(lines, body, rest), lines, |body|, rest)
  {
    var digits := Decimal(|body|);
    ReadPrinted(|body|);
    assert '\n' !in CONTENT_LENGTH && CONTENT_LENGTH[0] == 'C';
    var l := CONTENT_LENGTH + digits;
    assert l[0] == 'C' && forall c :: c in l <==> c in CONTENT_LENGTH || c in digits;
    var all := lines + [l];
    assert ArePlain(all);
    HeadEndsAfter(all, rest);
    var h, s := Head(all), Respond(lines, body, rest);
    assert s == h + CRLF + rest;
    assert s[..|h|] == h;
    assert Declares(h, lines, |body|);
    assert HeadEndsAt(s, |h| - 2) && Declares(s[..(|h| - 2) + 2], lines, |body|);
  }

  // ----- the generators -----

  const CSP: string := "Content-Security-Policy: default-src 'self'"
  const HTML: string := "Content-Type: text/html"

  function SetCookie(sessionId: string): string {
    "Set-Cookie: " + sessionId
  }

  lemma SetCookieIsPlain(sessionId: string)
    ensures IsPlainLine(SetCookie(sessionId)) <==> '\n' !in sessionId
  {
    var l, p := SetCookie(sessionId), "Set-Cookie: ";
    assert l[0] == 'S' && '\n' !in p;
    assert forall c :: c in l <==> c in p || c in sessionId;
  }

  /** `r` is `s` with its first occurrence of `p` replaced. */
  ghost predicate Replaced(s: string, p: string, text: string, r: string) {
    exists i: nat ::
      && Occurs(s, p, i) && (forall j :: 0 <= j < i ==> !Occurs(s, p, j))
      && r == s[..i] + text + s[i + |p|..]
  }

  /** A text in which `p` first occurs behind `a` has that occurrence replaced, and in one way. */
  lemma ReplacedExactly(a: string, p: string, b: string, text: string, r: string)
    requires forall j :: 0 <= j < |a| ==> !Occurs(a + p + b, p, j)
    ensures Replaced(a + p + b, p, text, r) <==> r == a + text + b
  {
    var s := a + p + b;
    assert s[|a|..|a| + |p|] == p && s[..|a|] == a && s[|a| + |p|..] == b;
    assert Occurs(s, p, |a|);
    if Replaced(s, p, text, r) {
      var i: nat :| Occurs(s, p, i) && (forall j :: 0 <= j < i ==> !Occurs(s, p, j))
                    && r == s[..i] + text + s[i + |p|..];
      assert i == |a|;
    }
  }

  /** `s.replace(s.find(p), p.length(), text)`: throws when `p` does not occur. */
  method ReplaceFirst(s: string, p: string, text: string) returns (r: Option<string>)
    ensures r.None? <==> !Contains(s, p)
    ensures r.Some? ==> Replaced(s, p, text, r.value)
  {
    var i := 0;
    while i <= |s|
      invariant i <= |s| + 1
      invariant forall j :: 0 <= j < i ==> !Occurs(s, p, j)
    {
      if Occurs(s, p, i) {
        return Some(s[..i] + text + s[i + |p|..]);
      }
      i := i + 1;
    }
    return None;
  }

  /** `response << line << "\r\n"`, with the lines so far. */
  method Emit(response: string, line: string, ghost lines: seq<string>) returns (r: string, ghost ls: seq<string>)
    requires response == Head(lines)
    ensures r == Head(lines + [line]) && ls == lines + [line]
    ensures ArePlain(lines) && IsPlainLine(line) ==> ArePlain(ls)
  {
    ls := lines + [line];
    assert ls[..|lines|] == lines;
    r := response + line + CRLF;
  }

  /** The Content-Length line, the blank line and what follows. */
  method Finish(response: string, length: nat, rest: string, ghost lines: seq<string>, ghost body: string)
    returns (r: string)
    requires response == Head(lines) && length == |body|
    ensures r == Respond(lines, body, rest)
    ensures ArePlain(lines) ==> Framed(r, lines, length, rest)
  {
    ghost var ls;
    r, ls := Emit(response, CONTENT_LENGTH + Decimal(length), lines);
    r := r + CRLF + rest;
    if ArePlain(lines) {
      Framing(lines, body, rest);
    }
  }

  const OK: string := "HTTP/1.1 200 OK"
  const UNAUTHORIZED: string := "HTTP/1.1 401 UnAuthorized"
  const ERROR_STATUS: string := "HTTP/1.1 401 UnAuthorized OK"
  const NOT_FOUND: string := "HTTP/1.1 404 Not Found"
  const MOVED: string := "HTTP/1.1 301 Found"
  const CSS: string := "Content-Type: text/css"
  const CLOSE: string := "Connection: close"

  lemma StatusLinesArePlain()
    ensures IsPlainLine(OK) && IsPlainLine(UNAUTHORIZED) && IsPlainLine(ERROR_STATUS)
  {
  }

  lemma ShortLinesArePlain()
    ensures IsPlainLine(NOT_FOUND) && IsPlainLine(MOVED) && IsPlainLine(CSS) && IsPlainLine(CLOSE)
  {
  }

  lemma LongLinesArePlain()
    ensures IsPlainLine(CSP) && IsPlainLine(HTML)
  {
  }

  lemma FixedLinesArePlain()
    ensures IsPlainLine(OK) && IsPlainLine(UNAUTHORIZED) && IsPlainLine(ERROR_STATUS) && IsPlainLine(NOT_FOUND)
    ensures IsPlainLine(MOVED) && IsPlainLine(CSS) && IsPlainLine(CSP) && IsPlainLine(HTML) && IsPlainLine(CLOSE)
    ensures Head([]) == "" && ArePlain([])
  {
    hide IsPlainLine;
    StatusLinesArePlain();
    ShortLinesArePlain();
    LongLinesArePlain();
  }

  // ----- what a client finds at the head of each response -----

  function LoginLines(refused: bool, sessionId: string): seq<string> {
    [if refused then UNAUTHORIZED else OK, HTML, SetCookie(sessionId)]
  }

  function HomeLines(sessionId: string): seq<string> {
    [OK, CSP, HTML, SetCookie(sessionId)]
  }

  function ErrorLines(sessionId: string): seq<string> {
    [ERROR_STATUS, CSP, HTML, SetCookie(sessionId)]
  }

  function SheetLines(sessionId: string): seq<string> {
    [OK, CSS, SetCookie(sessionId)]
  }

  /** The login page: `page` is what the client finds as the body, and its declared length is exact. */
  method GenerateLogin(indexHtml: string, sessionId: string, errorMessage: string)
    returns (response: Option<string>, ghost page: string)
    ensures response.None? <==> !Contains(indexHtml, "ERROR_MESSAGE")
    ensures response.Some? ==> Replaced(indexHtml, "ERROR_MESSAGE", errorMessage, page)
    ensures response.Some? && '\n' !in sessionId ==>
              Framed(response.value, LoginLines(errorMessage != "", sessionId), |page|, page)
  {
    FixedLinesArePlain();
    SetCookieIsPlain(sessionId);
    hide Head, ArePlain, IsPlainLine, SetCookie, Framed, Respond, Replaced, Contains;
    var content := ReplaceFirst(indexHtml, "ERROR_MESSAGE", errorMessage);
    if content.None? {
      return None, "";
    }
    page := content.value;
    var r, ls := Emit("", if |errorMessage| > 0 then UNAUTHORIZED else OK, []);
    r, ls := Emit(r, HTML, ls);
    r, ls := Emit(r, SetCookie(sessionId), ls);
    assert ls == LoginLines(errorMessage != "", sessionId);
    r := Finish(r, |content.value|, content.value, ls, page);
    return Some(r), page;
  }

  /** The home page with `body` for its placeholder. */
  method GenerateHomePage(homeHtml: string, sessionId: string, body: string)
    returns (response: Option<string>, ghost page: string)
    ensures response.None? <==> !Contains(homeHtml, "MESSAGE")
    ensures response.Some? ==> Replaced(homeHtml, "MESSAGE", body, page)
    ensures response.Some? && '\n' !in sessionId ==> Framed(response.value, HomeLines(sessionId), |page|, page)
  {
    FixedLinesArePlain();
    SetCookieIsPlain(sessionId);
    hide Head, ArePlain, IsPlainLine, SetCookie, Framed, Respond, Replaced, Contains;
    var content := ReplaceFirst(homeHtml, "MESSAGE", body);
    if content.None? {
      return None, "";
    }
    page := content.value;
    var r, ls := Emit("", OK, []);
    r, ls := Emit(r, CSP, ls);
    r, ls := Emit(r, HTML, ls);
    r, ls := Emit(r, SetCookie(sessionId), ls);
    assert ls == HomeLines(sessionId);
    r := Finish(r, |content.value|, content.value, ls, page);
    return Some(r), page;
  }

  /** The client finds two bytes more than the error response declares. */
  method GenerateErrorResponse(sessionId: string, errorMessage: string) returns (r: string)
    ensures '\n' !in sessionId ==> Framed(r, ErrorLines(sessionId), |errorMessage|, errorMessage + CRLF)
  {
    FixedLinesArePlain();
    SetCookieIsPlain(sessionId);
    hide Head, ArePlain, IsPlainLine, SetCookie, Framed, Respond;
    ghost var ls;
    r, ls := Emit("", ERROR_STATUS, []);
    r, ls := Emit(r, CSP, ls);
    r, ls := Emit(r, HTML, ls);
    r, ls := Emit(r, SetCookie(sessionId), ls);
    assert ls == ErrorLines(sessionId);
    r := Finish(r, |errorMessage|, errorMessage + CRLF, ls, errorMessage);
  }

  /** A style sheet that is found is framed exactly; for one that is not the header block never ends. */
  method GenerateCSSResponse(css: string, sessionId: string) returns (r: string)
    ensures '\n' !in sessionId && css != "" ==> Framed(r, SheetLines(sessionId), |css|, css)
    ensures css == "" ==> r == Head([NOT_FOUND, SetCookie(sessionId)])
    ensures '\n' !in sessionId && css == "" ==> !Contains(r, BLANK_LINE)
  {
    FixedLinesArePlain();
    SetCookieIsPlain(sessionId);
    hide Head, ArePlain, IsPlainLine, SetCookie, Framed, Respond;
    ghost var ls;
    if |css| == 0 {
      r, ls := Emit("", NOT_FOUND, []);
      r, ls := Emit(r, SetCookie(sessionId), ls);
      assert ls == [NOT_FOUND, SetCookie(sessionId)];
      if '\n' !in sessionId {
        forall j: nat ensures !Occurs(r, BLANK_LINE, j) {
          HeadNeverEnds(ls, j);
        }
      }
    } else {
      r, ls := Emit("", OK, []);
      r, ls := Emit(r, CSS, ls);
      r, ls := Emit(r, SetCookie(sessionId), ls);
      assert ls == SheetLines(sessionId);
      r := Finish(r, |css|, css, ls, css);
    }
  }

  /** The end of the header block, and what follows it. */
  method EndHead(response: string, rest: string, ghost lines: seq<string>) returns (r: string)
    requires response == Head(lines) && lines != []
    ensures ArePlain(lines) ==> HeadThen(r, lines, rest)
  {
    r := response + CRLF + rest;
    if ArePlain(lines) {
      HeadEndsAfter(lines, rest);
      var h := Head(lines);
      assert r == Head(lines) + CRLF + rest && r[..(|h| - 2) + 2] == h;
    }
  }

  /** No body follows. */
  method GenerateFavicon() returns (r: string)
    ensures HeadThen(r, [OK, CLOSE], "")
  {
    FixedLinesArePlain();
    hide Head, ArePlain, IsPlainLine;
    ghost var ls;
    r, ls := Emit("", OK, []);
    r, ls := Emit(r, CLOSE, ls);
    assert ls == [OK, CLOSE];
    r := EndHead(r, "", ls);
  }

  function Location(hostURL: string, newURL: string): string {
    "Location: " + hostURL + newURL
  }

  lemma LocationIsPlain(hostURL: string, newURL: string)
    requires '\n' !in hostURL && '\n' !in newURL
    ensures IsPlainLine(Location(hostURL, newURL))
  {
    var l, p := Location(hostURL, newURL), "Location: ";
    assert l[0] == 'L' && '\n' !in p;
    assert forall c :: c in l <==> c in p || c in hostURL || c in newURL;
  }

  /** The redirect ends its header block after Location: the cookie line reaches the client as body. */
  method GenerateRedirect(hostURL: string, newURL: string, sessionId: string) returns (r: string)
    ensures '\n' !in hostURL && '\n' !in newURL ==>
              HeadThen(r, [MOVED, Location(hostURL, newURL)], CSP + CRLF + SetCookie(sessionId) + CRLF)
  {
    FixedLinesArePlain();
    hide Head, ArePlain, IsPlainLine, SetCookie, Location;
    ghost var ls;
    r, ls := Emit("", MOVED, []);
    r, ls := Emit(r, Location(hostURL, newURL), ls);
    assert ls == [MOVED, Location(hostURL, newURL)];
    r := EndHead(r, CSP + CRLF + SetCookie(sessionId) + CRLF, ls);
    if '\n' !in hostURL && '\n' !in newURL {
      LocationIsPlain(hostURL, newURL);
    }
  }

  // ----- what a client reads -----

  /** The header lines that a client reads. */
  ghost predicate Reads(s: string, lines: seq<string>) {
    exists i :: HeadEndsAt(s, i) && ArePlain(lines) && s[..i + 2] == Head(lines)
  }

  /** Two ways to split a text at the start of its last line are one. */
  lemma LastLineIs(h: string, l: string, h': string, l': string)
    requires h + l == h' + l' && '\n' !in l && '\n' !in l'
    requires (h == "" || h[|h| - 1] == '\n') && (h' == "" || h'[|h'| - 1] == '\n')
    ensures h == h' && l == l'
  {
    var s := h + l;
    assert forall k :: |h| <= k < |s| ==> s[k] == l[k - |h|];
    assert forall k :: |h'| <= k < |s| ==> s[k] == l'[k - |h'|];
    assert h != "" ==> s[|h| - 1] == '\n';
    assert h' != "" ==> s[|h'| - 1] == '\n';
    assert |h| == |h'|;
    assert s[..|h|] == h && s[|h|..] == l;
    assert (h' + l')[..|h|] == h' && (h' + l')[|h|..] == l';
  }

  lemma HeadIsEmptyExactly(lines: seq<string>)
    ensures Head(lines) == "" <==> lines == []
  {
  }

  /** What a header block holds before the end of its last line. */
  lemma LastLineOfHead(lines: seq<string>)
    requires ArePlain(lines) && lines != []
    ensures var n, s := |lines| - 1, Head(lines);
            var h := Head(lines[..n]);
            && |s| >= 2 && s[..|s| - 2] == h + lines[n]
            && (h == "" || h[|h| - 1] == '\n') && '\n' !in lines[n]
  {
    var n := |lines| - 1;
    var h, s := Head(lines[..n]), Head(lines);
    HeadHasNoBlankLine(lines[..n]);
    assert IsPlainLine(lines[n]);
    assert s == h + lines[n] + CRLF;
  }

  /** A header block has its lines in one way. */
  lemma {:induction false} HeadInjective(a: seq<string>, b: seq<string>)
    requires ArePlain(a) && ArePlain(b) && Head(a) == Head(b)
    ensures a == b
  {
    HeadIsEmptyExactly(a);
    HeadIsEmptyExactly(b);
    hide Head;
    if a != [] && b != [] {
      var m, n := |a| - 1, |b| - 1;
      var h, h' := Head(a[..m]), Head(b[..n]);
      LastLineOfHead(a);
      LastLineOfHead(b);
      LastLineIs(h, a[m], h', b[n]);
      HeadInjective(a[..m], b[..n]);
      assert a == a[..m] + [a[m]] && b == b[..n] + [b[n]];
    }
  }

  lemma ReadsOnce(s: string, a: seq<string>, b: seq<string>)
    requires Reads(s, a) && Reads(s, b)
    ensures a == b
  {
    var i :| HeadEndsAt(s, i) && s[..i + 2] == Head(a) && ArePlain(a);
    var j :| HeadEndsAt(s, j) && s[..j + 2] == Head(b) && ArePlain(b);
    assert i == j;
    HeadInjective(a, b);
  }

  /** The client is handed the cookie `c`: a header line that it reads sets it. */
  ghost predicate HandsOut(s: string, c: string) {
    exists lines :: Reads(s, lines) && SetCookie(c) in lines
  }

  /** A response hands out exactly the cookies that its lines set. */
  lemma HandsOutExactly(s: string, lines: seq<string>, c: string)
    requires Reads(s, lines)
    ensures HandsOut(s, c) <==> SetCookie(c) in lines
  {
    if HandsOut(s, c) {
      var read :| Reads(s, read) && SetCookie(c) in read;
      ReadsOnce(s, lines, read);
    }
  }

  lemma SetCookieInjective(c: string, k: string)
    ensures SetCookie(c) == SetCookie(k) <==> c == k
    ensures SetCookie(c) != "" && SetCookie(c)[0] == 'S'
  {
    var p := "Set-Cookie: ";
    assert SetCookie(c)[|p|..] == c && SetCookie(k)[|p|..] == k;
    assert SetCookie(c)[0] == p[0];
  }

  /** Of a framed response the client reads the lines and the declared length. */
  lemma FramedReads(s: string, lines: seq<string>, n: nat, body: string) returns (digits: string)
    requires Framed(s, lines, n, body)
    ensures Reads(s, lines + [CONTENT_LENGTH + digits]) && IsPlainLine(CONTENT_LENGTH + digits)
  {
    var i :| HeadEndsAt(s, i) && Declares(s[..i + 2], lines, n) && s[i + 4..] == body;
    digits :| ArePlain(lines) && s[..i + 2] == Head(lines + [CONTENT_LENGTH + digits])
              && (forall c :: c in digits ==> '0' <= c <= '9') && ReadDecimal(digits) == n;
    LengthIsPlain(digits);
    hide HeadEndsAt, Head, IsPlainLine;
    assert ArePlain(lines + [CONTENT_LENGTH + digits]);
  }

  /** A framed response whose lines but the last set no cookie hands out the last one's, and no other. */
  lemma FramedHandsOut(s: string, first: seq<string>, k: string, n: nat, body: string, c: string)
    requires Framed(s, first + [SetCookie(k)], n, body)
    requires forall l :: l in first ==> l != "" && l[0] != 'S'
    ensures HandsOut(s, c) <==> c == k
  {
    hide Framed, Reads, SetCookie, HandsOut;
    var digits := FramedReads(s, first + [SetCookie(k)], n, body);
    var all := first + [SetCookie(k)] + [CONTENT_LENGTH + digits];
    HandsOutExactly(s, all, c);
    SetCookieInjective(c, k);
    assert (CONTENT_LENGTH + digits)[0] == CONTENT_LENGTH[0] == 'C';
    assert SetCookie(k) in all;
  }

  lemma LengthIsPlain(digits: string)
    requires forall c :: c in digits ==> '0' <= c <= '9'
    ensures var l := CONTENT_LENGTH + digits; IsPlainLine(l) && l[0] == 'C'
  {
    assert '\n' !in CONTENT_LENGTH && CONTENT_LENGTH[0] == 'C';
    var l := CONTENT_LENGTH + digits;
    assert l[0] == 'C' && forall c :: c in l <==> c in CONTENT_LENGTH || c in digits;
  }

  /** A response whose lines set no cookie hands out none. */
  lemma HeadHandsOut(s: string, lines: seq<string>, body: string, c: string)
    requires HeadThen(s, lines, body) && forall l :: l in lines ==> l != "" && l[0] != 'S'
    ensures !HandsOut(s, c)
  {
    assert Reads(s, lines);
    HandsOutExactly(s, lines, c);
    SetCookieInjective(c, c);
  }

  lemma {:induction false} HeadStarts(lines: seq<string>)
    requires lines != []
    ensures lines[0] <= Head(lines)
  {
    if |lines| > 1 {
      HeadStarts(lines[..|lines| - 1]);
    } else {
      assert lines[..0] == [];
      assert Head(lines) == lines[0] + CRLF;
    }
  }

  /** The response starts with a status line of HTTP/1.1. */
  predicate HasStatus(s: string) {
    "HTTP/1.1 " <= s
  }

  lemma ReadsStatus(s: string, lines: seq<string>)
    requires Reads(s, lines) && lines != [] && HasStatus(lines[0])
    ensures HasStatus(s)
  {
    HeadStarts(lines);
  }

  lemma FramedStatus(s: string, lines: seq<string>, n: nat, body: string)
    requires Framed(s, lines, n, body) && lines != [] && HasStatus(lines[0])
    ensures HasStatus(s)
  {
    hide Framed, Reads, HasStatus;
    var digits := FramedReads(s, lines, n, body);
    ReadsStatus(s, lines + [CONTENT_LENGTH + digits]);
  }

  lemma StatusLines()
    ensures HasStatus(OK) && HasStatus(UNAUTHORIZED) && HasStatus(ERROR_STATUS)
    ensures HasStatus(NOT_FOUND) && HasStatus(MOVED)
  {
  }

  // ----- responses that a client can end -----

  /** The client finds as many bytes behind the header block as it declares. */
  ghost predicate IsWhole(s: string) {
    exists lines, body :: Framed(s, lines, |body|, body)
  }

  lemma FramedOnce(s: string, a: seq<string>, n: nat, x: string, b: seq<string>, m: nat, y: string)
    requires Framed(s, a, n, x) && Framed(s, b, m, y)
    ensures a == b && n == m && x == y
  {
    var i :| HeadEndsAt(s, i) && Declares(s[..i + 2], a, n) && s[i + 4..] == x;
    var j :| HeadEndsAt(s, j) && Declares(s[..j + 2], b, m) && s[j + 4..] == y;
    assert i == j;
    hide HeadEndsAt;
    DeclaresOnce(s[..i + 2], a, n, b, m);
  }

  lemma DeclaresOnce(head: string, a: seq<string>, n: nat, b: seq<string>, m: nat)
    requires Declares(head, a, n) && Declares(head, b, m)
    ensures a == b && n == m
  {
    var d :| ArePlain(a) && head == Head(a + [CONTENT_LENGTH + d])
             && (forall c :: c in d ==> '0' <= c <= '9') && ReadDecimal(d) == n;
    var e :| ArePlain(b) && head == Head(b + [CONTENT_LENGTH + e])
             && (forall c :: c in e ==> '0' <= c <= '9') && ReadDecimal(e) == m;
    LengthIsPlain(d);
    LengthIsPlain(e);
    hide Head, IsPlainLine, ReadDecimal;
    var l, k := CONTENT_LENGTH + d, CONTENT_LENGTH + e;
    assert ArePlain(a + [l]) && ArePlain(b + [k]);
    HeadInjective(a + [l], b + [k]);
    LastTwo(a, l, b, k);
    assert l[|CONTENT_LENGTH|..] == d && k[|CONTENT_LENGTH|..] == e;
  }

  lemma LastTwo(a: seq<string>, x: string, b: seq<string>, y: string)
    requires a + [x] == b + [y]
    ensures a == b && x == y
  {
    assert (a + [x])[..|a|] == a && (b + [y])[..|b|] == b;
    assert (a + [x])[|a|] == x && (b + [y])[|b|] == y;
  }

  /** A response with another length than it declares is not whole. */
  lemma WholeExactly(s: string, lines: seq<string>, n: nat, body: string)
    requires Framed(s, lines, n, body)
    ensures IsWhole(s) <==> |body| == n
  {
    hide Framed;
    if IsWhole(s) {
      var ls, b :| Framed(s, ls, |b|, b);
      FramedOnce(s, lines, n, body, ls, |b|, b);
    }
  }

  /** A header block whose last line declares no length is not whole. */
  lemma HeadIsNotWhole(s: string, lines: seq<string>, body: string)
    requires HeadThen(s, lines, body) && lines != [] && !(CONTENT_LENGTH <= lines[|lines| - 1])
    ensures !IsWhole(s)
  {
    forall ls, b: string ensures !Framed(s, ls, |b|, b) {
      hide Framed;
      assert Reads(s, lines);
      hide Reads;
      LengthIsLast(s, ls, |b|, b, lines);
    }
  }

  lemma LengthIsLast(s: string, ls: seq<string>, n: nat, b: string, lines: seq<string>)
    requires Reads(s, lines) && lines != []
    ensures Framed(s, ls, n, b) ==> CONTENT_LENGTH <= lines[|lines| - 1]
  {
    hide Framed, Reads;
    if Framed(s, ls, n, b) {
      var digits := FramedReads(s, ls, n, b);
      ReadsOnce(s, lines, ls + [CONTENT_LENGTH + digits]);
    }
  }
}
