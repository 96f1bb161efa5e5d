/**
 What the responses of the service promise a client: which requests get none, which get an empty
 one, which are handed a cookie, and what sending that cookie back is worth.
 */
module HttpServiceLaws {
  import opened Common
  import opened CppString
  import opened HttpParser
  import opened HttpRequestLaws
  import opened HttpResponse
  import opened HttpLogin
  import opened HttpService
  import S = HttpSession

  // ----- requests without a response -----

  /** A POST to /login with a body and no '&' in it. */
  ghost predicate IsBadLogin(request: string, order: seq<string>) {
    var lines := Lines(request);
    && MethodOf(lines, order) == Some("POST") && UrlOf(lines, order) == Some("/login")
    && BodyOf(lines) != "" && '&' !in BodyOf(lines)
  }

  /** The page that answers the request has lost its placeholder. */
  ghost predicate LacksPlaceholder(a: Answer, files: Files) {
    || (a.LoginPage? && !Contains(files.Index(), "ERROR_MESSAGE"))
    || (a.HomePage? && !Contains(files.Home(), "MESSAGE"))
  }

  lemma ServesNoneExactly(a: Answer, files: Files, hostURL: string, cookie: string, response: Option<string>)
    requires Serves(a, files, hostURL, cookie, response)
    ensures response == None <==> a == Crash || LacksPlaceholder(a, files)
  {
    hide Files.Index, Files.Home, Files.Sheet;
    hide HeadThen, Framed, Contains, Replaced;
  }

  /**
   A request gets no response at all exactly when the token check lets it through and it is a bad
   login or its page has lost its placeholder.
   */
  lemma NoResponseExactly(request: string, order: seq<string>, sessionID: string, tokens: set<string>,
                          sessions: map<string, S.Session>, files: Files, response: Option<string>)
    requires Answers(request, order, sessionID, tokens, sessions, files, response)
    ensures response == None <==>
            && !TurnedAway(OpOf(request, sessionID, ""), tokens)
            && (IsBadLogin(request, order) || LacksPlaceholder(AnswerTo(request, order), files))
  {
    hide Serves, LacksPlaceholder, AnswerTo, Lines, MethodOf, UrlOf, BodyOf, HeaderOf, Framed;
    CrashExactly(request, order);
    var op := OpOf(request, sessionID, "");
    if !TurnedAway(op, tokens) {
      ServesNoneExactly(AnswerTo(request, order), files, sessions[op.cookie].m_HostURL, op.cookie, response);
    }
  }

  // ----- requests with an empty response -----

  /** No page, no style sheet and no redirect has this path. */
  predicate IsUnknownPath(url: string) {
    url != "/" && url != "/login" && url != "/home" && url != "/favicon.ico" && !Contains(url, ".css")
  }

  /** The request has no request line, a GET of an unknown path, or a method other than GET and POST. */
  ghost predicate IsUnknown(request: string, order: seq<string>) {
    var lines := Lines(request);
    match MethodOf(lines, order)
    case None => true
    case Some(m) => m != "POST" && (m == "GET" ==> IsUnknownPath(UrlOf(lines, order).GetOr("")))
  }

  lemma MethodIsListed(lines: seq<string>, order: seq<string>)
    requires IsMethodOrder(order)
    ensures MethodOf(lines, order).Some? ==> MethodOf(lines, order).value in METHODS
  {
    var i := First(lines, IsRequestLine);
    assert METHODS[0] == "GET";
    if i < |lines| {
      var ms := MethodsIn(order, lines[i]);
      assert ms != [] ==> ms[0] in ms;
    }
  }

  lemma EmptyPathIsUnknown()
    ensures IsUnknownPath("")
  {
    assert ".css"[0] == '.';
    ContainedChar("", ".css", '.');
  }

  lemma NothingExactly(request: string, order: seq<string>)
    requires IsMethodOrder(order)
    ensures AnswerTo(request, order) == Nothing <==> IsUnknown(request, order)
  {
    var lines := Lines(request);
    hide Lines, MethodOf, UrlOf, BodyOf, ProcessLogin, Contains, IsMethodOrder;
    MethodIsListed(lines, order);
    UrlOfMore(lines, "", order);
    EmptyPathIsUnknown();
    assert "POST" in METHODS && "GET" in METHODS && "" !in METHODS by {
      assert METHODS[0] == "GET" && METHODS[1] == "POST";
    }
  }

  lemma ServesEmptyExactly(a: Answer, files: Files, hostURL: string, cookie: string, response: Option<string>)
    requires Serves(a, files, hostURL, cookie, response)
    ensures response == Some("") <==> a == Nothing
    ensures response.Some? && a != Nothing ==> HasStatus(response.value)
  {
    StatusLines();
    hide Files.Index, Files.Home, Files.Sheet;
    hide HeadThen, Framed, Contains, Replaced, Head, SetCookie, Location;
    match a
    case Redirect => HeadThenStatus(response.value, [MOVED, Location(hostURL, "/login")],
                                    CSP + CRLF + SetCookie(cookie) + CRLF);
    case LoginPage(refused) => PageStatus(response, LoginLines(refused, cookie),
                                          files.Index(), "ERROR_MESSAGE", if refused then INVALID_CREDENTIAL else "");
    case HomePage => PageStatus(response, HomeLines(cookie), files.Home(), "MESSAGE", files.aboutMe);
    case Favicon => HeadThenStatus(response.value, [OK, CLOSE], "");
    case StyleSheet(url) =>
      if files.Sheet(url) == "" {
        HeadStarts([NOT_FOUND, SetCookie(cookie)]);
      } else {
        FramedStatus(response.value, SheetLines(cookie), |files.Sheet(url)|, files.Sheet(url));
      }
    case _ =>
  }

  lemma HeadThenStatus(s: string, lines: seq<string>, body: string)
    requires HeadThen(s, lines, body) && lines != [] && HasStatus(lines[0])
    ensures HasStatus(s)
  {
    hide HasStatus;
    ReadsStatus(s, lines);
  }

  lemma PageStatus(response: Option<string>, lines: seq<string>, file: string, placeholder: string, text: string)
    requires ServesPage(response, lines, file, placeholder, text) && lines != [] && HasStatus(lines[0])
    ensures response.Some? ==> HasStatus(response.value)
  {
    hide Framed, Contains, Replaced, HasStatus;
    if response.Some? {
      var page: string :| Replaced(file, placeholder, text, page) && Framed(response.value, lines, |page|, page);
      FramedStatus(response.value, lines, |page|, page);
    }
  }

  lemma StatusIsSent(s: string)
    requires HasStatus(s)
    ensures UpToNul(s) != "" && s != ""
  {
    assert s[0] == 'H';
  }

  /**
   The response is empty exactly when the token check lets the request through and the request is
   unknown; every other response starts with a status line, so the client gets at least that.
   */
  lemma EmptyResponseExactly(request: string, order: seq<string>, sessionID: string, tokens: set<string>,
                             sessions: map<string, S.Session>, files: Files, response: Option<string>)
    requires Answers(request, order, sessionID, tokens, sessions, files, response) && IsMethodOrder(order)
    ensures response == Some("") <==>
            !TurnedAway(OpOf(request, sessionID, ""), tokens) && IsUnknown(request, order)
    ensures response.Some? && response.value != "" ==> HasStatus(response.value)
    ensures response.Some? ==> (UpToNul(response.value) == "" <==> response.value == "")
  {
    StatusLines();
    hide Serves, AnswerTo, Lines, MethodOf, UrlOf, BodyOf, HeaderOf, Framed, IsUnknown, HasStatus, UpToNul, SetCookie;
    NothingExactly(request, order);
    var op := OpOf(request, sessionID, "");
    if TurnedAway(op, tokens) {
      FramedStatus(response.value, ErrorLines(op.cookie), |INVALID_TOKEN|, INVALID_TOKEN + CRLF);
    } else {
      ServesEmptyExactly(AnswerTo(request, order), files, sessions[op.cookie].m_HostURL, op.cookie, response);
    }
    if response.Some? && HasStatus(response.value) {
      StatusIsSent(response.value);
    }
  }

  // ----- concrete requests -----

  lemma NoHeaderLines(lines: seq<string>, f: Field)
    requires forall i :: 0 <= i < |lines| ==> !IsHeaderLine(lines[i])
    ensures HeaderOf(lines, f) == None
  {
    hide IsHeaderLine, FieldNamed, FieldName, FieldValue;
    assert First(lines, line => Gives(line, f)) == |lines|;
  }

  /** A printed request line and a line without ':' hold no header. */
  lemma PrintedHasNoHeader(m: string, url: string, version: string, body: string, order: seq<string>, f: Field)
    requires IsMethodOrder(order) && m in METHODS && NamesOnly(Print(m, url, version), m)
    requires url != "" && ' ' !in url && !Contains(version, HTTP) && '\n' !in Print(m, url, version)
    requires '\n' !in body && ':' !in body
    ensures HeaderOf(Lines(Print(m, url, version) + "\n" + body), f) == None
  {
    hide IsRequestLine, Print, Contains, Trim, Lines, MethodsIn, UrlsAfter, NamesOnly, HeaderOf, IsMethodOrder;
    var line := Print(m, url, version);
    PrintOffers(m, url, version, order);
    FirstLine(line, body);
    LastLine(body);
    assert ':' !in Trim(body, BLANKS);
    NoHeaderLines([line] + Lines(body), f);
  }

  lemma LastLine(body: string)
    requires '\n' !in body
    ensures Lines(body) == if body == "" then [] else [body]
  {
    assert body[..|body|] == body;
  }

  /** "x", posted to /login, is never answered. */
  lemma NoResponseHappens(order: seq<string>, sessionID: string, tokens: set<string>,
                          sessions: map<string, S.Session>, files: Files, response: Option<string>)
    requires IsMethodOrder(order)
    requires Answers(Print("POST", "/login", "1.1") + "\n" + "x", order, sessionID, tokens, sessions, files, response)
    ensures response == None
  {
    hide Serves, AnswerTo, Lines, HeaderOf, Framed, IsMethodOrder, Print, NamesOnly, Contains, MethodOf, UrlOf, BodyOf;
    LoginLineIs();
    LoginLineNamesOnlyPost(Print("POST", "/login", "1.1"));
    NoHttpInVersion();
    CrashHappens(order);
    assert METHODS[1] == "POST" && ' ' !in "/login" && ':' !in "x" && '\n' !in "x";
    PrintedHasNoHeader("POST", "/login", "1.1", "x", order, HEADER_AUTHORIZATION);
    CrashExactly(Print("POST", "/login", "1.1") + "\n" + "x", order);
    NoResponseExactly(Print("POST", "/login", "1.1") + "\n" + "x", order, sessionID, tokens, sessions, files, response);
  }

  lemma GetLineLacks(line: string)
    requires line == "GET /x HTTP/1.1" || line == "GET / HTTP/1.1"
    ensures 'O' !in line && 'A' !in line
    ensures 'U' !in line && 'L' !in line && '\n' !in line
  {
  }

  /** Every method name but "GET" has a letter that the line lacks. */
  lemma GetLineNamesOnlyGet(line: string)
    requires line == "GET /x HTTP/1.1" || line == "GET / HTTP/1.1"
    ensures '\n' !in line && NamesOnly(line, "GET")
  {
    GetLineLacks(line);
    hide Contains;
    assert "POST"[1] == "CONNECT"[1] == "OPTIONS"[0] == "UNKNOWN"[4] == 'O';
    assert "PATCH"[1] == "HEAD"[2] == "TRACE"[2] == 'A' && "PUT"[1] == 'U' && "DELETE"[2] == 'L';
    ContainedChar(line, "POST", 'O');
    ContainedChar(line, "PATCH", 'A');
    ContainedChar(line, "PUT", 'U');
    ContainedChar(line, "OPTIONS", 'O');
    ContainedChar(line, "HEAD", 'A');
    ContainedChar(line, "DELETE", 'L');
    ContainedChar(line, "CONNECT", 'O');
    ContainedChar(line, "TRACE", 'A');
    ContainedChar(line, "UNKNOWN", 'O');
  }

  lemma GetLinesAre()
    ensures Print("GET", "/x", "1.1") == "GET /x HTTP/1.1"
    ensures Print("GET", "/", "1.1") == "GET / HTTP/1.1"
  {
  }

  lemma UnknownPathIs()
    ensures IsUnknownPath("/x") && ' ' !in "/x"
  {
    assert ".css"[0] == '.' && '.' !in "/x";
    ContainedChar("/x", ".css", '.');
  }

  /** A GET of /x, and a receive that got nothing, are answered with no byte. */
  lemma EmptyResponseHappens(order: seq<string>, sessionID: string, tokens: set<string>,
                             sessions: map<string, S.Session>, files: Files, response: Option<string>)
    requires IsMethodOrder(order)
    requires Answers(Print("GET", "/x", "1.1") + "\n" + "", order, sessionID, tokens, sessions, files, response)
             || Answers("", order, sessionID, tokens, sessions, files, response)
    ensures response == Some("")
  {
    hide Serves, AnswerTo, HeaderOf, Framed, IsMethodOrder, Print, NamesOnly, Contains, IsUnknownPath, BodyOf, MethodOf;
    if Answers("", order, sessionID, tokens, sessions, files, response) {
      NoMoreLines();
      NoHeaderLines([], HEADER_AUTHORIZATION);
      NoLinesAreUnknown(order);
      EmptyResponseExactly("", order, sessionID, tokens, sessions, files, response);
    } else {
      hide Lines;
      GetLinesAre();
      GetLineNamesOnlyGet(Print("GET", "/x", "1.1"));
      UnknownPathIs();
      NoHttpInVersion();
      assert METHODS[0] == "GET";
      PrintedHasNoHeader("GET", "/x", "1.1", "", order, HEADER_AUTHORIZATION);
      RequestLineRoundTrip("GET", "/x", "1.1", "", order);
      EmptyResponseExactly(Print("GET", "/x", "1.1") + "\n" + "", order, sessionID, tokens, sessions, files, response);
    }
  }

  lemma NoLinesAreUnknown(order: seq<string>)
    ensures IsUnknown("", order)
  {
  }

  // ----- the cookie that a client is handed -----

  /** The answer is a page or a style sheet that is found. */
  ghost predicate HasContent(a: Answer, files: Files) {
    a.LoginPage? || a.HomePage? || (a.StyleSheet? && files.Sheet(a.url) != "")
  }

  /** The lines of the responses that carry the cookie, the cookie's line last. */
  lemma LinesWithCookie(refused: bool, cookie: string)
    ensures LoginLines(refused, cookie) == [if refused then UNAUTHORIZED else OK, HTML] + [SetCookie(cookie)]
    ensures HomeLines(cookie) == [OK, CSP, HTML] + [SetCookie(cookie)]
    ensures ErrorLines(cookie) == [ERROR_STATUS, CSP, HTML] + [SetCookie(cookie)]
    ensures SheetLines(cookie) == [OK, CSS] + [SetCookie(cookie)]
  {
  }

  lemma ServesCookieExactly(a: Answer, files: Files, hostURL: string, cookie: string, response: string, c: string)
    requires Serves(a, files, hostURL, cookie, Some(response))
    ensures HandsOut(response, c) <==> HasContent(a, files) && c == cookie
  {
    FirstLetters(hostURL);
    NoBlankLineInNothing();
    hide Files.Index, Files.Home, Files.Sheet;
    hide HeadThen, Framed, Contains, Replaced, Head, SetCookie, Location, HandsOut;
    hide LoginLines, HomeLines, SheetLines;
    LinesWithCookie(a.LoginPage? && a.refused, cookie);
    match a
    case Redirect => HeadHandsOut(response, [MOVED, Location(hostURL, "/login")],
                                  CSP + CRLF + SetCookie(cookie) + CRLF, c);
    case LoginPage(refused) =>
      PageHandsOut(response, [if refused then UNAUTHORIZED else OK, HTML], cookie,
                   files.Index(), "ERROR_MESSAGE", if refused then INVALID_CREDENTIAL else "", c);
    case HomePage =>
      PageHandsOut(response, [OK, CSP, HTML], cookie, files.Home(), "MESSAGE", files.aboutMe, c);
    case Favicon => HeadHandsOut(response, [OK, CLOSE], "", c);
    case StyleSheet(url) =>
      if files.Sheet(url) == "" {
        NoHeadNoCookie(response, c);
      } else {
        FramedHandsOut(response, [OK, CSS], cookie, |files.Sheet(url)|, files.Sheet(url), c);
      }
    case Nothing => NoHeadNoCookie(response, c);
  }

  lemma FirstLetters(hostURL: string)
    ensures forall l :: l in [OK, UNAUTHORIZED, ERROR_STATUS, MOVED, HTML, CSP, CSS, CLOSE] ==> l != "" && l[0] != 'S'
    ensures Location(hostURL, "/login") != "" && Location(hostURL, "/login")[0] == 'L'
  {
    assert OK[0] == UNAUTHORIZED[0] == ERROR_STATUS[0] == MOVED[0] == 'H';
    assert HTML[0] == CSP[0] == CSS[0] == CLOSE[0] == 'C';
    assert Location(hostURL, "/login")[0] == "Location: "[0];
  }

  lemma PageHandsOut(s: string, first: seq<string>, cookie: string,
                     file: string, placeholder: string, text: string, c: string)
    requires ServesPage(Some(s), first + [SetCookie(cookie)], file, placeholder, text)
    requires forall l :: l in first ==> l != "" && l[0] != 'S'
    ensures HandsOut(s, c) <==> c == cookie
  {
    hide Framed, Contains, Replaced, HandsOut, SetCookie;
    var lines := first + [SetCookie(cookie)];
    var page: string :| Replaced(file, placeholder, text, page) && Framed(s, lines, |page|, page);
    FramedHandsOut(s, first, cookie, |page|, page, c);
  }

  /** A client that finds no end of the header block reads no cookie. */
  lemma NoHeadNoCookie(s: string, c: string)
    requires !Contains(s, BLANK_LINE)
    ensures !HandsOut(s, c)
  {
    forall lines ensures Reads(s, lines) ==> Contains(s, BLANK_LINE) {
      if Reads(s, lines) {
        ReadsABlankLine(s, lines);
      }
    }
  }

  lemma ReadsABlankLine(s: string, lines: seq<string>)
    requires Reads(s, lines)
    ensures Contains(s, BLANK_LINE)
  {
    var i :| HeadEndsAt(s, i) && ArePlain(lines) && s[..i + 2] == Head(lines);
    assert Occurs(s, BLANK_LINE, i);
  }

  lemma NoBlankLineInNothing()
    ensures !Contains("", BLANK_LINE)
  {
    assert BLANK_LINE[0] == '\r';
    ContainedChar("", BLANK_LINE, '\r');
  }

  /**
   Which responses hand a client its cookie: those with a page, a style sheet that is found, and
   the error page, each the cookie of its own request; the redirect to /login hands out none.
   */
  lemma CookieHandedOutExactly(request: string, order: seq<string>, sessionID: string, tokens: set<string>,
                               sessions: map<string, S.Session>, files: Files, response: string, c: string)
    requires Answers(request, order, sessionID, tokens, sessions, files, Some(response))
    ensures var op := OpOf(request, sessionID, "");
            HandsOut(response, c) <==>
            (TurnedAway(op, tokens) || HasContent(AnswerTo(request, order), files)) && c == op.cookie
  {
    hide Serves, AnswerTo, Lines, MethodOf, UrlOf, BodyOf, HeaderOf, Framed, SetCookie, HandsOut, HasContent;
    var op := OpOf(request, sessionID, "");
    if TurnedAway(op, tokens) {
      FirstLetters("");
      LinesWithCookie(false, op.cookie);
      FramedHandsOut(response, [ERROR_STATUS, CSP, HTML], op.cookie, |INVALID_TOKEN|, INVALID_TOKEN + CRLF, c);
    } else {
      ServesCookieExactly(AnswerTo(request, order), files, sessions[op.cookie].m_HostURL, op.cookie, response, c);
    }
  }

  // ----- responses that a client can end -----

  lemma ServesWholeExactly(a: Answer, files: Files, hostURL: string, cookie: string, response: string)
    requires Serves(a, files, hostURL, cookie, Some(response))
    ensures IsWhole(response) <==> HasContent(a, files)
  {
    NotLengths(hostURL);
    NoBlankLineInNothing();
    hide Files.Index, Files.Home, Files.Sheet;
    hide HeadThen, Framed, Contains, Replaced, Head, SetCookie, Location, IsWhole, LoginLines, HomeLines, SheetLines;
    match a
    case Redirect => HeadIsNotWhole(response, [MOVED, Location(hostURL, "/login")],
                                    CSP + CRLF + SetCookie(cookie) + CRLF);
    case LoginPage(refused) => PageIsWhole(response, LoginLines(refused, cookie), files.Index(), "ERROR_MESSAGE",
                                           if refused then INVALID_CREDENTIAL else "");
    case HomePage => PageIsWhole(response, HomeLines(cookie), files.Home(), "MESSAGE", files.aboutMe);
    case Favicon => HeadIsNotWhole(response, [OK, CLOSE], "");
    case StyleSheet(url) =>
      if files.Sheet(url) == "" {
        NoHeadNotWhole(response);
      } else {
        WholeExactly(response, SheetLines(cookie), |files.Sheet(url)|, files.Sheet(url));
      }
    case Nothing => NoHeadNotWhole(response);
  }

  lemma NotLengths(hostURL: string)
    ensures !(CONTENT_LENGTH <= CLOSE) && !(CONTENT_LENGTH <= Location(hostURL, "/login"))
  {
    assert CLOSE[3] == 'n' && CONTENT_LENGTH[3] == 't' && CONTENT_LENGTH[0] == 'C';
    assert Location(hostURL, "/login")[0] == "Location: "[0] == 'L';
  }

  lemma PageIsWhole(s: string, lines: seq<string>, file: string, placeholder: string, text: string)
    requires ServesPage(Some(s), lines, file, placeholder, text)
    ensures IsWhole(s)
  {
    hide Framed, Contains, Replaced, IsWhole;
    var page: string :| Replaced(file, placeholder, text, page) && Framed(s, lines, |page|, page);
    WholeExactly(s, lines, |page|, page);
  }

  lemma NoHeadNotWhole(s: string)
    requires !Contains(s, BLANK_LINE)
    ensures !IsWhole(s)
  {
    forall lines, body: string ensures Framed(s, lines, |body|, body) ==> Contains(s, BLANK_LINE) {
      hide Framed;
      if Framed(s, lines, |body|, body) {
        var digits := FramedReads(s, lines, |body|, body);
        ReadsABlankLine(s, lines + [CONTENT_LENGTH + digits]);
      }
    }
  }

  /**
   A client finds as many bytes as are declared exactly in the pages and in the style sheets that
   are found. The error page holds two more, the redirect and the icon declare none, and a missing
   sheet or an unknown request never gets to the end of the header block.
   */
  lemma WholeResponseExactly(request: string, order: seq<string>, sessionID: string, tokens: set<string>,
                             sessions: map<string, S.Session>, files: Files, response: string)
    requires Answers(request, order, sessionID, tokens, sessions, files, Some(response))
    ensures IsWhole(response) <==>
            !TurnedAway(OpOf(request, sessionID, ""), tokens) && HasContent(AnswerTo(request, order), files)
  {
    hide Serves, AnswerTo, Lines, MethodOf, UrlOf, BodyOf, HeaderOf, Framed, IsWhole, HasContent, ErrorLines;
    var op := OpOf(request, sessionID, "");
    if TurnedAway(op, tokens) {
      assert |INVALID_TOKEN + CRLF| == |INVALID_TOKEN| + 2;
      WholeExactly(response, ErrorLines(op.cookie), |INVALID_TOKEN|, INVALID_TOKEN + CRLF);
    } else {
      ServesWholeExactly(AnswerTo(request, order), files, sessions[op.cookie].m_HostURL, op.cookie, response);
    }
  }

  /** A GET of / is redirected, without a cookie and without a declared length. */
  lemma RedirectHappens(order: seq<string>, sessionID: string, tokens: set<string>,
                        sessions: map<string, S.Session>, files: Files, response: string, c: string)
    requires IsMethodOrder(order)
    requires Answers(Print("GET", "/", "1.1") + "\n" + "", order, sessionID, tokens, sessions, files, Some(response))
    ensures !HandsOut(response, c) && !IsWhole(response)
  {
    hide Serves, AnswerTo, HeaderOf, Framed, IsMethodOrder, Print, NamesOnly, Contains, BodyOf, MethodOf;
    hide Lines, HandsOut, IsWhole;
    GetLinesAre();
    GetLineNamesOnlyGet(Print("GET", "/", "1.1"));
    NoHttpInVersion();
    assert METHODS[0] == "GET" && ' ' !in "/";
    PrintedHasNoHeader("GET", "/", "1.1", "", order, HEADER_AUTHORIZATION);
    PrintedAnswered("GET", "/", "1.1", "", order);
    CookieHandedOutExactly(Print("GET", "/", "1.1") + "\n" + "", order, sessionID, tokens, sessions, files,
                           response, c);
    WholeResponseExactly(Print("GET", "/", "1.1") + "\n" + "", order, sessionID, tokens, sessions, files, response);
  }

  // ----- the cookie that a client sends back -----

  /** What generateSessionID returns: sixteen bytes in hexadecimal. */
  predicate IsSessionID(id: string) {
    |id| == 32 && forall c :: c in id ==> '0' <= c <= '9' || 'a' <= c <= 'f'
  }

  /** The line with which a client sends a cookie back. */
  function CookieLine(c: string): string {
    "Cookie: " + c + "\r"
  }

  /** The parser gives back such a cookie as it is. */
  ghost predicate IsClean(c: string) {
    !Contains(c, HTTP) && (c != "" ==> c[0] !in SPACES && c[|c| - 1] !in SPACES)
  }

  lemma SessionIDIsClean(id: string)
    requires IsSessionID(id)
    ensures IsClean(id)
  {
    hide Contains;
    assert 'H' !in id && HTTP[0] == 'H';
    ContainedChar(id, HTTP, 'H');
    assert id[0] in id && id[|id| - 1] in id;
  }

  lemma ValueIsClean(line: string)
    requires IsHeaderLine(line)
    ensures IsClean(FieldValue(line))
  {
    hide Contains, Trim;
    var t := Trim(line, BLANKS);
    var i := IndexOf(t, ':');
    var v := t[i + 1..];
    var a, b := TrimIsPart(v, SPACES);
    assert t == (t[..i + 1] + a) + Trim(v, SPACES) + b;
    if Contains(Trim(v, SPACES), HTTP) {
      ContainsInPart(t, t[..i + 1] + a, Trim(v, SPACES), b, HTTP);
    }
  }

  /** The cookie of every request is clean, whether a line gave it or it was generated. */
  lemma CookieIsClean(request: string, sessionID: string, userId: string)
    requires IsSessionID(sessionID)
    ensures IsClean(OpOf(request, sessionID, userId).cookie)
  {
    var lines := Lines(request);
    hide Lines, FieldValue, FieldNamed, FieldName, IsHeaderLine, IsSessionID, IsClean;
    SessionIDIsClean(sessionID);
    var i := First(lines, line => Gives(line, HEADER_COOKIE));
    if i < |lines| {
      ValueIsClean(lines[i]);
    }
  }

  /** "HTTP/" can occur in a Cookie line only inside the cookie. */
  lemma CookieLineContains(c: string)
    ensures Contains(CookieLine(c), HTTP) ==> Contains(c, HTTP)
  {
    var s, p := CookieLine(c), "Cookie: ";
    if Contains(s, HTTP) {
      var i :| 0 <= i <= |s| && Occurs(s, HTTP, i);
      assert s[i..i + 5][0] == s[i] && s[i..i + 5][4] == s[i + 4];
      assert HTTP[0] == 'H' && HTTP[4] == '/' && 'H' !in p;
      assert forall k :: 0 <= k < |p| ==> s[k] == p[k];
      assert s[|s| - 1] == '\r';
      assert |p| <= i && i + 5 < |s|;
      assert c[i - |p|..i - |p| + 5] == s[i..i + 5];
      assert Occurs(c, HTTP, i - |p|);
    }
  }

  lemma CookieLineParts(c: string)
    ensures CookieLine(c) == "Cookie" + ":" + (" " + c + "\r")
    ensures FieldNamed("Cookie") == Some(HEADER_COOKIE)
    ensures forall x :: x in " " + "\r" ==> x in SPACES
  {
    assert SPACES[0] == ' ' && SPACES[3] == '\r';
    assert "Cookie: " == "Cookie" + ":" + " ";
  }

  /** A clean cookie that is sent back is the cookie that the parser finds. */
  lemma CookieLineGives(c: string)
    requires IsClean(c)
    ensures Gives(CookieLine(c), HEADER_COOKIE) && FieldValue(CookieLine(c)) == c
  {
    hide Contains, Trim, CookieLine, FieldNamed, FieldName, FieldValue;
    var line := CookieLine(c);
    var a, b := TrimIsPart(line, BLANKS);
    if Contains(Trim(line, BLANKS), HTTP) {
      ContainsInPart(line, a, Trim(line, BLANKS), b, HTTP);
      CookieLineContains(c);
    }
    CookieLineParts(c);
    HeaderLineRoundTrip("Cookie", " " + c + "\r", HEADER_COOKIE);
    TrimUnique(" ", c, "\r", SPACES);
  }

  lemma SentCookieIsFound(request: string, before: seq<string>, c: string, after: seq<string>,
                          sessionID: string, userId: string)
    requires IsClean(c) && HeaderOf(before, HEADER_COOKIE).None? && Lines(request) == before + [CookieLine(c)] + after
    ensures OpOf(request, sessionID, userId).cookie == c
  {
    hide Lines, HeaderOf, Gives, FieldValue, CookieLine, IsClean;
    CookieLineGives(c);
    FirstGives(before, CookieLine(c), after, HEADER_COOKIE);
  }

  /**
   A client that sends back the cookie it was handed is served by the same session object, with
   its user id and host, whatever requests other clients make in between, as long as the session
   is not removed: the first response hands out `c`, and the first Cookie line of a later request
   that passes the token check is the one that sends `c` back.
   */
  lemma CookieComesBack(tokens: set<string>, ops: seq<S.Op>, more: seq<S.Op>, files: Files, order: seq<string>,
                        c: string, request: string, sessionID: string, userId: string, response: string,
                        later: string, before: seq<string>, after: seq<string>, sessionID': string, userId': string)
    requires var op := OpOf(request, sessionID, userId);
             && IsSessionID(sessionID) && !TurnedAway(op, tokens)
             && Answers(request, order, sessionID, tokens, S.Sessions(tokens, ops + [op]), files, Some(response))
             && HandsOut(response, c)
    requires S.KeptFrom(more, 0, c)
    requires HeaderOf(before, HEADER_COOKIE).None? && Lines(later) == before + [CookieLine(c)] + after
    ensures var op, op' := OpOf(request, sessionID, userId), OpOf(later, sessionID', userId');
            var first, all := S.Sessions(tokens, ops + [op]), S.Sessions(tokens, ops + [op] + (more + [op']));
            op'.cookie == c && c in first && c in all && all[c] == first[c]
  {
    hide Answers, Lines, HeaderOf, CookieLine, IsClean, IsSessionID, HandsOut, AnswerTo;
    var op, op' := OpOf(request, sessionID, userId), OpOf(later, sessionID', userId');
    CookieHandedOutExactly(request, order, sessionID, tokens, S.Sessions(tokens, ops + [op]), files, response, c);
    CookieIsClean(request, sessionID, userId);
    SentCookieIsFound(later, before, c, after, sessionID', userId');
    PassingIsMapped(tokens, ops, op);
    assert S.KeptFrom(more + [op'], 0, c);
    S.SessionStays(tokens, ops + [op], more + [op'], c);
  }

  /** A passing request leaves its cookie in the map. */
  lemma PassingIsMapped(tokens: set<string>, ops: seq<S.Op>, op: S.Op)
    requires op.Request? && !TurnedAway(op, tokens)
    ensures op.cookie in S.Sessions(tokens, ops + [op])
  {
    assert (ops + [op])[..|ops|] == ops;
  }
}
