/** What a client finds for each request it can make: status, header lines and body, spelled out. */
module HttpAnswers {
  import opened Common
  import opened CppString
  import opened HttpParser
  import opened HttpRequestLaws
  import opened HttpResponse
  import opened HttpLogin
  import opened HttpService
  import opened HttpServiceLaws
  import S = HttpSession

  // ----- who is asking -----

  /** The session map sees the values of the first Authorization, Cookie and Host lines. */
  lemma SeenByTheMap(request: string, sessionID: string, userId: string)
    ensures var lines, op := Lines(request), OpOf(request, sessionID, userId);
            && op.bearerToken == FirstNamed(lines, "Authorization").GetOr("")
            && op.cookie == FirstNamed(lines, "Cookie").GetOr(sessionID)
            && op.host == FirstNamed(lines, "Host").GetOr("")
            && op.userId == userId
  {
    hide HeaderOf, FirstNamed, Lines;
    HeaderIsFirstNamed(Lines(request), HEADER_AUTHORIZATION);
    HeaderIsFirstNamed(Lines(request), HEADER_COOKIE);
    HeaderIsFirstNamed(Lines(request), HEADER_HOST);
  }

  /** The request asks with this method for this URL, and its token, if it has one, is known. */
  ghost predicate Asks(request: string, order: seq<string>, m: string, url: string, tokens: set<string>) {
    var lines := Lines(request);
    && MethodOf(lines, order) == Some(m) && UrlOf(lines, order) == Some(url)
    && (FirstNamed(lines, "Authorization").GetOr("") == ""
        || FirstNamed(lines, "Authorization").GetOr("") in tokens)
  }

  /** The cookie that the request carries, or the session id generated for it. */
  function CookieOf(request: string, sessionID: string): string {
    FirstNamed(Lines(request), "Cookie").GetOr(sessionID)
  }

  /**
   The client finds the file with the placeholder replaced, of exactly the declared length;
   without a placeholder the server throws.
   */
  ghost predicate FindsPage(response: Option<string>, lines: seq<string>,
                            file: string, placeholder: string, text: string)
  {
    (response.None? <==> !Contains(file, placeholder))
    && (response.Some? ==>
          exists page: string ::
            Replaced(file, placeholder, text, page) && Framed(response.value, lines, |page|, page))
  }

  lemma AskedIsServed(request: string, order: seq<string>, m: string, url: string, sessionID: string,
                      tokens: set<string>, sessions: map<string, S.Session>, files: Files, response: Option<string>)
    requires Asks(request, order, m, url, tokens)
    requires Answers(request, order, sessionID, tokens, sessions, files, response)
    ensures var c, a := CookieOf(request, sessionID), Dispatch(m, url, BodyOf(Lines(request)));
            c in sessions && Serves(a, files, sessions[c].m_HostURL, c, response)
  {
    hide Lines, MethodOf, UrlOf, BodyOf, HeaderOf, FirstNamed, Serves, Dispatch;
    SeenByTheMap(request, sessionID, "");
  }

  // ----- the pages -----

  lemma LinesAre(refused: bool, cookie: string)
    ensures LoginLines(refused, cookie) ==
            [if refused then "HTTP/1.1 401 UnAuthorized" else "HTTP/1.1 200 OK",
             "Content-Type: text/html", "Set-Cookie: " + cookie]
    ensures HomeLines(cookie) ==
            ["HTTP/1.1 200 OK", "Content-Security-Policy: default-src 'self'",
             "Content-Type: text/html", "Set-Cookie: " + cookie]
    ensures ErrorLines(cookie) ==
            ["HTTP/1.1 401 UnAuthorized OK", "Content-Security-Policy: default-src 'self'",
             "Content-Type: text/html", "Set-Cookie: " + cookie]
    ensures SheetLines(cookie) == ["HTTP/1.1 200 OK", "Content-Type: text/css", "Set-Cookie: " + cookie]
  {
  }

  /** The three digits that a client reads behind "HTTP/1.1 ". */
  function StatusCode(s: string): Option<string> {
    if HasStatus(s) && |s| >= 12 then Some(s[9..12]) else None
  }

  lemma CodeOfStart(s: string, line: string)
    requires line <= s && HasStatus(line) && |line| >= 12
    ensures StatusCode(s) == Some(line[9..12])
  {
    assert s[..|line|] == line;
    assert s[9..12] == s[..|line|][9..12];
  }

  lemma CodeOfPage(response: Option<string>, lines: seq<string>, file: string, placeholder: string, text: string)
    requires FindsPage(response, lines, file, placeholder, text)
    requires lines != [] && HasStatus(lines[0]) && |lines[0]| >= 12
    ensures response.Some? ==> StatusCode(response.value) == Some(lines[0][9..12])
  {
    hide Framed, Contains, Replaced, HasStatus, StatusCode;
    if response.Some? {
      var page: string :| Replaced(file, placeholder, text, page) && Framed(response.value, lines, |page|, page);
      CodeOfFramed(response.value, lines, |page|, page);
    }
  }

  lemma CodeOfFramed(s: string, lines: seq<string>, n: nat, body: string)
    requires Framed(s, lines, n, body) && lines != [] && HasStatus(lines[0]) && |lines[0]| >= 12
    ensures StatusCode(s) == Some(lines[0][9..12])
  {
    hide Framed, Reads, HasStatus, StatusCode;
    var digits := FramedReads(s, lines, n, body);
    CodeOfRead(s, lines + [CONTENT_LENGTH + digits]);
  }

  lemma CodeOfRead(s: string, lines: seq<string>)
    requires Reads(s, lines) && lines != [] && HasStatus(lines[0]) && |lines[0]| >= 12
    ensures StatusCode(s) == Some(lines[0][9..12])
  {
    HeadStarts(lines);
    hide Head, HasStatus, HeadEndsAt;
    CodeOfStart(s, lines[0]);
  }

  lemma CodeOfHead(s: string, lines: seq<string>, body: string)
    requires HeadThen(s, lines, body) && lines != [] && HasStatus(lines[0]) && |lines[0]| >= 12
    ensures StatusCode(s) == Some(lines[0][9..12])
  {
    hide Head, HeadEndsAt, HasStatus, StatusCode;
    assert Reads(s, lines);
    hide Reads;
    CodeOfRead(s, lines);
  }

  lemma Codes()
    ensures HasStatus("HTTP/1.1 200 OK") && "HTTP/1.1 200 OK"[9..12] == "200"
    ensures HasStatus("HTTP/1.1 401 UnAuthorized") && "HTTP/1.1 401 UnAuthorized"[9..12] == "401"
    ensures HasStatus("HTTP/1.1 401 UnAuthorized OK") && "HTTP/1.1 401 UnAuthorized OK"[9..12] == "401"
    ensures HasStatus("HTTP/1.1 404 Not Found") && "HTTP/1.1 404 Not Found"[9..12] == "404"
    ensures HasStatus("HTTP/1.1 301 Found") && "HTTP/1.1 301 Found"[9..12] == "301"
  {
  }

  /** The client reads the declared length in a line of its own, the last of the header block. */
  lemma LengthIsRead(s: string, lines: seq<string>, n: nat, body: string) returns (digits: string)
    requires Framed(s, lines, n, body)
    ensures Reads(s, lines + ["Content-Length: " + digits])
    ensures (forall c :: c in digits ==> '0' <= c <= '9') && ReadDecimal(digits) == n
  {
    var i :| HeadEndsAt(s, i) && Declares(s[..i + 2], lines, n) && s[i + 4..] == body;
    digits :| ArePlain(lines) && s[..i + 2] == Head(lines + [CONTENT_LENGTH + digits])
              && (forall c :: c in digits ==> '0' <= c <= '9') && ReadDecimal(digits) == n;
    LengthIsPlain(digits);
    hide HeadEndsAt, Head, IsPlainLine, ReadDecimal;
    assert ArePlain(lines + [CONTENT_LENGTH + digits]);
  }

  lemma LinesCodes(refused: bool, cookie: string)
    ensures var l := LoginLines(refused, cookie);
            l != [] && HasStatus(l[0]) && |l[0]| >= 12 && l[0][9..12] == if refused then "401" else "200"
    ensures var l := HomeLines(cookie); l != [] && HasStatus(l[0]) && |l[0]| >= 12 && l[0][9..12] == "200"
    ensures var l := ErrorLines(cookie); l != [] && HasStatus(l[0]) && |l[0]| >= 12 && l[0][9..12] == "401"
    ensures var l := SheetLines(cookie); l != [] && HasStatus(l[0]) && |l[0]| >= 12 && l[0][9..12] == "200"
  {
    Codes();
  }

  /** What is found of the home page. */
  lemma HomeIsFound(files: Files, hostURL: string, cookie: string, response: Option<string>)
    requires Serves(HomePage, files, hostURL, cookie, response)
    ensures FindsPage(response, HomeLines(cookie), files.read("webFiles/HTML/home.html"), "MESSAGE", files.aboutMe)
    ensures response.Some? ==> StatusCode(response.value) == Some("200")
  {
    hide Framed, Contains, Replaced, StatusCode, HomeLines, HasStatus;
    LinesCodes(false, cookie);
    CodeOfPage(response, HomeLines(cookie), files.read("webFiles/HTML/home.html"), "MESSAGE", files.aboutMe);
  }

  /** What is found of the login page. */
  lemma LoginIsFound(refused: bool, files: Files, hostURL: string, cookie: string, response: Option<string>)
    requires Serves(LoginPage(refused), files, hostURL, cookie, response)
    ensures FindsPage(response, LoginLines(refused, cookie), files.read("webFiles/HTML/index.html"), "ERROR_MESSAGE",
                      if refused then "<span>Invalid credential</span>" else "")
    ensures response.Some? ==> StatusCode(response.value) == Some(if refused then "401" else "200")
  {
    hide Framed, Contains, Replaced, StatusCode, LoginLines, HasStatus;
    LinesCodes(refused, cookie);
    CodeOfPage(response, LoginLines(refused, cookie), files.read("webFiles/HTML/index.html"), "ERROR_MESSAGE",
               if refused then INVALID_CREDENTIAL else "");
  }

  lemma PagesAreDispatched(url: string, body: string)
    ensures Dispatch("GET", "/login", body) == LoginPage(false) && Dispatch("GET", "/home", body) == HomePage
    ensures url != "/login" ==> Dispatch("POST", url, body) == LoginPage(true)
    ensures IsLoginForm(body) ==> Dispatch("POST", "/login", body) == HomePage
    ensures !IsLoginForm(body) && (body == "" || '&' in body) ==> Dispatch("POST", "/login", body) == LoginPage(true)
  {
    hide IsLoginForm, ProcessLogin;
    LoginExactly(body);
  }

  // ----- each request -----

  /** GET / sends the client to the login page of the session's host. */
  lemma GetRoot(request: string, order: seq<string>, sessionID: string, tokens: set<string>,
                sessions: map<string, S.Session>, files: Files, response: Option<string>)
    requires Asks(request, order, "GET", "/", tokens)
    requires Answers(request, order, sessionID, tokens, sessions, files, response)
    ensures var c := CookieOf(request, sessionID);
            && c in sessions && response.Some?
            && HeadThen(response.value, ["HTTP/1.1 301 Found", "Location: " + sessions[c].m_HostURL + "/login"],
                        "Content-Security-Policy: default-src 'self'\r\n" + ("Set-Cookie: " + c) + "\r\n")
            && StatusCode(response.value) == Some("301")
  {
    hide HeadThen, Answers, Asks, CookieOf, BodyOf, Lines, StatusCode, HasStatus;
    AskedIsServed(request, order, "GET", "/", sessionID, tokens, sessions, files, response);
    CspEnds();
    Codes();
    var c := CookieOf(request, sessionID);
    CodeOfHead(response.value, ["HTTP/1.1 301 Found", "Location: " + sessions[c].m_HostURL + "/login"],
               "Content-Security-Policy: default-src 'self'\r\n" + ("Set-Cookie: " + c) + "\r\n");
  }

  lemma CspEnds()
    ensures CSP + CRLF == "Content-Security-Policy: default-src 'self'\r\n"
  {
  }

  /** GET /login is answered with the login page without a message. */
  lemma GetLogin(request: string, order: seq<string>, sessionID: string, tokens: set<string>,
            sessions: map<string, S.Session>, files: Files, response: Option<string>)
    requires Asks(request, order, "GET", "/login", tokens)
    requires Answers(request, order, sessionID, tokens, sessions, files, response)
    ensures FindsPage(response,
                      ["HTTP/1.1 200 OK", "Content-Type: text/html", "Set-Cookie: " + CookieOf(request, sessionID)],
                      files.read("webFiles/HTML/index.html"), "ERROR_MESSAGE", "")
    ensures response.Some? ==> StatusCode(response.value) == Some("200")
  {
    hide Answers, Asks, CookieOf, BodyOf, Lines, StatusCode, IsLoginForm, Dispatch, Serves, FindsPage;
    hide LoginLines, HomeLines;
    AskedIsServed(request, order, "GET", "/login", sessionID, tokens, sessions, files, response);
    PagesAreDispatched("/login", BodyOf(Lines(request)));
    var c := CookieOf(request, sessionID);
    LinesAre(false, c);
    LoginIsFound(false, files, sessions[c].m_HostURL, c, response);
  }

  /** GET /home is answered with the home page. */
  lemma GetHome(request: string, order: seq<string>, sessionID: string, tokens: set<string>,
            sessions: map<string, S.Session>, files: Files, response: Option<string>)
    requires Asks(request, order, "GET", "/home", tokens)
    requires Answers(request, order, sessionID, tokens, sessions, files, response)
    ensures FindsPage(response, ["HTTP/1.1 200 OK", "Content-Security-Policy: default-src 'self'",
                                 "Content-Type: text/html", "Set-Cookie: " + CookieOf(request, sessionID)],
                      files.read("webFiles/HTML/home.html"), "MESSAGE", files.aboutMe)
    ensures response.Some? ==> StatusCode(response.value) == Some("200")
  {
    hide Answers, Asks, CookieOf, BodyOf, Lines, StatusCode, IsLoginForm, Dispatch, Serves, FindsPage;
    hide LoginLines, HomeLines;
    AskedIsServed(request, order, "GET", "/home", sessionID, tokens, sessions, files, response);
    PagesAreDispatched("/home", BodyOf(Lines(request)));
    var c := CookieOf(request, sessionID);
    LinesAre(false, c);
    HomeIsFound(files, sessions[c].m_HostURL, c, response);
  }

  /** A POST of a login form to /login is answered with the home page. */
  lemma PostLoginForm(request: string, order: seq<string>, sessionID: string, tokens: set<string>,
            sessions: map<string, S.Session>, files: Files, response: Option<string>)
    requires Asks(request, order, "POST", "/login", tokens)
    requires IsLoginForm(BodyOf(Lines(request)))
    requires Answers(request, order, sessionID, tokens, sessions, files, response)
    ensures FindsPage(response, ["HTTP/1.1 200 OK", "Content-Security-Policy: default-src 'self'",
                                 "Content-Type: text/html", "Set-Cookie: " + CookieOf(request, sessionID)],
                      files.read("webFiles/HTML/home.html"), "MESSAGE", files.aboutMe)
    ensures response.Some? ==> StatusCode(response.value) == Some("200")
  {
    hide Answers, Asks, CookieOf, BodyOf, Lines, StatusCode, IsLoginForm, Dispatch, Serves, FindsPage;
    hide LoginLines, HomeLines;
    AskedIsServed(request, order, "POST", "/login", sessionID, tokens, sessions, files, response);
    PagesAreDispatched("/login", BodyOf(Lines(request)));
    var c := CookieOf(request, sessionID);
    LinesAre(false, c);
    HomeIsFound(files, sessions[c].m_HostURL, c, response);
  }

  /** A POST to /login that does not throw and is no login form is refused. */
  lemma PostOtherForm(request: string, order: seq<string>, sessionID: string, tokens: set<string>,
            sessions: map<string, S.Session>, files: Files, response: Option<string>)
    requires Asks(request, order, "POST", "/login", tokens)
    requires var body := BodyOf(Lines(request)); !IsLoginForm(body) && (body == "" || '&' in body)
    requires Answers(request, order, sessionID, tokens, sessions, files, response)
    ensures FindsPage(response,
                      ["HTTP/1.1 401 UnAuthorized", "Content-Type: text/html",
                       "Set-Cookie: " + CookieOf(request, sessionID)],
                      files.read("webFiles/HTML/index.html"), "ERROR_MESSAGE", "<span>Invalid credential</span>")
    ensures response.Some? ==> StatusCode(response.value) == Some("401")
  {
    hide Answers, Asks, CookieOf, BodyOf, Lines, StatusCode, IsLoginForm, Dispatch, Serves, FindsPage;
    hide LoginLines, HomeLines;
    AskedIsServed(request, order, "POST", "/login", sessionID, tokens, sessions, files, response);
    PagesAreDispatched("/login", BodyOf(Lines(request)));
    var c := CookieOf(request, sessionID);
    LinesAre(true, c);
    LoginIsFound(true, files, sessions[c].m_HostURL, c, response);
  }

  /** A POST to any other URL is refused like a login. */
  lemma PostElsewhere(request: string, url: string, order: seq<string>, sessionID: string, tokens: set<string>,
            sessions: map<string, S.Session>, files: Files, response: Option<string>)
    requires Asks(request, order, "POST", url, tokens) && url != "/login"
    requires Answers(request, order, sessionID, tokens, sessions, files, response)
    ensures FindsPage(response,
                      ["HTTP/1.1 401 UnAuthorized", "Content-Type: text/html",
                       "Set-Cookie: " + CookieOf(request, sessionID)],
                      files.read("webFiles/HTML/index.html"), "ERROR_MESSAGE", "<span>Invalid credential</span>")
    ensures response.Some? ==> StatusCode(response.value) == Some("401")
  {
    hide Answers, Asks, CookieOf, BodyOf, Lines, StatusCode, IsLoginForm, Dispatch, Serves, FindsPage;
    hide LoginLines, HomeLines;
    AskedIsServed(request, order, "POST", url, sessionID, tokens, sessions, files, response);
    PagesAreDispatched(url, BodyOf(Lines(request)));
    var c := CookieOf(request, sessionID);
    LinesAre(true, c);
    LoginIsFound(true, files, sessions[c].m_HostURL, c, response);
  }

  /** GET /favicon.ico is answered with a status and the end of the connection. */
  lemma GetFavicon(request: string, order: seq<string>, sessionID: string, tokens: set<string>,
                   sessions: map<string, S.Session>, files: Files, response: Option<string>)
    requires Asks(request, order, "GET", "/favicon.ico", tokens)
    requires Answers(request, order, sessionID, tokens, sessions, files, response)
    ensures response.Some? && HeadThen(response.value, ["HTTP/1.1 200 OK", "Connection: close"], "")
    ensures StatusCode(response.value) == Some("200")
  {
    hide HeadThen, Answers, Asks, CookieOf, BodyOf, Lines, StatusCode, HasStatus;
    AskedIsServed(request, order, "GET", "/favicon.ico", sessionID, tokens, sessions, files, response);
    Codes();
    CodeOfHead(response.value, ["HTTP/1.1 200 OK", "Connection: close"], "");
  }

  lemma SheetIsNoPage(url: string)
    requires Contains(url, ".css")
    ensures url != "/" && url != "/login" && url != "/home" && url != "/favicon.ico"
  {
    hide Contains;
    assert ".css"[2] == 's';
    ContainedChar(url, ".css", 's');
    assert 's' !in "/" && 's' !in "/login" && 's' !in "/home" && 's' !in "/favicon.ico";
  }

  /** The style sheet of "/" and a name is the file of that name. */
  lemma SheetOfName(files: Files, name: string)
    requires name != "" && name[0] != '/'
    ensures files.Sheet("/" + name) == files.read("webFiles/CSS/" + name)
  {
    TrimLeftPast("/", name, "/");
  }

  lemma SheetIsDispatched(url: string, body: string)
    requires Contains(url, ".css")
    ensures Dispatch("GET", url, body) == StyleSheet(url)
  {
    hide Contains;
    SheetIsNoPage(url);
  }

  /** A GET of any other URL with ".css" in it is answered with the style sheet, or with a 404 that never ends. */
  lemma GetStyleSheet(request: string, url: string, order: seq<string>, sessionID: string, tokens: set<string>,
                      sessions: map<string, S.Session>, files: Files, response: Option<string>)
    requires Asks(request, order, "GET", url, tokens) && Contains(url, ".css")
    requires Answers(request, order, sessionID, tokens, sessions, files, response)
    ensures var c := CookieOf(request, sessionID);
            && response.Some?
            && if files.Sheet(url) == "" then
                 && response.value == Head(["HTTP/1.1 404 Not Found", "Set-Cookie: " + c])
                 && !Contains(response.value, "\r\n\r\n") && StatusCode(response.value) == Some("404")
               else
                 && Framed(response.value, ["HTTP/1.1 200 OK", "Content-Type: text/css", "Set-Cookie: " + c],
                           |files.Sheet(url)|, files.Sheet(url))
                 && StatusCode(response.value) == Some("200")
  {
    hide Framed, Contains, Answers, Asks, CookieOf, BodyOf, Lines, StatusCode, HasStatus, Head, Dispatch;
    SheetIsDispatched(url, BodyOf(Lines(request)));
    AskedIsServed(request, order, "GET", url, sessionID, tokens, sessions, files, response);
    Codes();
    var c := CookieOf(request, sessionID);
    LinesAre(false, c);
    if files.Sheet(url) == "" {
      HeadStarts(["HTTP/1.1 404 Not Found", "Set-Cookie: " + c]);
      CodeOfStart(response.value, "HTTP/1.1 404 Not Found");
    } else {
      CodeOfFramed(response.value, ["HTTP/1.1 200 OK", "Content-Type: text/css", "Set-Cookie: " + c],
                   |files.Sheet(url)|, files.Sheet(url));
    }
  }

  /** The methods that the table knows and the dispatch does not. */
  predicate IsOtherMethod(m: string) {
    m == "PATCH" || m == "PUT" || m == "OPTIONS" || m == "HEAD" || m == "DELETE" || m == "CONNECT" || m == "TRACE"
    || m == "UNKNOWN"
  }

  /** The other methods of the table are answered with nothing. */
  lemma OtherMethods(request: string, m: string, url: string, order: seq<string>, sessionID: string,
                     tokens: set<string>, sessions: map<string, S.Session>, files: Files, response: Option<string>)
    requires Asks(request, order, m, url, tokens) && IsOtherMethod(m)
    requires Answers(request, order, sessionID, tokens, sessions, files, response)
    ensures response == Some("")
  {
    hide Answers, Asks, CookieOf, BodyOf, Lines, IsOtherMethod, Dispatch;
    OtherIsDispatched(m, url, BodyOf(Lines(request)));
    AskedIsServed(request, order, m, url, sessionID, tokens, sessions, files, response);
  }

  lemma OtherIsListed(m: string)
    requires IsOtherMethod(m)
    ensures m in METHODS && m != "GET" && m != "POST"
  {
    assert m != "POST" by {
      assert "PATCH"[1] == 'A' && "PUT"[1] == 'U';
    }
  }

  lemma OtherIsDispatched(m: string, url: string, body: string)
    requires IsOtherMethod(m)
    ensures Dispatch(m, url, body) == Nothing
  {
    OtherIsListed(m);
    hide IsOtherMethod;
  }

  /** A token that is not known is answered with the error page. */
  lemma UnknownToken(request: string, order: seq<string>, sessionID: string, tokens: set<string>,
                     sessions: map<string, S.Session>, files: Files, response: Option<string>)
    requires var token := FirstNamed(Lines(request), "Authorization").GetOr(""); token != "" && token !in tokens
    requires Answers(request, order, sessionID, tokens, sessions, files, response)
    ensures var text := "Invalid Bearer Token...Please pass the correct bearer token";
            && response.Some?
            && Framed(response.value,
                      ["HTTP/1.1 401 UnAuthorized OK", "Content-Security-Policy: default-src 'self'",
                       "Content-Type: text/html", "Set-Cookie: " + CookieOf(request, sessionID)],
                      |text|, text + "\r\n")
            && StatusCode(response.value) == Some("401")
  {
    hide Framed, Lines, FirstNamed, HeaderOf, StatusCode, HasStatus, Serves;
    SeenByTheMap(request, sessionID, "");
    Codes();
    var c := CookieOf(request, sessionID);
    LinesAre(false, c);
    var text := "Invalid Bearer Token...Please pass the correct bearer token";
    CodeOfFramed(response.value,
                 ["HTTP/1.1 401 UnAuthorized OK", "Content-Security-Policy: default-src 'self'",
                  "Content-Type: text/html", "Set-Cookie: " + c],
                 |text|, text + "\r\n");
  }

  /** GET / goes to the host of the request that opened the session, whatever hosts later requests name. */
  lemma GetRootFirstHost(request: string, order: seq<string>, sessionID: string, tokens: set<string>,
                         ops: seq<S.Op>, i: nat, files: Files, response: Option<string>)
    requires Asks(request, order, "GET", "/", tokens)
    requires S.Opens(tokens, ops, i, CookieOf(request, sessionID))
    requires Answers(request, order, sessionID, tokens, S.Sessions(tokens, ops), files, response)
    ensures response.Some?
    ensures HeadThen(response.value, ["HTTP/1.1 301 Found", "Location: " + ("http://" + ops[i].host) + "/login"],
                     "Content-Security-Policy: default-src 'self'\r\n"
                     + ("Set-Cookie: " + CookieOf(request, sessionID)) + "\r\n")
  {
    hide HeadThen, Answers, Asks, CookieOf, StatusCode, S.Sessions;
    GetRoot(request, order, sessionID, tokens, S.Sessions(tokens, ops), files, response);
    S.OpenedIsMapped(tokens, ops, i, CookieOf(request, sessionID));
  }

  // ----- a client that prints its request -----

  /** A header line as a client prints it is found under its name, without the blanks around its value. */
  lemma HeaderIsFound(before: seq<string>, name: string, a: string, value: string, b: string, after: seq<string>,
                      f: Field)
    requires NameOf(f) == Some(name) && FirstNamed(before, name) == None
    requires forall c :: c in a + b ==> c == ' ' || c == '\t' || c == '\r'
    requires value != "" ==> value[0] !in " \t\r\n" && value[|value| - 1] !in " \t\r\n"
    requires !IsRequestLine(name + ":" + (a + value + b))
    ensures FirstNamed(before + [name + ":" + (a + value + b)] + after, name) == Some(value)
  {
    hide NameOf, FieldNamed, IsRequestLine, Trim, HeaderOf, FirstNamed, FieldValue, FieldName;
    TableIsNameOf(name, f);
    assert SPACES[0] == ' ' && SPACES[1] == '\t' && SPACES[3] == '\r';
    TrimUnique(a, value, b, SPACES);
    HeaderLineRoundTrip(name, a + value + b, f);
    HeaderIsFirstNamed(before, f);
    FirstGives(before, name + ":" + (a + value + b), after, f);
    HeaderIsFirstNamed(before + [name + ":" + (a + value + b)] + after, f);
  }

  /** A line with a name outside the table changes no header. */
  lemma UnknownNameChangesNothing(lines: seq<string>, line: string, f: Field)
    requires IsHeaderLine(line) && forall g :: NameOf(g) != Some(FieldName(line))
    ensures HeaderOf(lines + [line], f) == HeaderOf(lines, f)
  {
    hide NameOf, FieldNamed, IsHeaderLine, HeaderOf, FieldName, FieldValue;
    TableIsNameOf(FieldName(line), f);
    HeaderOfMore(lines, line, f);
  }

  /** A text of one line that is neither a header nor blank at its ends. */
  ghost predicate IsPlainBody(body: string) {
    body != "" && ' ' < body[0] && ' ' < body[|body| - 1] && HasPlainChars(body)
  }

  ghost predicate HasPlainChars(s: string) {
    forall c :: c in s ==> ' ' <= c <= '~' && c != ':' && c != 'H'
  }

  /** A plain body is read as it is. */
  lemma PlainBodyIsRead(body: string)
    requires IsPlainBody(body)
    ensures '\n' !in body && ':' !in body && BodyOf(Lines(body)) == body
  {
    hide Contains, Trim, RemoveSpecialCharacters, Lines;
    assert HTTP[0] == 'H' && body[0] !in BLANKS && body[|body| - 1] !in BLANKS;
    NothingToTrim(body, BLANKS);
    ContainedChar(body, HTTP, 'H');
    LastLine(body);
    NoSpecials(body);
    assert [body][..0] == [];
  }

  /** A plain body that is posted to /login asks to log in with it. */
  lemma PostedForm(form: string, order: seq<string>, tokens: set<string>)
    requires IsMethodOrder(order) && IsPlainBody(form)
    ensures var request := Print("POST", "/login", "1.1") + "\n" + form;
            Asks(request, order, "POST", "/login", tokens) && BodyOf(Lines(request)) == form
  {
    hide Lines, HeaderOf, IsMethodOrder, Print, NamesOnly, Contains, MethodOf, UrlOf, BodyOf, FirstNamed, IsPlainBody;
    PlainBodyIsRead(form);
    LoginLine(order);
    PostedBody(Print("POST", "/login", "1.1"), form);
    RequestLineRoundTrip("POST", "/login", "1.1", form, order);
    PrintedHasNoHeader("POST", "/login", "1.1", form, order, HEADER_AUTHORIZATION);
    HeaderIsFirstNamed(Lines(Print("POST", "/login", "1.1") + "\n" + form), HEADER_AUTHORIZATION);
  }

  lemma LoginLine(order: seq<string>)
    requires IsMethodOrder(order)
    ensures var line := Print("POST", "/login", "1.1");
            && '\n' !in line && NamesOnly(line, "POST") && IsRequestLine(line)
            && ' ' !in "/login" && !Contains("1.1", HTTP) && "POST" in METHODS
  {
    hide NamesOnly, Contains, Print, IsMethodOrder, MethodsIn, UrlsAfter, IsRequestLine;
    LoginLineIs();
    LoginLineNamesOnlyPost(Print("POST", "/login", "1.1"));
    NoHttpInVersion();
    assert METHODS[1] == "POST" && ' ' !in "/login";
    PrintOffers("POST", "/login", "1.1", order);
  }

  lemma PostedBody(line: string, body: string)
    requires '\n' !in line && IsRequestLine(line) && BodyOf(Lines(body)) == body
    ensures BodyOf(Lines(line + "\n" + body)) == body
  {
    hide Lines, BodyOf, IsRequestLine;
    FirstLine(line, body);
    BodyBehind(line, Lines(body));
  }

  lemma GoodFields(user: string, rest: string)
    requires user == "username=vivek" && rest == "password=vivek"
    ensures HasPlainChars(user) && HasPlainChars(rest) && HasPlainChars("&") && '&' !in user
    ensures user == "username" + "=" + "vivek" && rest == "password" + "=" + "vivek"
    ensures '=' !in "username" && '=' !in "password" && user[0] == 'u' && rest[|rest| - 1] == 'k'
  {
  }

  /** A concrete form that logs in. */
  lemma GoodForm(user: string, rest: string)
    requires user == "username=vivek" && rest == "password=vivek"
    ensures IsPlainBody(user + "&" + rest) && IsLoginForm(user + "&" + rest)
  {
    GoodFields(user, rest);
    hide HasPlainChars, IsPair;
    JoinedPlainChars(user, rest);
    PairIs(user, "username", "vivek");
    PairIs(rest, "password", "vivek");
    assert LoginParts(user + "&" + rest, user, rest);
  }

  lemma JoinedPlainChars(a: string, b: string)
    requires HasPlainChars(a) && HasPlainChars(b) && HasPlainChars("&")
    ensures HasPlainChars(a + "&" + b)
  {
    assert forall c :: c in a + "&" + b ==> c in a || c in "&" || c in b;
  }

  lemma PairIs(s: string, key: string, v: string)
    requires '=' !in key && s == key + "=" + v
    ensures IsPair(s, v)
  {
  }

  lemma BadForm(form: string)
    requires form == "username=a&password=b"
    ensures IsPlainBody(form) && '&' in form && !IsLoginForm(form)
  {
    assert form[10] == '&' && 'v' !in form;
    forall user: string, rest: string ensures LoginParts(form, user, rest) ==> 'v' in form {
      if LoginParts(form, user, rest) {
        EndsInPassword(form, user, rest);
      }
    }
  }

  lemma EndsInPassword(form: string, user: string, rest: string)
    requires LoginParts(form, user, rest)
    ensures 'v' in form
  {
    var key: string :| '=' !in key && rest == key + "=" + "vivek";
    assert rest[|rest| - 5] == "vivek"[0] == 'v';
    assert form[|form| - 5] == rest[|rest| - 5];
  }

  /** The right form gets the home page, and a wrong one is refused. */
  lemma LoginHappens(order: seq<string>, sessionID: string, tokens: set<string>, sessions: map<string, S.Session>,
                     files: Files, response: Option<string>, right: bool)
    requires IsMethodOrder(order)
    requires Answers(Print("POST", "/login", "1.1") + "\n" + Form(right),
                     order, sessionID, tokens, sessions, files, response)
    requires Contains(files.read("webFiles/HTML/home.html"), "MESSAGE")
    requires Contains(files.read("webFiles/HTML/index.html"), "ERROR_MESSAGE")
    ensures response.Some? && StatusCode(response.value) == Some(if right then "200" else "401")
  {
    hide Answers, FindsPage, IsMethodOrder, Asks, Contains, IsLoginForm, IsPlainBody, BodyOf, Lines, Print, StatusCode;
    var request := Print("POST", "/login", "1.1") + "\n" + Form(right);
    if right {
      GoodForm("username=vivek", "password=vivek");
      PostedForm(Form(right), order, tokens);
      PostLoginForm(request, order, sessionID, tokens, sessions, files, response);
      FoundPage(response, HomeLines(CookieOf(request, sessionID)), files.Home(), "MESSAGE", files.aboutMe);
    } else {
      BadForm("username=a&password=b");
      PostedForm(Form(right), order, tokens);
      PostOtherForm(request, order, sessionID, tokens, sessions, files, response);
      FoundPage(response, LoginLines(true, CookieOf(request, sessionID)), files.Index(), "ERROR_MESSAGE",
                "<span>Invalid credential</span>");
    }
  }

  function Form(right: bool): string {
    if right then "username=vivek" + "&" + "password=vivek" else "username=a&password=b"
  }

  lemma FoundPage(response: Option<string>, lines: seq<string>, file: string, placeholder: string, text: string)
    requires Contains(file, placeholder)
    ensures FindsPage(response, lines, file, placeholder, text) ==> response.Some?
  {
  }
}
