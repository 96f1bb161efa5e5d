/** One request from its bytes to its response: parser, session map, dispatch and generators together. */
module HttpService {
  import opened Common
  import opened CppString
  import opened HttpParser
  import opened HttpRequestLaws
  import opened HttpResponse
  import opened HttpLogin
  import S = HttpSession

  /** What the files hold, nothing for one that cannot be read, and the text that the home page shows. */
  datatype Files = Files(read: string -> string, aboutMe: string) {
    function Index(): string {
      read("webFiles/HTML/index.html")
    }

    function Home(): string {
      read("webFiles/HTML/home.html")
    }

    /** The style sheet for a URL, whose leading slashes are not part of the file's name. */
    function Sheet(url: string): string {
      read("webFiles/CSS/" + TrimLeft(url, "/"))
    }
  }

  const INVALID_TOKEN: string := "Invalid Bearer Token...Please pass the correct bearer token"
  const INVALID_CREDENTIAL: string := "<span>Invalid credential</span>"

  /**
   The client finds these header lines and the file with its placeholder replaced, and the
   declared length is the page's.
   */
  ghost predicate ServesPage(response: Option<string>, lines: seq<string>,
                             file: string, placeholder: string, text: string)
  {
    if !Contains(file, placeholder) then response == None
    else
      response.Some?
      && exists page: string ::
           Replaced(file, placeholder, text, page) && Framed(response.value, lines, |page|, page)
  }

  /** The response to an answer; `None` is an exception that leaves the handler. */
  ghost predicate Serves(a: Answer, files: Files, hostURL: string, cookie: string, response: Option<string>) {
    match a
    case Redirect =>
      && response.Some?
      && HeadThen(response.value, [MOVED, Location(hostURL, "/login")], CSP + CRLF + SetCookie(cookie) + CRLF)
    case LoginPage(refused) =>
      ServesPage(response, LoginLines(refused, cookie),
                 files.Index(), "ERROR_MESSAGE", if refused then INVALID_CREDENTIAL else "")
    case HomePage => ServesPage(response, HomeLines(cookie), files.Home(), "MESSAGE", files.aboutMe)
    case Favicon => response.Some? && HeadThen(response.value, [OK, CLOSE], "")
    case StyleSheet(url) =>
      response.Some? && if files.Sheet(url) == "" then IsMissingSheet(response.value, cookie)
                        else Framed(response.value, SheetLines(cookie), |files.Sheet(url)|, files.Sheet(url))
    case Nothing => response == Some("")
    case Crash => response == None
  }

  /** The 404 response: two header lines and no end of the header block. */
  ghost predicate IsMissingSheet(response: string, cookie: string) {
    response == Head([NOT_FOUND, SetCookie(cookie)]) && !Contains(response, BLANK_LINE)
  }

  /** The generator for each answer. */
  method Generate(a: Answer, files: Files, hostURL: string, cookie: string) returns (response: Option<string>)
    requires '\n' !in cookie && '\n' !in hostURL
    ensures Serves(a, files, hostURL, cookie, response)
  {
    hide Contains, Replaced, Framed, HeadThen, Head, SetCookie, Location, LoginLines, HomeLines, SheetLines;
    match a
    case Redirect =>
      assert '\n' !in "/login";
      var r := GenerateRedirect(hostURL, "/login", cookie);
      return Some(r);
    case LoginPage(refused) =>
      ghost var page;
      assert INVALID_CREDENTIAL[0] == '<';
      response, page := GenerateLogin(files.Index(), cookie, if refused then INVALID_CREDENTIAL else "");
    case HomePage =>
      ghost var page;
      response, page := GenerateHomePage(files.Home(), cookie, files.aboutMe);
    case Favicon =>
      var r := GenerateFavicon();
      return Some(r);
    case StyleSheet(url) =>
      var r := GenerateCSSResponse(files.Sheet(url), cookie);
      return Some(r);
    case Nothing => return Some("");
    case Crash => return None;
  }

  /** The session's answer to what the parser found. */
  method Answering(p: HttpParams, ghost order: seq<string>, ghost sessionID: string) returns (a: Answer)
    requires p.Parsed(order, sessionID)
    ensures a == AnswerTo(p.m_HttpRequest, order)
  {
    hide Lines, MethodOf, UrlOf, BodyOf, HeaderOf, IsInvalid, ProcessPost, ProcessGet;
    a := Dispatch(p.GetParams(HEADER_METHOD), p.GetParams(HEADER_RESOURCE_URL), p.m_HttpRequestBody);
  }

  /** The host that the session of a parsed request redirects to never holds a newline. */
  lemma HostHasNoNewline(p: HttpParams, order: seq<string>, sessionID: string)
    requires p.Parsed(order, sessionID)
    ensures '\n' !in p.GetParams(HEADER_HOST)
  {
    hide Lines, HeaderOf, MethodOf, UrlOf, BodyOf, IsInvalid;
    HeaderHasNoNewline(p.m_HttpRequest, HEADER_HOST);
  }

  /** The hosts of all sessions are free of newlines. */
  ghost predicate CleanHosts(m: map<string, S.Session>) {
    forall c :: c in m ==> '\n' !in m[c].m_HostURL
  }

  /** What the session map sees of a request. */
  ghost function OpOf(request: string, sessionID: string, userId: string): S.Op {
    var lines := Lines(request);
    S.Request(HeaderOf(lines, HEADER_AUTHORIZATION).GetOr(""), HeaderOf(lines, HEADER_COOKIE).GetOr(sessionID),
              HeaderOf(lines, HEADER_HOST).GetOr(""), userId)
  }

  /** The token check turns the request away. */
  ghost predicate TurnedAway(op: S.Op, tokens: set<string>)
    requires op.Request?
  {
    op.bearerToken != "" && op.bearerToken !in tokens
  }

  /**
   The response that a request deserves when the map, itself included, is `sessions`: a bad token
   gets the error page, two bytes longer than declared, and any other request gets the answer
   that its text means, framed as `Serves` says.
   */
  ghost predicate Answers(request: string, order: seq<string>, sessionID: string, tokens: set<string>,
                          sessions: map<string, S.Session>, files: Files, response: Option<string>)
  {
    var op := OpOf(request, sessionID, "");
    if TurnedAway(op, tokens) then
      && response.Some?
      && Framed(response.value, ErrorLines(op.cookie), |INVALID_TOKEN|, INVALID_TOKEN + CRLF)
    else
      && op.cookie in sessions
      && Serves(AnswerTo(request, order), files, sessions[op.cookie].m_HostURL, op.cookie, response)
  }

  /** Every request is parsed, checked against the session map, dispatched and answered. */
  method Handle(request: string, order: seq<string>, sessionID: string, userId: string,
                manager: S.HttpSessionManager, files: Files)
    returns (response: Option<string>)
    requires Ready(manager) && '\n' !in sessionID
    modifies manager
    ensures Ready(manager) && manager.ops == old(manager.ops) + [OpOf(request, sessionID, userId)]
    ensures Answers(request, order, sessionID, manager.m_AccessTokenInfo, manager.m_SessionInfo, files, response)
  {
    var p := new HttpParams(request, order, sessionID);
    HostHasNoNewline(p, order, sessionID);
    CookieHasNoNewline(p, order, sessionID);
    ParamsAre(p, order, sessionID, userId);
    hide *;
    var a := Answering(p, order, sessionID);
    var op := S.Request(p.GetParams(HEADER_AUTHORIZATION), p.GetParams(HEADER_COOKIE),
                        p.GetParams(HEADER_HOST), userId);
    var session := Enter(manager, op);
    if session.None? {
      var r := GenerateErrorResponse(op.cookie, INVALID_TOKEN);
      RefusedIs(request, order, sessionID, userId, manager, files, r);
      return Some(r);
    }
    response := Generate(a, files, session.value.m_HostURL, op.cookie);
    ServedIs(request, order, sessionID, userId, manager, files, response);
  }

  /** The manager's map follows its history and no host in it has a newline. */
  ghost predicate Ready(manager: S.HttpSessionManager)
    reads manager
  {
    manager.Valid() && CleanHosts(manager.m_SessionInfo)
  }

  /** The session map step, keeping the hosts clean. */
  method Enter(manager: S.HttpSessionManager, op: S.Op) returns (session: Option<S.Session>)
    requires Ready(manager) && op.Request? && '\n' !in op.host
    modifies manager
    ensures Ready(manager) && manager.ops == old(manager.ops) + [op]
    ensures session.None? <==> TurnedAway(op, manager.m_AccessTokenInfo)
    ensures session.Some? ==>
              && op.cookie in manager.m_SessionInfo && session.value == manager.m_SessionInfo[op.cookie]
              && '\n' !in session.value.m_HostURL
  {
    assert '\n' !in "http://";
    session := manager.ProcessHTTPMessage(op.bearerToken, op.cookie, op.host, op.userId);
  }

  lemma RefusedIs(request: string, order: seq<string>, sessionID: string, userId: string,
                  manager: S.HttpSessionManager, files: Files, r: string)
    requires TurnedAway(OpOf(request, sessionID, userId), manager.m_AccessTokenInfo)
    requires Framed(r, ErrorLines(OpOf(request, sessionID, userId).cookie), |INVALID_TOKEN|, INVALID_TOKEN + CRLF)
    ensures Answers(request, order, sessionID, manager.m_AccessTokenInfo, manager.m_SessionInfo, files, Some(r))
  {
    hide Framed, Lines, HeaderOf, ErrorLines;
  }

  lemma ServedIs(request: string, order: seq<string>, sessionID: string, userId: string,
                 manager: S.HttpSessionManager, files: Files, response: Option<string>)
    requires var op := OpOf(request, sessionID, userId);
             && !TurnedAway(op, manager.m_AccessTokenInfo)
             && op.cookie in manager.m_SessionInfo
             && Serves(AnswerTo(request, order), files, manager.m_SessionInfo[op.cookie].m_HostURL, op.cookie, response)
    ensures Answers(request, order, sessionID, manager.m_AccessTokenInfo, manager.m_SessionInfo, files, response)
  {
    hide Serves, Lines, HeaderOf, AnswerTo;
  }

  lemma ParamsAre(p: HttpParams, order: seq<string>, sessionID: string, userId: string)
    requires p.Parsed(order, sessionID)
    ensures OpOf(p.m_HttpRequest, sessionID, userId) ==
            S.Request(p.GetParams(HEADER_AUTHORIZATION), p.GetParams(HEADER_COOKIE),
                      p.GetParams(HEADER_HOST), userId)
  {
    hide Lines, HeaderOf, MethodOf, UrlOf, BodyOf, IsInvalid;
  }
}
