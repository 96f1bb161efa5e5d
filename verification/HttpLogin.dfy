/** How a session answers: the dispatch on method and URL, and the login form, of `HTTPSession.cpp`. */
module HttpLogin {
  import opened Common
  import opened CppString
  import opened HttpParser
  import opened HttpRequestLaws

  // ----- the login form -----

  /** `s.substr(eq + 1, length - eq)` from the first '=': the text behind it, and all of it when there is none. */
  function ValueOf(s: string): (r: Option<string>)
    ensures r == Some(if '=' in s then s[IndexOf(s, '=') + 1..] else s)
  {
    var eq := FindFirstOf(s, '=');
    Substr(s, At(eq.Behind()), eq.Before(|s|))
  }

  /** processLogin; `None` is a std::out_of_range, which nothing catches. */
  function ProcessLogin(requestBody: string): Option<Status> {
    if requestBody == "" then Some(ERROR)
    else
      var pos := FindFirstOf(requestBody, '&');
      match (Substr(requestBody, At(0), pos), Substr(requestBody, pos, pos.Before(|requestBody|)))
      case (Some(usernameString), Some(passwordString)) =>
        (match (ValueOf(usernameString), ValueOf(passwordString))
         case (Some(username), Some(password)) =>
           Some(if username == "vivek" && password == "vivek" then SUCCESS else ERROR)
         case _ => None)
      case _ => None
  }

  /** `s` is `key=v` for some key. */
  ghost predicate IsPair(s: string, v: string) {
    exists key: string :: '=' !in key && s == key + "=" + v
  }

  /** The value of a text is `v` exactly when the text is a pair with it, or is `v` itself without '='. */
  lemma ValueOfExactly(s: string, v: string)
    ensures ValueOf(s) == Some(v) <==> IsPair(s, v) || (s == v && '=' !in s)
  {
    var i := IndexOf(s, '=');
    if i < |s| {
      assert s == s[..i] + "=" + s[i + 1..];
      if ValueOf(s) == Some(v) {
        assert IsPair(s, v);
      }
    } else {
      assert s[..i] == s;
    }
    if IsPair(s, v) {
      var key: string :| '=' !in key && s == key + "=" + v;
      IndexOfUnique(key, '=', v);
      assert "=" == ['='];
      assert s == key + ['='] + v;
      assert s[|key| + 1..] == v;
    }
  }

  ghost predicate LoginParts(body: string, user: string, rest: string) {
    && '&' !in user && body == user + "&" + rest
    && (user == "vivek" || IsPair(user, "vivek")) && IsPair(rest, "vivek")
  }

  /** A body that logs in: a first field whose value is the name, '&', and a pair with the password. */
  ghost predicate IsLoginForm(body: string) {
    exists user: string, rest: string :: LoginParts(body, user, rest)
  }

  lemma IsPairBehindAmpersand(rest: string, v: string)
    ensures IsPair("&" + rest, v) <==> IsPair(rest, v)
  {
    var s := "&" + rest;
    if IsPair(s, v) {
      var key: string :| '=' !in key && s == key + "=" + v;
      assert (key + "=" + v)[0] == if key == "" then '=' else key[0];
      assert rest == s[1..] == key[1..] + "=" + v;
      assert '=' !in key[1..];
    }
    if IsPair(rest, v) {
      var key: string :| '=' !in key && rest == key + "=" + v;
      assert s == ("&" + key) + "=" + v;
      assert '=' !in "&" + key;
    }
  }

  /** A text splits at its first '&' in one way. */
  lemma SplitsOnce(u: string, r: string)
    requires '&' !in u
    ensures var body, pos := u + "&" + r, IndexOf(u + "&" + r, '&');
            pos == |u| && body[..pos] == u && body[pos + 1..] == r
  {
    IndexOfUnique(u, '&', r);
    assert "&" == ['&'];
    assert u + "&" + r == u + ['&'] + r;
  }

  /** Whether a body with '&' logs in is decided by what is before and behind its first '&'. */
  lemma FormAtFirstAmpersand(body: string)
    requires '&' in body
    ensures var pos := IndexOf(body, '&');
            && pos < |body|
            && (IsLoginForm(body) <==>
                (body[..pos] == "vivek" || IsPair(body[..pos], "vivek")) && IsPair(body[pos + 1..], "vivek"))
  {
    hide IsPair, IndexOf;
    var pos := IndexOf(body, '&');
    assert forall k :: 0 <= k < pos ==> body[..pos][k] == body[k];
    assert body == body[..pos] + "&" + body[pos + 1..];
    if IsLoginForm(body) {
      var user: string, rest: string :| LoginParts(body, user, rest);
      SplitsOnce(user, rest);
    }
    if (body[..pos] == "vivek" || IsPair(body[..pos], "vivek")) && IsPair(body[pos + 1..], "vivek") {
      assert LoginParts(body, body[..pos], body[pos + 1..]);
    }
  }

  /** Of the calls of substr only the password's throws, when there is no '&'; the name's then reads the whole body. */
  lemma OnlyPasswordThrows(body: string)
    ensures var pos, i := FindFirstOf(body, '&'), IndexOf(body, '&');
            && Substr(body, At(0), pos) == Some(body[..i])
            && Substr(body, pos, pos.Before(|body|)) == if '&' in body then Some(body[i..]) else None
    ensures ValueOf(body).Some?
  {
    hide ValueOf, IndexOf;
    assert body[..|body|] == body;
  }

  lemma NoAmpersandNoForm(body: string)
    requires '&' !in body
    ensures !IsLoginForm(body)
  {
    forall user: string, rest: string ensures !LoginParts(body, user, rest) {
      assert (user + "&" + rest)[|user|] == '&';
    }
  }

  lemma LoginByValues(body: string)
    ensures '&' !in body ==> ProcessLogin(body) == if body == "" then Some(ERROR) else None
    ensures var i := IndexOf(body, '&');
            '&' in body ==>
              ProcessLogin(body) ==
              Some(if ValueOf(body[..i]) == Some("vivek") == ValueOf(body[i..]) then SUCCESS else ERROR)
  {
    OnlyPasswordThrows(body);
    hide Substr, FindFirstOf, IndexOf;
  }

  lemma ValueBehindAmpersand(rest: string, v: string)
    requires v != "" && v[0] != '&'
    ensures ValueOf("&" + rest) == Some(v) <==> IsPair(rest, v)
  {
    assert ("&" + rest)[0] == '&';
    hide *;
    ValueOfExactly("&" + rest, v);
    IsPairBehindAmpersand(rest, v);
  }

  /** The two values are the name and the password exactly when the text is a login form. */
  lemma FormByValues(body: string)
    requires '&' in body
    ensures var i := IndexOf(body, '&');
            IsLoginForm(body) <==> ValueOf(body[..i]) == Some("vivek") == ValueOf(body[i..])
  {
    hide *;
    var pos := IndexOf(body, '&');
    assert body[pos..] == "&" + body[pos + 1..] by {
      assert body[..|body|] == body;
    }
    assert '=' !in "vivek" && "vivek"[0] == 'v';
    FormAtFirstAmpersand(body);
    ValueOfExactly(body[..pos], "vivek");
    ValueBehindAmpersand(body[pos + 1..], "vivek");
  }

  /** Login throws exactly on a non-empty body without '&', and accepts exactly the login forms. */
  lemma LoginExactly(body: string)
    ensures ProcessLogin(body) == None <==> body != "" && '&' !in body
    ensures ProcessLogin(body) == Some(SUCCESS) <==> IsLoginForm(body)
  {
    hide *;
    LoginByValues(body);
    if '&' in body {
      FormByValues(body);
    } else {
      NoAmpersandNoForm(body);
    }
  }

  // ----- dispatch -----

  /** Which generator answers; `Crash` is an exception that leaves the handler. */
  datatype Answer = Redirect | LoginPage(refused: bool) | HomePage | Favicon | StyleSheet(url: string) | Nothing | Crash

  function ProcessGet(url: string): Answer {
    if url == "/" then Redirect
    else if url == "/login" then LoginPage(false)
    else if url == "/home" then HomePage
    else if url == "/favicon.ico" then Favicon
    else if Contains(url, ".css") then StyleSheet(url)
    else Nothing
  }

  function ProcessPost(url: string, body: string): Answer {
    if url != "/login" then LoginPage(true)
    else
      match ProcessLogin(body)
      case Some(SUCCESS) => HomePage
      case Some(_) => LoginPage(true)
      case None => Crash
  }

  /** `HTTP_METHOD[httpMethod]` reads an absent name as HTTP_GET. */
  function Dispatch(httpMethod: string, url: string, body: string): Answer {
    if httpMethod == "POST" then ProcessPost(url, body)
    else if httpMethod == "GET" || httpMethod !in METHODS then ProcessGet(url)
    else Nothing
  }

  /** The answer to a parsed request. */
  ghost function AnswerTo(request: string, order: seq<string>): Answer {
    var lines := Lines(request);
    Dispatch(MethodOf(lines, order).GetOr(""), UrlOf(lines, order).GetOr(""), BodyOf(lines))
  }

  /** Only a POST to /login with a body and no '&' in it takes the handler down. */
  lemma CrashExactly(request: string, order: seq<string>)
    ensures var lines := Lines(request);
            AnswerTo(request, order) == Crash <==>
            && MethodOf(lines, order) == Some("POST") && UrlOf(lines, order) == Some("/login")
            && BodyOf(lines) != "" && '&' !in BodyOf(lines)
  {
    hide Lines, MethodOf, UrlOf, BodyOf, IsLoginForm;
    LoginExactly(BodyOf(Lines(request)));
  }

  /**
   A POST to /login is answered with the home page exactly for a login form, and with the refused
   login page exactly for an empty body and for a body with '&' that is no such form.
   */
  lemma PostLoginExactly(request: string, order: seq<string>)
    requires MethodOf(Lines(request), order) == Some("POST") && UrlOf(Lines(request), order) == Some("/login")
    ensures var body := BodyOf(Lines(request));
            && (AnswerTo(request, order) == HomePage <==> IsLoginForm(body))
            && (AnswerTo(request, order) == LoginPage(true) <==> !IsLoginForm(body) && (body == "" || '&' in body))
  {
    hide Lines, MethodOf, UrlOf, BodyOf, IsLoginForm, ProcessLogin;
    LoginExactly(BodyOf(Lines(request)));
  }

  /** Once some first lines of a request name no method, it is answered with the login page, whatever follows. */
  lemma InvalidGetsLogin(request: string, lines: seq<string>, more: seq<string>, order: seq<string>)
    requires IsInvalid(lines, order) && Lines(request) == lines + more
    ensures AnswerTo(request, order) == LoginPage(false)
  {
    FallbackStays(lines, more, order);
    hide Lines, MethodOf, UrlOf, BodyOf, IsInvalid;
    assert "GET" in METHODS;
  }

  lemma {:induction false} BodyBehind(line: string, lines: seq<string>)
    requires !IsBodyLine(line)
    ensures BodyOf([line] + lines) == BodyOf(lines)
  {
    hide IsBodyLine, BodyOf, RemoveSpecialCharacters, Trim;
    NoBody();
    if lines == [] {
      assert [line] + lines == [] + [line];
      BodyOfMore([], line);
    } else {
      var n := |lines| - 1;
      BodyBehind(line, lines[..n]);
      assert [line] + lines == ([line] + lines[..n]) + [lines[n]] && lines == lines[..n] + [lines[n]];
      BodyOfMore([line] + lines[..n], lines[n]);
      BodyOfMore(lines[..n], lines[n]);
    }
  }

  lemma NoBody()
    ensures BodyOf([]) == ""
  {
  }

  /** A printed request is answered by its own method and URL and the body that follows its first line. */
  lemma PrintedAnswered(m: string, url: string, version: string, rest: string, order: seq<string>)
    requires IsMethodOrder(order) && m in METHODS && NamesOnly(Print(m, url, version), m)
    requires url != "" && ' ' !in url && !Contains(version, HTTP) && '\n' !in Print(m, url, version)
    ensures AnswerTo(Print(m, url, version) + "\n" + rest, order) == Dispatch(m, url, BodyOf(Lines(rest)))
  {
    RequestLineRoundTrip(m, url, version, rest, order);
    PrintOffers(m, url, version, order);
    FirstLine(Print(m, url, version), rest);
    BodyBehind(Print(m, url, version), Lines(rest));
    hide Lines, MethodOf, UrlOf, BodyOf, IsRequestLine, Contains, Print, Dispatch;
  }

  lemma LoginLineLacks(line: string)
    requires line == "POST /login HTTP/1.1"
    ensures 'C' !in line && 'E' !in line
    ensures 'N' !in line && 'U' !in line
  {
  }

  /** Every method name but "POST" has a letter that the line lacks. */
  lemma LoginLineNamesOnlyPost(line: string)
    requires line == "POST /login HTTP/1.1"
    ensures NamesOnly(line, "POST")
  {
    LoginLineLacks(line);
    hide Contains;
    assert "GET"[1] == "HEAD"[1] == "DELETE"[1] == "CONNECT"[4] == "TRACE"[4] == 'E';
    assert "PUT"[1] == 'U' && "UNKNOWN"[1] == "OPTIONS"[5] == 'N' && "PATCH"[3] == 'C';
    ContainedChar(line, "GET", 'E');
    ContainedChar(line, "PATCH", 'C');
    ContainedChar(line, "PUT", 'U');
    ContainedChar(line, "OPTIONS", 'N');
    ContainedChar(line, "HEAD", 'E');
    ContainedChar(line, "DELETE", 'E');
    ContainedChar(line, "CONNECT", 'E');
    ContainedChar(line, "TRACE", 'E');
    ContainedChar(line, "UNKNOWN", 'N');
  }

  lemma LoginLineIs()
    ensures Print("POST", "/login", "1.1") == "POST /login HTTP/1.1"
    ensures '\n' !in "POST /login HTTP/1.1"
  {
  }

  lemma NoHttpInVersion()
    ensures !Contains("1.1", HTTP)
  {
    assert HTTP[0] == 'H';
    ContainedChar("1.1", HTTP, 'H');
  }

  lemma BodyOfOneLetter(rest: string)
    requires rest == "x"
    ensures BodyOf(Lines(rest)) == "x"
  {
    NothingToTrim(rest, BLANKS);
    assert HTTP[0] == 'H';
    ContainedChar(rest, HTTP, 'H');
    assert IndexOf(rest, '\n') == 1;
    assert rest[..1] == rest && Lines(rest) == [rest];
    assert [rest][..0] == [] && RemoveSpecialCharacters(rest) == rest;
  }

  /** A POST to /login with the body "x" is an exception, in whatever order the method table is walked. */
  lemma CrashHappens(order: seq<string>)
    requires IsMethodOrder(order)
    ensures AnswerTo(Print("POST", "/login", "1.1") + "\n" + "x", order) == Crash
  {
    assert METHODS[1] == "POST" && ' ' !in "/login" && '&' !in "x";
    hide Contains, Lines, BodyOf, Print, ProcessLogin, AnswerTo, IsMethodOrder, NamesOnly, IsLoginForm;
    LoginLineIs();
    LoginLineNamesOnlyPost(Print("POST", "/login", "1.1"));
    NoHttpInVersion();
    PrintedAnswered("POST", "/login", "1.1", "x", order);
    BodyOfOneLetter("x");
    LoginExactly("x");
  }
}
