/**
 What the meaning of a request promises: a request line or a header line that is printed and
 parsed again, the fallback to the login page, and the cookie.
 */
module HttpRequestLaws {
  import opened Common
  import opened CppString
  import opened HttpParser

  /** A request line as a client prints it. */
  function Print(m: string, url: string, version: string): string {
    m + " " + url + " " + HTTP + version
  }

  /** No method name but `m` occurs in the line. */
  ghost predicate NamesOnly(line: string, m: string) {
    forall n :: n in METHODS && n != m ==> !Contains(line, n)
  }

  /** The line as the parser trims it: only the version can lose blanks. */
  lemma TrimmedPrint(m: string, url: string, version: string)
    requires m in METHODS
    ensures Trim(Print(m, url, version), BLANKS) == Print(m, url, TrimRight(version, BLANKS))
  {
    var line := Print(m, url, version);
    assert line[0] == m[0] && m[0] !in BLANKS;
    assert TrimLeft(line, BLANKS) == line;
    var a := m + " " + url + " " + HTTP;
    assert a[|a| - 1] == '/';
    assert line == a + version;
    TrimRightAfter(a, version, BLANKS);
  }

  /** "HTTP/" cannot overlap itself: behind its own start it occurs only in what follows it. */
  lemma NoLaterHttp(pre: string, version: string, j: nat)
    requires !Contains(version, HTTP) && |pre| < j
    ensures !Occurs(pre + HTTP + version, HTTP, j)
  {
    var s := pre + HTTP + version;
    if j < |pre| + |HTTP| {
      assert s[j] == HTTP[j - |pre|] && HTTP[j - |pre|] != 'H';
      if j + |HTTP| <= |s| {
        assert s[j..j + |HTTP|][0] == s[j];
      }
    } else if j + |HTTP| <= |s| {
      var k := j - |pre| - |HTTP|;
      assert version[k..k + |HTTP|] == s[j..j + |HTTP|];
      assert !Occurs(version, HTTP, k);
    }
  }

  lemma LastHttp(pre: string, version: string)
    requires !Contains(version, HTTP)
    ensures RFind(pre + HTTP + version, HTTP) == Some(|pre|)
  {
    var s := pre + HTTP + version;
    assert s[|pre|..|pre| + |HTTP|] == HTTP;
    assert Occurs(s, HTTP, |pre|);
    forall j: nat | |pre| < j ensures !Occurs(s, HTTP, j) {
      NoLaterHttp(pre, version, j);
    }
  }

  /** What UrlAfter reads from a trimmed line whose rest behind the name is `pre`, "HTTP/" and a version. */
  lemma UrlBefore(line: string, m: string, t: string, pre: string, version: string)
    requires Trim(line, BLANKS) == t && t == m + (pre + HTTP + version) && !Contains(version, HTTP)
    ensures UrlAfter(line, m) == RemoveSpaces(pre)
  {
    hide Contains, Trim, RFind, RemoveSpaces;
    assert t[|m|..] == pre + HTTP + version;
    LastHttp(pre, version);
    assert (pre + HTTP + version)[..|pre|] == pre;
  }

  lemma RemoveSpacesAround(t: string)
    requires ' ' !in t
    ensures RemoveSpaces(" " + t + " ") == t
  {
    assert (" " + t + " ")[1..] == t + " ";
    RemoveSpacesBetween(t);
  }

  /** Trimming the version cannot make "HTTP/" occur in it. */
  lemma TrimmedVersion(version: string)
    requires !Contains(version, HTTP)
    ensures !Contains(TrimRight(version, BLANKS), HTTP)
  {
    var v := TrimRight(version, BLANKS);
    if Contains(v, HTTP) {
      ContainsInPrefix(version, v, HTTP);
    }
  }

  lemma PrintParts(m: string, url: string, v: string)
    ensures Print(m, url, v) == m + (" " + url + " " + HTTP + v)
  {
    assert m + " " + url == m + (" " + url);
  }

  lemma UrlOfPrint(m: string, url: string, version: string)
    requires m in METHODS && ' ' !in url && !Contains(version, HTTP)
    ensures UrlAfter(Print(m, url, version), m) == url
  {
    hide *;
    var v := TrimRight(version, BLANKS);
    TrimmedPrint(m, url, version);
    TrimmedVersion(version);
    PrintParts(m, url, v);
    UrlBefore(Print(m, url, version), m, Print(m, url, v), " " + url + " ", v);
    RemoveSpacesAround(url);
  }

  lemma {:induction false} OnlyMethodIn(order: seq<string>, line: string, m: string)
    requires forall i, j :: 0 <= i < j < |order| ==> order[i] != order[j]
    requires forall n :: n in order && n != m ==> !Contains(Trim(line, BLANKS), n)
    requires Contains(Trim(line, BLANKS), m)
    ensures MethodsIn(order, line) == if m in order then [m] else []
  {
    hide Contains, Trim;
    if order != [] {
      var k := |order| - 1;
      var front := order[..k];
      assert order[..k + 1] == order == front + [order[k]];
      assert order[k] !in front;
      assert forall n :: n in order <==> n in front || n == order[k];
      MethodsInMore(order, k, line);
      hide MethodsIn;
      OnlyMethodIn(front, line, m);
    }
  }

  lemma PrintContains(m: string, url: string, version: string)
    ensures Contains(Print(m, url, version), m) && Contains(Print(m, url, version), HTTP)
  {
    var s := Print(m, url, version);
    assert s[0..|m|] == m;
    assert Occurs(s, m, 0);
    var k := |m + " " + url + " "|;
    assert s[k..k + |HTTP|] == HTTP;
    assert Occurs(s, HTTP, k);
  }

  lemma TrimmedIsPrefix(m: string, url: string, version: string)
    requires m in METHODS
    ensures Trim(Print(m, url, version), BLANKS) <= Print(m, url, version)
  {
    TrimmedPrint(m, url, version);
  }

  lemma RequestLineIs(line: string)
    ensures IsRequestLine(line) <==> Contains(Trim(line, BLANKS), HTTP)
  {
  }

  /** The methods and URLs that a printed line offers: exactly its own. */
  lemma PrintOffers(m: string, url: string, version: string, order: seq<string>)
    requires IsMethodOrder(order) && m in METHODS && NamesOnly(Print(m, url, version), m)
    requires url != "" && ' ' !in url && !Contains(version, HTTP)
    ensures var line := Print(m, url, version);
            IsRequestLine(line) && MethodsIn(order, line) == [m] && UrlsAfter(line, [m]) == [url]
  {
    var line := Print(m, url, version);
    var t := Trim(line, BLANKS);
    TrimmedPrint(m, url, version);
    PrintContains(m, url, TrimRight(version, BLANKS));
    forall n | n in order && n != m ensures !Contains(t, n) {
      if Contains(t, n) {
        TrimmedIsPrefix(m, url, version);
        ContainsInPrefix(line, t, n);
      }
    }
    assert m in order;
    hide *;
    OnlyMethodIn(order, line, m);
    UrlOfPrint(m, url, version);
    OneUrlAfter(line, m);
    RequestLineIs(line);
  }

  /**
   A printed request line, parsed as the first line of any request, gives back its method and
   URL whatever the order in which the method table is walked.
   */
  lemma RequestLineRoundTrip(m: string, url: string, version: string, rest: string, order: seq<string>)
    requires IsMethodOrder(order) && m in METHODS && NamesOnly(Print(m, url, version), m)
    requires url != "" && ' ' !in url && !Contains(version, HTTP) && '\n' !in Print(m, url, version)
    ensures var lines := Lines(Print(m, url, version) + "\n" + rest);
            && MethodOf(lines, order) == Some(m)
            && UrlOf(lines, order) == Some(url)
            && !IsInvalid(lines, order)
  {
    var line := Print(m, url, version);
    FirstLine(line, rest);
    PrintOffers(m, url, version, order);
    var lines := [line] + Lines(rest);
    assert First(lines, IsRequestLine) == 0;
    FirstUrl(line, Lines(rest), order);
  }

  /** The URLs of the first line come first. */
  lemma {:induction false} FirstUrl(line: string, rest: seq<string>, order: seq<string>)
    requires IsRequestLine(line)
    ensures UrlsAfter(line, MethodsIn(order, line)) <= UrlsOf([line] + rest, order)
  {
    hide *;
    if rest == [] {
      NoMoreUrls(order);
      UrlsOfMore([], line, order);
      assert [line] + rest == [] + [line];
    } else {
      var n := |rest| - 1;
      FirstUrl(line, rest[..n], order);
      UrlsOfMore([line] + rest[..n], rest[n], order);
      assert [line] + rest == [line] + rest[..n] + [rest[n]];
    }
  }

  lemma NoMoreUrls(order: seq<string>)
    ensures UrlsOf([], order) == []
  {
  }

  /** Of several method names in the first request line, the one the table walk meets first wins. */
  lemma {:induction false} FirstMethodWins(order: seq<string>, line: string) returns (i: nat)
    ensures i <= |order| && forall j :: 0 <= j < i ==> !Contains(Trim(line, BLANKS), order[j])
    ensures i == |order| ==> MethodsIn(order, line) == []
    ensures i < |order| ==> Contains(Trim(line, BLANKS), order[i])
                            && MethodsIn(order, line) != [] && MethodsIn(order, line)[0] == order[i]
  {
    hide Contains, Trim;
    if order == [] {
      i := 0;
    } else {
      var k := |order| - 1;
      i := FirstMethodWins(order[..k], line);
      assert forall j :: 0 <= j < k ==> order[..k][j] == order[j];
      if i == k && !Contains(Trim(line, BLANKS), order[k]) {
        i := |order|;
      }
    }
  }

  lemma FallbackNow(lines: seq<string>, order: seq<string>)
    requires IsInvalid(lines, order)
    ensures MethodOf(lines, order) == Some("GET") && UrlOf(lines, order) == Some("/login")
  {
    hide MethodsIn;
  }

  /** Once the first request line had no method, the request is GET /login, whatever lines follow. */
  lemma {:induction false} FallbackStays(lines: seq<string>, more: seq<string>, order: seq<string>)
    requires IsInvalid(lines, order)
    ensures IsInvalid(lines + more, order)
    ensures MethodOf(lines + more, order) == Some("GET") && UrlOf(lines + more, order) == Some("/login")
  {
    hide *;
    if more == [] {
      assert lines + more == lines;
      FallbackNow(lines, order);
    } else {
      var n := |more| - 1;
      FallbackStays(lines, more[..n], order);
      assert lines + more == (lines + more[..n]) + [more[n]];
      MethodOfMore(lines + more[..n], more[n], order);
      UrlOfMore(lines + more[..n], more[n], order);
    }
  }

  // ----- the cookie -----

  lemma ValueHasNoNewline(line: string)
    requires '\n' !in line && ':' in Trim(line, BLANKS)
    ensures '\n' !in FieldValue(line)
  {
    var t := Trim(line, BLANKS);
    assert forall c :: c in t[IndexOf(t, ':') + 1..] ==> c in t;
  }

  /** A header value of a parsed request never holds a newline. */
  lemma HeaderHasNoNewline(request: string, f: Field)
    ensures HeaderOf(Lines(request), f).Some? ==> '\n' !in HeaderOf(Lines(request), f).value
  {
    var lines := Lines(request);
    var i := First(lines, line => Gives(line, f));
    if i < |lines| {
      ValueHasNoNewline(lines[i]);
    }
  }

  /** The cookie of a parsed request is free of newlines, given a session id that is. */
  lemma CookieHasNoNewline(p: HttpParams, order: seq<string>, sessionID: string)
    requires p.Parsed(order, sessionID) && '\n' !in sessionID
    ensures '\n' !in p.GetParams(HEADER_COOKIE)
  {
    hide Lines, HeaderOf, MethodOf, UrlOf, BodyOf, IsInvalid;
    HeaderHasNoNewline(p.m_HttpRequest, HEADER_COOKIE);
  }

  /**
   Not every request gets a session id: exactly those whose first Cookie line has an empty
   value are left with an empty cookie.
   */
  lemma CookieEmptyExactly(p: HttpParams, order: seq<string>, sessionID: string)
    requires p.Parsed(order, sessionID) && sessionID != ""
    ensures p.GetParams(HEADER_COOKIE) == "" <==> HeaderOf(Lines(p.m_HttpRequest), HEADER_COOKIE) == Some("")
  {
    hide Lines, HeaderOf, MethodOf, UrlOf, BodyOf, IsInvalid;
  }

  /** A header that some first lines give is the request's, whatever follows. */
  lemma {:induction false} HeaderStays(lines: seq<string>, more: seq<string>, f: Field)
    requires HeaderOf(lines, f).Some?
    ensures HeaderOf(lines + more, f) == HeaderOf(lines, f)
  {
    hide HeaderOf, Gives, FieldValue;
    if more == [] {
      assert lines + more == lines;
    } else {
      var n := |more| - 1;
      HeaderStays(lines, more[..n], f);
      assert lines + more == (lines + more[..n]) + [more[n]];
      HeaderOfMore(lines + more[..n], more[n], f);
    }
  }

  /** The first line that gives a field decides it. */
  lemma FirstGives(before: seq<string>, line: string, after: seq<string>, f: Field)
    requires HeaderOf(before, f).None? && Gives(line, f)
    ensures HeaderOf(before + [line] + after, f) == Some(FieldValue(line))
  {
    hide HeaderOf, Gives, FieldValue;
    HeaderOfMore(before, line, f);
    HeaderStays(before + [line], after, f);
  }

  lemma SecondLineGives(first: string, second: string, rest: string, f: Field)
    requires '\n' !in first && '\n' !in second && !Gives(first, f) && Gives(second, f)
    ensures HeaderOf(Lines(first + "\n" + (second + "\n" + rest)), f) == Some(FieldValue(second))
  {
    hide Lines, Gives, FieldValue, HeaderOf;
    FirstLine(first, second + "\n" + rest);
    FirstLine(second, rest);
    NothingGives(f);
    HeaderOfMore([], first, f);
    assert [] + [first] == [first];
    FirstGives([first], second, Lines(rest), f);
    assert [first] + ([second] + Lines(rest)) == [first] + [second] + Lines(rest);
  }

  lemma NothingGives(f: Field)
    ensures HeaderOf([], f).None?
  {
  }

  /** A text whose start `v` ends in `u`, which starts with `t`, in four parts. */
  lemma Regrouped(s: string, v: string, u: string, t: string)
    requires v <= s && |u| <= |v| && u == v[|v| - |u|..] && t <= u
    ensures s == v[..|v| - |u|] + t + (u[|t|..] + s[|v|..])
  {
    assert s == v + s[|v|..] && v == v[..|v| - |u|] + u && u == t + u[|t|..];
  }

  lemma BlanksAreSpaces(s: string)
    requires forall x :: x in s ==> x in BLANKS
    ensures forall x :: x in s ==> x in SPACES
  {
    assert SPACES[0] == ' ' && SPACES[1] == '\t';
  }

  /** Blanks trimmed from the end of a line are trimmed from its value anyway. */
  lemma TrimmedValue(value: string)
    ensures Trim(TrimRight(value, BLANKS), SPACES) == Trim(value, SPACES)
  {
    hide TrimLeft, TrimRight;
    var v := TrimRight(value, BLANKS);
    var u := TrimLeft(v, SPACES);
    var t := TrimRight(u, SPACES);
    var a, b, c := v[..|v| - |u|], u[|t|..], value[|v|..];
    Regrouped(value, v, u, t);
    BlanksAreSpaces(c);
    assert forall x :: x in a + (b + c) ==> x in SPACES;
    assert t == Trim(v, SPACES);
    hide *;
    TrimUnique(a, t, b + c, SPACES);
  }

  lemma NamesStartHigh(name: string)
    requires FieldNamed(name).Some?
    ensures name != "" && name[0] > ' ' && name[|name| - 1] > ' '
  {
  }

  lemma ShortNames(name: string)
    requires name == "Accept" || name == "Connection" || name == "Cookie" || name == "Host" || name == "User-Agent"
             || name == "X-Real-IP" || name == "Authorization"
    ensures ':' !in name
  {
  }

  lemma LongNames(name: string)
    requires name == "Accept-Encoding" || name == "Accept-Language" || name == "Cache-Control"
             || name == "Upgrade-Insecure-Requests" || name == "X-Forwarded-For" || name == "X-Forwarded-Proto"
    ensures ':' !in name
  {
  }

  lemma NamesHaveNoColon(name: string)
    requires FieldNamed(name).Some?
    ensures ':' !in name
  {
    if name == "Accept-Encoding" || name == "Accept-Language" || name == "Cache-Control"
       || name == "Upgrade-Insecure-Requests" || name == "X-Forwarded-For" || name == "X-Forwarded-Proto" {
      LongNames(name);
    } else {
      ShortNames(name);
    }
  }

  /** The names of the table are trimmed and have no ':'. */
  lemma NamesAreTrimmed(name: string)
    requires FieldNamed(name).Some?
    ensures name != "" && ':' !in name && name[0] !in SPACES && name[|name| - 1] !in SPACES
  {
    hide FieldNamed;
    NamesStartHigh(name);
    NamesHaveNoColon(name);
  }

  lemma TrimmedHeader(name: string, value: string)
    requires name != "" && name[0] !in BLANKS
    ensures Trim(name + ":" + value, BLANKS) == name + ":" + TrimRight(value, BLANKS)
  {
    var line := name + ":" + value;
    var a := name + ":";
    assert line == a + value && line[0] == name[0] && a[|a| - 1] == ':';
    assert TrimLeft(line, BLANKS) == line;
    TrimRightAfter(a, value, BLANKS);
  }

  // ----- blanks around a line -----

  /** Spaces and tabs around a line change nothing of what it means. */
  lemma BlanksAreIgnored(before: string, line: string, after: string, order: seq<string>, m: string, f: Field)
    requires forall c :: c in before + after ==> c == ' ' || c == '\t'
    requires line != "" ==> line[0] !in " \t" && line[|line| - 1] !in " \t"
    ensures var padded := before + line + after;
            && (IsRequestLine(padded) <==> IsRequestLine(line)) && (IsBodyLine(padded) <==> IsBodyLine(line))
            && (Gives(padded, f) <==> Gives(line, f))
            && (IsHeaderLine(line) ==> IsHeaderLine(padded) && FieldValue(padded) == FieldValue(line))
            && MethodsIn(order, padded) == MethodsIn(order, line) && UrlAfter(padded, m) == UrlAfter(line, m)
            && BodyOf([padded]) == BodyOf([line])
  {
    hide TrimLeft, TrimRight, Trim, Contains, FieldNamed, IndexOf, RFind, RemoveSpaces, RemoveSpecialCharacters;
    assert BLANKS[0] == ' ' && BLANKS[1] == '\t';
    TrimUnique(before, line, after, BLANKS);
    NothingToTrim(line, BLANKS);
    SameMethods(order, before + line + after, line);
    assert [before + line + after][..0] == [] && [line][..0] == [];
  }

  lemma {:induction false} SameMethods(order: seq<string>, a: string, b: string)
    requires Trim(a, BLANKS) == Trim(b, BLANKS)
    ensures MethodsIn(order, a) == MethodsIn(order, b)
  {
    hide Trim, Contains;
    if order != [] {
      SameMethods(order[..|order| - 1], a, b);
    }
  }

  // ----- the names of the headers -----

  /** The name under which a client sends a header. */
  function NameOf(f: Field): Option<string> {
    match f
    case HEADER_ACCEPT => Some("Accept")
    case HEADER_ACCEPT_ENCODING => Some("Accept-Encoding")
    case HEADER_ACCEPT_LANGUAGE => Some("Accept-Language")
    case HEADER_CACHE_CONTORL => Some("Cache-Control")
    case HEADER_CONNECTION => Some("Connection")
    case HEADER_COOKIE => Some("Cookie")
    case HEADER_HOST => Some("Host")
    case HEADER_UPGRADE_INSECURE_REQUESTS => Some("Upgrade-Insecure-Requests")
    case HEADER_USER_AGENT => Some("User-Agent")
    case HEADER_X_REAL_IP => Some("X-Real-IP")
    case HEADER_X_FORWARDED_FOR => Some("X-Forwarded-For")
    case HEADER_X_FORWARDED_PROTO => Some("X-Forwarded-Proto")
    case HEADER_AUTHORIZATION => Some("Authorization")
    case _ => None
  }

  /** The value of the first header line with this name. */
  function FirstNamed(lines: seq<string>, name: string): Option<string> {
    if lines == [] then None
    else if IsHeaderLine(lines[0]) && FieldName(lines[0]) == name then Some(FieldValue(lines[0]))
    else FirstNamed(lines[1..], name)
  }

  /** The parser's table has exactly these names. */
  lemma TableIsNameOf(name: string, f: Field)
    ensures FieldNamed(name) == Some(f) <==> NameOf(f) == Some(name)
  {
    hide FieldNamed;
    if NameOf(f) == Some(name) {
      NamesAreListed(f);
    }
    if FieldNamed(name) == Some(f) {
      ListedAreNames(name);
    }
  }

  lemma NamesAreListed(f: Field)
    ensures NameOf(f).Some? ==> FieldNamed(NameOf(f).value) == Some(f)
  {
  }

  lemma ListedAreNames(name: string)
    ensures FieldNamed(name).Some? ==> NameOf(FieldNamed(name).value) == Some(name)
  {
  }

  /** Each header is the value of the first line with its name; a field without a name has none. */
  lemma {:induction false} HeaderIsFirstNamed(lines: seq<string>, f: Field)
    ensures HeaderOf(lines, f) == if NameOf(f).Some? then FirstNamed(lines, NameOf(f).value) else None
  {
    hide FieldNamed, NameOf, IsHeaderLine, FieldName, FieldValue;
    if lines != [] {
      TableIsNameOf(FieldName(lines[0]), f);
      HeaderIsFirstNamed(lines[1..], f);
      HeaderOfRest(lines, f);
    }
  }

  lemma HeaderOfRest(lines: seq<string>, f: Field)
    requires lines != []
    ensures HeaderOf(lines, f) == if Gives(lines[0], f) then Some(FieldValue(lines[0])) else HeaderOf(lines[1..], f)
  {
    hide Gives, FieldValue;
  }

  /** A printed header line gives its field the trimmed value, for every name of the table. */
  lemma HeaderLineRoundTrip(name: string, value: string, f: Field)
    requires FieldNamed(name) == Some(f) && !IsRequestLine(name + ":" + value)
    ensures Gives(name + ":" + value, f) && FieldValue(name + ":" + value) == Trim(value, SPACES)
  {
    hide FieldNamed, Trim, TrimLeft, TrimRight, IndexOf, IsRequestLine;
    NamesAreTrimmed(name);
    assert name[0] !in BLANKS;
    TrimmedHeader(name, value);
    var v := TrimRight(value, BLANKS);
    var t := name + ":" + v;
    assert t == name + [':'] + v && t[|name|] == ':';
    IndexOfUnique(name, ':', v);
    assert t[..|name|] == name && t[|name| + 1..] == v;
    NothingToTrim(name, SPACES);
    TrimmedValue(value);
  }

  lemma EmptyCookieParts(line: string)
    requires line == "Cookie:\r"
    ensures '\n' !in line && line == "Cookie" + ":" + "\r" && 'H' !in line && 'H' in HTTP
    ensures FieldNamed("Cookie") == Some(HEADER_COOKIE)
    ensures forall c :: c in "\r" ==> c in SPACES
  {
    assert SPACES[3] == '\r' && HTTP[0] == 'H';
  }

  lemma EmptyCookieLine(line: string)
    requires line == "Cookie:\r"
    ensures '\n' !in line && Gives(line, HEADER_COOKIE) && FieldValue(line) == ""
  {
    hide Trim, Contains, FieldNamed;
    EmptyCookieParts(line);
    ContainedChar(Trim(line, BLANKS), HTTP, 'H');
    HeaderLineRoundTrip("Cookie", "\r", HEADER_COOKIE);
    assert Trim("\r", SPACES) == "";
  }

  lemma FirstLineIsRequest(line: string)
    requires line == "GET / HTTP/1.1\r"
    ensures '\n' !in line && !Gives(line, HEADER_COOKIE)
  {
    assert line[6..11] == HTTP;
    assert line[0] == 'G' && line[|line| - 1] == '\r';
    hide Trim, Contains;
    NothingToTrim(line, BLANKS);
    assert Contains(line, HTTP) by {
      assert Occurs(line, HTTP, 6);
    }
  }

  /** A request of a browser whose Cookie line is empty is left without a session id. */
  lemma EmptyCookieHappens(p: HttpParams, order: seq<string>, sessionID: string)
    requires p.m_HttpRequest == "GET / HTTP/1.1\r" + "\n" + ("Cookie:\r" + "\n" + "\r\n")
    requires p.Parsed(order, sessionID) && sessionID != ""
    ensures p.GetParams(HEADER_COOKIE) == ""
  {
    hide *;
    var first, second := "GET / HTTP/1.1\r", "Cookie:\r";
    FirstLineIsRequest(first);
    EmptyCookieLine(second);
    SecondLineGives(first, second, "\r\n", HEADER_COOKIE);
    CookieEmptyExactly(p, order, sessionID);
  }
}
