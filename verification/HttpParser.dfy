/**
 The request parser of `HTTPParams.cpp`. The module first says what a request means, line by
 line and without state, and then has the parser's loop build exactly that.
 */
module HttpParser {
  import opened Common
  import opened CppString

  datatype Field =
    | HEADER_ACCEPT | HEADER_ACCEPT_ENCODING | HEADER_ACCEPT_LANGUAGE | HEADER_CACHE_CONTORL | HEADER_CONNECTION
    | HEADER_COOKIE | HEADER_HOST | HEADER_UPGRADE_INSECURE_REQUESTS | HEADER_USER_AGENT | HEADER_X_REAL_IP
    | HEADER_X_FORWARDED_FOR | HEADER_X_FORWARDED_PROTO | HEADER_REFERER | HEADER_METHOD | HEADER_RESOURCE_URL
    | HEADER_HTTP_ERROR | HEADER_AUTHORIZATION

  /** The HEADER_STRING table. */
  function FieldNamed(name: string): Option<Field> {
    if name == "Accept" then Some(HEADER_ACCEPT)
    else if name == "Accept-Encoding" then Some(HEADER_ACCEPT_ENCODING)
    else if name == "Accept-Language" then Some(HEADER_ACCEPT_LANGUAGE)
    else if name == "Cache-Control" then Some(HEADER_CACHE_CONTORL)
    else if name == "Connection" then Some(HEADER_CONNECTION)
    else if name == "Cookie" then Some(HEADER_COOKIE)
    else if name == "Host" then Some(HEADER_HOST)
    else if name == "Upgrade-Insecure-Requests" then Some(HEADER_UPGRADE_INSECURE_REQUESTS)
    else if name == "User-Agent" then Some(HEADER_USER_AGENT)
    else if name == "X-Real-IP" then Some(HEADER_X_REAL_IP)
    else if name == "X-Forwarded-For" then Some(HEADER_X_FORWARDED_FOR)
    else if name == "X-Forwarded-Proto" then Some(HEADER_X_FORWARDED_PROTO)
    else if name == "Authorization" then Some(HEADER_AUTHORIZATION)
    else None
  }

  /** The keys of the HTTP_METHOD table. */
  const METHODS: seq<string> :=
    ["GET", "POST", "PATCH", "PUT", "OPTIONS", "HEAD", "DELETE", "CONNECT", "TRACE", "UNKNOWN"]

  /** Some order in which the unordered HTTP_METHOD table may be walked. */
  ghost predicate IsMethodOrder(order: seq<string>) {
    && (forall n :: n in order <==> n in METHODS)
    && (forall i, j :: 0 <= i < j < |order| ==> order[i] != order[j])
  }

  const HTTP: string := "HTTP/"
  const BLANKS: string := " \t"
  const SPACES: string := " \t\n\r"

  // ----- what one line means -----

  predicate IsRequestLine(line: string) {
    Contains(Trim(line, BLANKS), HTTP)
  }

  predicate IsHeaderLine(line: string) {
    !IsRequestLine(line) && ':' in Trim(line, BLANKS)
  }

  predicate IsBodyLine(line: string) {
    !IsRequestLine(line) && ':' !in Trim(line, BLANKS)
  }

  function FieldName(line: string): string {
    var t := Trim(line, BLANKS);
    Trim(t[..IndexOf(t, ':')], SPACES)
  }

  function FieldValue(line: string): string
    requires ':' in Trim(line, BLANKS)
  {
    var t := Trim(line, BLANKS);
    Trim(t[IndexOf(t, ':') + 1..], SPACES)
  }

  /** The line is a header line for the field `f`. */
  predicate Gives(line: string, f: Field) {
    IsHeaderLine(line) && FieldNamed(FieldName(line)) == Some(f)
  }

  /** The methods of `order` whose names the line contains, in that order. */
  function MethodsIn(order: seq<string>, line: string): (ms: seq<string>)
    ensures forall m :: m in ms <==> m in order && Contains(Trim(line, BLANKS), m)
  {
    if order == [] then []
    else
      var n := |order| - 1;
      MethodsIn(order[..n], line) + if Contains(Trim(line, BLANKS), order[n]) then [order[n]] else []
  }

  /** The URL read after a method name: from the name's length to the last "HTTP/", without spaces. */
  function UrlAfter(line: string, m: string): string {
    var t := Trim(line, BLANKS);
    if |m| > |t| then ""
    else
      var u := t[|m|..];
      var pos := RFind(u, HTTP);
      RemoveSpaces(if pos.Some? then u[..pos.value] else u)
  }

  /** The URLs read after each of the methods `ms`, the empty ones left out. */
  function UrlsAfter(line: string, ms: seq<string>): (us: seq<string>)
    ensures forall u :: u in us ==> u != ""
  {
    if ms == [] then []
    else
      var n := |ms| - 1;
      UrlsAfter(line, ms[..n]) + if UrlAfter(line, ms[n]) != "" then [UrlAfter(line, ms[n])] else []
  }

  // ----- what a request means -----

  /** The first line that satisfies the test, or the number of lines. */
  function First(lines: seq<string>, test: string -> bool): (i: nat)
    ensures i <= |lines|
    ensures i < |lines| ==> test(lines[i])
    ensures forall j :: 0 <= j < i ==> !test(lines[j])
  {
    if lines == [] || test(lines[0]) then 0 else 1 + First(lines[1..], test)
  }

  /** The value of a header field: from the first line that gives it. */
  function HeaderOf(lines: seq<string>, f: Field): Option<string> {
    var i := First(lines, line => Gives(line, f));
    if i == |lines| then None else Some(FieldValue(lines[i]))
  }

  /** The first request line decides the method; one without a method counts as GET. */
  function MethodOf(lines: seq<string>, order: seq<string>): Option<string> {
    var i := First(lines, IsRequestLine);
    if i == |lines| then None
    else
      var ms := MethodsIn(order, lines[i]);
      Some(if ms == [] then "GET" else ms[0])
  }

  /** The request is bad: its first request line has no method. */
  predicate IsInvalid(lines: seq<string>, order: seq<string>) {
    var i := First(lines, IsRequestLine);
    i < |lines| && MethodsIn(order, lines[i]) == []
  }

  /** All URLs that the request lines offer, in order. */
  function UrlsOf(lines: seq<string>, order: seq<string>): (us: seq<string>) {
    if lines == [] then []
    else
      var n := |lines| - 1;
      UrlsOf(lines[..n], order) +
      if IsRequestLine(lines[n]) then UrlsAfter(lines[n], MethodsIn(order, lines[n])) else []
  }

  /** The first URL offered; /login when the first request line has no method. */
  function UrlOf(lines: seq<string>, order: seq<string>): Option<string> {
    if IsInvalid(lines, order) then Some("/login")
    else if UrlsOf(lines, order) == [] then None
    else Some(UrlsOf(lines, order)[0])
  }

  /** The printable characters of the trimmed body lines, in order. */
  function BodyOf(lines: seq<string>): string {
    if lines == [] then []
    else
      var n := |lines| - 1;
      BodyOf(lines[..n]) + if IsBodyLine(lines[n]) then RemoveSpecialCharacters(Trim(lines[n], BLANKS)) else []
  }

  // ----- adding a line -----

  lemma {:induction false} FirstOfMore(lines: seq<string>, line: string, test: string -> bool)
    ensures First(lines + [line], test) ==
            if First(lines, test) < |lines| then First(lines, test)
            else if test(line) then |lines| else |lines| + 1
  {
    if lines != [] && !test(lines[0]) {
      assert (lines + [line])[1..] == lines[1..] + [line];
      FirstOfMore(lines[1..], line, test);
    } else if lines == [] && !test(line) {
      assert [line][1..] == [];
    }
  }

  lemma HeaderOfMore(lines: seq<string>, line: string, f: Field)
    ensures HeaderOf(lines + [line], f) ==
            if HeaderOf(lines, f).Some? then HeaderOf(lines, f)
            else if Gives(line, f) then Some(FieldValue(line)) else None
  {
    hide First, Gives, FieldValue;
    FirstOfMore(lines, line, line => Gives(line, f));
  }

  /** The first request line keeps deciding the method and whether the request is bad. */
  lemma MethodOfMore(lines: seq<string>, line: string, order: seq<string>)
    ensures MethodOf(lines + [line], order) ==
            if MethodOf(lines, order).Some? || !IsRequestLine(line) then MethodOf(lines, order)
            else if MethodsIn(order, line) == [] then Some("GET") else Some(MethodsIn(order, line)[0])
    ensures IsInvalid(lines + [line], order) <==>
            IsInvalid(lines, order)
            || (MethodOf(lines, order).None? && IsRequestLine(line) && MethodsIn(order, line) == [])
  {
    FirstOfMore(lines, line, IsRequestLine);
    hide MethodsIn, First, IsRequestLine;
  }

  lemma {:induction false} NoRequestLineNoUrl(lines: seq<string>, order: seq<string>)
    ensures First(lines, IsRequestLine) == |lines| ==> UrlsOf(lines, order) == []
  {
    if lines != [] {
      var n := |lines| - 1;
      assert lines == lines[..n] + [lines[n]];
      FirstOfMore(lines[..n], lines[n], IsRequestLine);
      NoRequestLineNoUrl(lines[..n], order);
    }
  }

  /** Without a method so far there is no URL and no verdict. */
  lemma NoMethodNothing(lines: seq<string>, order: seq<string>)
    ensures MethodOf(lines, order).None? ==> UrlsOf(lines, order) == [] && !IsInvalid(lines, order)
  {
    NoRequestLineNoUrl(lines, order);
  }

  lemma UrlsOfMore(lines: seq<string>, line: string, order: seq<string>)
    ensures UrlsOf(lines + [line], order) ==
            UrlsOf(lines, order) + if IsRequestLine(line) then UrlsAfter(line, MethodsIn(order, line)) else []
  {
    assert (lines + [line])[..|lines|] == lines;
  }

  /** The first URL offered is kept. */
  lemma UrlOfMore(lines: seq<string>, line: string, order: seq<string>)
    ensures var us := UrlsAfter(line, MethodsIn(order, line));
            UrlOf(lines + [line], order) ==
            if UrlOf(lines, order).Some? || !IsRequestLine(line) then UrlOf(lines, order)
            else if MethodOf(lines, order).None? && MethodsIn(order, line) == [] then Some("/login")
            else if us == [] then None else Some(us[0])
    ensures UrlOf(lines, order).Some? ==> MethodOf(lines, order).Some?
  {
    hide *;
    MethodOfMore(lines, line, order);
    NoMethodNothing(lines, order);
    UrlsOfMore(lines, line, order);
    UrlOfCases(lines, order);
    UrlOfCases(lines + [line], order);
  }

  lemma UrlOfCases(lines: seq<string>, order: seq<string>)
    ensures UrlOf(lines, order) == if IsInvalid(lines, order) then Some("/login")
                                   else if UrlsOf(lines, order) == [] then None else Some(UrlsOf(lines, order)[0])
  {
  }

  lemma BodyOfMore(lines: seq<string>, line: string)
    ensures BodyOf(lines + [line]) ==
            BodyOf(lines) + if IsBodyLine(line) then RemoveSpecialCharacters(Trim(line, BLANKS)) else []
  {
    assert (lines + [line])[..|lines|] == lines;
  }

  // ----- the parser -----

  function Lookup(info: map<Field, string>, f: Field): Option<string> {
    if f in info then Some(info[f]) else None
  }

  /** The fields that HEADER_STRING can name. */
  predicate IsNamed(f: Field) {
    !f.HEADER_METHOD? && !f.HEADER_RESOURCE_URL? && !f.HEADER_REFERER? && !f.HEADER_HTTP_ERROR?
  }

  /** `info`, `body` and `invalid` say what the lines mean. */
  ghost predicate Means(lines: seq<string>, order: seq<string>, info: map<Field, string>, body: string, invalid: bool) {
    && (forall f :: IsNamed(f) ==> Lookup(info, f) == HeaderOf(lines, f))
    && Lookup(info, HEADER_METHOD) == MethodOf(lines, order)
    && Lookup(info, HEADER_RESOURCE_URL) == UrlOf(lines, order)
    && body == BodyOf(lines)
    && (invalid <==> IsInvalid(lines, order))
  }

  /** `insert` of each of `vs` in turn: what was there stays, otherwise the first comes. */
  function FirstCome(was: Option<string>, vs: seq<string>): Option<string> {
    if was.Some? || vs == [] then was else Some(vs[0])
  }

  ghost predicate SameNamed(a: map<Field, string>, b: map<Field, string>) {
    forall f :: IsNamed(f) ==> Lookup(a, f) == Lookup(b, f)
  }

  lemma ContainsFits(s: string, p: string)
    requires Contains(s, p)
    ensures |p| <= |s|
  {
  }

  /** `now` is `was` after the methods `ms` and the URLs `us` were inserted, each kept only if it came first. */
  ghost predicate Offered(was: map<Field, string>, ms: seq<string>, us: seq<string>, now: map<Field, string>) {
    && Lookup(now, HEADER_METHOD) == FirstCome(Lookup(was, HEADER_METHOD), ms)
    && Lookup(now, HEADER_RESOURCE_URL) == FirstCome(Lookup(was, HEADER_RESOURCE_URL), us)
    && SameNamed(was, now)
  }

  /** `now` and `bad'` are what a request line with the methods `ms` and the URLs `us` makes of `was` and `bad`. */
  ghost predicate Added(was: map<Field, string>, bad: bool, ms: seq<string>, us: seq<string>,
                        now: map<Field, string>, bad': bool)
  {
    var none := HEADER_METHOD !in was && ms == [];
    && Lookup(now, HEADER_METHOD) == (if none then Some("GET") else FirstCome(Lookup(was, HEADER_METHOD), ms))
    && Lookup(now, HEADER_RESOURCE_URL) ==
       (if none then Some("/login") else FirstCome(Lookup(was, HEADER_RESOURCE_URL), us))
    && (bad' <==> bad || none)
    && SameNamed(was, now)
  }

  /** `now` is what a header line makes of `was`. */
  ghost predicate HeaderAdded(was: map<Field, string>, raw: string, now: map<Field, string>)
    requires IsHeaderLine(raw)
  {
    && (forall f :: IsNamed(f) ==>
          Lookup(now, f) == if f in was then Some(was[f])
                            else if Gives(raw, f) then Some(FieldValue(raw)) else None)
    && Lookup(now, HEADER_METHOD) == Lookup(was, HEADER_METHOD)
    && Lookup(now, HEADER_RESOURCE_URL) == Lookup(was, HEADER_RESOURCE_URL)
  }

  lemma FieldNamedIsNamed(name: string)
    ensures FieldNamed(name).Some? ==> IsNamed(FieldNamed(name).value)
  {
  }

  lemma UrlNeedsMethod(lines: seq<string>, order: seq<string>, info: map<Field, string>, body: string, invalid: bool)
    requires Means(lines, order, info, body, invalid)
    ensures HEADER_RESOURCE_URL in info ==> HEADER_METHOD in info
  {
    UrlOfMore(lines, "", order);
    hide UrlOf, MethodOf, HeaderOf, BodyOf, IsInvalid;
  }

  lemma RequestLineMeans(lines: seq<string>, raw: string, order: seq<string>,
        was: map<Field, string>, body: string, bad: bool, now: map<Field, string>, bad': bool)
    requires Means(lines, order, was, body, bad) && IsRequestLine(raw)
    requires Added(was, bad, MethodsIn(order, raw), UrlsAfter(raw, MethodsIn(order, raw)), now, bad')
    ensures Means(lines + [raw], order, now, body, bad')
  {
    hide MethodOf, UrlOf, BodyOf, HeaderOf, IsInvalid, MethodsIn, UrlsAfter, IsRequestLine;
    MethodOfMore(lines, raw, order);
    UrlOfMore(lines, raw, order);
    BodyOfMore(lines, raw);
    forall f | IsNamed(f) ensures HeaderOf(lines + [raw], f) == HeaderOf(lines, f) {
      HeaderOfMore(lines, raw, f);
    }
  }

  lemma HeaderLineMeans(lines: seq<string>, raw: string, order: seq<string>,
        was: map<Field, string>, body: string, bad: bool, now: map<Field, string>)
    requires Means(lines, order, was, body, bad) && IsHeaderLine(raw) && HeaderAdded(was, raw, now)
    ensures Means(lines + [raw], order, now, body, bad)
  {
    hide MethodOf, UrlOf, BodyOf, HeaderOf, IsInvalid, MethodsIn, UrlsAfter, IsRequestLine, FieldName, FieldNamed;
    MethodOfMore(lines, raw, order);
    UrlOfMore(lines, raw, order);
    BodyOfMore(lines, raw);
    forall f | IsNamed(f) ensures Lookup(now, f) == HeaderOf(lines + [raw], f) {
      HeaderOfMore(lines, raw, f);
    }
  }

  lemma BodyLineMeans(lines: seq<string>, raw: string, order: seq<string>,
        info: map<Field, string>, body: string, bad: bool)
    requires Means(lines, order, info, body, bad) && IsBodyLine(raw)
    ensures Means(lines + [raw], order, info, body + RemoveSpecialCharacters(Trim(raw, BLANKS)), bad)
  {
    hide MethodOf, UrlOf, BodyOf, HeaderOf, IsInvalid, MethodsIn, UrlsAfter, IsRequestLine;
    MethodOfMore(lines, raw, order);
    UrlOfMore(lines, raw, order);
    BodyOfMore(lines, raw);
    forall f | IsNamed(f) ensures HeaderOf(lines + [raw], f) == HeaderOf(lines, f) {
      HeaderOfMore(lines, raw, f);
    }
  }

  lemma NothingMeans(order: seq<string>)
    ensures Means([], order, map[], "", false)
  {
  }

  lemma NoMoreLines()
    ensures Lines("") == []
  {
  }

  /** One getline. */
  lemma NextLine(s: string)
    requires s != ""
    ensures var i := IndexOf(s, '\n'); Lines(s) == [s[..i]] + Lines(if i == |s| then "" else s[i + 1..])
  {
  }

  lemma NothingOffered(info: map<Field, string>, raw: string)
    ensures MethodsIn([], raw) == [] && Offered(info, [], UrlsAfter(raw, []), info)
  {
  }

  lemma OneUrlAfter(raw: string, m: string)
    ensures UrlsAfter(raw, [m]) == if UrlAfter(raw, m) != "" then [UrlAfter(raw, m)] else []
  {
    assert UrlsAfter(raw, [m][..0]) == [];
  }

  lemma UrlsAfterMore(raw: string, ms: seq<string>, m: string)
    ensures UrlsAfter(raw, ms + [m]) == UrlsAfter(raw, ms) + UrlsAfter(raw, [m])
  {
    OneUrlAfter(raw, m);
    assert (ms + [m])[..|ms|] == ms;
  }

  lemma OfferedMore(was: map<Field, string>, raw: string, ms: seq<string>,
        mid: map<Field, string>, m: string, now: map<Field, string>)
    requires Offered(was, ms, UrlsAfter(raw, ms), mid) && Offered(mid, [m], UrlsAfter(raw, [m]), now)
    ensures Offered(was, ms + [m], UrlsAfter(raw, ms + [m]), now)
  {
    UrlsAfterMore(raw, ms, m);
    hide UrlsAfter;
  }

  lemma MethodsInMore(order: seq<string>, i: nat, raw: string)
    requires i < |order|
    ensures MethodsIn(order[..i + 1], raw) ==
            if Contains(Trim(raw, BLANKS), order[i]) then MethodsIn(order[..i], raw) + [order[i]]
            else MethodsIn(order[..i], raw)
  {
    assert order[..i + 1][..i] == order[..i];
  }

  /** `url` is `text`, or what `text` has before its last "HTTP/", without the spaces. */
  ghost predicate UpToLastHttp(text: string, url: string) {
    && ' ' !in url
    && (!Contains(text, HTTP) ==> url == RemoveSpaces(text))
    && (forall i: nat :: Occurs(text, HTTP, i) && (forall j :: i < j <= |text| ==> !Occurs(text, HTTP, j)) ==>
          url == RemoveSpaces(text[..i]))
  }

  /** `rfind` gives the last occurrence, if any. */
  lemma LastHttpIs(text: string)
    ensures if Contains(text, HTTP) then RFind(text, HTTP).Some? && RFind(text, HTTP).value <= |text|
            else RFind(text, HTTP).None?
    ensures forall i: nat :: Occurs(text, HTTP, i) && (forall j :: i < j <= |text| ==> !Occurs(text, HTTP, j)) ==>
              RFind(text, HTTP) == Some(i)
  {
    hide RFind;
    if RFind(text, HTTP).Some? {
      assert Contains(text, HTTP);
    }
  }

  class HttpParams {
    const m_HttpRequest: string
    var m_HttpRequestBody: string
    var m_HttpError: bool                        // INVALID_HTTP_METHOD rather than NO_ERROR
    var m_HeaderInfo: map<Field, string>

    constructor (httpRequest: string, order: seq<string>, sessionID: string)
      ensures m_HttpRequest == httpRequest
      ensures Parsed(order, sessionID)
    {
      m_HttpRequest := httpRequest;
      m_HttpRequestBody, m_HttpError, m_HeaderInfo := "", false, map[];
      new;
      Parse(order, sessionID);
    }

    /** What parse leaves: the meaning of the request, and a session id where no Cookie line gives one. */
    ghost predicate Parsed(order: seq<string>, sessionID: string)
      reads this
    {
      var lines := Lines(m_HttpRequest);
      var given := if HeaderOf(lines, HEADER_COOKIE).None? then m_HeaderInfo - {HEADER_COOKIE} else m_HeaderInfo;
      && Means(lines, order, given, m_HttpRequestBody, m_HttpError)
      && Lookup(m_HeaderInfo, HEADER_COOKIE) == Some(HeaderOf(lines, HEADER_COOKIE).GetOr(sessionID))
    }

    /** `unordered_map::insert`: a key that is present keeps its value. */
    method Insert(f: Field, v: string)
      modifies this`m_HeaderInfo
      ensures m_HeaderInfo == if f in old(m_HeaderInfo) then old(m_HeaderInfo) else old(m_HeaderInfo)[f := v]
    {
      if f !in m_HeaderInfo {
        m_HeaderInfo := m_HeaderInfo[f := v];
      }
    }

    function GetParams(f: Field): string
      reads this
    {
      Lookup(m_HeaderInfo, f).GetOr("")
    }

    /** Lines 135-142; the substring starts inside the line because the name occurs in it. */
    method ReadUrl(raw: string, name: string) returns (parsedString: string)
      requires Contains(Trim(raw, BLANKS), name)
      ensures |name| <= |Trim(raw, BLANKS)| && UpToLastHttp(Trim(raw, BLANKS)[|name|..], parsedString)
      ensures parsedString == UrlAfter(raw, name)
    {
      hide Trim, Occurs, Contains, RFind, RemoveSpaces;
      var line := Trim(raw, BLANKS);
      ContainsFits(line, name);
      parsedString := line[|name|..];
      LastHttpIs(parsedString);
      var pos := RFind(parsedString, HTTP);
      if pos.Some? {
        parsedString := parsedString[..pos.value];
      }
      parsedString := RemoveSpaces(parsedString);
    }

    /** Lines 132-144: a method named in the line offers its name and the URL after it. */
    method OfferMethod(raw: string, name: string)
      requires Contains(Trim(raw, BLANKS), name)
      modifies this
      ensures Offered(old(m_HeaderInfo), [name], UrlsAfter(raw, [name]), m_HeaderInfo)
      ensures unchanged(`m_HttpRequestBody) && unchanged(`m_HttpError)
    {
      hide UrlsAfter, UrlAfter, Contains, Trim;
      OneUrlAfter(raw, name);
      Insert(HEADER_METHOD, name);
      var parsedString := ReadUrl(raw, name);
      if |parsedString| > 0 {
        Insert(HEADER_RESOURCE_URL, parsedString);
      }
    }

    /** Lines 129-146: in table order, every method named in the line makes its offer. */
    method OfferMethods(raw: string, order: seq<string>)
      modifies this
      ensures unchanged(`m_HttpRequestBody) && unchanged(`m_HttpError)
      ensures Offered(old(m_HeaderInfo), MethodsIn(order, raw), UrlsAfter(raw, MethodsIn(order, raw)), m_HeaderInfo)
    {
      hide Offered, MethodsIn, UrlsAfter, Trim, Contains;
      var line := Trim(raw, BLANKS);
      var i := 0;
      NothingOffered(m_HeaderInfo, raw);
      assert order[..0] == [];
      while i < |order|
        invariant i <= |order| && unchanged(`m_HttpRequestBody) && unchanged(`m_HttpError)
        invariant var ms := MethodsIn(order[..i], raw); Offered(old(m_HeaderInfo), ms, UrlsAfter(raw, ms), m_HeaderInfo)
      {
        ghost var ms, was := MethodsIn(order[..i], raw), m_HeaderInfo;
        if Contains(line, order[i]) {
          OfferMethod(raw, order[i]);
          OfferedMore(old(m_HeaderInfo), raw, ms, was, order[i], m_HeaderInfo);
        }
        MethodsInMore(order, i, raw);
        i := i + 1;
      }
      assert order[..i] == order;
    }

    /** Lines 127-166. A stored URL comes with a stored method, so the fallback never overwrites one. */
    method ParseRequestLine(raw: string, order: seq<string>)
      requires HEADER_RESOURCE_URL in m_HeaderInfo ==> HEADER_METHOD in m_HeaderInfo
      modifies this
      ensures Added(old(m_HeaderInfo), old(m_HttpError), MethodsIn(order, raw), UrlsAfter(raw, MethodsIn(order, raw)),
                    m_HeaderInfo, m_HttpError)
      ensures m_HttpRequestBody == old(m_HttpRequestBody)
    {
      OfferMethods(raw, order);
      if HEADER_METHOD !in m_HeaderInfo {
        m_HttpError := true;
        Insert(HEADER_METHOD, "GET");
        if HEADER_RESOURCE_URL in m_HeaderInfo {
          assert false;
        }
        Insert(HEADER_RESOURCE_URL, "/login");
      }
    }

    /** Lines 171-185 */
    method ParseHeaderLine(raw: string, pos: nat)
      requires IsHeaderLine(raw) && pos == IndexOf(Trim(raw, BLANKS), ':')
      modifies this`m_HeaderInfo
      ensures HeaderAdded(old(m_HeaderInfo), raw, m_HeaderInfo)
    {
      hide IsRequestLine, FieldNamed, Trim, IndexOf, Contains;
      var line := Trim(raw, BLANKS);
      var headerFieldName := Trim(line[..pos], SPACES);
      var headerFieldValue := Trim(line[pos + 1..], SPACES);
      var it := FieldNamed(headerFieldName);
      assert headerFieldName == FieldName(raw) && headerFieldValue == FieldValue(raw);
      FieldNamedIsNamed(headerFieldName);
      hide FieldName, FieldValue;
      if it.Some? {
        Insert(it.value, headerFieldValue);
      }
    }

    /** The body of the loop of parse. */
    method ParseLine(raw: string, order: seq<string>, ghost done: seq<string>)
      requires Means(done, order, m_HeaderInfo, m_HttpRequestBody, m_HttpError)
      modifies this
      ensures Means(done + [raw], order, m_HeaderInfo, m_HttpRequestBody, m_HttpError)
    {
      hide Means, TrimLeft, TrimRight, Contains, Added, HeaderAdded, IndexOf, RemoveSpecialCharacters;
      var line := TrimLeft(raw, BLANKS);
      line := TrimRight(line, BLANKS);
      assert line == Trim(raw, BLANKS);
      hide Trim;
      UrlNeedsMethod(done, order, m_HeaderInfo, m_HttpRequestBody, m_HttpError);
      if Contains(line, HTTP) {
        ghost var was, bad := m_HeaderInfo, m_HttpError;
        ParseRequestLine(raw, order);
        RequestLineMeans(done, raw, order, was, m_HttpRequestBody, bad, m_HeaderInfo, m_HttpError);
        return;
      }
      var pos := IndexOf(line, ':');
      if pos < |line| {
        ghost var was := m_HeaderInfo;
        ParseHeaderLine(raw, pos);
        HeaderLineMeans(done, raw, order, was, m_HttpRequestBody, m_HttpError, m_HeaderInfo);
        return;
      }
      BodyLineMeans(done, raw, order, m_HeaderInfo, m_HttpRequestBody, m_HttpError);
      m_HttpRequestBody := m_HttpRequestBody + RemoveSpecialCharacters(line);
    }

    /** A Cookie line with an empty value keeps it: insert does not replace. */
    method GenerateCookieIfRequired(sessionID: string)
      modifies this`m_HeaderInfo
      ensures m_HeaderInfo == if HEADER_COOKIE in old(m_HeaderInfo) then old(m_HeaderInfo)
                              else old(m_HeaderInfo)[HEADER_COOKIE := sessionID]
    {
      var cookieID := GetParams(HEADER_COOKIE);
      if |cookieID| == 0 {
        Insert(HEADER_COOKIE, sessionID);
      }
    }

    /** The loop of parse, lines 113-188. */
    method ParseLines(order: seq<string>)
      requires m_HttpRequestBody == "" && !m_HttpError && m_HeaderInfo == map[]
      modifies this
      ensures Means(Lines(m_HttpRequest), order, m_HeaderInfo, m_HttpRequestBody, m_HttpError)
    {
      var streamString := m_HttpRequest;
      ghost var done: seq<string> := [];
      NothingMeans(order);
      hide *;
      while streamString != ""
        invariant Lines(m_HttpRequest) == done + Lines(streamString)
        invariant Means(done, order, m_HeaderInfo, m_HttpRequestBody, m_HttpError)
        decreases |streamString|
      {
        var i := IndexOf(streamString, '\n');
        var line := streamString[..i];
        NextLine(streamString);
        streamString := if i == |streamString| then "" else streamString[i + 1..];
        assert '\n' in "\n" by {
          assert "\n"[0] == '\n';
        }
        if line == "\n" {
          assert false;
        }
        ParseLine(line, order, done);
        done := done + [line];
      }
      NoMoreLines();
      assert Lines(m_HttpRequest) == done;
    }

    method Parse(order: seq<string>, sessionID: string)
      requires m_HttpRequestBody == "" && !m_HttpError && m_HeaderInfo == map[]
      modifies this
      ensures Parsed(order, sessionID)
    {
      ParseLines(order);
      hide Lines, HeaderOf, MethodOf, UrlOf, BodyOf, IsInvalid;
      ghost var info := m_HeaderInfo;
      assert Lookup(info, HEADER_COOKIE) == HeaderOf(Lines(m_HttpRequest), HEADER_COOKIE);
      GenerateCookieIfRequired(sessionID);
      assert HEADER_COOKIE !in info ==> m_HeaderInfo - {HEADER_COOKIE} == info;
    }
  }
}
