/** Sessions by cookie (`HTTPSessionManager.cpp`). */
module HttpSession {
  import opened Common

  // ----- the session map -----

  /** A session object never changes; `born` is the operation that created it, which identifies it. */
  datatype Session = Session(born: nat, m_SessionId: string, m_UserId: string, m_HostURL: string)

  /** A request carries what the parser found, and the user id that a new session would draw. */
  datatype Op =
    | Request(bearerToken: string, cookie: string, host: string, userId: string)
    | Remove(sessionId: string)

  /** The token check of a request with this cookie: no token, or one that is stored. */
  predicate Passes(tokens: set<string>, op: Op, cookie: string) {
    op.Request? && op.cookie == cookie && (op.bearerToken == "" || op.bearerToken in tokens)
  }

  predicate Removes(op: Op, cookie: string) {
    op == Remove(cookie)
  }

  function OpenedBy(i: nat, op: Op): Session
    requires op.Request?
  {
    Session(i, op.cookie, op.userId, "http://" + op.host)
  }

  /** The map after one more operation, the `i`-th. */
  function MapAfter(tokens: set<string>, sessions: map<string, Session>, i: nat, op: Op): map<string, Session> {
    match op
    case Request(_, cookie, _, _) =>
      if Passes(tokens, op, cookie) && cookie !in sessions then sessions[cookie := OpenedBy(i, op)] else sessions
    case Remove(cookie) => sessions - {cookie}
  }

  function Sessions(tokens: set<string>, ops: seq<Op>): map<string, Session> {
    if ops == [] then map[]
    else var n := |ops| - 1; MapAfter(tokens, Sessions(tokens, ops[..n]), n, ops[n])
  }

  /** The cookie is not removed by the operations from `i` on. */
  ghost predicate KeptFrom(ops: seq<Op>, i: nat, cookie: string) {
    forall k :: i <= k < |ops| ==> !Removes(ops[k], cookie)
  }

  /** Operation `i` is the first request with the cookie that passed since the cookie's last removal. */
  ghost predicate Opens(tokens: set<string>, ops: seq<Op>, i: nat, cookie: string) {
    && i < |ops| && Passes(tokens, ops[i], cookie) && KeptFrom(ops, i, cookie)
    && forall j :: 0 <= j < i && Passes(tokens, ops[j], cookie) ==> !KeptFrom(ops, j, cookie)
  }

  lemma KeptFromMore(ops: seq<Op>, op: Op, i: nat, cookie: string)
    requires i <= |ops|
    ensures KeptFrom(ops + [op], i, cookie) <==> KeptFrom(ops, i, cookie) && !Removes(op, cookie)
  {
    var all := ops + [op];
    assert all[|ops|] == op;
    assert forall k :: 0 <= k < |ops| ==> all[k] == ops[k];
  }

  /**
   After any run a cookie that was opened since its last removal has the session that opened it,
   with that request's user id and host.
   */
  lemma {:induction false} OpenedIsMapped(tokens: set<string>, ops: seq<Op>, i: nat, cookie: string)
    requires Opens(tokens, ops, i, cookie)
    ensures cookie in Sessions(tokens, ops)
    ensures var session := Sessions(tokens, ops)[cookie];
            && session.born == i && session.m_SessionId == cookie
            && session.m_UserId == ops[i].userId && session.m_HostURL == "http://" + ops[i].host
    decreases |ops|
  {
    var n := |ops| - 1;
    var before := ops[..n];
    assert ops == before + [ops[n]];
    assert !Removes(ops[n], cookie);
    if i < n {
      forall j | 0 <= j <= i { KeptFromMore(before, ops[n], j, cookie); }
      assert Opens(tokens, before, i, cookie);
      OpenedIsMapped(tokens, before, i, cookie);
    } else if cookie in Sessions(tokens, before) {
      var k := MappedIsOpened(tokens, before, cookie);
      KeptFromMore(before, ops[n], k, cookie);
    }
  }

  /** After any run a cookie in the map was opened since its last removal. */
  lemma {:induction false} MappedIsOpened(tokens: set<string>, ops: seq<Op>, cookie: string) returns (i: nat)
    requires cookie in Sessions(tokens, ops)
    ensures Opens(tokens, ops, i, cookie)
    decreases |ops|
  {
    var n := |ops| - 1;
    var before := ops[..n];
    assert ops == before + [ops[n]];
    if cookie in Sessions(tokens, before) {
      i := MappedIsOpened(tokens, before, cookie);
      forall j | 0 <= j <= i { KeptFromMore(before, ops[n], j, cookie); }
    } else {
      i := n;
      forall j | 0 <= j < n && Passes(tokens, ops[j], cookie) ensures !KeptFrom(ops, j, cookie) {
        KeptFromMore(before, ops[n], j, cookie);
        if KeptFrom(before, j, cookie) {
          var k := FirstPass(tokens, before, j, cookie);
          OpenedIsMapped(tokens, before, k, cookie);
        }
      }
    }
  }

  /** If a request passed and the cookie was kept since, some request opened it. */
  lemma {:induction false} FirstPass(tokens: set<string>, ops: seq<Op>, j: nat, cookie: string) returns (i: nat)
    requires j < |ops| && Passes(tokens, ops[j], cookie) && KeptFrom(ops, j, cookie)
    ensures Opens(tokens, ops, i, cookie)
    decreases j
  {
    if k: nat :| k < j && Passes(tokens, ops[k], cookie) && KeptFrom(ops, k, cookie) {
      i := FirstPass(tokens, ops, k, cookie);
    } else {
      i := j;
    }
  }

  /** A cookie is in the map exactly when a request carrying it passed and it was not removed since. */
  lemma {:induction false} SessionMapAgrees(tokens: set<string>, ops: seq<Op>, cookie: string)
    ensures cookie in Sessions(tokens, ops) <==>
            exists j: nat :: j < |ops| && Passes(tokens, ops[j], cookie) && KeptFrom(ops, j, cookie)
  {
    if cookie in Sessions(tokens, ops) {
      var i := MappedIsOpened(tokens, ops, cookie);
    }
    if j: nat :| j < |ops| && Passes(tokens, ops[j], cookie) && KeptFrom(ops, j, cookie) {
      var i := FirstPass(tokens, ops, j, cookie);
      OpenedIsMapped(tokens, ops, i, cookie);
    }
  }

  /** While a cookie is kept it keeps its session: object, user id and first-seen host. */
  lemma {:induction false} SessionStays(tokens: set<string>, ops: seq<Op>, more: seq<Op>, cookie: string)
    requires cookie in Sessions(tokens, ops) && KeptFrom(more, 0, cookie)
    ensures cookie in Sessions(tokens, ops + more)
    ensures Sessions(tokens, ops + more)[cookie] == Sessions(tokens, ops)[cookie]
  {
    if more == [] {
      assert ops + more == ops;
    } else {
      var n := |more| - 1;
      SessionStays(tokens, ops, more[..n], cookie);
      assert (ops + more)[..|ops + more| - 1] == ops + more[..n];
      assert !Removes(more[n], cookie);
    }
  }

  datatype SessionStatus = SESSION_DELETED | SESSION_EXPIRED | SESSION_VALID

  class HttpSessionManager {
    var m_SessionInfo: map<string, Session>
    const m_AccessTokenInfo: set<string>
    var served: nat                             // distinguishes session objects
    ghost var ops: seq<Op>

    ghost predicate Valid()
      reads this
    {
      m_SessionInfo == Sessions(m_AccessTokenInfo, ops) && served == |ops|
    }

    constructor (tokens: set<string>)
      ensures Valid() && ops == [] && m_AccessTokenInfo == tokens
    {
      m_SessionInfo, m_AccessTokenInfo, served, ops := map[], tokens, 0, [];
    }

    /** The session that handles the request; `None` is the invalid-token error response. */
    method ProcessHTTPMessage(bearerToken: string, cookie: string, host: string, userId: string)
      returns (r: Option<Session>)
      requires Valid()
      modifies this
      ensures Valid() && ops == old(ops) + [Request(bearerToken, cookie, host, userId)]
      ensures r.None? <==> bearerToken != "" && bearerToken !in m_AccessTokenInfo
      ensures r.None? ==> m_SessionInfo == old(m_SessionInfo)
      ensures r.Some? ==> cookie in m_SessionInfo && r.value == m_SessionInfo[cookie]
      ensures r.Some? ==>
                m_SessionInfo ==
                if cookie in old(m_SessionInfo) then old(m_SessionInfo)
                else old(m_SessionInfo)[cookie := Session(|old(ops)|, cookie, userId, "http://" + host)]
    {
      ghost var op := Request(bearerToken, cookie, host, userId);
      assert (ops + [op])[..|ops|] == ops;
      if |bearerToken| > 0 {
        if bearerToken !in m_AccessTokenInfo {
          ops, served := ops + [op], served + 1;
          return None;
        }
      }
      if cookie !in m_SessionInfo {
        var sessionObject := Session(served, cookie, userId, "http://" + host);
        m_SessionInfo := m_SessionInfo[cookie := sessionObject];
      }
      ops, served := ops + [op], served + 1;
      return Some(m_SessionInfo[cookie]);
    }

    method RemoveSession(sessionId: string) returns (status: SessionStatus)
      requires Valid()
      modifies this
      ensures Valid() && ops == old(ops) + [Remove(sessionId)] && status == SESSION_DELETED
      ensures sessionId !in m_SessionInfo
    {
      assert (ops + [Remove(sessionId)])[..|ops|] == ops;
      if sessionId in m_SessionInfo {
        m_SessionInfo := m_SessionInfo - {sessionId};
      }
      ops, served := ops + [Remove(sessionId)], served + 1;
      return SESSION_DELETED;
    }

    method IsValidSession(sessionId: string) returns (status: SessionStatus)
      requires Valid()
      ensures status == if sessionId in Sessions(m_AccessTokenInfo, ops) then SESSION_VALID else SESSION_EXPIRED
    {
      return if sessionId !in m_SessionInfo then SESSION_EXPIRED else SESSION_VALID;
    }
  }
}
