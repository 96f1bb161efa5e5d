/**
 Where the log messages are. A message is named by its position in write order; this module
 says how the remote logger moves messages between its queues and its two threads, without
 locks or program counters.
 */
module RemoteMail {
  import opened Common

  /**
   `byLogger` and `byRetry` hold the message the thread has popped and not yet disposed of.
   `overtaken` is history: ids that were pending when a direct send succeeded.
   */
  datatype Mail = Mail(
    written: seq<Text>,
    live: seq<nat>,
    pending: seq<nat>,
    byLogger: seq<nat>,
    byRetry: seq<nat>,
    delivered: seq<nat>,       // sendMessage returned SUCCESS, in that order
    dropped: seq<nat>,         // sendMessage returned ERROR, in that order
    overtaken: set<nat>)

  const EMPTY: Mail := Mail([], [], [], [], [], [], [], {})

  function Post(m: Mail, text: Text): Mail {
    m.(written := m.written + [text], live := m.live + [|m.written|])
  }

  function Pop(m: Mail): Mail
    requires m.live != []
  {
    m.(live := m.live[1..], byLogger := [m.live[0]])
  }

  function Take(m: Mail): Mail
    requires m.pending != []
  {
    m.(pending := m.pending[1..], byRetry := [m.pending[0]])
  }

  function DirectSent(m: Mail): Mail {
    m.(delivered := m.delivered + m.byLogger, byLogger := [], overtaken := m.overtaken + set b | b in m.pending)
  }

  function DirectLost(m: Mail): Mail {
    m.(dropped := m.dropped + m.byLogger, byLogger := [])
  }

  function Keep(m: Mail): Mail {
    m.(pending := m.pending + m.byLogger, byLogger := [])
  }

  function DrainSent(m: Mail): Mail {
    m.(delivered := m.delivered + m.byRetry, byRetry := [])
  }

  function DrainLost(m: Mail): Mail {
    m.(dropped := m.dropped + m.byRetry, byRetry := [])
  }

  /** The moves the protocol makes; a thread pops only when neither thread has a message. */
  datatype Move =
    | Stay | Posts(text: Text) | Pops | Takes
    | SendsDirect | LosesDirect | Keeps
    | SendsDrained | LosesDrained

  predicate Allowed(m: Mail, v: Move) {
    match v
    case Stay => true
    case Posts(_) => true
    case Pops => m.live != [] && m.byLogger == [] && m.byRetry == []
    case Takes => m.pending != [] && m.byLogger == [] && m.byRetry == []
    case SendsDirect => |m.byLogger| == 1
    case LosesDirect => |m.byLogger| == 1
    case Keeps => |m.byLogger| == 1
    case SendsDrained => |m.byRetry| == 1
    case LosesDrained => |m.byRetry| == 1
  }

  function After(m: Mail, v: Move): Mail
    requires Allowed(m, v)
  {
    match v
    case Stay => m
    case Posts(text) => Post(m, text)
    case Pops => Pop(m)
    case Takes => Take(m)
    case SendsDirect => DirectSent(m)
    case LosesDirect => DirectLost(m)
    case Keeps => Keep(m)
    case SendsDrained => DrainSent(m)
    case LosesDrained => DrainLost(m)
  }

  // ----- conservation -----

  /** All the places a message can be, each id with its multiplicity. */
  function Places(m: Mail): multiset<nat> {
    multiset(m.live) + multiset(m.pending) + multiset(m.byLogger) + multiset(m.byRetry)
    + multiset(m.delivered) + multiset(m.dropped)
  }

  /** The places together hold every written message exactly once. */
  ghost predicate Conserved(m: Mail) {
    Places(m) == multiset(Range(|m.written|))
  }

  lemma HeadTail<T>(q: seq<T>)
    requires q != []
    ensures multiset(q) == multiset{q[0]} + multiset(q[1..])
  {
    assert q == [q[0]] + q[1..];
  }

  lemma PopConserves(m: Mail)
    requires Allowed(m, Pops)
    ensures Places(Pop(m)) == Places(m)
  {
    HeadTail(m.live);
  }

  lemma TakeConserves(m: Mail)
    requires Allowed(m, Takes)
    ensures Places(Take(m)) == Places(m)
  {
    HeadTail(m.pending);
  }

  lemma PostAdds(m: Mail, text: Text)
    ensures var n: nat := |m.written|;
            && Places(Post(m, text)) == Places(m) + multiset{n}
            && multiset(Range(n + 1)) == multiset(Range(n)) + multiset{n}
  {
    assert Range(|m.written| + 1) == Range(|m.written|) + [|m.written|];
  }

  lemma DisposalConserves(m: Mail)
    ensures Places(DirectSent(m)) == Places(DirectLost(m)) == Places(Keep(m)) == Places(m)
    ensures Places(DrainSent(m)) == Places(DrainLost(m)) == Places(m)
  {
  }

  lemma MovesConserve(m: Mail, v: Move)
    requires Conserved(m) && Allowed(m, v)
    ensures Conserved(After(m, v))
  {
    hide Places, Range;
    DisposalConserves(m);
    match v
    case Posts(text) => PostAdds(m, text);
    case Pops => PopConserves(m);
    case Takes => TakeConserves(m);
    case _ =>
  }

  // ----- order -----

  function Popped(m: Mail): int {
    |m.written| - |m.live|
  }

  /** What has been popped and not disposed of, oldest first: the drain's message, the pending queue, the logger's. */
  function Held(m: Mail): seq<nat> {
    m.byRetry + m.pending + m.byLogger
  }

  /** The live queue is what was not popped; what is held is in write order; the logger has the newest. */
  ghost predicate Queued(m: Mail) {
    && 0 <= Popped(m)
    && (forall i :: 0 <= i < |m.live| ==> m.live[i] == Popped(m) + i)
    && |m.byLogger| + |m.byRetry| <= 1
    && (m.byLogger != [] ==> m.byLogger[0] == Popped(m) - 1)
    && Increasing(Held(m))
    && Below(Held(m), Popped(m))
    && Below(m.delivered, Popped(m) - |m.byLogger|)
  }

  /** Removing from either end of what is held. */
  lemma HeldAfter(m: Mail, v: Move)
    requires |m.byLogger| + |m.byRetry| <= 1 && Allowed(m, v)
    ensures Held(After(m, v)) ==
            match v
            case Pops => Held(m) + [m.live[0]]
            case SendsDirect => Held(m)[..|Held(m)| - 1]
            case LosesDirect => Held(m)[..|Held(m)| - 1]
            case SendsDrained => Held(m)[1..]
            case LosesDrained => Held(m)[1..]
            case _ => Held(m)
  {
    if v.Takes? {
      assert m.pending == [m.pending[0]] + m.pending[1..];
    }
  }

  /** Posting and popping. */
  lemma LiveKeepsQueues(m: Mail, v: Move)
    requires Queued(m) && Allowed(m, v) && (v.Posts? || v.Pops?)
    ensures Queued(After(m, v))
  {
    HeldAfter(m, v);
  }

  /** The logger disposes of its message. */
  lemma LoggerKeepsQueues(m: Mail, v: Move)
    requires Queued(m) && Allowed(m, v) && (v.SendsDirect? || v.LosesDirect? || v.Keeps?)
    ensures Queued(After(m, v))
  {
    HeldAfter(m, v);
  }

  /** The drain takes a message or disposes of it. */
  lemma RetryKeepsQueues(m: Mail, v: Move)
    requires Queued(m) && Allowed(m, v) && (v.Takes? || v.SendsDrained? || v.LosesDrained?)
    ensures Queued(After(m, v))
  {
    HeldAfter(m, v);
    if !v.Takes? {
      assert Held(m)[0] == m.byRetry[0];
    }
  }

  lemma MovesKeepQueues(m: Mail, v: Move)
    requires Queued(m) && Allowed(m, v)
    ensures Queued(After(m, v))
  {
    hide Queued;
    match v
    case Stay =>
    case Posts(_) => LiveKeepsQueues(m, v);
    case Pops => LiveKeepsQueues(m, v);
    case SendsDirect => LoggerKeepsQueues(m, v);
    case LosesDirect => LoggerKeepsQueues(m, v);
    case Keeps => LoggerKeepsQueues(m, v);
    case _ => RetryKeepsQueues(m, v);
  }

  /** Some delivered message is newer than `b`. */
  ghost predicate Passed(m: Mail, b: nat) {
    exists i :: 0 <= i < |m.delivered| && b < m.delivered[i]
  }

  ghost predicate NoneOvertaken(m: Mail) {
    forall d :: d in m.delivered ==> d !in m.overtaken
  }

  /** `overtaken` is exact: a waiting message is in it when a newer one was delivered, and only then. */
  ghost predicate Ordered(m: Mail) {
    && Queued(m)
    && (forall b :: b in m.byRetry + m.pending ==> (b in m.overtaken <==> Passed(m, b)) && b !in m.delivered)
    && (Increasing(m.delivered) <==> NoneOvertaken(m))
    && (forall b :: b in m.overtaken ==> b < Popped(m) - |m.byLogger|)
  }

  lemma EmptyIsOrdered()
    ensures Ordered(EMPTY)
  {
    assert Held(EMPTY) == [] && EMPTY.byRetry + EMPTY.pending == [];
    assert Queued(EMPTY);
    assert Increasing(EMPTY.delivered) && NoneOvertaken(EMPTY);
  }

  lemma AppendIncreasing(s: seq<nat>, x: nat)
    ensures Increasing(s + [x]) <==> Increasing(s) && Below(s, x)
  {
    var t := s + [x];
    if Increasing(t) {
      assert forall i :: 0 <= i < |s| ==> s[i] == t[i] && t[i] < t[|s|];
    }
  }

  lemma AppendPassed(m: Mail, n: Mail, x: nat, b: nat)
    requires n.delivered == m.delivered + [x]
    ensures Passed(n, b) <==> Passed(m, b) || b < x
  {
    assert n.delivered[|m.delivered|] == x;
    if Passed(m, b) {
      var i :| 0 <= i < |m.delivered| && b < m.delivered[i];
      assert n.delivered[i] == m.delivered[i];
    }
  }

  /** `x` was delivered after all else: what decides whether delivery is still in order. */
  lemma OneMoreDelivered(m: Mail, n: Mail, x: nat)
    requires Ordered(m) && n.delivered == m.delivered + [x]
    requires Below(m.delivered, x) <==> x !in n.overtaken
    requires forall d :: d in m.delivered ==> (d in n.overtaken <==> d in m.overtaken)
    ensures Increasing(n.delivered) <==> NoneOvertaken(n)
  {
    hide Queued, Increasing, Below, Passed;
    AppendIncreasing(m.delivered, x);
    assert forall d :: d in n.delivered <==> d in m.delivered || d == x;
  }

  /** The waiting messages are older than the logger's. */
  lemma WaitingBeforeLogger(m: Mail)
    requires Queued(m) && |m.byLogger| == 1
    ensures m.byRetry == [] && m.byLogger == [m.byLogger[0]] && m.byLogger[0] == Popped(m) - 1
    ensures forall b :: b in m.pending ==> b < m.byLogger[0]
  {
    var h := Held(m);
    forall b | b in m.pending ensures b < m.byLogger[0] {
      var i :| 0 <= i < |m.pending| && m.pending[i] == b;
      assert h[i] == b && h[|m.pending|] == m.byLogger[0];
    }
  }

  /** The message that the drain has taken is older than the pending ones. */
  lemma TakenBeforePending(m: Mail)
    requires Queued(m) && |m.byRetry| == 1
    ensures m.byLogger == [] && m.byRetry == [m.byRetry[0]]
    ensures forall b :: b in m.pending ==> m.byRetry[0] < b
  {
    var h := Held(m);
    forall b | b in m.pending ensures m.byRetry[0] < b {
      var i :| 0 <= i < |m.pending| && m.pending[i] == b;
      assert h[i + 1] == b && h[0] == m.byRetry[0];
    }
  }

  lemma DirectSentKeepsOrder(m: Mail)
    requires Ordered(m) && |m.byLogger| == 1
    ensures Ordered(DirectSent(m))
  {
    var n, x := DirectSent(m), m.byLogger[0];
    MovesKeepQueues(m, SendsDirect);
    WaitingBeforeLogger(m);
    hide Queued;
    assert n.delivered == m.delivered + [x];
    assert forall b :: b in m.pending ==> b in m.byRetry + m.pending;
    assert n.byRetry + n.pending == m.pending;
    forall b | b in m.pending ensures Passed(n, b) && b !in n.delivered {
      AppendPassed(m, n, x, b);
    }
    assert Below(m.delivered, x) && x !in n.overtaken by {
      BelowLogger(m);
    }
    hide Passed, Increasing, Below;
    OneMoreDelivered(m, n, x);
  }

  /** Everything delivered is older than the message that the logger holds. */
  lemma BelowLogger(m: Mail)
    requires Queued(m) && |m.byLogger| == 1
    ensures Below(m.delivered, m.byLogger[0]) && Popped(DirectSent(m)) - |DirectSent(m).byLogger| == m.byLogger[0] + 1
  {
  }

  lemma DrainSentKeepsOrder(m: Mail)
    requires Ordered(m) && |m.byRetry| == 1
    ensures Ordered(DrainSent(m))
  {
    var n, x := DrainSent(m), m.byRetry[0];
    MovesKeepQueues(m, SendsDrained);
    TakenBeforePending(m);
    hide Queued;
    assert n.delivered == m.delivered + [x];
    assert n.byRetry + n.pending == m.pending;
    assert forall b :: b in m.byRetry + m.pending <==> b == x || b in m.pending;
    assert Passed(m, x) <==> !Below(m.delivered, x) by {
      assert x !in m.delivered;
    }
    forall b | b in m.pending ensures (Passed(n, b) <==> Passed(m, b)) && b !in n.delivered {
      AppendPassed(m, n, x, b);
    }
    hide Passed, Increasing, Below;
    OneMoreDelivered(m, n, x);
  }

  /** The logger's message becomes the newest pending one, and nothing newer was delivered. */
  lemma KeepKeepsOrder(m: Mail)
    requires Ordered(m) && |m.byLogger| == 1
    ensures Ordered(Keep(m))
  {
    var n, x := Keep(m), m.byLogger[0];
    MovesKeepQueues(m, Keeps);
    WaitingBeforeLogger(m);
    BelowLogger(m);
    hide Queued;
    assert forall b :: b in n.byRetry + n.pending <==> b in m.byRetry + m.pending || b == x;
    assert !Passed(m, x) && x !in m.delivered;
    assert forall b :: Passed(n, b) <==> Passed(m, b);
    hide Passed, Increasing, Below;
  }

  /** Moves that deliver nothing and add nothing to what waits. */
  lemma QuietKeepsOrder(m: Mail, n: Mail)
    requires Ordered(m) && Queued(n) && n.delivered == m.delivered && n.overtaken == m.overtaken
    requires forall b :: b in n.byRetry + n.pending ==> b in m.byRetry + m.pending
    requires Popped(m) - |m.byLogger| <= Popped(n) - |n.byLogger|
    ensures Ordered(n)
  {
    hide Queued, Increasing;
    assert forall b :: Passed(n, b) <==> Passed(m, b);
    hide Passed;
  }

  lemma MovesKeepOrder(m: Mail, v: Move)
    requires Ordered(m) && Allowed(m, v)
    ensures Ordered(After(m, v))
  {
    match v
    case SendsDirect => DirectSentKeepsOrder(m);
    case SendsDrained => DrainSentKeepsOrder(m);
    case Keeps => KeepKeepsOrder(m);
    case _ =>
      MovesKeepQueues(m, v);
      hide Queued, Increasing, Passed, Below;
      QuietKeepsOrder(m, After(m, v));
  }

  // ----- a whole drain -----

  /** Draining the first `|oks|` pending messages; `oks[i]` says whether the i-th was sent. */
  function DrainRun(m: Mail, oks: seq<bool>): (n: Mail)
    requires |oks| <= |m.pending|
    ensures n.pending == m.pending[|oks|..]
  {
    if oks == [] then m
    else
      var t := Take(DrainRun(m, oks[..|oks| - 1]));
      if oks[|oks| - 1] then DrainSent(t) else DrainLost(t)
  }

  /** The elements of `s` whose flag is `v`, in order. */
  function Where(s: seq<nat>, flags: seq<bool>, v: bool): seq<nat>
    requires |s| == |flags|
  {
    if s == [] then []
    else Where(s[..|s| - 1], flags[..|s| - 1], v) + if flags[|s| - 1] == v then [s[|s| - 1]] else []
  }

  lemma DrainRunLast(m: Mail, oks: seq<bool>)
    requires 0 < |oks| <= |m.pending|
    ensures var n := DrainRun(m, oks[..|oks| - 1]);
            DrainRun(m, oks) == if oks[|oks| - 1] then DrainSent(Take(n)) else DrainLost(Take(n))
  {
  }

  lemma OneRound(n: Mail, ids: seq<nat>, k: nat)
    requires k < |ids| && n.pending == ids[k..]
    ensures DrainSent(Take(n)) == n.(pending := ids[k + 1..], byRetry := [], delivered := n.delivered + [ids[k]])
    ensures DrainLost(Take(n)) == n.(pending := ids[k + 1..], byRetry := [], dropped := n.dropped + [ids[k]])
  {
    assert n.pending[0] == ids[k] && n.pending[1..] == ids[k + 1..];
  }

  lemma WhereMore(s: seq<nat>, flags: seq<bool>, v: bool)
    requires 0 < |flags| <= |s|
    ensures var k := |flags| - 1;
            Where(s[..|flags|], flags, v) == Where(s[..k], flags[..k], v) + if flags[k] == v then [s[k]] else []
  {
    assert s[..|flags|][..|flags| - 1] == s[..|flags| - 1];
  }

  /** A drain delivers the pending messages that were sent, in pending order, and drops the others. */
  lemma {:induction false} DrainRunEffect(m: Mail, oks: seq<bool>)
    requires |oks| <= |m.pending| && m.byRetry == []
    ensures var n := DrainRun(m, oks);
            && n.delivered == m.delivered + Where(m.pending[..|oks|], oks, true)
            && n.dropped == m.dropped + Where(m.pending[..|oks|], oks, false)
            && n == m.(pending := m.pending[|oks|..], delivered := n.delivered, dropped := n.dropped)
  {
    if oks != [] {
      var k := |oks| - 1;
      hide DrainRun, Where, Take, DrainSent, DrainLost;
      DrainRunEffect(m, oks[..k]);
      DrainRunLast(m, oks);
      OneRound(DrainRun(m, oks[..k]), m.pending, k);
      WhereMore(m.pending, oks, true);
      WhereMore(m.pending, oks, false);
    }
  }
}
