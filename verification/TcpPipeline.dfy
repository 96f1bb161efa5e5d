/** The connection pipeline of `TCPServer`: accepted sockets are queued by handlers and served by one thread. */
module TcpPipeline {
  import opened Common

  /**
   A connection is named by its position in the order of acceptance. `pushed` is history: the
   order in which handlers pushed their connections.
   */
  datatype State = State(
    accepted: nat,
    handlers: seq<nat>,            // accepted, handle_connection not yet past its lock
    queue: seq<nat>,               // the HTTP event queue
    serving: seq<nat>,             // popped by the worker, which holds mMutex
    closed: seq<nat>,              // answered and closed, in that order
    pushed: seq<nat>,
    needToClose: bool,
    workerDone: bool)

  const INIT: State := State(0, [], [], [], [], [], false, false)

  datatype Label =
    | Accept
    | Push(i: nat)                 // the i-th waiting handler gets mMutex
    | Notified                     // the worker's wait ends without a timeout
    | Timeout                      // lines 395-406
    | Finish                       // lines 410-417
    | SetClose

  function Others(s: seq<nat>, i: nat): seq<nat>
    requires i < |s|
  {
    s[..i] + s[i + 1..]
  }

  predicate Can(s: State, l: Label) {
    match l
    case Accept => true
    case Push(i) => i < |s.handlers| && s.serving == []
    case Notified => !s.workerDone && s.serving == []
    case Timeout => !s.workerDone && s.serving == []
    case Finish => s.serving != []
    case SetClose => true
  }

  function Next(s: State, l: Label): State
    requires Can(s, l)
  {
    match l
    case Accept => s.(accepted := s.accepted + 1, handlers := s.handlers + [s.accepted])
    case Push(i) =>
      s.(handlers := Others(s.handlers, i),
         queue := s.queue + [s.handlers[i]], pushed := s.pushed + [s.handlers[i]])
    case Notified => s
    case Timeout =>
      if s.needToClose then s.(workerDone := true)
      else if s.queue == [] then s
      else s.(queue := s.queue[1..], serving := [s.queue[0]])
    case Finish => s.(serving := [], closed := s.closed + s.serving)
    case SetClose => s.(needToClose := true)
  }

  datatype Run = Run(states: seq<State>, labels: seq<Label>)

  ghost predicate StepAt(r: Run, i: nat)
    requires i < |r.labels| && |r.states| == |r.labels| + 1
  {
    Can(r.states[i], r.labels[i]) && r.states[i + 1] == Next(r.states[i], r.labels[i])
  }

  ghost predicate IsRun(r: Run) {
    && |r.states| == |r.labels| + 1
    && r.states[0] == INIT
    && forall i :: 0 <= i < |r.labels| ==> StepAt(r, i)
  }

  ghost function Last(r: Run): State
    requires IsRun(r)
  {
    r.states[|r.labels|]
  }

  lemma ExtendIsRun(r: Run, l: Label)
    requires IsRun(r) && Can(Last(r), l)
    ensures IsRun(Run(r.states + [Next(Last(r), l)], r.labels + [l]))
  {
    hide Can, Next;
    var e := Run(r.states + [Next(Last(r), l)], r.labels + [l]);
    forall i | 0 <= i < |e.labels| ensures StepAt(e, i) {
      if i < |r.labels| {
        assert StepAt(r, i);
        assert e.states[i] == r.states[i] && e.states[i + 1] == r.states[i + 1] && e.labels[i] == r.labels[i];
      }
    }
  }

  /** The run `r` with one more step. */
  ghost function Extend(r: Run, l: Label): (e: Run)
    requires IsRun(r) && Can(Last(r), l)
    ensures IsRun(e) && e.labels == r.labels + [l] && Last(e) == Next(Last(r), l)
  {
    ExtendIsRun(r, l);
    Run(r.states + [Next(Last(r), l)], r.labels + [l])
  }

  function Everywhere(s: State): multiset<nat> {
    multiset(s.handlers) + multiset(s.queue) + multiset(s.serving) + multiset(s.closed)
  }

  /** Every accepted connection is in exactly one place, and the worker takes them in push order. */
  ghost predicate Piped(s: State) {
    && Everywhere(s) == multiset(Range(s.accepted))
    && s.pushed == s.closed + s.serving + s.queue
    && |s.serving| <= 1
  }

  lemma PushConserves(s: State, i: nat)
    requires i < |s.handlers|
    ensures multiset(s.handlers) == multiset(Others(s.handlers, i)) + multiset{s.handlers[i]}
  {
    assert s.handlers == s.handlers[..i] + [s.handlers[i]] + s.handlers[i + 1..];
  }

  lemma TakeConserves(q: seq<nat>)
    requires q != []
    ensures multiset(q) == multiset(q[1..]) + multiset{q[0]}
  {
    assert q == [q[0]] + q[1..];
  }

  lemma TimeoutConserves(s: State)
    requires Can(s, Timeout)
    ensures Everywhere(Next(s, Timeout)) == Everywhere(s)
  {
    if s.queue != [] { TakeConserves(s.queue); }
  }

  lemma HandlerConserves(s: State, i: nat)
    requires Can(s, Push(i))
    ensures Everywhere(Next(s, Push(i))) == Everywhere(s)
  {
    hide Others;
    PushConserves(s, i);
  }

  lemma FinishConserves(s: State)
    requires Can(s, Finish)
    ensures Everywhere(Next(s, Finish)) == Everywhere(s)
  {
  }

  lemma OthersConserve(s: State, l: Label)
    requires Can(s, l) && (l.Notified? || l.SetClose?)
    ensures Everywhere(Next(s, l)) == Everywhere(s)
  {
  }

  lemma AcceptAdds(s: State)
    ensures Everywhere(Next(s, Accept)) == Everywhere(s) + multiset{s.accepted}
    ensures multiset(Range(s.accepted + 1)) == multiset(Range(s.accepted)) + multiset{s.accepted}
  {
    assert Range(s.accepted + 1) == Range(s.accepted) + [s.accepted];
  }

  lemma StepKeepsPipe(s: State, l: Label)
    requires Piped(s) && Can(s, l)
    ensures Piped(Next(s, l))
  {
    hide Everywhere, Range, Others;
    match l
    case Accept => AcceptAdds(s);
    case Push(i) => HandlerConserves(s, i);
    case Timeout =>
      TimeoutConserves(s);
      if s.queue != [] {
        assert s.queue == [s.queue[0]] + s.queue[1..];
      }
    case Finish => FinishConserves(s);
    case _ => OthersConserve(s, l);
  }

  /**
   In every reachable state each accepted connection waits in one handler, waits in the queue,
   is being served or is closed; serving and closing follow push order and happen once.
   */
  lemma {:induction false} Pipeline(r: Run, i: nat)
    requires IsRun(r) && i < |r.states|
    ensures Piped(r.states[i])
    ensures forall c: nat :: Everywhere(r.states[i])[c] == if c < r.states[i].accepted then 1 else 0
  {
    if i == 0 {
      assert Range(0) == [];
    } else {
      Pipeline(r, i - 1);
      assert StepAt(r, i - 1);
      StepKeepsPipe(r.states[i - 1], r.labels[i - 1]);
    }
    var s := r.states[i];
    forall c: nat ensures Everywhere(s)[c] == if c < s.accepted then 1 else 0 {
      RangeOnce(s.accepted, c);
    }
  }

  // ----- progress -----

  /** How many connections the worker has taken. */
  function Taken(s: State): nat {
    |s.closed| + |s.serving|
  }

  /** Timeout steps among the labels i..j-1. */
  function Timeouts(ls: seq<Label>, i: nat, j: nat): nat
    requires i <= j <= |ls|
    decreases j - i
  {
    if i == j then 0 else Timeouts(ls, i, j - 1) + if ls[j - 1].Timeout? then 1 else 0
  }

  function Min(a: int, b: int): int { if a < b then a else b }

  /**
   Before the close flag is set, k timeouts take at least the first min(k, n) of the n
   connections that are queued; a notified wake-up takes none.
   */
  lemma {:induction false} TimeoutsServe(r: Run, i: nat, j: nat)
    requires IsRun(r) && i <= j < |r.states| && !r.states[j].needToClose
    ensures Taken(r.states[j]) >= Taken(r.states[i]) + Min(Timeouts(r.labels, i, j), |r.states[i].queue|)
    ensures r.states[i].pushed <= r.states[j].pushed
    decreases j
  {
    if i < j {
      assert StepAt(r, j - 1);
      TimeoutsServe(r, i, j - 1);
      Pipeline(r, i);
      Pipeline(r, j - 1);
    }
  }

  // ----- closing -----

  /** The close flag is set behind the first SetClose, and not before. */
  lemma {:induction false} ClosingExactly(r: Run, i: nat)
    requires IsRun(r) && i < |r.states|
    ensures r.states[i].needToClose <==> exists j :: 0 <= j < i && r.labels[j].SetClose?
  {
    if i > 0 {
      ClosingExactly(r, i - 1);
      assert StepAt(r, i - 1);
    }
  }

  /** The worker ends at its first timeout behind a SetClose, and nowhere else. */
  lemma {:induction false} WorkerEndsExactly(r: Run, i: nat)
    requires IsRun(r) && i < |r.states|
    ensures r.states[i].workerDone <==>
            exists j, k :: 0 <= k < j < i && r.labels[k].SetClose? && r.labels[j].Timeout?
  {
    if i > 0 {
      WorkerEndsExactly(r, i - 1);
      ClosingExactly(r, i - 1);
      assert StepAt(r, i - 1);
    }
  }
}
