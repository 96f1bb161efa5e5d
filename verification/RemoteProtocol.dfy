/**
 The remote logging protocol as a state machine: log writers, the logger thread and the
 reconnect thread share a live queue, a pending queue, one socket, two mutexes and two
 condition variables.

 Each thread is a program counter and a function that runs it to its next scheduling point;
 what the operating system answers is an argument of the step.
 */
module RemoteProtocol {
  import opened Common
  import opened RemoteMail

  datatype Owner = Free | Logger | Retry

  /** Where the logger thread is in `processLogEvents`. */
  datatype LoggerPc =
    | LLock                                // line 111: needs mMutex
    | LWait                                // line 112: asleep, mMutex released
    | LWoken                               // line 112: awake, needs mMutex again
    | LCheck                               // line 114: holds mMutex
    | LTest                                // line 124: popped a message, about to read mClientSocket
    | LSend(remaining: nat)                // line 126: inside sendMessage
    | LRetryLock                           // line 128: the direct send failed, needs mRetryMutex
    | LNotify                              // line 129: holds both mutexes
    | LStore                               // lines 133-140: read -1, about to push to pending
    | LDone                                // line 117

  /** Where the reconnect thread is in `retryConnection`. */
  datatype RetryPc =
    | RLock                                // line 155: needs mRetryMutex
    | RWait                                // line 156: asleep, mRetryMutex released
    | RWoken(timedOut: bool)               // line 156: awake, needs mRetryMutex again
    | RCheck                               // line 158: holds mRetryMutex
    | RHeartbeat(remaining: nat)           // line 164: inside sendMessage
    | RSocket                              // line 13: heartbeat failed
    | ROptions                             // line 21: mClientSocket assigned
    | RConnect                             // line 35
    | RFull                                // line 174: connected, needs mMutex
    | RDrain                               // line 180: holds both mutexes
    | RSend(remaining: nat)                // line 184: inside sendMessage
    | RDone                                // line 161

  /** `samples` is history: the live length at each entry to the logger's wait. */
  datatype State = State(
    mail: Mail,
    connected: bool,                       // mClientSocket != -1
    mMutex: Owner,
    mRetryMutex: Owner,
    needToClose: bool,
    logger: LoggerPc,
    retry: RetryPc,
    samples: seq<nat>)

  /** What the operating system answers to the call a thread is making. */
  datatype Answer = Ok | Sent(n: nat) | Fails | Timeout

  datatype Label =
    | Write(text: Text)
    | SetClose
    | StopLogger
    | DestroySocket
    | SpuriousWake
    | LoggerRuns(a: Answer)
    | RetryRuns(a: Answer)

  /** Length of HEARTBEAT_STRING. */
  const HEARTBEAT_LENGTH: nat := |"HB Keep Alive"|

  const INIT: State := State(EMPTY, false, Free, Free, false, LLock, RLock, [])

  // ----- the threads -----

  /** `strlen` of the message a thread holds. */
  function Length(m: Mail, held: seq<nat>): nat {
    if held != [] && held[0] < |m.written| then |m.written[held[0]]| else 0
  }

  function Notified(pc: LoggerPc): LoggerPc {
    if pc.LWait? then LWoken else pc
  }

  /** The logger leaves its loop body: its lock on mMutex goes out of scope. */
  function LoggerLoops(s: State): State {
    s.(logger := LLock, mMutex := Free)
  }

  /** The reconnect thread leaves its loop body. */
  function RetryLoops(s: State): State {
    s.(retry := RLock, mRetryMutex := Free)
  }

  /** One round of the loop of sendMessage: finished, a partial send on an open socket, or an error. */
  predicate Sends(s: State, remaining: nat, a: Answer) {
    remaining > 0 && a.Sent? ==> s.connected && 1 <= a.n <= remaining
  }

  /** Whether the logger thread can take its next step when the system answers `a`. */
  predicate LoggerCan(s: State, a: Answer) {
    match s.logger
    case LLock => s.mMutex == Free
    case LWait => false
    case LWoken => s.mMutex == Free
    case LSend(r) => Sends(s, r, a)
    case LRetryLock => s.mRetryMutex == Free
    case LDone => false
    case _ => true
  }

  function LoggerNext(s: State, a: Answer): State
    requires LoggerCan(s, a)
  {
    match s.logger
    case LLock => s.(logger := LWait, samples := s.samples + [|s.mail.live|])
    case LWoken => s.(logger := LCheck, mMutex := Logger)
    case LCheck =>
      if s.needToClose then s.(logger := LDone, mMutex := Free)
      else if s.mail.live == [] then LoggerLoops(s)
      else s.(mail := Pop(s.mail), logger := LTest)
    case LTest => s.(logger := if s.connected then LSend(Length(s.mail, s.mail.byLogger)) else LStore)
    case LSend(r) =>
      if r == 0 then LoggerLoops(s.(mail := DirectSent(s.mail)))
      else if a.Sent? then s.(logger := LSend(r - a.n))
      else s.(mail := DirectLost(s.mail), connected := false, logger := LRetryLock)
    case LRetryLock => s.(mRetryMutex := Logger, logger := LNotify)
    case LNotify =>
      LoggerLoops(s.(mRetryMutex := Free, retry := if s.retry.RWait? then RWoken(false) else s.retry))
    case LStore => LoggerLoops(s.(mail := Keep(s.mail)))
  }

  /** Whether the reconnect thread can take its next step when the system answers `a`. */
  predicate RetryCan(s: State, a: Answer) {
    match s.retry
    case RLock => s.mRetryMutex == Free
    case RWoken(_) => s.mRetryMutex == Free
    case RHeartbeat(r) => Sends(s, r, a)
    case RFull => s.mMutex == Free
    case RSend(r) => Sends(s, r, a)
    case RDone => false
    case _ => true
  }

  function RetryNext(s: State, a: Answer): State
    requires RetryCan(s, a)
  {
    match s.retry
    case RLock => s.(retry := RWait)
    case RWait => s.(retry := RWoken(a.Timeout?))
    case RWoken(timedOut) => if timedOut then s.(retry := RCheck, mRetryMutex := Retry) else s.(retry := RLock)
    case RCheck =>
      if s.needToClose then s.(retry := RDone, mRetryMutex := Free)
      else s.(retry := RHeartbeat(HEARTBEAT_LENGTH))
    case RHeartbeat(r) =>
      if r == 0 then RetryLoops(s)
      else if a.Sent? then s.(retry := RHeartbeat(r - a.n))
      else s.(connected := false, retry := RSocket)
    case RSocket =>
      if a.Ok? then s.(connected := true, retry := ROptions) else RetryLoops(s.(connected := false))
    case ROptions =>
      if a.Ok? && s.connected then s.(retry := RConnect) else RetryLoops(s.(connected := false))
    case RConnect =>
      if a.Ok? && s.connected then s.(retry := RFull) else RetryLoops(s.(connected := false))
    case RFull => s.(retry := RDrain, mMutex := Retry)
    case RDrain =>
      if s.mail.pending == [] then RetryLoops(s.(mMutex := Free))
      else s.(mail := Take(s.mail), retry := RSend(Length(s.mail, s.mail.pending)))
    case RSend(r) =>
      if r == 0 then s.(mail := DrainSent(s.mail), retry := RDrain)
      else if a.Sent? then s.(retry := RSend(r - a.n))
      else s.(mail := DrainLost(s.mail), connected := false, retry := RDrain)
  }

  /** Whether the step `l` is possible in `s`. */
  predicate Can(s: State, l: Label) {
    match l
    case Write(_) => s.mMutex == Free
    case SetClose => s.mMutex == Free
    case StopLogger => s.mMutex == Free && s.needToClose
    case DestroySocket => s.needToClose
    case SpuriousWake => s.logger.LWait?
    case LoggerRuns(a) => LoggerCan(s, a)
    case RetryRuns(a) => RetryCan(s, a)
  }

  /** One step of the system. */
  function Next(s: State, l: Label): State
    requires Can(s, l)
  {
    match l
    case Write(text) => s.(mail := Post(s.mail, text), logger := Notified(s.logger))
    case SetClose => s.(needToClose := true)
    case StopLogger => s.(logger := Notified(s.logger))
    case DestroySocket => s.(connected := false)
    case SpuriousWake => s.(logger := LWoken)
    case LoggerRuns(a) => LoggerNext(s, a)
    case RetryRuns(a) => RetryNext(s, a)
  }

  // ----- runs -----

  /** A finite run: `labels[i]` leads from `states[i]` to `states[i + 1]`. */
  datatype Run = Run(states: seq<State>, labels: seq<Label>)

  ghost predicate StepAt(r: Run, i: nat)
    requires i < |r.labels| && |r.states| == |r.labels| + 1
  {
    Can(r.states[i], r.labels[i]) && r.states[i + 1] == Next(r.states[i], r.labels[i])
  }

  /** A run of the whole system from its start. */
  ghost predicate IsRun(r: Run) {
    && |r.states| == |r.labels| + 1
    && r.states[0] == INIT
    && forall i :: 0 <= i < |r.labels| ==> StepAt(r, i)
  }

  ghost function Last(r: Run): State
    requires IsRun(r)
  {
    r.states[|r.labels|]
  }

  lemma ExtendIsRun(r: Run, l: Label)
    requires IsRun(r) && Can(Last(r), l)
    ensures IsRun(Run(r.states + [Next(Last(r), l)], r.labels + [l]))
  {
    hide Can, Next;
    var e := Run(r.states + [Next(Last(r), l)], r.labels + [l]);
    forall i | 0 <= i < |e.labels| ensures StepAt(e, i) {
      if i < |r.labels| {
        assert StepAt(r, i);
        assert e.states[i] == r.states[i] && e.states[i + 1] == r.states[i + 1] && e.labels[i] == r.labels[i];
      }
    }
  }

  /** The run `r` with one more step. */
  ghost function Extend(r: Run, l: Label): (e: Run)
    requires IsRun(r) && Can(Last(r), l)
    ensures IsRun(e) && Last(e) == Next(Last(r), l) && e.labels == r.labels + [l]
    ensures r.states <= e.states
  {
    ExtendIsRun(r, l);
    Run(r.states + [Next(Last(r), l)], r.labels + [l])
  }
}
