/**
 What one thread of the remote logger can rely on while the others run: how far their steps can
 change what it sees, and what that makes of its `sendMessage`.
 */
module RemoteInterference {
  import opened Common
  import opened RemoteMail
  import opened RemoteProtocol
  import opened RemoteSafety
  import opened SendCalls

  /** The run `e` goes on from `r`. */
  ghost predicate Continues(r: Run, e: Run) {
    IsRun(r) && IsRun(e) && r.labels <= e.labels && r.states <= e.states
  }

  /** A step of the thread `who` when the system answers `a`. */
  function Runs(who: Owner, a: Answer): Label {
    if who.Logger? then LoggerRuns(a) else RetryRuns(a)
  }

  /** `e` goes on from `r` without a step of the thread `who`. */
  ghost predicate OthersRun(who: Owner, r: Run, e: Run) {
    && Continues(r, e)
    && forall i :: |r.labels| <= i < |e.labels| ==> !IsStepOf(who, e.labels[i])
  }

  predicate IsStepOf(who: Owner, l: Label) {
    if who.Logger? then l.LoggerRuns? else l.RetryRuns?
  }

  lemma NobodyRuns(who: Owner, r: Run)
    requires IsRun(r)
    ensures OthersRun(who, r, r) && Continues(r, r)
  {
  }

  lemma OneStepOn(r: Run, e: Run, l: Label)
    requires Continues(r, e) && Can(Last(e), l)
    ensures Continues(r, Extend(e, l))
  {
  }

  // ----- what the others leave alone -----

  /** What the logger still finds when it holds mMutex. */
  ghost predicate LoggerFinds(s: State, t: State) {
    t.logger == s.logger && t.mMutex == s.mMutex && t.mail == s.mail && t.needToClose == s.needToClose
  }

  /** What the reconnect thread still finds when it holds mRetryMutex: nobody else opens the socket. */
  ghost predicate RetryFinds(s: State, t: State) {
    && t.retry == s.retry && t.mRetryMutex == s.mRetryMutex && (t.connected ==> s.connected)
    && (s.mMutex == Retry ==> t.mMutex == Retry && t.mail == s.mail)
  }

  lemma StepNotOfLogger(s: State, l: Label)
    requires Locked(s) && Can(s, l) && !l.LoggerRuns? && s.mMutex == Logger
    ensures LoggerFinds(s, Next(s, l))
  {
  }

  lemma StepNotOfRetry(s: State, l: Label)
    requires Locked(s) && Can(s, l) && !l.RetryRuns? && s.mRetryMutex == Retry
    ensures RetryFinds(s, Next(s, l))
  {
  }

  lemma {:induction false} LoggerUndisturbed(r: Run, e: Run, k: nat)
    requires OthersRun(Logger, r, e) && |r.labels| <= k <= |e.labels| && Last(r).mMutex == Logger
    ensures LoggerFinds(Last(r), e.states[k])
  {
    if k > |r.labels| {
      LoggerUndisturbed(r, e, k - 1);
      MutualExclusion(e, k - 1);
      assert StepAt(e, k - 1) && !IsStepOf(Logger, e.labels[k - 1]);
      StepNotOfLogger(e.states[k - 1], e.labels[k - 1]);
    }
  }

  lemma {:induction false} RetryUndisturbed(r: Run, e: Run, k: nat)
    requires OthersRun(Retry, r, e) && |r.labels| <= k <= |e.labels| && Last(r).mRetryMutex == Retry
    ensures RetryFinds(Last(r), e.states[k])
  {
    if k > |r.labels| {
      RetryUndisturbed(r, e, k - 1);
      MutualExclusion(e, k - 1);
      assert StepAt(e, k - 1) && !IsStepOf(Retry, e.labels[k - 1]);
      StepNotOfRetry(e.states[k - 1], e.labels[k - 1]);
    }
  }

  /** The logger relies on what it found, as long as it holds mMutex. */
  lemma LoggerRelies(r: Run, e: Run)
    requires OthersRun(Logger, r, e) && Last(r).mMutex == Logger
    ensures LoggerFinds(Last(r), Last(e))
  {
    LoggerUndisturbed(r, e, |e.labels|);
  }

  /** The reconnect thread relies on what it found, as long as it holds mRetryMutex. */
  lemma RetryRelies(r: Run, e: Run)
    requires OthersRun(Retry, r, e) && Last(r).mRetryMutex == Retry
    ensures RetryFinds(Last(r), Last(e))
  {
    RetryUndisturbed(r, e, |e.labels|);
  }

  // ----- sendMessage -----

  /** Nothing was pushed or popped. */
  predicate SameQueues(m: Mail, n: Mail) {
    n.live == m.live && n.pending == m.pending && n.written == m.written
  }

  /** How much the `sendMessage` that the thread is in has left to send. */
  function Remaining(s: State, who: Owner): Option<nat> {
    match who
    case Logger => if s.logger.LSend? then Some(s.logger.remaining) else None
    case Retry => if s.retry.RHeartbeat? || s.retry.RSend? then Some(s.retry.remaining) else None
    case Free => None
  }

  /**
   The `sendMessage` that the thread `who` began in `s` has `n` bytes left in `t`. Only the
   reconnect thread opens sockets.
   */
  ghost predicate Sending(s: State, t: State, who: Owner, n: nat) {
    (who.Retry? && t.connected ==> s.connected) &&
    match who
    case Logger => t.logger == LSend(n) && t.mMutex == Logger && t.mail == s.mail
    case Retry =>
      && t.mRetryMutex == Retry
      && (if s.retry.RSend? then t.retry == RSend(n) && t.mMutex == Retry && t.mail == s.mail
          else t.retry == RHeartbeat(n))
    case Free => false
  }

  /** The `sendMessage` that the thread `who` began in `s` has failed in `t`. */
  ghost predicate SendFailed(s: State, t: State, who: Owner) {
    !t.connected &&
    match who
    case Logger => t.logger == LRetryLock && t.mMutex == Logger && t.mail == DirectLost(s.mail)
    case Retry =>
      && t.mRetryMutex == Retry
      && (if s.retry.RSend? then t.retry == RDrain && t.mMutex == Retry && t.mail == DrainLost(s.mail)
          else t.retry == RSocket)
    case Free => false
  }

  lemma SendStarts(r: Run, who: Owner)
    requires IsRun(r) && Remaining(Last(r), who).Some?
    ensures Sending(Last(r), Last(r), who, Remaining(Last(r), who).value)
  {
    MutualExclusion(r, |r.labels|);
  }

  lemma SendGoesOn(s: State, r: Run, e: Run, who: Owner, n: nat)
    requires OthersRun(who, r, e) && Sending(s, Last(r), who, n)
    ensures Sending(s, Last(e), who, n)
    ensures who.Retry? && Last(e).connected ==> s.connected
  {
    match who
    case Logger => LoggerRelies(r, e);
    case Retry => RetryRelies(r, e);
  }

  lemma SendTakes(s: State, t: State, who: Owner, n: nat, sent: nat)
    requires Sending(s, t, who, n) && t.connected && 1 <= sent <= n
    ensures Can(t, Runs(who, Sent(sent))) && Sending(s, Next(t, Runs(who, Sent(sent))), who, n - sent)
    ensures var u := Next(t, Runs(who, Sent(sent)));
            u.mail == t.mail && u.connected && u.needToClose == t.needToClose
  {
  }

  lemma SendBreaks(s: State, t: State, who: Owner, n: nat)
    requires Sending(s, t, who, n) && n > 0
    ensures Can(t, Runs(who, Fails)) && SendFailed(s, Next(t, Runs(who, Fails)), who)
    ensures var u := Next(t, Runs(who, Fails));
            SameQueues(t.mail, u.mail) && !u.connected && u.needToClose == t.needToClose
  {
  }

  /**
   Behind `r`, the thread `who` sent `n` bytes by calls that the system answered with `answers`
   and that took `took`. Unless they took all, the next call failed, at step `at` of the run, and
   only because the answer was no count of bytes or the socket was closed.
   */
  ghost predicate SentAs(n: nat, answers: nat -> int, took: seq<nat>, all: bool, who: Owner, r: Run, e: Run, at: nat) {
    && Took(n, answers, took) && (all <==> Sum(took) == n)
    && (!all ==>
          && |r.labels| <= at < |e.labels| && at < |e.states| && e.labels[at] == Runs(who, Fails)
          && (answers(|took|) <= 0 || !e.states[at].connected))
  }

  lemma SentAsLater(n: nat, answers: nat -> int, took: seq<nat>, all: bool, who: Owner,
                    q: Run, r: Run, e: Run, f: Run, at: nat)
    requires SentAs(n, answers, took, all, who, r, e, at) && Continues(q, r) && Continues(e, f)
    ensures SentAs(n, answers, took, all, who, q, f, at)
  {
  }

  /** At step `at`, behind `r`, the reconnect thread found the socket closed by another thread. */
  ghost predicate FoundClosed(r: Run, e: Run, at: nat) {
    && |r.labels| <= at < |e.labels| && at < |e.states|
    && e.labels[at] == RetryRuns(Fails) && !e.states[at].connected
  }

  lemma FoundClosedBehind(q: Run, r: Run, e: Run, at: nat)
    requires Continues(q, r) && Continues(r, e)
    ensures FoundClosed(r, e, at) ==> FoundClosed(q, e, at)
  {
  }

  // ----- single steps -----

  lemma WriteStep(s: State, text: Text)
    requires s.mMutex == Free
    ensures Can(s, Write(text))
    ensures var t := Next(s, Write(text));
            t.mail == Post(s.mail, text) && t.connected == s.connected && t.needToClose == s.needToClose
  {
  }

  lemma StoreStep(s: State)
    requires s.logger == LStore
    ensures Can(s, LoggerRuns(Ok))
    ensures var t := Next(s, LoggerRuns(Ok));
            && t.mail == Keep(s.mail) && t.logger == LLock && t.mMutex == Free
            && t.connected == s.connected && t.needToClose == s.needToClose
  {
  }

  /** Line 124: the socket is read once. */
  lemma TestStep(s: State)
    requires s.logger == LTest && s.mMutex == Logger
    ensures Can(s, LoggerRuns(Ok))
    ensures var t := Next(s, LoggerRuns(Ok));
            && t.mail == s.mail && t.mMutex == s.mMutex && t.connected == s.connected && t.needToClose == s.needToClose
            && t.logger == if s.connected then LSend(Length(s.mail, s.mail.byLogger)) else LStore
  {
  }

  /** The message that was sent counts as delivered. */
  lemma SentStep(s: State)
    requires s.logger == LSend(0)
    ensures Can(s, LoggerRuns(Ok))
    ensures var t := Next(s, LoggerRuns(Ok));
            && t.mail == DirectSent(s.mail) && t.logger == LLock && t.mMutex == Free
            && t.connected == s.connected && t.needToClose == s.needToClose
  {
  }

  /** Lines 114-120 without a message to pop. */
  lemma CheckStep(s: State)
    requires s.logger == LCheck && (s.needToClose || s.mail.live == [])
    ensures Can(s, LoggerRuns(Ok))
    ensures Next(s, LoggerRuns(Ok)) == s.(logger := if s.needToClose then LDone else LLock, mMutex := Free)
  {
  }

  /** The heartbeat that was sent. */
  lemma AliveStep(s: State)
    requires s.retry == RHeartbeat(0)
    ensures Can(s, RetryRuns(Ok)) && Next(s, RetryRuns(Ok)) == s.(retry := RLock, mRetryMutex := Free)
  {
  }

  /** The pending message that was sent counts as delivered. */
  lemma DrainSentStep(s: State)
    requires s.retry == RSend(0)
    ensures Can(s, RetryRuns(Ok)) && Next(s, RetryRuns(Ok)) == s.(mail := DrainSent(s.mail), retry := RDrain)
  {
  }

  lemma TimeoutStep(s: State)
    requires s.retry == RWoken(true) && s.mRetryMutex == Free
    ensures Can(s, RetryRuns(Ok)) && Next(s, RetryRuns(Ok)) == s.(retry := RCheck, mRetryMutex := Retry)
  {
  }

  lemma CloseStep(s: State)
    requires s.retry == RCheck
    ensures Can(s, RetryRuns(Ok))
    ensures Next(s, RetryRuns(Ok)) == if s.needToClose then s.(retry := RDone, mRetryMutex := Free)
                                      else s.(retry := RHeartbeat(HEARTBEAT_LENGTH))
  {
  }

  /** Line 128. */
  lemma RetryLockStep(s: State)
    requires s.logger == LRetryLock && s.mRetryMutex == Free
    ensures Can(s, LoggerRuns(Ok)) && Next(s, LoggerRuns(Ok)) == s.(mRetryMutex := Logger, logger := LNotify)
  {
  }

  /** Line 129, and the locks go out of scope. */
  lemma NotifyStep(s: State)
    requires s.logger == LNotify
    ensures Can(s, LoggerRuns(Ok))
    ensures var t := Next(s, LoggerRuns(Ok));
            && t.logger == LLock && t.mail == s.mail && t.connected == s.connected && t.needToClose == s.needToClose
  {
  }
}
