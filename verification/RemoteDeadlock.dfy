/** How the logger and reconnect threads can block each other, and what a wake-up of the logger is worth. */
module RemoteDeadlock {
  import opened RemoteMail
  import opened RemoteProtocol
  import opened RemoteSafety

  // ----- who waits for whom -----

  /** The logger's next step is to lock a mutex that the reconnect thread holds. */
  predicate LoggerBlockedByRetry(s: State) {
    || ((s.logger.LLock? || s.logger.LWoken?) && s.mMutex == Retry)
    || (s.logger.LRetryLock? && s.mRetryMutex == Retry)
  }

  /** The reconnect thread's next step is to lock a mutex that the logger holds. */
  predicate RetryBlockedByLogger(s: State) {
    || ((s.retry.RLock? || s.retry.RWoken?) && s.mRetryMutex == Logger)
    || (s.retry.RFull? && s.mMutex == Logger)
  }

  predicate Stuck(s: State) {
    LoggerBlockedByRetry(s) && RetryBlockedByLogger(s)
  }

  /**
   The threads block each other exactly when the logger is at line 128, after a failed direct
   send, and the reconnect thread is at line 174, after a successful connect.
   */
  lemma StuckExactly(r: Run, i: nat)
    requires IsRun(r) && i < |r.states|
    ensures Stuck(r.states[i]) <==> r.states[i].logger.LRetryLock? && r.states[i].retry.RFull?
  {
    MutualExclusion(r, i);
  }

  /** Some answer of the operating system lets the logger step. */
  ghost predicate LoggerCanStep(s: State) {
    exists a :: LoggerCan(s, a)
  }

  ghost predicate RetryCanStep(s: State) {
    exists a :: RetryCan(s, a)
  }

  /** It is the only deadlock: elsewhere a thread can step unless the reconnect thread has finished. */
  lemma OnlyDeadlock(r: Run, i: nat)
    requires IsRun(r) && i < |r.states|
    ensures var s := r.states[i];
            Stuck(s) || s.retry.RDone? || LoggerCanStep(s) || RetryCanStep(s)
    ensures var s := r.states[i];
            s.retry.RDone? ==> LoggerCanStep(s) || s.logger.LWait? || s.logger.LDone?
  {
    var s := r.states[i];
    MutualExclusion(r, i);
    if !LoggerCan(s, Fails) && !RetryCan(s, Fails) && !s.retry.RDone? {
      assert s.mMutex == Free ==> !s.retry.RFull?;
    }
  }

  /** Once stuck, nothing happens to any message again: no write, no send, no close. */
  lemma {:induction false} StuckForever(r: Run, i: nat, j: nat)
    requires IsRun(r) && i <= j < |r.states| && Stuck(r.states[i])
    ensures r.states[j] == r.states[i].(connected := r.states[j].connected)
  {
    if i < j {
      StuckForever(r, i, j - 1);
      MutualExclusion(r, j - 1);
      assert StepAt(r, j - 1);
    }
  }

  /** No direct send of the run returns ERROR. */
  ghost predicate DirectSendsSucceed(r: Run)
    requires IsRun(r)
  {
    forall i :: 0 <= i < |r.labels| ==> MoveOf(r.states[i], r.labels[i]) != LosesDirect
  }

  lemma {:induction false} NeverAtRetryLock(r: Run, i: nat)
    requires IsRun(r) && DirectSendsSucceed(r) && i < |r.states|
    ensures !r.states[i].logger.LRetryLock?
  {
    if i > 0 {
      NeverAtRetryLock(r, i - 1);
      assert StepAt(r, i - 1);
      assert MoveOf(r.states[i - 1], r.labels[i - 1]) != LosesDirect;
    }
  }

  /** A run in which every direct send succeeds never gets stuck. */
  lemma NoFailureNoDeadlock(r: Run, i: nat)
    requires IsRun(r) && DirectSendsSucceed(r) && i < |r.states|
    ensures !Stuck(r.states[i])
  {
    NeverAtRetryLock(r, i);
    StuckExactly(r, i);
  }

  // ----- one pop per wake-up -----

  /** The step wakes the logger. */
  predicate WakesLogger(s: State, l: Label) {
    s.logger.LWait? && (l.Write? || l.StopLogger? || l.SpuriousWake?)
  }

  /** The logger's last wake-up in the first `i` steps was the notification of a write. */
  ghost predicate WokenByWrite(r: Run, i: nat)
    requires IsRun(r) && i < |r.states|
  {
    i > 0 && if WakesLogger(r.states[i - 1], r.labels[i - 1]) then r.labels[i - 1].Write? else WokenByWrite(r, i - 1)
  }

  /** The writes among the first `i` steps whose notification found the logger not waiting. */
  ghost function Missed(r: Run, i: nat): nat
    requires IsRun(r) && i < |r.states|
  {
    if i == 0 then 0
    else Missed(r, i - 1) + if r.labels[i - 1].Write? && !r.states[i - 1].logger.LWait? then 1 else 0
  }

  /** The pops among the first `i` steps after a wake-up that no write had caused. */
  ghost function Extra(r: Run, i: nat): nat
    requires IsRun(r) && i < |r.states|
  {
    if i == 0 then 0
    else
      Extra(r, i - 1) +
      if MoveOf(r.states[i - 1], r.labels[i - 1]).Pops? && !WokenByWrite(r, i - 1) then 1 else 0
  }

  /** The logger was woken and has not popped since. */
  predicate HasYetToPop(s: State) {
    s.logger.LWoken? || s.logger.LCheck? || s.logger.LDone?
  }

  /** The logger looks and the queue is empty. */
  predicate FindsNothing(s: State, l: Label) {
    l.LoggerRuns? && s.logger.LCheck? && !s.needToClose && s.mail.live == []
  }

  /** What a step from `s` to `t` does to the backlog. */
  predicate MovesBacklog(s: State, l: Label, t: State) {
    var v := MoveOf(s, l);
    && |t.mail.live| == |s.mail.live| + (if l.Write? then 1 else 0) - (if v.Pops? then 1 else 0)
    && (HasYetToPop(t) <==> WakesLogger(s, l) || (HasYetToPop(s) && !v.Pops? && !FindsNothing(s, l)))
    && (v.Pops? ==> HasYetToPop(s) && l.LoggerRuns?)
    && (WakesLogger(s, l) ==> !HasYetToPop(s))
    && (l.Write? ==> (WakesLogger(s, l) <==> s.logger.LWait?))
  }

  lemma LoggerMovesBacklog(s: State, a: Answer)
    requires LoggerCan(s, a)
    ensures MovesBacklog(s, LoggerRuns(a), LoggerNext(s, a))
  {
  }

  lemma RetryKeepsBacklog(s: State, a: Answer)
    requires RetryCan(s, a)
    ensures RetryNext(s, a).mail.live == s.mail.live && RetryNext(s, a).logger == s.logger
    ensures RetryNext(s, a).samples == s.samples && !MoveOf(s, RetryRuns(a)).Pops?
  {
  }

  lemma StepMovesBacklog(s: State, l: Label)
    requires Can(s, l)
    ensures MovesBacklog(s, l, Next(s, l))
  {
    hide LoggerNext, RetryNext;
    match l
    case LoggerRuns(a) =>
      hide MovesBacklog;
      LoggerMovesBacklog(s, a);
    case RetryRuns(a) => RetryKeepsBacklog(s, a);
    case _ =>
  }

  /** Only an entry of the wait takes a sample. */
  lemma StepSamples(s: State, l: Label)
    requires Can(s, l)
    ensures Next(s, l).samples == s.samples
            || (Next(s, l).samples == s.samples + [|s.mail.live|] && !HasYetToPop(s) && !l.Write?)
  {
  }

  /** A logger that a write woke finds a message. */
  lemma {:induction false} FindsItsMessage(r: Run, i: nat)
    requires IsRun(r) && i < |r.states|
    ensures HasYetToPop(r.states[i]) && WokenByWrite(r, i) ==> r.states[i].mail.live != []
  {
    hide Can, Next, MoveOf, HasYetToPop, WakesLogger;
    if i > 0 {
      FindsItsMessage(r, i - 1);
      assert StepAt(r, i - 1);
      StepMovesBacklog(r.states[i - 1], r.labels[i - 1]);
    }
  }

  /**
   In every run, whatever wakes the logger: the live queue holds the messages whose notification
   was missed and the one of a write that has just woken it, less those popped after wake-ups
   that no write had caused.
   */
  lemma {:induction false} BacklogExactly(r: Run, i: nat)
    requires IsRun(r) && i < |r.states|
    ensures |r.states[i].mail.live| + Extra(r, i) ==
            Missed(r, i) + if HasYetToPop(r.states[i]) && WokenByWrite(r, i) then 1 else 0
  {
    hide Can, Next, MoveOf, HasYetToPop, WakesLogger;
    if i > 0 {
      BacklogExactly(r, i - 1);
      FindsItsMessage(r, i - 1);
      assert StepAt(r, i - 1);
      StepMovesBacklog(r.states[i - 1], r.labels[i - 1]);
    }
  }

  /** Every wake-up of the logger is the notification of a write. */
  ghost predicate WokenByWrites(r: Run)
    requires IsRun(r)
  {
    forall i :: 0 <= i < |r.labels| && WakesLogger(r.states[i], r.labels[i]) ==> r.labels[i].Write?
  }

  lemma {:induction false} NothingExtra(r: Run, i: nat)
    requires IsRun(r) && WokenByWrites(r) && i < |r.states|
    ensures Extra(r, i) == 0
    ensures HasYetToPop(r.states[i]) || LoggerHasMessage(r.states[i].logger) ==> WokenByWrite(r, i)
  {
    if i > 0 {
      NothingExtra(r, i - 1);
      assert StepAt(r, i - 1);
      assert WakesLogger(r.states[i - 1], r.labels[i - 1]) ==> r.labels[i - 1].Write?;
    }
  }

  lemma {:induction false} MissedExactly(r: Run, i: nat)
    requires IsRun(r) && i < |r.states|
    ensures Missed(r, i) > 0 <==> exists j :: 0 <= j < i && r.labels[j].Write? && !r.states[j].logger.LWait?
  {
    if i > 0 {
      MissedExactly(r, i - 1);
    }
  }

  /**
   When only writes wake it, a waiting logger has left a message behind exactly when some write
   found it not waiting.
   */
  lemma LeftBehindExactly(r: Run, i: nat)
    requires IsRun(r) && WokenByWrites(r) && i < |r.states| && r.states[i].logger.LWait?
    ensures r.states[i].mail.live != [] <==>
            exists j :: 0 <= j < i && r.labels[j].Write? && !r.states[j].logger.LWait?
  {
    BacklogExactly(r, i);
    NothingExtra(r, i);
    MissedExactly(r, i);
  }

  function LastSample(s: State): nat {
    if s.samples == [] then 0 else s.samples[|s.samples| - 1]
  }

  lemma {:induction false} SamplesGrow(r: Run, i: nat)
    requires IsRun(r) && WokenByWrites(r) && i < |r.states|
    ensures var q := r.states[i].samples; forall j, k :: 0 <= j < k < |q| ==> q[j] <= q[k]
    ensures LastSample(r.states[i]) <= Missed(r, i)
  {
    hide Can, Next, MoveOf, HasYetToPop, WakesLogger;
    if i > 0 {
      SamplesGrow(r, i - 1);
      BacklogExactly(r, i - 1);
      NothingExtra(r, i - 1);
      assert StepAt(r, i - 1);
      StepSamples(r.states[i - 1], r.labels[i - 1]);
    }
  }

  /**
   When only writes wake it, the live queue never shrinks from one entry of the logger's wait to
   the next: a backlog, once there, is never worked off.
   */
  lemma BacklogNeverShrinks(r: Run, i: nat)
    requires IsRun(r) && WokenByWrites(r) && i < |r.states|
    ensures var q := r.states[i].samples; forall j, k :: 0 <= j < k < |q| ==> q[j] <= q[k]
  {
    SamplesGrow(r, i);
  }
}
