/** What every interleaving of the remote logging protocol keeps. */
module RemoteSafety {
  import opened Common
  import opened RemoteMail
  import opened RemoteProtocol

  // ----- mutual exclusion -----

  predicate LoggerHasMessage(pc: LoggerPc) {
    pc.LTest? || pc.LSend? || pc.LStore?
  }

  predicate LoggerHoldsMutex(pc: LoggerPc) {
    pc.LCheck? || pc.LRetryLock? || pc.LNotify? || LoggerHasMessage(pc)
  }

  predicate RetryHoldsMutex(pc: RetryPc) {
    pc.RDrain? || pc.RSend?
  }

  /** From the assignment of the socket (line 13) to the end of the drain. */
  predicate InWindow(pc: RetryPc) {
    pc.ROptions? || pc.RConnect? || pc.RFull? || RetryHoldsMutex(pc)
  }

  predicate RetryHoldsRetryMutex(pc: RetryPc) {
    pc.RCheck? || pc.RHeartbeat? || pc.RSocket? || InWindow(pc)
  }

  ghost predicate Locked(s: State) {
    && (s.mMutex == Logger <==> LoggerHoldsMutex(s.logger))
    && (s.mMutex == Retry <==> RetryHoldsMutex(s.retry))
    && (s.mRetryMutex == Logger <==> s.logger.LNotify?)
    && (s.mRetryMutex == Retry <==> RetryHoldsRetryMutex(s.retry))
    && |s.mail.byLogger| == (if LoggerHasMessage(s.logger) then 1 else 0)
    && |s.mail.byRetry| == (if s.retry.RSend? then 1 else 0)
  }

  lemma LoggerKeepsLocks(s: State, a: Answer)
    requires Locked(s) && LoggerCan(s, a)
    ensures Locked(LoggerNext(s, a))
  {
  }

  lemma WindowKeepsLocks(s: State, a: Answer)
    requires Locked(s) && RetryCan(s, a) && InWindow(s.retry)
    ensures Locked(RetryNext(s, a))
  {
  }

  lemma SleepKeepsLocks(s: State, a: Answer)
    requires Locked(s) && RetryCan(s, a) && (s.retry.RLock? || s.retry.RWait? || s.retry.RWoken?)
    ensures Locked(RetryNext(s, a))
  {
  }

  lemma HeartbeatKeepsLocks(s: State, a: Answer)
    requires Locked(s) && RetryCan(s, a) && (s.retry.RCheck? || s.retry.RHeartbeat? || s.retry.RSocket?)
    ensures Locked(RetryNext(s, a))
  {
  }

  lemma StepKeepsLocks(s: State, l: Label)
    requires Locked(s) && Can(s, l)
    ensures Locked(Next(s, l))
  {
    match l
    case LoggerRuns(a) => LoggerKeepsLocks(s, a);
    case RetryRuns(a) =>
      if InWindow(s.retry) { WindowKeepsLocks(s, a); }
      else if RetryHoldsRetryMutex(s.retry) { HeartbeatKeepsLocks(s, a); }
      else { SleepKeepsLocks(s, a); }
    case _ =>
  }

  /** In every reachable state each mutex is held exactly over the lines that lock it, by one thread. */
  lemma {:induction false} MutualExclusion(r: Run, i: nat)
    requires IsRun(r) && i < |r.states|
    ensures Locked(r.states[i])
  {
    if i > 0 {
      MutualExclusion(r, i - 1);
      assert StepAt(r, i - 1);
      StepKeepsLocks(r.states[i - 1], r.labels[i - 1]);
    }
  }

  // ----- what a step does to the messages -----

  /** The one move of mail that a step makes. */
  function MoveOf(s: State, l: Label): Move {
    match l
    case Write(text) => Posts(text)
    case LoggerRuns(a) =>
      (match s.logger
       case LCheck => if s.needToClose || s.mail.live == [] then Stay else Pops
       case LSend(r) => if r == 0 then SendsDirect else if a.Sent? then Stay else LosesDirect
       case LStore => Keeps
       case _ => Stay)
    case RetryRuns(a) =>
      (match s.retry
       case RDrain => if s.mail.pending == [] then Stay else Takes
       case RSend(r) => if r == 0 then SendsDrained else if a.Sent? then Stay else LosesDrained
       case _ => Stay)
    case _ => Stay
  }

  lemma StepMoves(s: State, l: Label)
    requires Locked(s) && Can(s, l)
    ensures Allowed(s.mail, MoveOf(s, l)) && Next(s, l).mail == After(s.mail, MoveOf(s, l))
  {
  }

  lemma RunMoves(r: Run, i: nat)
    requires IsRun(r) && i < |r.labels|
    ensures Allowed(r.states[i].mail, MoveOf(r.states[i], r.labels[i]))
    ensures r.states[i + 1].mail == After(r.states[i].mail, MoveOf(r.states[i], r.labels[i]))
  {
    MutualExclusion(r, i);
    assert StepAt(r, i);
    StepMoves(r.states[i], r.labels[i]);
  }

  /** Every step of a run makes one allowed move of mail. */
  lemma SomeMove(r: Run, i: nat) returns (v: Move)
    requires IsRun(r) && i < |r.labels|
    ensures Allowed(r.states[i].mail, v) && r.states[i + 1].mail == After(r.states[i].mail, v)
  {
    RunMoves(r, i);
    v := MoveOf(r.states[i], r.labels[i]);
  }

  /** The step is a `sendMessage` of a log message returning ERROR. */
  predicate ReturnsError(s: State, l: Label) {
    || (l.LoggerRuns? && s.logger.LSend? && s.logger.remaining > 0 && !l.a.Sent?)
    || (l.RetryRuns? && s.retry.RSend? && s.retry.remaining > 0 && !l.a.Sent?)
  }

  /** The step is a `sendMessage` of a log message returning SUCCESS: nothing of it is left to send. */
  predicate ReturnsSuccess(s: State, l: Label) {
    || (l.LoggerRuns? && s.logger.LSend? && s.logger.remaining == 0)
    || (l.RetryRuns? && s.retry.RSend? && s.retry.remaining == 0)
  }

  /** The one message in flight. */
  function InFlight(m: Mail): seq<nat> {
    m.byLogger + m.byRetry
  }

  /**
   A message joins `dropped` exactly when its own sendMessage returns ERROR, joins `delivered`
   exactly when it returns SUCCESS, and neither list ever loses one.
   */
  lemma DroppedOnlyByError(r: Run, i: nat)
    requires IsRun(r) && i < |r.labels|
    ensures var s, t := r.states[i], r.states[i + 1];
            && t.mail.dropped == s.mail.dropped + (if ReturnsError(s, r.labels[i]) then InFlight(s.mail) else [])
            && t.mail.delivered == s.mail.delivered + (if ReturnsSuccess(s, r.labels[i]) then InFlight(s.mail) else [])
            && |InFlight(s.mail)| <= 1
  {
    hide After, MoveOf, Locked, ReturnsError, ReturnsSuccess;
    RunMoves(r, i);
    MutualExclusion(r, i);
    MoveDisposes(r.states[i], r.labels[i]);
  }

  lemma MoveDisposes(s: State, l: Label)
    requires Locked(s) && Allowed(s.mail, MoveOf(s, l))
    ensures var t := After(s.mail, MoveOf(s, l));
            && t.dropped == s.mail.dropped + (if ReturnsError(s, l) then InFlight(s.mail) else [])
            && t.delivered == s.mail.delivered + (if ReturnsSuccess(s, l) then InFlight(s.mail) else [])
            && |InFlight(s.mail)| <= 1
  {
  }

  // ----- conservation -----

  lemma StepConserves(r: Run, i: nat)
    requires IsRun(r) && i < |r.labels| && Conserved(r.states[i].mail)
    ensures Conserved(r.states[i + 1].mail)
  {
    var v := SomeMove(r, i);
    MovesConserve(r.states[i].mail, v);
  }

  /** In every reachable state the places together hold every written message exactly once. */
  lemma {:induction false} Conservation(r: Run, i: nat)
    requires IsRun(r) && i < |r.states|
    ensures Conserved(r.states[i].mail)
    ensures forall m: nat :: Places(r.states[i].mail)[m] == if m < |r.states[i].mail.written| then 1 else 0
  {
    hide Places, Conserved;
    if i == 0 {
      NothingToConserve();
    } else {
      Conservation(r, i - 1);
      StepConserves(r, i - 1);
    }
    ConservedCounts(r.states[i].mail);
  }

  lemma ConservedCounts(m: Mail)
    requires Conserved(m)
    ensures forall id: nat :: Places(m)[id] == if id < |m.written| then 1 else 0
  {
    hide Places, Range;
    forall id: nat ensures Places(m)[id] == if id < |m.written| then 1 else 0 {
      RangeOnce(|m.written|, id);
    }
  }

  lemma NothingToConserve()
    ensures Conserved(EMPTY)
  {
    assert Range(0) == [];
  }

  // ----- connected implies drained -----

  ghost predicate Drained(s: State) {
    && (s.connected ==> InWindow(s.retry) || s.mail.pending == [])
    && (s.logger.LStore? && s.connected ==> InWindow(s.retry))
  }

  lemma LoggerKeepsDrained(s: State, a: Answer)
    requires Locked(s) && Drained(s) && LoggerCan(s, a)
    ensures Drained(LoggerNext(s, a))
  {
  }

  lemma RetryKeepsDrained(s: State, a: Answer)
    requires Locked(s) && Drained(s) && RetryCan(s, a)
    ensures Drained(RetryNext(s, a))
  {
  }

  /** Outside the window an open socket means that nothing is pending and nothing is about to be. */
  lemma {:induction false} ConnectedImpliesDrained(r: Run, i: nat)
    requires IsRun(r) && i < |r.states|
    ensures var s := r.states[i];
            s.connected && !InWindow(s.retry) ==> s.mail.pending == [] && !s.logger.LStore?
    ensures Drained(r.states[i])
  {
    if i > 0 {
      ConnectedImpliesDrained(r, i - 1);
      MutualExclusion(r, i - 1);
      assert StepAt(r, i - 1);
      match r.labels[i - 1]
      case LoggerRuns(a) => LoggerKeepsDrained(r.states[i - 1], a);
      case RetryRuns(a) => RetryKeepsDrained(r.states[i - 1], a);
      case _ =>
    }
  }

  // ----- order -----

  lemma StepKeepsOrder(r: Run, i: nat)
    requires IsRun(r) && i < |r.labels| && Ordered(r.states[i].mail)
    ensures Ordered(r.states[i + 1].mail)
  {
    var v := SomeMove(r, i);
    MovesKeepOrder(r.states[i].mail, v);
  }

  /**
   Delivery is in write order if and only if no delivered message was overtaken, that is,
   was pending when a direct send succeeded.
   */
  lemma {:induction false} DeliveryOrder(r: Run, i: nat)
    requires IsRun(r) && i < |r.states|
    ensures Ordered(r.states[i].mail)
    ensures var m := r.states[i].mail; Increasing(m.delivered) <==> NoneOvertaken(m)
  {
    if i == 0 {
      EmptyIsOrdered();
    } else {
      DeliveryOrder(r, i - 1);
      StepKeepsOrder(r, i - 1);
    }
  }

  /** The popped messages are always a prefix of the written ones: the live queue is exactly the rest, in order. */
  lemma PoppedIsPrefix(r: Run, i: nat)
    requires IsRun(r) && i < |r.states|
    ensures var m := r.states[i].mail;
            |m.live| <= |m.written| && m.live == Range(|m.written|)[|m.written| - |m.live|..]
  {
    DeliveryOrder(r, i);
    var m := r.states[i].mail;
    assert forall k :: 0 <= k < |m.live| ==> m.live[k] == Popped(m) + k;
  }

  /** Step j is a direct send returning SUCCESS while `b` is pending. */
  ghost predicate Overtakes(r: Run, j: nat, b: nat)
    requires IsRun(r) && j < |r.labels|
  {
    MoveOf(r.states[j], r.labels[j]).SendsDirect? && b in r.states[j].mail.pending
  }

  /** `overtaken` is what the run says it is. */
  lemma {:induction false} OvertakenExactly(r: Run, i: nat, b: nat)
    requires IsRun(r) && i < |r.states|
    ensures b in r.states[i].mail.overtaken <==> exists j: nat :: j < i && Overtakes(r, j, b)
  {
    if i > 0 {
      OvertakenExactly(r, i - 1, b);
      RunMoves(r, i - 1);
      assert b in r.states[i].mail.overtaken <==> b in r.states[i - 1].mail.overtaken || Overtakes(r, i - 1, b);
    }
  }

  /** Delivery is out of write order exactly when a direct send succeeded over a pending message later delivered. */
  lemma OutOfOrderExactly(r: Run)
    requires IsRun(r)
    ensures var d := Last(r).mail.delivered;
            Increasing(d) <==> !exists j: nat, b :: j < |r.labels| && b in d && Overtakes(r, j, b)
  {
    DeliveryOrder(r, |r.labels|);
    forall b ensures b in Last(r).mail.overtaken <==> exists j: nat :: j < |r.labels| && Overtakes(r, j, b) {
      OvertakenExactly(r, |r.labels|, b);
    }
  }

  /** The logger reads an open socket (line 124) after line 13 assigned it and before the drain has mMutex. */
  predicate EntersWindow(s: State, l: Label) {
    l.LoggerRuns? && s.logger.LTest? && s.connected && InWindow(s.retry)
  }

  ghost predicate NeverEntersWindow(r: Run)
    requires IsRun(r)
  {
    forall i :: 0 <= i < |r.labels| ==> !EntersWindow(r.states[i], r.labels[i])
  }

  lemma {:induction false} NothingOvertaken(r: Run, i: nat)
    requires IsRun(r) && NeverEntersWindow(r) && i < |r.states|
    ensures r.states[i].mail.overtaken == {}
    ensures r.states[i].logger.LSend? ==> r.states[i].mail.pending == []
  {
    if i > 0 {
      NothingOvertaken(r, i - 1);
      RunMoves(r, i - 1);
      MutualExclusion(r, i - 1);
      ConnectedImpliesDrained(r, i - 1);
      assert StepAt(r, i - 1);
      assert !EntersWindow(r.states[i - 1], r.labels[i - 1]);
    }
  }

  /** In a run whose logger never enters the window, messages are delivered in write order. */
  lemma InOrderOutsideWindow(r: Run)
    requires IsRun(r) && NeverEntersWindow(r)
    ensures Increasing(Last(r).mail.delivered)
    ensures Below(Last(r).mail.delivered, |Last(r).mail.written|)
  {
    NothingOvertaken(r, |r.labels|);
    DeliveryOrder(r, |r.labels|);
  }

  // ----- waking -----

  /** A write, stopLogger and a spurious wake-up wake a waiting logger, and nothing else does. */
  lemma WakesExactly(r: Run, i: nat)
    requires IsRun(r) && i < |r.labels| && r.states[i].logger == LWait
    ensures r.states[i + 1].logger ==
            if r.labels[i].Write? || r.labels[i].StopLogger? || r.labels[i].SpuriousWake? then LWoken else LWait
  {
    assert StepAt(r, i);
    if r.labels[i].RetryRuns? {
      RetryLeavesLogger(r.states[i], r.labels[i].a);
    }
  }

  lemma RetryLeavesLogger(s: State, a: Answer)
    requires RetryCan(s, a)
    ensures RetryNext(s, a).logger == s.logger
  {
  }

  // ----- closing -----

  /** The close flag is set behind the first SetClose, and not before. */
  lemma {:induction false} ClosingExactly(r: Run, i: nat)
    requires IsRun(r) && i < |r.states|
    ensures r.states[i].needToClose <==> exists j :: 0 <= j < i && r.labels[j].SetClose?
  {
    if i > 0 {
      ClosingExactly(r, i - 1);
      assert StepAt(r, i - 1);
    }
  }

  /** The first look of each thread behind a SetClose is its last; before one, no look ends a thread. */
  lemma ThreadsEnd(r: Run, i: nat)
    requires IsRun(r) && i < |r.labels|
    ensures var closing, s, t := exists j :: 0 <= j < i && r.labels[j].SetClose?, r.states[i], r.states[i + 1];
            && (r.labels[i].LoggerRuns? && s.logger.LCheck? ==> (t.logger.LDone? <==> closing))
            && (r.labels[i].RetryRuns? && s.retry.RCheck? ==> (t.retry.RDone? <==> closing))
            && (t.logger.LDone? && !s.logger.LDone? ==> r.labels[i].LoggerRuns? && s.logger.LCheck?)
            && (t.retry.RDone? && !s.retry.RDone? ==> r.labels[i].RetryRuns? && s.retry.RCheck?)
  {
    ClosingExactly(r, i);
    assert StepAt(r, i);
  }
}
