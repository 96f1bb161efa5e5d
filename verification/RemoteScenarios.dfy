/** Concrete runs: each shows that a bad case the other modules describe does happen. */
module RemoteScenarios {
  import opened Common
  import opened RemoteMail
  import opened RemoteProtocol
  import opened RemoteDeadlock

  ghost const START: Run := Run([INIT], [])

  lemma Starts()
    ensures IsRun(START) && Last(START) == INIT
  {
  }

  /** The reconnect thread wakes by timeout and begins its heartbeat. */
  lemma Wakes(r: Run) returns (e: Run)
    requires IsRun(r)
    requires var s := Last(r); s.retry == RLock && s.mRetryMutex == Free && !s.needToClose
    ensures IsRun(e)
    ensures Last(e) == Last(r).(retry := RHeartbeat(HEARTBEAT_LENGTH), mRetryMutex := Retry)
  {
    e := Extend(r, RetryRuns(Ok));
    e := Extend(e, RetryRuns(Timeout));
    e := Extend(e, RetryRuns(Ok));
    e := Extend(e, RetryRuns(Ok));
  }

  /** The heartbeat fails and the reconnect thread connects again. */
  lemma Reconnects(r: Run) returns (e: Run)
    requires IsRun(r) && Last(r).retry == RHeartbeat(HEARTBEAT_LENGTH)
    ensures IsRun(e) && Last(e) == Last(r).(retry := RFull, connected := true)
  {
    assert HEARTBEAT_LENGTH == 13;
    e := Extend(r, RetryRuns(Fails));
    e := Extend(e, RetryRuns(Ok));
    e := Extend(e, RetryRuns(Ok));
    e := Extend(e, RetryRuns(Ok));
  }

  /** A write wakes the waiting logger, which pops the message. */
  lemma WritesOne(r: Run, text: Text) returns (e: Run)
    requires IsRun(r)
    requires var s := Last(r); s.logger == LLock && s.mMutex == Free && !s.needToClose && s.mail.live == []
    ensures IsRun(e)
    ensures var s := Last(r);
            Last(e) == s.(mail := s.mail.(written := s.mail.written + [text], byLogger := [|s.mail.written|]),
                          logger := LTest, mMutex := Logger, samples := s.samples + [0])
  {
    e := Extend(r, LoggerRuns(Ok));
    e := Extend(e, Write(text));
    e := Extend(e, LoggerRuns(Ok));
    e := Extend(e, LoggerRuns(Ok));
  }

  /** The logger, holding a message of one character, sends it on the open socket. */
  lemma SendsDirectly(r: Run) returns (e: Run)
    requires IsRun(r)
    requires var s := Last(r);
             s.logger == LTest && s.connected && Length(s.mail, s.mail.byLogger) == 1
    ensures IsRun(e) && Last(e) == LoggerLoops(Last(r).(mail := DirectSent(Last(r).mail)))
  {
    e := Extend(r, LoggerRuns(Ok));
    e := Extend(e, LoggerRuns(Sent(1)));
    e := Extend(e, LoggerRuns(Ok));
  }

  /** The reconnect thread, connected, drains a pending queue whose head is a message of one character. */
  lemma DrainsHead(r: Run) returns (e: Run)
    requires IsRun(r)
    requires var s := Last(r);
             && s.retry == RFull && s.mMutex == Free && s.connected
             && s.mail.pending != [] && Length(s.mail, s.mail.pending) == 1
    ensures IsRun(e)
    ensures Last(e) == Last(r).(mail := DrainSent(Take(Last(r).mail)), retry := RDrain, mMutex := Retry)
  {
    e := Extend(r, RetryRuns(Ok));
    e := Extend(e, RetryRuns(Ok));
    e := Extend(e, RetryRuns(Sent(1)));
    e := Extend(e, RetryRuns(Ok));
  }

  /** The reconnect thread, connected and with nothing pending, ends its loop body. */
  lemma DrainsNothing(r: Run) returns (e: Run)
    requires IsRun(r)
    requires var s := Last(r); s.retry == RFull && s.mMutex == Free && s.mail.pending == []
    ensures IsRun(e) && Last(e) == Last(r).(retry := RLock, mRetryMutex := Free)
  {
    e := Extend(r, RetryRuns(Ok));
    e := Extend(e, RetryRuns(Ok));
  }

  /** The two threads can block each other. */
  lemma StuckHappens() returns (r: Run)
    ensures IsRun(r) && Stuck(Last(r))
  {
    Starts();
    hide IsRun;
    r := Wakes(START);
    r := Reconnects(r);
    r := DrainsNothing(r);
    r := WritesOne(r, [97]);
    r := Extend(r, LoggerRuns(Ok));      // reads the open socket
    r := Wakes(r);
    r := Extend(r, LoggerRuns(Fails));   // the direct send fails
    r := Reconnects(r);
  }

  /** The second message written can be delivered first. */
  lemma OutOfOrderHappens() returns (r: Run)
    ensures IsRun(r) && Last(r).mail.delivered == [1, 0] && !Increasing(Last(r).mail.delivered)
  {
    Starts();
    hide IsRun;
    r := WritesOne(START, [97]);
    r := Extend(r, LoggerRuns(Ok));      // the socket is closed: message 0 becomes pending
    r := Extend(r, LoggerRuns(Ok));
    r := Wakes(r);
    r := Reconnects(r);
    r := WritesOne(r, [98]);
    r := SendsDirectly(r);               // message 1
    r := DrainsHead(r);                  // message 0
    assert Last(r).mail.delivered[0] > Last(r).mail.delivered[1];
  }

  /** A message written while the logger is not waiting stays behind although it was notified. */
  lemma MissedNotificationHappens() returns (r: Run)
    ensures IsRun(r) && WokenByWrites(r) && Last(r).logger == LWait && Last(r).mail.live != []
  {
    r := Extend(START, Write([97]));
    r := Extend(r, LoggerRuns(Ok));
  }
}
