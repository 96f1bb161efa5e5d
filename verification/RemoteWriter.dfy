/**
 `RemoteWriter` and the `write` of its base class over the heap queues. `run` is all that has
 happened to the object, and it is a run of the protocol: every statement that another thread can
 see is one of its steps, and between two of them the other threads take any steps they can.
 */
module RemoteWriter {
  import opened Common
  import opened RemoteMail
  import opened RemoteProtocol
  import opened RemoteSafety
  import opened RemoteInterference
  import opened SendCalls
  import opened EventMessage
  import opened EventQueue

  /** The events `es` carry the texts of the messages `ids`, each short enough for its buffer. */
  ghost predicate Matches(es: seq<Event>, ids: seq<nat>, written: seq<Text>) {
    && |es| == |ids|
    && forall i :: 0 <= i < |ids| ==> ids[i] < |written| && LogText(es[i]) == written[ids[i]]
                                       && |LogText(es[i])| < STRING_SIZE
  }

  /** Length of the i-th pending text. */
  function TextLength(m: Mail, i: nat): nat {
    if i < |m.pending| && m.pending[i] < |m.written| then |m.written[m.pending[i]]| else 0
  }

  /** After the first failed send, or on a socket closed from the start, only empty messages count as sent. */
  ghost predicate ClosedByFailure(m: Mail, open: bool, oks: seq<bool>) {
    && (forall i, j :: 0 <= i < j < |oks| && !oks[i] ==> (oks[j] <==> TextLength(m, j) == 0))
    && (!open ==> forall j :: 0 <= j < |oks| ==> (oks[j] <==> TextLength(m, j) == 0))
  }

  /** The length, an unsigned int, reads 0. */
  predicate CountsAsEmpty(ids: seq<nat>) {
    |ids| % TWO_32 == 0
  }

  /**
   One round of the drain: the message taken from `m` was sent or lost, leaving `n`; `open` and
   `open'` say whether the socket was open before and is after.
   */
  ghost predicate DrainsOne(m: Mail, open: bool, sent: bool, n: Mail, open': bool) {
    && m.pending != []
    && n == (if sent then DrainSent(Take(m)) else DrainLost(Take(m)))
    && (open' ==> open && sent)
    && (!open ==> (sent <==> TextLength(m, 0) == 0))
  }

  /** Rounds with the outcomes `oks` lead from `m` to `n`. */
  ghost predicate Drains(m: Mail, open: bool, oks: seq<bool>, n: Mail, open': bool) {
    && m.byRetry == []
    && |oks| <= |m.pending| && n == DrainRun(m, oks)
    && (open' ==> open && false !in oks)
    && ClosedByFailure(m, open, oks)
  }

  lemma NothingDrained(m: Mail, open: bool)
    requires m.byRetry == []
    ensures Drains(m, open, [], m, open)
  {
  }

  lemma NextTextLength(m: Mail, open: bool, oks: seq<bool>, n: Mail, open': bool)
    requires Drains(m, open, oks, n, open') && n.pending != []
    ensures TextLength(n, 0) == TextLength(m, |oks|)
  {
    DrainRunEffect(m, oks);
  }

  /** Every round of the drain that began at `r` sent its message as the system answered. */
  ghost predicate RoundsSentAs(m: Mail, answers: nat -> nat -> int, oks: seq<bool>, tooks: seq<seq<nat>>, ats: seq<nat>,
                               r: Run, e: Run)
  {
    && |tooks| == |ats| == |oks|
    && forall j :: 0 <= j < |oks| ==> SentAs(TextLength(m, j), answers(j), tooks[j], oks[j], Retry, r, e, ats[j])
  }

  lemma NoRounds(m: Mail, answers: nat -> nat -> int, r: Run, e: Run)
    ensures RoundsSentAs(m, answers, [], [], [], r, e)
  {
  }

  lemma RoundsLater(m: Mail, answers: nat -> nat -> int, oks: seq<bool>, tooks: seq<seq<nat>>, ats: seq<nat>,
                    r: Run, e: Run, f: Run)
    requires RoundsSentAs(m, answers, oks, tooks, ats, r, e) && Continues(r, e) && Continues(e, f)
    ensures RoundsSentAs(m, answers, oks, tooks, ats, r, f)
  {
    hide SentAs;
    NobodyRuns(Retry, r);
    forall j | 0 <= j < |oks| ensures SentAs(TextLength(m, j), answers(j), tooks[j], oks[j], Retry, r, f, ats[j]) {
      SentAsLater(TextLength(m, j), answers(j), tooks[j], oks[j], Retry, r, r, e, f, ats[j]);
    }
  }

  lemma OneMoreRound(m: Mail, answers: nat -> nat -> int, oks: seq<bool>, ok: bool, tooks: seq<seq<nat>>,
                     took: seq<nat>, ats: seq<nat>, at: nat, r: Run, e: Run, f: Run)
    requires RoundsSentAs(m, answers, oks, tooks, ats, r, e) && Continues(r, e) && Continues(e, f)
    requires SentAs(TextLength(m, |oks|), answers(|oks|), took, ok, Retry, e, f, at)
    ensures RoundsSentAs(m, answers, oks + [ok], tooks + [took], ats + [at], r, f)
  {
    hide SentAs;
    RoundsLater(m, answers, oks, tooks, ats, r, e, f);
    NobodyRuns(Retry, f);
    SentAsLater(TextLength(m, |oks|), answers(|oks|), took, ok, Retry, r, e, f, f, at);
  }

  /** The destructor may close the socket at any time. */
  lemma ClosedMeanwhile(m: Mail, open: bool, oks: seq<bool>, n: Mail, open': bool, open'': bool)
    requires Drains(m, open, oks, n, open') && (open'' ==> open')
    ensures Drains(m, open, oks, n, open'')
  {
  }

  lemma NotDrainingYet(r: Run)
    requires IsRun(r) && Last(r).retry == RFull
    ensures Last(r).mail.byRetry == []
  {
    MutualExclusion(r, |r.labels|);
  }

  lemma OneMoreDrained(m: Mail, open: bool, oks: seq<bool>, n: Mail, open': bool, sent: bool, n': Mail, open'': bool)
    requires Drains(m, open, oks, n, open') && DrainsOne(n, open', sent, n', open'')
    ensures Drains(m, open, oks + [sent], n', open'')
    ensures |m.pending| - |oks| > |m.pending| - |oks + [sent]| >= 0
  {
    DrainRunEffect(m, oks);
    assert (oks + [sent])[..|oks|] == oks;
    assert TextLength(n, 0) == TextLength(m, |oks|);
    assert (oks + [sent])[|oks|] == sent;
    assert forall b :: b in oks + [sent] <==> b in oks || b == sent;
  }

  /** What a timeout of the reconnect thread comes to. */
  datatype RetryOutcome = Ends | Alive | Unconnected | Connected

  /** HEARTBEAT_STRING, "HB Keep Alive". */
  const HEARTBEAT_STRING: Text := [72, 66, 32, 75, 101, 101, 112, 32, 65, 108, 105, 118, 101]

  /** The reconnect thread is at the head of the drain's loop, with both mutexes. */
  predicate Draining(s: State) {
    s.retry == RDrain && s.mMutex == Retry && s.mRetryMutex == Retry
  }

  /** What the logger did with a wake-up. */
  datatype Outcome = Closes | FindsNothing | SentDirect | LostDirect | Kept

  /** What became of the message that the logger held in `m`, and where the thread is then. */
  ghost predicate Disposed(m: Mail, t: State, o: Outcome) {
    match o
    case SentDirect => t.mail == DirectSent(m) && t.logger == LLock
    case LostDirect => t.mail == DirectLost(m) && t.logger == LRetryLock && !t.connected
    case Kept => t.mail == Keep(m) && t.logger == LLock
    case _ => false
  }

  /** What a wake-up of the logger does to the mail of `s`. */
  ghost predicate Processed(s: State, t: State, o: Outcome) {
    match o
    case Closes => t.mail == s.mail && t.logger == LDone
    case FindsNothing =>
      CountsAsEmpty(s.mail.live) && t.mail == s.mail && t.logger == if s.mail.live == [] then LLock else LCheck
    case _ =>
      !CountsAsEmpty(s.mail.live) && s.mail.live != [] && Disposed(Pop(s.mail), t, o)
  }

  /** The logger ends, finds its queue empty, or has popped the message that `e` carries. */
  ghost predicate Taken(s: State, t: State, closes: bool, e: Option<Event>) {
    if closes then t.logger == LDone && t.mail == s.mail
    else if CountsAsEmpty(s.mail.live) then
      t.logger == (if s.mail.live == [] then LLock else LCheck) && t.mail == s.mail && e.None?
    else
      && t.logger == LTest && t.mMutex == Logger && s.mail.live != [] && t.mail == Pop(s.mail)
      && e.Some? && IsEvent(e.value) && Matches([e.value], t.mail.byLogger, t.mail.written)
  }

  /** In state `i` of the run, behind those of `r`, the logger reads the socket, which is `open`. */
  ghost predicate ReadsSocketAt(r: Run, e: Run, i: nat, open: bool) {
    |r.labels| <= i < |e.labels| && i < |e.states| && e.states[i].logger == LTest && e.labels[i] == LoggerRuns(Ok)
    && e.states[i].connected == open
  }

  /** In state `i` of the run, its last but one and behind those of `r`, the logger notifies the reconnect thread. */
  ghost predicate NotifiesAt(r: Run, e: Run, i: nat)
    requires IsRun(e)
  {
    && |r.labels| < i < |e.labels| && i == |e.labels| - 1
    && e.states[i].logger == LNotify && e.labels[i] == LoggerRuns(Ok)
    && e.states[i + 1].retry == if e.states[i].retry == RWait then RWoken(false) else e.states[i].retry
  }

  lemma HoldsMutex(r: Run)
    requires IsRun(r) && Last(r).logger == LRetryLock
    ensures Last(r).mMutex == Logger
  {
    MutualExclusion(r, |r.labels|);
  }

  lemma WasNotified(r: Run, e: Run, f: Run)
    requires Continues(r, e) && |r.labels| < |e.labels|
    requires Last(e).logger == LNotify && Can(Last(e), LoggerRuns(Ok)) && f == Extend(e, LoggerRuns(Ok))
    ensures IsRun(f) && NotifiesAt(r, f, |e.labels|)
  {
    assert f.states[|e.labels|] == e.states[|e.labels|];
  }

  lemma LastIsAt(r: Run, l: Label)
    requires IsRun(r) && Can(Last(r), l)
    ensures var e := Extend(r, l);
            |e.states| == |e.labels| + 1 && e.labels[|r.labels|] == l && e.states[|r.labels|] == Last(r)
  {
  }

  lemma KeptIs(r: Run, e: Run)
    requires IsRun(r) && IsRun(e) && Last(e).mail == Keep(Last(r).mail) && Last(e).logger == LLock
    ensures Disposed(Last(r).mail, Last(e), Kept)
  {
  }

  lemma SocketWasRead(r: Run, e: Run, f: Run)
    requires IsRun(r) && Last(r).logger == LTest && Can(Last(r), LoggerRuns(Ok))
    requires e == Extend(r, LoggerRuns(Ok)) && Continues(e, f)
    ensures ReadsSocketAt(r, f, |r.labels|, Last(r).connected)
  {
    assert e.states[|r.labels|] == r.states[|r.labels|];
  }

  /** The text of the message that a thread holds is as long as the protocol says. */
  lemma HeldLength(e: Event, m: Mail, held: seq<nat>)
    requires Matches([e], held, m.written)
    ensures RemoteProtocol.Length(m, held) == |LogText(e)|
  {
    assert [e][0] == e;
  }

  class RemoteWriter {
    var mClientSocket: int
    var mNeedToClose: bool
    const live: EventQueueInterface
    const pending: EventQueueInterface
    ghost var run: Run

    /** The queues hold the messages with these ids. */
    ghost predicate Holds(liveIds: seq<nat>, pendingIds: seq<nat>, written: seq<Text>)
      reads live, live.mEventQueue, live.mEventQueue.owned
      reads pending, pending.mEventQueue, pending.mEventQueue.owned
    {
      && live.mEventQueue != pending.mEventQueue
      && live.mEventQueue.owned !! pending.mEventQueue.owned
      && live.Valid() && pending.Valid()
      && Matches(live.Contents(), liveIds, written)
      && Matches(pending.Contents(), pendingIds, written)
    }

    /** The object is what the protocol's state `s` says. */
    ghost predicate Shows(s: State)
      reads this, live, live.mEventQueue, live.mEventQueue.owned
      reads pending, pending.mEventQueue, pending.mEventQueue.owned
    {
      && Holds(s.mail.live, s.mail.pending, s.mail.written)
      && (s.connected <==> mClientSocket != -1)
      && s.needToClose == mNeedToClose
    }

    ghost predicate Valid()
      reads this, live, live.mEventQueue, live.mEventQueue.owned
      reads pending, pending.mEventQueue, pending.mEventQueue.owned
    {
      IsRun(run) && Shows(Last(run))
    }

    /** The nodes that the queues own were there or are new, and the run goes on. */
    twostate predicate Goes()
      reads this, live, live.mEventQueue, pending, pending.mEventQueue
    {
      && Continues(old(run), run)
      && fresh(live.mEventQueue.owned - old(live.mEventQueue.owned))
      && fresh(pending.mEventQueue.owned - old(pending.mEventQueue.owned))
    }

    constructor ()
      ensures Valid() && run == Run([INIT], []) && mClientSocket == -1
      ensures fresh(live) && fresh(live.mEventQueue) && fresh(live.mEventQueue.owned)
      ensures fresh(pending) && fresh(pending.mEventQueue) && fresh(pending.mEventQueue.owned)
    {
      mClientSocket, mNeedToClose := -1, false;
      live := new EventQueueInterface();
      pending := new EventQueueInterface();
      run := Run([INIT], []);
    }

    /**
     What happens before the thread `who` goes on. Its callers know this contract only, so what
     they promise holds whatever the others do.
     */
    method OtherThreads(ghost who: Owner)
      requires Valid()
      modifies this, live.mEventQueue, live.mEventQueue.owned, pending.mEventQueue, pending.mEventQueue.owned
      ensures Valid() && Goes() && OthersRun(who, old(run), run)
    {
      NobodyRuns(who, run);
    }

    /** The others run while the logger holds mMutex. */
    method LoggerYields()
      requires Valid() && Last(run).mMutex == Logger
      modifies this, live.mEventQueue, live.mEventQueue.owned, pending.mEventQueue, pending.mEventQueue.owned
      ensures Valid() && Goes() && LoggerFinds(old(Last(run)), Last(run))
    {
      hide *;
      OtherThreads(Logger);
      LoggerRelies(old(run), run);
    }

    /** The others run while the reconnect thread holds mRetryMutex. */
    method RetryYields()
      requires Valid() && Last(run).mRetryMutex == Retry
      modifies this, live.mEventQueue, live.mEventQueue.owned, pending.mEventQueue, pending.mEventQueue.owned
      ensures Valid() && Goes() && RetryFinds(old(Last(run)), Last(run))
    {
      hide *;
      OtherThreads(Retry);
      RetryRelies(old(run), run);
    }

    /** A step that leaves the queues and the fields as they are. */
    ghost method Advance(l: Label)
      requires Valid() && Can(Last(run), l)
      requires var s, t := Last(run), Next(Last(run), l);
               SameQueues(s.mail, t.mail) && t.connected == s.connected && t.needToClose == s.needToClose
      modifies this`run
      ensures Valid() && Goes() && run == Extend(old(run), l)
    {
      hide EventQueueInterface.Valid, EventQueueInterface.Contents, Holds, IsRun, Next, Can;
      OneStepOn(run, run, l);
      run := Extend(run, l);
    }

    /** A step that closes the socket and leaves the queues as they are. */
    method CloseSocket(ghost l: Label)
      requires Valid() && Can(Last(run), l)
      requires var s, t := Last(run), Next(Last(run), l);
               SameQueues(s.mail, t.mail) && !t.connected && t.needToClose == s.needToClose
      modifies this`run, this`mClientSocket
      ensures Valid() && Goes() && run == Extend(old(run), l) && mClientSocket == -1
    {
      hide EventQueueInterface.Valid, EventQueueInterface.Contents, Holds, IsRun, Next, Can;
      OneStepOn(run, run, l);
      run := Extend(run, l);
      mClientSocket := -1;
    }

    /**
     One call of `send`, after the others have run, with `remaining` bytes left of the message
     begun in `s`; an error closes the socket.
     */
    method SendOnce(remaining: nat, answer: int, ghost who: Owner, ghost s: State) returns (sent: int, ghost at: nat)
      requires Valid() && Sending(s, Last(run), who, remaining) && remaining > 0
      modifies this, live.mEventQueue, live.mEventQueue.owned, pending.mEventQueue, pending.mEventQueue.owned
      ensures Valid() && Goes() && -1 <= sent <= remaining
      ensures if sent == -1 || sent == 0 then SendFailed(s, Last(run), who) && mClientSocket == -1
              else Sending(s, Last(run), who, remaining - sent) && (who.Retry? ==> s.connected)
      ensures if sent == -1 || sent == 0 then
                && |old(run.labels)| <= at < |run.labels| && at < |run.states| && run.labels[at] == Runs(who, Fails)
                && (answer <= 0 || !run.states[at].connected)
              else sent == answer || (sent == remaining < answer)
    {
      hide EventQueueInterface.Valid, EventQueueInterface.Contents, Holds, IsRun, Next, Can, Sending, SendFailed;
      ghost var before := run;
      OtherThreads(who);
      SendGoesOn(s, before, run, who, remaining);
      at := |run.labels|;
      sent := Send(mClientSocket != -1, remaining, answer);
      if sent == -1 || sent == 0 {
        SendBreaks(s, Last(run), who, remaining);
        LastIsAt(run, Runs(who, Fails));
        CloseSocket(Runs(who, Fails));
      } else {
        SendTakes(s, Last(run), who, remaining, sent);
        Advance(Runs(who, Sent(sent)));
      }
    }

    /**
     Sends until nothing remains or a call fails, while the other threads run between any two
     calls. `accepted` is what the calls took, each of what the system answered: all of the
     message exactly on SUCCESS. An empty message succeeds on any socket. In the protocol the
     thread `who` sent it, or lost it.
     */
    method SendMessage(message: Text, answers: nat -> int, ghost who: Owner)
      returns (status: Status, accepted: Text, ghost took: seq<nat>, ghost at: nat)
      requires Valid() && Remaining(Last(run), who) == Some(|message|)
      modifies this, live.mEventQueue, live.mEventQueue.owned, pending.mEventQueue, pending.mEventQueue.owned
      ensures Valid() && Goes()
      ensures Sum(took) <= |message| && accepted == message[..Sum(took)]
      ensures SentAs(|message|, answers, took, status == SUCCESS, who, old(run), run, at)
      ensures status == if accepted == message then SUCCESS else ERROR
      ensures if status == SUCCESS then Sending(old(Last(run)), Last(run), who, 0)
              else SendFailed(old(Last(run)), Last(run), who)
      ensures status == ERROR ==> mClientSocket == -1
      ensures who.Retry? && !old(Last(run)).connected ==> accepted == []
    {
      hide EventQueueInterface.Valid, EventQueueInterface.Contents, Holds, Shows, IsRun, Next, Can, Sending, SendFailed;
      hide Sum, Took;
      var data, remaining := 0, |message|;
      var i := 0;
      took, at := [], 0;
      NothingTook(|message|, answers);
      SendStarts(run, who);
      NobodyRuns(who, run);
      while remaining > 0
        invariant 0 <= remaining && data + remaining == |message|
        invariant Valid() && Goes() && Sending(old(Last(run)), Last(run), who, remaining)
        invariant i == |took| && Took(|message|, answers, took) && data == Sum(took)
        invariant who.Retry? && !old(Last(run)).connected ==> data == 0
        decreases remaining
      {
        var sent;
        sent, at := SendOnce(remaining, answers(i), who, old(Last(run)));
        i := i + 1;
        if sent == -1 || sent == 0 {
          return ERROR, message[..data], took, at;
        }
        OneMoreTook(|message|, answers, took, sent);
        took := took + [sent];
        data := data + sent;
        remaining := remaining - sent;
      }
      return SUCCESS, message, took, at;
    }

    // ----- writing and closing -----

    /** `LogWriterInterface::write`: the text must fit the buffer with its NUL. */
    method Write(logMessage: seq<Byte>, junk: seq<Byte>, key: U64)
      requires Valid() && Last(run).mMutex == Free && |junk| == STRING_SIZE && |CString(logMessage)| < STRING_SIZE
      modifies this`run, live.mEventQueue, live.mEventQueue.owned
      ensures Valid() && Goes() && run == Extend(old(run), Label.Write(CString(logMessage)))
    {
      hide EventQueueInterface.Valid, EventQueueInterface.Contents, Holds, IsRun, Next, Can, CString;
      WriteStep(Last(run), CString(logMessage));
      NobodyRuns(Free, run);
      OneStepOn(run, run, Label.Write(CString(logMessage)));
      PushLive(logMessage, junk, key, Last(run).mail);
      run := Extend(run, Label.Write(CString(logMessage)));
    }

    /** Lines 35-45: the text goes to the live queue. */
    method PushLive(logMessage: seq<Byte>, junk: seq<Byte>, key: U64, ghost m: Mail)
      requires Holds(m.live, m.pending, m.written) && |junk| == STRING_SIZE && |CString(logMessage)| < STRING_SIZE
      modifies live.mEventQueue, live.mEventQueue.owned
      ensures var n := Post(m, CString(logMessage)); Holds(n.live, n.pending, n.written)
      ensures fresh(live.mEventQueue.owned - old(live.mEventQueue.owned))
    {
      hide EventQueueInterface.Valid, EventQueueInterface.Contents;
      hide CString, EventOf, LoggerMemory, Carried, IsPacked;
      var event := new EventMessageInterface();
      event.SetMessage(LoggerMemory(logMessage, junk), key);
      LogTextSurvives(logMessage, junk);
      live.PushEvent(event, key);
    }

    method SetCloseflag()
      requires Valid() && Last(run).mMutex == Free
      modifies this`run, this`mNeedToClose
      ensures Valid() && Goes() && run == Extend(old(run), SetClose)
    {
      hide EventQueueInterface.Valid, EventQueueInterface.Contents, Holds, IsRun;
      NobodyRuns(Free, run);
      OneStepOn(run, run, SetClose);
      run := Extend(run, SetClose);
      mNeedToClose := true;
    }

    method StopLogger()
      requires Valid() && Last(run).mMutex == Free && mNeedToClose
      modifies this`run
      ensures Valid() && Goes() && run == Extend(old(run), Label.StopLogger)
    {
      hide EventQueueInterface.Valid, EventQueueInterface.Contents, Holds, IsRun;
      Advance(Label.StopLogger);
    }

    /** The destructor closes the socket, behind setCloseflag. */
    method DestroySocket()
      requires Valid() && mNeedToClose
      modifies this`run, this`mClientSocket
      ensures Valid() && Goes() && run == Extend(old(run), Label.DestroySocket)
      ensures mClientSocket == -1 && Last(run).mail == old(Last(run).mail)
    {
      hide EventQueueInterface.Valid, EventQueueInterface.Contents, Holds, IsRun;
      CloseSocket(Label.DestroySocket);
    }

    // ----- the logger thread -----

    /** Lines 111-112: the logger goes to sleep. */
    method LoggerWaits()
      requires Valid() && Last(run).mMutex == Free && Last(run).logger == LLock
      modifies this`run
      ensures Valid() && Goes() && run == Extend(old(run), LoggerRuns(Ok)) && Last(run).logger == LWait
    {
      hide EventQueueInterface.Valid, EventQueueInterface.Contents, Holds, IsRun;
      Advance(LoggerRuns(Ok));
    }

    /** Line 122: the front message is popped. */
    method PopLive(key: U64) returns (e: Event)
      requires Valid() && Last(run).logger == LCheck && !mNeedToClose && Last(run).mail.live != []
      modifies this`run, live.mEventQueue, live.mEventQueue.owned
      ensures Valid() && Goes() && run == Extend(old(run), LoggerRuns(Ok))
      ensures var s, t := old(Last(run)), Last(run);
              && t.logger == LTest && t.mMutex == s.mMutex && t.mail == Pop(s.mail)
              && IsEvent(e) && Matches([e], t.mail.byLogger, t.mail.written)
    {
      hide EventQueueInterface.Valid, EventQueueInterface.Contents, Holds, IsRun, Matches;
      NobodyRuns(Free, run);
      OneStepOn(run, run, LoggerRuns(Ok));
      e := GetLive(key, Last(run).mail);
      run := Extend(run, LoggerRuns(Ok));
    }

    method GetLive(key: U64, ghost m: Mail) returns (e: Event)
      requires Holds(m.live, m.pending, m.written) && m.live != []
      modifies live.mEventQueue, live.mEventQueue.owned
      ensures Holds(m.live[1..], m.pending, m.written) && live.mEventQueue.owned <= old(live.mEventQueue.owned)
      ensures IsEvent(e) && Matches([e], [m.live[0]], m.written)
    {
      hide EventQueueInterface.Valid, EventQueueInterface.Contents;
      var elem1 := live.GetEvent(key);
      e := elem1.eventMsg;
    }

    /** Lines 133-140: the popped message goes to the pending queue. */
    method KeepPending(e: Event, key: U64)
      requires Valid() && Last(run).logger == LStore
      requires IsEvent(e) && Matches([e], Last(run).mail.byLogger, Last(run).mail.written)
      modifies this`run, pending.mEventQueue, pending.mEventQueue.owned
      ensures Valid() && Goes() && run == Extend(old(run), LoggerRuns(Ok))
      ensures Last(run).logger == LLock && Last(run).mail == Keep(old(Last(run).mail))
    {
      hide EventQueueInterface.Valid, EventQueueInterface.Contents, Holds, IsRun, Next, Can, Matches;
      StoreStep(Last(run));
      NobodyRuns(Free, run);
      OneStepOn(run, run, LoggerRuns(Ok));
      PushPending(e, key, Last(run).mail);
      run := Extend(run, LoggerRuns(Ok));
    }

    method PushPending(e: Event, key: U64, ghost m: Mail)
      requires Holds(m.live, m.pending, m.written) && IsEvent(e) && Matches([e], m.byLogger, m.written)
      modifies pending.mEventQueue, pending.mEventQueue.owned
      ensures var n := Keep(m); Holds(n.live, n.pending, n.written)
      ensures fresh(pending.mEventQueue.owned - old(pending.mEventQueue.owned))
    {
      hide EventQueueInterface.Valid, EventQueueInterface.Contents;
      hide CString, EventOf, PendingMemory, Carried, IsPacked;
      var event := new EventMessageInterface();
      event.SetMessage(PendingMemory(e), key);
      assert [e][0] == e && m.byLogger == [m.byLogger[0]];
      PendingKeepsText(e);
      pending.PushEvent(event, key);
    }

    /** Line 126: the popped message is sent directly. */
    method SendDirect(e: Event, answers: nat -> int) returns (outcome: Outcome, ghost took: seq<nat>, ghost at: nat)
      requires Valid() && Last(run).logger == LSend(|LogText(e)|) && Last(run).mMutex == Logger
      modifies this, live.mEventQueue, live.mEventQueue.owned, pending.mEventQueue, pending.mEventQueue.owned
      ensures Valid() && Goes() && Disposed(old(Last(run).mail), Last(run), outcome)
      ensures outcome.SentDirect? || outcome.LostDirect?
      ensures SentAs(|LogText(e)|, answers, took, outcome.SentDirect?, Logger, old(run), run, at)
    {
      hide EventQueueInterface.Valid, EventQueueInterface.Contents, Holds, Shows, IsRun, Next, Can, LogText;
      hide SentAs, Sum, Took;
      var status, accepted;
      status, accepted, took, at := SendMessage(LogText(e), answers, Logger);
      if status != SUCCESS {
        outcome := LostDirect;
        return;
      }
      ghost var sent := run;
      LoggerYields();
      SentStep(Last(run));
      Advance(LoggerRuns(Ok));
      NobodyRuns(Logger, old(run));
      SentAsLater(|LogText(e)|, answers, took, true, Logger, old(run), old(run), sent, run, at);
      outcome := SentDirect;
    }

    /** Line 124: the socket is read. */
    method TestSocket() returns (open: bool)
      requires Valid() && Last(run).logger == LTest && Last(run).mMutex == Logger
      modifies this`run
      ensures Valid() && Goes() && run == Extend(old(run), LoggerRuns(Ok)) && Can(old(Last(run)), LoggerRuns(Ok))
      ensures Last(run).mail == old(Last(run).mail) && Last(run).mMutex == Logger && open == old(Last(run).connected)
      ensures Last(run).logger ==
              if open then LSend(RemoteProtocol.Length(Last(run).mail, Last(run).mail.byLogger)) else LStore
    {
      hide EventQueueInterface.Valid, EventQueueInterface.Contents, Holds, IsRun, Next, Can;
      TestStep(Last(run));
      open := mClientSocket != -1;
      Advance(LoggerRuns(Ok));
    }

    /** Lines 124-141: the popped message is sent on an open socket, and kept as pending on a closed one. */
    method Dispose(e: Event, answers: nat -> int, key: U64)
      returns (outcome: Outcome, ghost took: seq<nat>, ghost at: nat)
      requires Valid() && Last(run).logger == LTest && Last(run).mMutex == Logger
      requires IsEvent(e) && Matches([e], Last(run).mail.byLogger, Last(run).mail.written)
      modifies this, live.mEventQueue, live.mEventQueue.owned, pending.mEventQueue, pending.mEventQueue.owned
      ensures Valid() && Goes() && Disposed(old(Last(run).mail), Last(run), outcome)
      ensures !outcome.Closes? && !outcome.FindsNothing?
      ensures ReadsSocketAt(old(run), run, |old(run.labels)|, !outcome.Kept?)
      ensures !outcome.Kept? ==>
                SentAs(|LogText(e)|, answers, took, outcome.SentDirect?, Logger, old(run), run, at)
    {
      hide EventQueueInterface.Valid, EventQueueInterface.Contents, Holds, IsRun, Next, Can, LogText, Matches;
      hide SentAs, Disposed, ReadsSocketAt;
      took, at := [], 0;
      HeldLength(e, Last(run).mail, Last(run).mail.byLogger);
      var open := TestSocket();
      hide Shows;
      ghost var tested := run;
      if open {
        outcome, took, at := SendDirect(e, answers);
        NobodyRuns(Logger, run);
        SentAsLater(|LogText(e)|, answers, took, outcome.SentDirect?, Logger, old(run), tested, run, run, at);
      } else {
        LoggerYields();
        KeepPending(e, key);
        outcome := Kept;
        KeptIs(tested, run);
      }
      SocketWasRead(old(run), tested, run);
    }

    /** Line 112: a logger that was woken gets mMutex. */
    method LoggerWakes()
      requires Valid() && Last(run).logger == LWoken && Last(run).mMutex == Free
      modifies this`run
      ensures Valid() && Goes() && run == Extend(old(run), LoggerRuns(Ok))
      ensures Last(run) == old(Last(run)).(logger := LCheck, mMutex := Logger)
    {
      hide EventQueueInterface.Valid, EventQueueInterface.Contents, Holds, Shows, IsRun;
      Advance(LoggerRuns(Ok));
    }

    /** Lines 114-122: the logger ends, finds its queue empty, or has the front message. */
    method TakeOne(key: U64) returns (closes: bool, e: Option<Event>)
      requires Valid() && Last(run).logger == LCheck && Last(run).mMutex == Logger
      modifies this`run, live.mEventQueue, live.mEventQueue.owned
      ensures Valid() && Goes() && closes == old(mNeedToClose) && Taken(old(Last(run)), Last(run), closes, e)
    {
      hide EventQueueInterface.Valid, EventQueueInterface.Contents, IsRun, Next, Can;
      NobodyRuns(Logger, run);
      if mNeedToClose {
        CheckStep(Last(run));
        Advance(LoggerRuns(Ok));
        return true, None;
      }
      var n := live.GetQueueLength();
      if n == 0 {
        if Last(run).mail.live == [] {
          CheckStep(Last(run));
          Advance(LoggerRuns(Ok));
        }
        return false, None;
      }
      var elem1 := PopLive(key);
      return false, Some(elem1);
    }

    /** Lines 112-122: the logger gets mMutex, and the others run once more before it looks. */
    method WakeAndTake(key: U64) returns (closes: bool, e: Option<Event>)
      requires Valid() && Last(run).logger == LWoken && Last(run).mMutex == Free
      modifies this, live.mEventQueue, live.mEventQueue.owned, pending.mEventQueue, pending.mEventQueue.owned
      ensures Valid() && Goes() && closes == old(mNeedToClose) && Taken(old(Last(run)), Last(run), closes, e)
    {
      hide EventQueueInterface.Valid, EventQueueInterface.Contents, Holds, IsRun, Next, Can, Matches;
      LoggerWakes();
      LoggerYields();
      closes, e := TakeOne(key);
    }

    /**
     The logger after a wake-up, lines 112-141, while the other threads run between any two of
     its steps. It ends when the close flag is set, and otherwise pops one message, if there is
     one. State number `test` of the run is the one in which line 124 reads the socket.
     */
    method ProcessOne(answers: nat -> int, key: U64)
      returns (outcome: Outcome, ghost test: nat, ghost took: seq<nat>, ghost at: nat)
      requires Valid() && Last(run).logger == LWoken && Last(run).mMutex == Free
      modifies this, live.mEventQueue, live.mEventQueue.owned, pending.mEventQueue, pending.mEventQueue.owned
      ensures Valid() && Goes() && Processed(old(Last(run)), Last(run), outcome)
      ensures outcome.Closes? <==> old(mNeedToClose)
      ensures !outcome.Closes? && !outcome.FindsNothing? ==> ReadsSocketAt(old(run), run, test, !outcome.Kept?)
      ensures outcome.SentDirect? || outcome.LostDirect? ==>
                SentAs(RemoteProtocol.Length(old(Last(run).mail), old(Last(run).mail.live)), answers, took,
                       outcome.SentDirect?, Logger, old(run), run, at)
    {
      hide EventQueueInterface.Valid, EventQueueInterface.Contents, Holds, Shows, IsRun, Next, Can, Matches, Disposed;
      hide SentAs, LogText;
      var closes, e := WakeAndTake(key);
      if closes {
        return Closes, 0, [], 0;
      }
      if e.None? {
        return FindsNothing, 0, [], 0;
      }
      LoggerYields();
      test := |run.labels|;
      HeldLength(e.value, Last(run).mail, Last(run).mail.byLogger);
      ghost var before := run;
      outcome, took, at := Dispose(e.value, answers, key);
      if !outcome.Kept? {
        NobodyRuns(Logger, run);
        SentAsLater(|LogText(e.value)|, answers, took, outcome.SentDirect?, Logger, old(run), before, run, run, at);
      }
    }

    /**
     Lines 128-129, when mRetryMutex can be had, while the other threads run in between. State
     number `at` of the run is the one in which the notification is made: a reconnect thread
     that waits then is woken.
     */
    method NotifyRetry() returns (ghost at: nat)
      requires Valid() && Last(run).logger == LRetryLock && Last(run).mRetryMutex == Free
      modifies this, live.mEventQueue, live.mEventQueue.owned, pending.mEventQueue, pending.mEventQueue.owned
      ensures Valid() && Goes() && Last(run).logger == LLock && Last(run).mail == old(Last(run).mail)
      ensures NotifiesAt(old(run), run, at)
    {
      hide EventQueueInterface.Valid, EventQueueInterface.Contents, Holds, IsRun, Shows, Next, Can;
      HoldsMutex(run);
      RetryLockStep(Last(run));
      Advance(LoggerRuns(Ok));
      LoggerYields();
      at := |run.labels|;
      NotifyStep(Last(run));
      ghost var locked := run;
      Advance(LoggerRuns(Ok));
      WasNotified(old(run), locked, run);
    }

    // ----- the reconnect thread -----

    /** Lines 155-156: the reconnect thread goes to sleep. */
    method RetryWaits()
      requires Valid() && Last(run).mRetryMutex == Free && Last(run).retry == RLock
      modifies this`run
      ensures Valid() && Goes() && run == Extend(old(run), RetryRuns(Ok)) && Last(run).retry == RWait
    {
      hide EventQueueInterface.Valid, EventQueueInterface.Contents, Holds, Shows, IsRun;
      Advance(RetryRuns(Ok));
    }

    /** Line 156: the wait ends. */
    method RetryWakes(timedOut: bool)
      requires Valid() && Last(run).retry == RWait
      modifies this`run
      ensures Valid() && Goes() && Last(run).retry == RWoken(timedOut)
      ensures run == Extend(old(run), RetryRuns(if timedOut then Timeout else Ok))
    {
      hide EventQueueInterface.Valid, EventQueueInterface.Contents, Holds, Shows, IsRun;
      Advance(RetryRuns(if timedOut then Timeout else Ok));
    }

    /** Line 156: a wait that was notified is begun again. */
    method RetryNotified()
      requires Valid() && Last(run).retry == RWoken(false) && Last(run).mRetryMutex == Free
      modifies this`run
      ensures Valid() && Goes() && run == Extend(old(run), RetryRuns(Ok)) && Last(run).retry == RLock
    {
      hide EventQueueInterface.Valid, EventQueueInterface.Contents, Holds, Shows, IsRun;
      Advance(RetryRuns(Ok));
    }

    /** Line 13: the system's answer to `socket` is stored, -1 for a failure. */
    method OpenSocket(socket: int)
      requires Valid() && Last(run).retry == RSocket && Last(run).mRetryMutex == Retry
      modifies this`run, this`mClientSocket
      ensures Valid() && Goes() && run == Extend(old(run), RetryRuns(if socket != -1 then Ok else Fails))
      ensures mClientSocket == socket
      ensures if socket == -1 then Last(run).retry == RLock
              else Last(run).retry == ROptions && Last(run).mRetryMutex == Retry
    {
      hide EventQueueInterface.Valid, EventQueueInterface.Contents, Holds, IsRun;
      var a := if socket != -1 then Ok else Fails;
      NobodyRuns(Retry, run);
      OneStepOn(run, run, RetryRuns(a));
      run := Extend(run, RetryRuns(a));
      mClientSocket := socket;
    }

    /**
     A call on the socket, of line 21 or line 35, with what the system answers: it fails on a
     closed socket, and a failure closes it.
     */
    method CallOnSocket(answer: bool) returns (ok: bool)
      requires Valid() && (Last(run).retry == ROptions || Last(run).retry == RConnect) && Last(run).mRetryMutex == Retry
      modifies this`run, this`mClientSocket
      ensures Valid() && Goes() && ok == (answer && old(mClientSocket) != -1)
      ensures run == Extend(old(run), RetryRuns(if ok then Ok else Fails))
      ensures if ok then
                && mClientSocket == old(mClientSocket) && Last(run).mRetryMutex == Retry
                && Last(run).retry == if old(Last(run)).retry == ROptions then RConnect else RFull
              else mClientSocket == -1 && Last(run).retry == RLock
      ensures !ok ==> !answer || FoundClosed(old(run), run, |old(run.labels)|)
    {
      hide EventQueueInterface.Valid, EventQueueInterface.Contents, Holds, IsRun;
      ok := answer && mClientSocket != -1;
      if ok {
        Advance(RetryRuns(Ok));
      } else {
        LastIsAt(run, RetryRuns(Fails));
        CloseSocket(RetryRuns(Fails));
      }
    }

    /** connectToRemoteLogServer, while the others run between any two of its calls. */
    method ConnectToRemoteLogServer(socket: int, options: bool, connects: bool)
      returns (status: Status, ghost at: nat)
      requires Valid() && Last(run).retry == RSocket && Last(run).mRetryMutex == Retry
      modifies this, live.mEventQueue, live.mEventQueue.owned, pending.mEventQueue, pending.mEventQueue.owned
      ensures Valid() && Goes()
      ensures status == SUCCESS ==> socket != -1 && options && connects
      ensures status != SUCCESS ==> socket == -1 || !options || !connects || FoundClosed(old(run), run, at)
      ensures status == if Last(run).retry == RFull then SUCCESS else SOCKET_INITIALIZATION_FAILED
      ensures if status == SUCCESS then mClientSocket != -1 && Last(run).mRetryMutex == Retry
              else mClientSocket == -1 && Last(run).retry == RLock
    {
      hide EventQueueInterface.Valid, EventQueueInterface.Contents, Holds, Shows, IsRun, Next, Can;
      OpenSocket(socket);
      if mClientSocket == -1 {
        return SOCKET_INITIALIZATION_FAILED, 0;
      }
      var ok;
      ok, at := CallOnSocketLater(options);
      if !ok {
        return SOCKET_INITIALIZATION_FAILED, at;
      }
      ok, at := CallOnSocketLater(connects);
      return if ok then SUCCESS else SOCKET_INITIALIZATION_FAILED, at;
    }

    /** The same after the others have run. */
    method CallOnSocketLater(answer: bool) returns (ok: bool, ghost at: nat)
      requires Valid() && (Last(run).retry == ROptions || Last(run).retry == RConnect) && Last(run).mRetryMutex == Retry
      modifies this, live.mEventQueue, live.mEventQueue.owned, pending.mEventQueue, pending.mEventQueue.owned
      ensures Valid() && Goes() && (ok ==> answer) && (!ok ==> !answer || FoundClosed(old(run), run, at))
      ensures if ok then
                && mClientSocket != -1 && Last(run).mRetryMutex == Retry
                && Last(run).retry == if old(Last(run)).retry == ROptions then RConnect else RFull
              else mClientSocket == -1 && Last(run).retry == RLock
    {
      hide EventQueueInterface.Valid, EventQueueInterface.Contents, Holds, Shows, IsRun, Next, Can;
      RetryYields();
      at := |run.labels|;
      ghost var before := run;
      ok := CallOnSocket(answer);
      FoundClosedBehind(old(run), before, run, at);
    }

    /**
     Lines 156-162: the wait timed out. The thread ends when the close flag is set, and otherwise
     begins a heartbeat.
     */
    method RetryChecks() returns (closes: bool)
      requires Valid() && Last(run).retry == RWoken(true) && Last(run).mRetryMutex == Free
      modifies this, live.mEventQueue, live.mEventQueue.owned, pending.mEventQueue, pending.mEventQueue.owned
      ensures Valid() && Goes() && closes == mNeedToClose
      ensures if closes then Last(run).retry == RDone
              else Last(run).retry == RHeartbeat(HEARTBEAT_LENGTH) && Last(run).mRetryMutex == Retry
    {
      hide EventQueueInterface.Valid, EventQueueInterface.Contents, Holds, IsRun, Next, Can;
      TimeoutStep(Last(run));
      Advance(RetryRuns(Ok));
      RetryYields();
      closes := mNeedToClose;
      CloseStep(Last(run));
      Advance(RetryRuns(Ok));
    }

    /**
     The reconnect thread after a timeout, lines 156-172: a heartbeat that fails is followed by
     an attempt to connect, whose answers are `socket`, `options` and `connects`.
     */
    method Heartbeat(answers: nat -> int, socket: int, options: bool, connects: bool)
      returns (outcome: RetryOutcome, ghost took: seq<nat>, ghost at: nat, ghost closedAt: nat)
      requires Valid() && Last(run).retry == RWoken(true) && Last(run).mRetryMutex == Free
      modifies this, live.mEventQueue, live.mEventQueue.owned, pending.mEventQueue, pending.mEventQueue.owned
      ensures Valid() && Goes()
      ensures match outcome
              case Ends => Last(run).retry == RDone && mNeedToClose
              case Alive => Last(run).retry == RLock
              case Unconnected => Last(run).retry == RLock && mClientSocket == -1
              case Connected =>
                && Last(run).retry == RFull && Last(run).mRetryMutex == Retry && mClientSocket != -1
                && socket != -1 && options && connects
      ensures !outcome.Ends? ==>
                SentAs(HEARTBEAT_LENGTH, answers, took, outcome.Alive?, Retry, old(run), run, at)
      ensures outcome.Unconnected? ==>
                socket == -1 || !options || !connects || FoundClosed(old(run), run, closedAt)
    {
      hide EventQueueInterface.Valid, EventQueueInterface.Contents, Holds, Shows, IsRun, Next, Can, SentAs, FoundClosed;
      took, at, closedAt := [], 0, 0;
      var closes := RetryChecks();
      if closes {
        outcome := Ends;
        return;
      }
      ghost var begun := run;
      var status;
      status, took, at := SendHeartbeat(answers);
      ghost var beaten := run;
      NobodyRuns(Retry, run);
      if status == SUCCESS {
        outcome := Alive;
      } else {
        status, closedAt := ConnectToRemoteLogServer(socket, options, connects);
        if status == SUCCESS {
          outcome := Connected;
        } else {
          outcome := Unconnected;
          FoundClosedBehind(old(run), beaten, run, closedAt);
        }
      }
      SentAsLater(HEARTBEAT_LENGTH, answers, took, outcome.Alive?, Retry, old(run), begun, beaten, run, at);
    }

    /** Line 164: the heartbeat is sent. */
    method SendHeartbeat(answers: nat -> int) returns (status: Status, ghost took: seq<nat>, ghost at: nat)
      requires Valid() && Last(run).retry == RHeartbeat(HEARTBEAT_LENGTH) && Last(run).mRetryMutex == Retry
      modifies this, live.mEventQueue, live.mEventQueue.owned, pending.mEventQueue, pending.mEventQueue.owned
      ensures Valid() && Goes()
      ensures if status == SUCCESS then Last(run).retry == RLock
              else Last(run).retry == RSocket && Last(run).mRetryMutex == Retry
      ensures SentAs(HEARTBEAT_LENGTH, answers, took, status == SUCCESS, Retry, old(run), run, at)
    {
      hide EventQueueInterface.Valid, EventQueueInterface.Contents, Holds, Shows, IsRun, Next, Can, SentAs;
      var accepted;
      NobodyRuns(Retry, run);
      status, accepted, took, at := SendMessage(HEARTBEAT_STRING, answers, Retry);
      ghost var sent := run;
      RetryYields();
      if status == SUCCESS {
        EndHeartbeat();
      }
      SentAsLater(HEARTBEAT_LENGTH, answers, took, status == SUCCESS, Retry, old(run), old(run), sent, run, at);
    }

    ghost method EndHeartbeat()
      requires Valid() && Last(run).retry == RHeartbeat(0)
      modifies this`run
      ensures Valid() && Goes() && run == Extend(old(run), RetryRuns(Ok)) && Last(run).retry == RLock
    {
      hide EventQueueInterface.Valid, EventQueueInterface.Contents, Holds, IsRun, Next, Can;
      AliveStep(Last(run));
      Advance(RetryRuns(Ok));
    }

    /** Line 182: the front pending message is popped. */
    method PopPending(key: U64) returns (e: Event)
      requires Valid() && Last(run).retry == RDrain && Last(run).mail.pending != []
      modifies this`run, pending.mEventQueue, pending.mEventQueue.owned
      ensures Valid() && Goes() && run == Extend(old(run), RetryRuns(Ok))
      ensures var s, t := old(Last(run)), Last(run);
              && t == s.(mail := Take(s.mail), retry := RSend(|LogText(e)|))
              && |LogText(e)| == TextLength(s.mail, 0)
    {
      hide EventQueueInterface.Valid, EventQueueInterface.Contents, IsRun, LogText;
      NobodyRuns(Retry, run);
      OneStepOn(run, run, RetryRuns(Ok));
      var pendingMessage := pending.GetEvent(key);
      run := Extend(run, RetryRuns(Ok));
      e := pendingMessage.eventMsg;
    }

    /** Lines 182-184: the front pending message is taken and sent. */
    method DrainOne(answers: nat -> int, key: U64) returns (sent: bool, ghost took: seq<nat>, ghost at: nat)
      requires Valid() && Draining(Last(run)) && Last(run).mail.pending != []
      modifies this, live.mEventQueue, live.mEventQueue.owned, pending.mEventQueue, pending.mEventQueue.owned
      ensures Valid() && Goes() && Draining(Last(run))
      ensures DrainsOne(old(Last(run).mail), old(Last(run).connected), sent, Last(run).mail, Last(run).connected)
      ensures SentAs(TextLength(old(Last(run).mail), 0), answers, took, sent, Retry, old(run), run, at)
    {
      hide EventQueueInterface.Valid, EventQueueInterface.Contents, Holds, IsRun, Next, Can, LogText, SentAs;
      var e := PopPending(key);
      ghost var popped := run;
      var status, accepted;
      status, accepted, took, at := SendMessage(LogText(e), answers, Retry);
      ghost var done := run;
      sent := status == SUCCESS;
      NobodyRuns(Retry, run);
      if sent {
        EndSent();
      }
      SentAsLater(|LogText(e)|, answers, took, sent, Retry, old(run), popped, done, run, at);
    }

    /** The others run, and the pending message that was sent counts as delivered. */
    method EndSent()
      requires Valid() && Last(run).retry == RSend(0) && Last(run).mMutex == Retry && Last(run).mRetryMutex == Retry
      modifies this, live.mEventQueue, live.mEventQueue.owned, pending.mEventQueue, pending.mEventQueue.owned
      ensures Valid() && Goes() && Draining(Last(run))
      ensures Last(run).mail == DrainSent(old(Last(run).mail)) && (Last(run).connected ==> old(Last(run).connected))
    {
      hide EventQueueInterface.Valid, EventQueueInterface.Contents, Holds, IsRun, Next, Can;
      RetryYields();
      DrainSentStep(Last(run));
      Advance(RetryRuns(Ok));
    }

    /** The others run, and the length of the pending queue is read. */
    method PendingLength() returns (n: U32)
      requires Valid() && Draining(Last(run))
      modifies this, live.mEventQueue, live.mEventQueue.owned, pending.mEventQueue, pending.mEventQueue.owned
      ensures Valid() && Goes() && Draining(Last(run))
      ensures Last(run).mail == old(Last(run).mail) && (Last(run).connected ==> old(Last(run).connected))
      ensures n == |Last(run).mail.pending| % TWO_32
    {
      hide EventQueueInterface.Valid, EventQueueInterface.Contents, IsRun, Next, Can;
      RetryYields();
      n := pending.GetQueueLength();
    }

    /** The drain gets mMutex, line 174. */
    method BeginDrain()
      requires Valid() && Last(run).retry == RFull && Last(run).mMutex == Free && Last(run).mRetryMutex == Retry
      modifies this`run
      ensures Valid() && Goes() && Draining(Last(run))
      ensures Last(run).mail == old(Last(run).mail) && Last(run).connected == old(Last(run).connected)
    {
      hide EventQueueInterface.Valid, EventQueueInterface.Contents, Holds, Shows, IsRun;
      Advance(RetryRuns(Ok));
    }

    /** The drain's locks go out of scope. */
    ghost method EndDrain()
      requires Valid() && Draining(Last(run)) && Last(run).mail.pending == []
      modifies this`run
      ensures Valid() && Goes() && run == Extend(old(run), RetryRuns(Ok))
      ensures Last(run) == old(Last(run)).(retry := RLock, mMutex := Free, mRetryMutex := Free)
    {
      hide EventQueueInterface.Valid, EventQueueInterface.Contents, Holds, Shows, IsRun;
      Advance(RetryRuns(Ok));
    }

    /**
     The drain after a reconnect, lines 174-185, while the others run between any two of its
     steps. It empties the pending queue. Once a send fails the socket is closed, and of the
     messages after it only empty ones count as sent.
     */
    method Drain(answers: nat -> nat -> int, key: U64)
      returns (oks: seq<bool>, ghost tooks: seq<seq<nat>>, ghost ats: seq<nat>)
      requires Valid() && Last(run).retry == RFull && Last(run).mMutex == Free && Last(run).mRetryMutex == Retry
      modifies this, live.mEventQueue, live.mEventQueue.owned, pending.mEventQueue, pending.mEventQueue.owned
      ensures Valid() && Goes()
      ensures Drains(old(Last(run).mail), old(Last(run).connected), oks, Last(run).mail, Last(run).connected)
      ensures RoundsSentAs(old(Last(run).mail), answers, oks, tooks, ats, old(run), run)
      ensures CountsAsEmpty(Last(run).mail.pending)
      ensures if Last(run).mail.pending == [] then Last(run).retry == RLock else Draining(Last(run))
    {
      hide EventQueueInterface.Valid, EventQueueInterface.Contents, Holds, Shows, IsRun, Next, Can, Drains, DrainsOne;
      hide SentAs, RoundsSentAs;
      NotDrainingYet(run);
      NothingDrained(Last(run).mail, Last(run).connected);
      oks, tooks, ats := [], [], [];
      BeginDrain();
      var n := PendingLength();
      ClosedMeanwhile(old(Last(run).mail), old(Last(run).connected), oks,
                      Last(run).mail, old(Last(run).connected), Last(run).connected);
      NoRounds(old(Last(run).mail), answers, old(run), run);
      while n > 0
        invariant Valid() && Goes() && Draining(Last(run)) && n == |Last(run).mail.pending| % TWO_32
        invariant Drains(old(Last(run).mail), old(Last(run).connected), oks, Last(run).mail, Last(run).connected)
        invariant RoundsSentAs(old(Last(run).mail), answers, oks, tooks, ats, old(run), run)
        decreases |old(Last(run).mail.pending)| - |oks|
      {
        ghost var before := run;
        ghost var took, at;
        ghost var was := oks;
        oks, n, took, at := DrainRound(answers(|oks|), key, old(Last(run).mail), old(Last(run).connected), oks);
        OneMoreRound(old(Last(run).mail), answers, was, oks[|was|], tooks, took, ats, at, old(run), before, run);
        tooks, ats := tooks + [took], ats + [at];
      }
      if Last(run).mail.pending == [] {
        ghost var drained := run;
        EndDrain();
        RoundsLater(old(Last(run).mail), answers, oks, tooks, ats, old(run), drained, run);
      }
    }

    /** One round of the drain's loop, after the rounds `oks`; `n` is the length read next. */
    method DrainRound(answers: nat -> int, key: U64, ghost m: Mail, ghost open: bool, oks: seq<bool>)
      returns (oks': seq<bool>, n: U32, ghost took: seq<nat>, ghost at: nat)
      requires Valid() && Draining(Last(run)) && Last(run).mail.pending != []
      requires Drains(m, open, oks, Last(run).mail, Last(run).connected)
      modifies this, live.mEventQueue, live.mEventQueue.owned, pending.mEventQueue, pending.mEventQueue.owned
      ensures Valid() && Goes() && Draining(Last(run)) && n == |Last(run).mail.pending| % TWO_32
      ensures Drains(m, open, oks', Last(run).mail, Last(run).connected)
      ensures |m.pending| - |oks| > |m.pending| - |oks'| >= 0
      ensures |oks'| == |oks| + 1 && oks' == oks + [oks'[|oks|]]
      ensures SentAs(TextLength(m, |oks|), answers, took, oks'[|oks|], Retry, old(run), run, at)
    {
      hide EventQueueInterface.Valid, EventQueueInterface.Contents, Holds, Shows, IsRun, Next, Can, Drains, DrainsOne;
      hide SentAs, TextLength;
      ghost var was := Last(run);
      NextTextLength(m, open, oks, was.mail, was.connected);
      var sent;
      sent, took, at := DrainOne(answers, key);
      ghost var drained := run;
      NobodyRuns(Retry, old(run));
      ghost var now := Last(run);
      oks' := oks + [sent];
      OneMoreDrained(m, open, oks, was.mail, was.connected, sent, now.mail, now.connected);
      n := PendingLength();
      ClosedMeanwhile(m, open, oks', now.mail, now.connected, Last(run).connected);
      SentAsLater(TextLength(m, |oks|), answers, took, sent, Retry, old(run), old(run), drained, run, at);
    }
  }
}
