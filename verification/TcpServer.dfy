/** `handle_connection`, the worker's loop body and `sendMessage` of `TCPServer.cpp` over the heap queue. */
module TcpServer {
  import opened Common
  import opened EventMessage
  import opened EventQueue
  import opened CppString
  import opened SendCalls
  import Pipe = TcpPipeline
  import Service = HttpService
  import S = HttpSession

  /** The socketId of the HTTPMessage at the start of an event. */
  function SocketOf(e: Event): U32
    requires IsEvent(e)
  {
    Value32(e.mMessage[..HTTP_MESSAGE_SIZE])
  }

  lemma SocketSurvives(socket: U32)
    ensures SocketOf(EventOf(Bytes32(socket))) == socket
  {
    Value32OfBytes32(socket);
    assert EventOf(Bytes32(socket)).mMessage[..HTTP_MESSAGE_SIZE] == Bytes32(socket);
  }

  /** The events `es` carry the sockets of the connections `ids`. */
  ghost predicate Matches(es: seq<Event>, ids: seq<nat>, sockets: seq<U32>) {
    && |es| == |ids|
    && forall i :: 0 <= i < |ids| ==> ids[i] < |sockets| && IsEvent(es[i]) && SocketOf(es[i]) == sockets[ids[i]]
  }

  /** The calls took `took` of a message of `n` bytes: all of it, or the next call failed by its answer. */
  ghost predicate SentAs(n: nat, answers: nat -> int, took: seq<nat>, failed: bool) {
    && Took(n, answers, took)
    && if failed then Sum(took) < n && answers(|took|) <= 0 else Sum(took) == n
  }

  /**
   Sends until nothing remains or a call fails, and reports SUCCESS either way: `accepted` is what
   the calls took, each of what the system answered, and all of the message exactly when no call
   failed.
   */
  method SendMessage(message: string, answers: nat -> int)
    returns (accepted: string, failed: bool, ghost took: seq<nat>)
    ensures SentAs(|message|, answers, took, failed) && accepted == message[..Sum(took)]
    ensures accepted == message <==> !failed
  {
    var data, remaining, i := 0, |message|, 0;
    took := [];
    NothingTook(|message|, answers);
    hide Sum, Took;
    while remaining > 0
      invariant 0 <= remaining && data + remaining == |message|
      invariant i == |took| && Took(|message|, answers, took) && data == Sum(took)
      decreases remaining
    {
      var sent := Send(true, remaining, answers(i));
      if sent == -1 || sent == 0 {
        return message[..data], true, took;
      }
      OneMoreTook(|message|, answers, took, sent);
      i := i + 1;
      took := took + [sent];
      data := data + sent;
      remaining := remaining - sent;
    }
    return message, false, took;
  }

  /** What recv left in the buffer, as the string that receiveMessage appends; a failed call leaves nothing. */
  function Received(recv: Option<string>): string {
    UpToNul(recv.GetOr(""))
  }

  /** What a client sends without a NUL is received as it is, and what it sends behind a NUL is not. */
  lemma ReceivedIs(text: string, rest: string)
    requires 0 as char !in text
    ensures Received(Some(text)) == text && Received(Some(text + [0 as char] + rest)) == text
    ensures Received(None) == ""
  {
    assert text[..|text|] == text;
    IndexOfUnique(text, 0 as char, rest);
    assert (text + [0 as char] + rest)[..|text|] == text;
  }

  /** How a timeout of the worker ends. `Crashed` is an exception that leaves its thread. */
  datatype Outcome =
    | Done
    | Idle
    | Crashed(socket: U32)
    | Served(socket: U32, response: string, accepted: string, failed: bool)

  /** The oldest queued connection has this socket. */
  ghost predicate IsOldest(s: Pipe.State, sockets: seq<U32>, socket: U32) {
    s.queue != [] && s.queue[0] < |sockets| && sockets[s.queue[0]] == socket
  }

  /** What the served connection gets: the answer to its request up to a NUL, all of it when no send failed. */
  ghost predicate Delivered(outcome: Outcome, response: string, answers: nat -> int) {
    && outcome.Served? && outcome.response == response
    && (outcome.accepted == UpToNul(response) <==> !outcome.failed)
    && exists took ::
         && SentAs(|UpToNul(response)|, answers, took, outcome.failed)
         && outcome.accepted == UpToNul(response)[..Sum(took)]
  }

  method Reply(socket: U32, response: string, answers: nat -> int) returns (outcome: Outcome)
    ensures Delivered(outcome, response, answers) && outcome.socket == socket
  {
    var accepted, failed, took := SendMessage(UpToNul(response), answers);
    outcome := Served(socket, response, accepted, failed);
  }

  /** `run` is all that has happened to the connections, and it is a run of the pipeline. */
  class TCPServer {
    const queue: EventQueueInterface
    var mNeedToClose: bool
    ghost var run: Pipe.Run
    ghost var sockets: seq<U32>                // by connection

    /** The object when the worker may be serving a connection. */
    ghost predicate ValidWith()
      reads this, queue, queue.mEventQueue, queue.mEventQueue.owned
    {
      && queue.Valid() && Pipe.IsRun(run)
      && var pipe := Pipe.Last(run);
         && |sockets| == pipe.accepted
         && (forall i :: 0 <= i < |pipe.handlers| ==> pipe.handlers[i] < |sockets|)
         && Matches(queue.Contents(), pipe.queue, sockets)
         && pipe.needToClose == mNeedToClose
    }

    ghost predicate Valid()
      reads this, queue, queue.mEventQueue, queue.mEventQueue.owned
    {
      ValidWith() && Pipe.Last(run).serving == [] && !Pipe.Last(run).workerDone
    }

    /** The worker has taken a connection and not closed it yet. */
    ghost predicate Serving()
      reads this, queue, queue.mEventQueue, queue.mEventQueue.owned
    {
      ValidWith() && Pipe.Last(run).serving != [] && !Pipe.Last(run).workerDone
    }

    ghost function State(): Pipe.State
      requires Pipe.IsRun(run)
      reads this
    {
      Pipe.Last(run)
    }

    constructor ()
      ensures Valid() && run.labels == [] && sockets == []
      ensures fresh(queue) && fresh(queue.mEventQueue) && fresh(queue.mEventQueue.owned)
    {
      queue := new EventQueueInterface();
      mNeedToClose := false;
      run, sockets := Pipe.Run([Pipe.INIT], []), [];
    }

    /** The accept loop gets the socket of a new connection and starts its handler, lines 266-281. */
    method Accept(new_socket: U32)
      requires ValidWith()
      modifies this`run, this`sockets
      ensures ValidWith() && run == Pipe.Extend(old(run), Pipe.Accept) && sockets == old(sockets) + [new_socket]
      ensures old(Valid()) ==> Valid()
    {
      hide EventQueueInterface.Valid, EventQueueInterface.Contents, EventOf, SocketOf, Pipe.IsRun;
      run := Pipe.Extend(run, Pipe.Accept);
      sockets := sockets + [new_socket];
    }

    /** `closeSocket` */
    method CloseSocket()
      requires ValidWith()
      modifies this`run, this`mNeedToClose
      ensures ValidWith() && run == Pipe.Extend(old(run), Pipe.SetClose)
      ensures old(Valid()) ==> Valid()
    {
      hide EventQueueInterface.Valid, EventQueueInterface.Contents, EventOf, SocketOf, Pipe.IsRun;
      run := Pipe.Extend(run, Pipe.SetClose);
      mNeedToClose := true;
    }

    /** The i-th waiting handler, which has the socket `client_socket`, pushes it. */
    method HandleConnection(client_socket: U32, key: U64, ghost i: nat)
      requires ValidWith() && Pipe.Can(State(), Pipe.Push(i)) && sockets[State().handlers[i]] == client_socket
      modifies queue.mEventQueue, queue.mEventQueue.owned, this`run
      ensures ValidWith() && run == Pipe.Extend(old(run), Pipe.Push(i))
      ensures old(Valid()) ==> Valid()
      ensures fresh(queue.mEventQueue.owned - old(queue.mEventQueue.owned))
    {
      hide EventQueueInterface.Valid, EventQueueInterface.Contents, EventOf, SocketOf, Pipe.IsRun;
      var event := new EventMessageInterface();
      event.SetMessage(Bytes32(client_socket), key);
      SocketSurvives(client_socket);
      queue.PushEvent(event, key);
      run := Pipe.Extend(run, Pipe.Push(i));
    }

    /** Lines 397-406: the worker ends when the close flag is set, and otherwise takes the oldest connection, if any. */
    method TakeOldest(key: U64) returns (socket: Option<U32>)
      requires Valid()
      modifies queue.mEventQueue, queue.mEventQueue.owned, this`run
      ensures if socket.Some? then Serving() else !mNeedToClose ==> Valid()
      ensures queue.mEventQueue.owned <= old(queue.mEventQueue.owned)
      ensures socket.Some? <==> !mNeedToClose && |old(State()).queue| % TWO_32 != 0
      ensures mNeedToClose || socket.Some? ==> run == Pipe.Extend(old(run), Pipe.Timeout)
      ensures !mNeedToClose && socket.None? ==> run == old(run)
      ensures socket.Some? ==> IsOldest(old(State()), sockets, socket.value)
    {
      hide EventQueueInterface.Valid, EventQueueInterface.Contents, SocketOf, Pipe.IsRun;
      socket := None;
      if mNeedToClose {
        run := Pipe.Extend(run, Pipe.Timeout);
        return None;
      }
      var n := queue.GetQueueLength();
      if n > 0 {
        var elem1 := queue.GetEvent(key);
        socket := Some(SocketOf(elem1.eventMsg));
        run := Pipe.Extend(run, Pipe.Timeout);
      }
    }

    /** Line 417: the connection that was served is closed. */
    method CloseServed()
      requires Serving()
      modifies this`run
      ensures Valid() && run == Pipe.Extend(old(run), Pipe.Finish)
    {
      hide EventQueueInterface.Valid, EventQueueInterface.Contents, SocketOf, Pipe.IsRun;
      run := Pipe.Extend(run, Pipe.Finish);
    }

    /**
     A timeout of the worker, lines 395-418: the oldest connection gets the answer to what it
     sent, and is closed; a request that is an exception ends the process with the connection open.
     */
    method ProcessTimeout(key: U64, recv: Option<string>, order: seq<string>, sessionID: string, userId: string,
                          manager: S.HttpSessionManager, files: Service.Files, answers: nat -> int)
      returns (outcome: Outcome)
      requires Valid() && Service.Ready(manager) && '\n' !in sessionID
      modifies queue.mEventQueue, queue.mEventQueue.owned, this`run, manager
      ensures Service.Ready(manager) && (!outcome.Done? && !outcome.Crashed? ==> Valid())
      ensures outcome.Done? <==> mNeedToClose
      ensures outcome.Idle? <==> !mNeedToClose && |old(State()).queue| % TWO_32 == 0
      ensures match outcome
              case Done => run == Pipe.Extend(old(run), Pipe.Timeout) && manager.ops == old(manager.ops)
              case Idle => run == old(run) && manager.ops == old(manager.ops)
              case Crashed(socket) => run == Pipe.Extend(old(run), Pipe.Timeout)
              case Served(socket, response, accepted, failed) =>
                run == Pipe.Extend(Pipe.Extend(old(run), Pipe.Timeout), Pipe.Finish)
      ensures outcome.Crashed? || outcome.Served? ==>
                && IsOldest(old(State()), sockets, outcome.socket)
                && manager.ops == old(manager.ops) + [Service.OpOf(Received(recv), sessionID, userId)]
                && exists response: Option<string> ::
                     && Service.Answers(Received(recv), order, sessionID,
                                        manager.m_AccessTokenInfo, manager.m_SessionInfo, files, response)
                     && (if response.None? then outcome.Crashed? else Delivered(outcome, response.value, answers))
    {
      hide *;
      var socket := TakeOldest(key);
      if socket.None? {
        return if mNeedToClose then Done else Idle;
      }
      var response := Service.Handle(Received(recv), order, sessionID, userId, manager, files);
      if response.None? {
        return Crashed(socket.value);
      }
      outcome := Reply(socket.value, response.value, answers);
      CloseServed();
    }
  }
}
