/**
 Batched commits of `MySQLConnector`: the DB thread executes one queued statement per timeout
 and commits when a counter that is never reset reaches a multiple of BATCH_SIZE; a second
 thread commits when the connection has been idle; the destructor commits what is left.
 */
module MySQLConnector {
  import opened Common
  import opened EventMessage
  import opened EventQueue

  const BATCH_SIZE: nat := 1000

  /** What the rows are on the server: executed in order, the first `committed` of them durable. */
  datatype Rows = Rows(executed: seq<nat>, committed: nat)

  /** Where the DB thread is in its loop; `DbHolding` holds mMutex and has read a positive queue length. */
  datatype DbPc = DbWaiting | DbHolding | DbDone

  /** Where the idle committer is in its loop. */
  datatype CommitPc = Checking | Committing | CommitDone

  /**
   A DML message is named by its position in the order of enqueueing. `failed` is history:
   batch commits that threw since the last commit that succeeded.
   */
  datatype State = State(
    enqueued: nat,
    queue: seq<nat>,
    rows: Rows,
    mRecordCount: U32,
    needToClose: bool,
    db: DbPc,
    committer: CommitPc,
    connected: bool,
    terminated: bool,              // an exception, a null pointer or an empty pop ended the process
    failed: nat)

  const INIT: State := State(0, [], Rows([], 0), 0, false, DbWaiting, Checking, true, false, 0)

  /** What the server answers to the three calls of a DML query. */
  datatype Answers = Answers(prepares: bool, executes: bool, commits: bool)

  datatype Label =
    | Enqueue                                  // HttpSession pushes a DML message
    | DbTimeout                                // lines 173-182
    | DbExecute(a: Answers)                    // lines 184-188
    | CommitCheck(idle: bool)                  // lines 198-213: more than five seconds since the last query
    | CommitRuns(commits: bool)                // lines 207-209
    | SetClose                                 // line 26
    | Destroy(commits: bool)                   // lines 29-45

  function CommitAll(r: Rows): Rows {
    r.(committed := |r.executed|)
  }

  function Uncommitted(s: State): int {
    |s.rows.executed| - s.rows.committed
  }

  /** processDMLQuery on message m. */
  function AfterDML(s: State, m: nat, a: Answers): State {
    if !a.prepares || !a.executes then s
    else
      var t := s.(rows := s.rows.(executed := s.rows.executed + [m]), mRecordCount := Inc(s.mRecordCount));
      if t.mRecordCount % BATCH_SIZE != 0 then t
      else if a.commits then t.(rows := CommitAll(t.rows), failed := 0)
      else t.(failed := t.failed + 1)
  }

  /** Sessions push without mMutex; the other steps on the connection need it. */
  predicate Can(s: State, l: Label) {
    !s.terminated &&
    match l
    case Enqueue => true
    case DbTimeout => s.db.DbWaiting?
    case DbExecute(_) => s.db.DbHolding?
    case CommitCheck(_) => s.committer.Checking?
    case CommitRuns(_) => s.committer.Committing? && !s.db.DbHolding?
    case SetClose => s.connected && !s.db.DbHolding?
    case Destroy(_) => s.needToClose && s.connected && !s.db.DbHolding?
  }

  function Next(s: State, l: Label): State
    requires Can(s, l)
  {
    match l
    case Enqueue => s.(enqueued := s.enqueued + 1, queue := s.queue + [s.enqueued])
    case DbTimeout =>
      if s.needToClose then s.(db := DbDone)
      else if s.queue == [] then s
      else s.(db := DbHolding)
    case DbExecute(a) =>
      if s.queue == [] then s.(terminated := true)
      else AfterDML(s.(queue := s.queue[1..], db := DbWaiting), s.queue[0], a)
    case CommitCheck(idle) =>
      if s.needToClose then s.(committer := CommitDone)
      else if idle && s.mRecordCount > 0 then s.(committer := Committing)
      else s
    case CommitRuns(commits) =>
      // commit is called outside any try block, and on a null pointer after the destructor
      if commits && s.connected then s.(rows := CommitAll(s.rows), failed := 0, committer := Checking)
      else s.(terminated := true)
    case SetClose => s.(needToClose := true)
    case Destroy(commits) =>
      if commits then s.(rows := CommitAll(s.rows), failed := 0, connected := false)
      else s.(terminated := true)
  }

  // ----- runs -----

  datatype Run = Run(states: seq<State>, labels: seq<Label>)

  ghost predicate StepAt(r: Run, i: nat)
    requires i < |r.labels| && |r.states| == |r.labels| + 1
  {
    Can(r.states[i], r.labels[i]) && r.states[i + 1] == Next(r.states[i], r.labels[i])
  }

  ghost predicate IsRun(r: Run) {
    && |r.states| == |r.labels| + 1
    && r.states[0] == INIT
    && forall i :: 0 <= i < |r.labels| ==> StepAt(r, i)
  }

  ghost function Last(r: Run): State
    requires IsRun(r)
  {
    r.states[|r.labels|]
  }

  lemma ExtendIsRun(r: Run, l: Label)
    requires IsRun(r) && Can(Last(r), l)
    ensures IsRun(Run(r.states + [Next(Last(r), l)], r.labels + [l]))
  {
    hide Can, Next;
    var e := Run(r.states + [Next(Last(r), l)], r.labels + [l]);
    forall i | 0 <= i < |e.labels| ensures StepAt(e, i) {
      if i < |r.labels| {
        assert StepAt(r, i);
        assert e.states[i] == r.states[i] && e.states[i + 1] == r.states[i + 1] && e.labels[i] == r.labels[i];
      }
    }
  }

  /** The run `r` with one more step. */
  ghost function Extend(r: Run, l: Label): (e: Run)
    requires IsRun(r) && Can(Last(r), l)
    ensures IsRun(e) && e.labels == r.labels + [l] && Last(e) == Next(Last(r), l)
  {
    ExtendIsRun(r, l);
    Run(r.states + [Next(Last(r), l)], r.labels + [l])
  }

  // ----- the batch bound -----

  ghost predicate Bounded(s: State) {
    0 <= Uncommitted(s) <= BATCH_SIZE * s.failed + s.mRecordCount % BATCH_SIZE
  }

  /** The counter moves to the next residue, or to 0 with a commit: also where it wraps, from 295 modulo 1000. */
  lemma NextResidue(c: U32)
    ensures Inc(c) % BATCH_SIZE == c % BATCH_SIZE + 1 || Inc(c) % BATCH_SIZE == 0
    ensures Inc(c) % BATCH_SIZE == 0 ==> c % BATCH_SIZE == 999 || Inc(c) == 0
  {
  }

  lemma StepKeepsBound(s: State, l: Label)
    requires Bounded(s) && Can(s, l)
    ensures Bounded(Next(s, l))
  {
    NextResidue(s.mRecordCount);
  }

  /** The DML step executes its row and the counter reaches a multiple of BATCH_SIZE. */
  predicate FillsBatch(s: State, l: Label) {
    l.DbExecute? && s.queue != [] && l.a.prepares && l.a.executes && Inc(s.mRecordCount) % BATCH_SIZE == 0
  }

  predicate BatchThrows(s: State, l: Label) {
    FillsBatch(s, l) && !l.a.commits
  }

  /** The step makes every executed row durable. */
  predicate CommitsRows(s: State, l: Label) {
    match l
    case DbExecute(a) => FillsBatch(s, l) && a.commits
    case CommitRuns(commits) => commits && s.connected
    case Destroy(commits) => commits
    case _ => false
  }

  /** The first state after the last commit that succeeded among the first `i` steps. */
  ghost function LastCommit(r: Run, i: nat): (k: nat)
    requires IsRun(r) && i < |r.states|
    ensures k <= i && (k == 0 || CommitsRows(r.states[k - 1], r.labels[k - 1]))
    ensures forall j :: k <= j < i ==> !CommitsRows(r.states[j], r.labels[j])
  {
    if i == 0 || CommitsRows(r.states[i - 1], r.labels[i - 1]) then i else LastCommit(r, i - 1)
  }

  /** How many batch commits threw in the steps i..j-1. */
  ghost function Thrown(r: Run, i: nat, j: nat): nat
    requires IsRun(r) && i <= j < |r.states|
    decreases j - i
  {
    if i == j then 0 else Thrown(r, i, j - 1) + if BatchThrows(r.states[j - 1], r.labels[j - 1]) then 1 else 0
  }

  /** `failed` counts the batch commits of the run that threw since its last successful commit. */
  lemma {:induction false} FailedExactly(r: Run, i: nat)
    requires IsRun(r) && i < |r.states|
    ensures r.states[i].failed == Thrown(r, LastCommit(r, i), i)
  {
    if i > 0 {
      FailedExactly(r, i - 1);
      assert StepAt(r, i - 1);
    }
  }

  lemma {:induction false} RunIsBounded(r: Run, i: nat)
    requires IsRun(r) && i < |r.states|
    ensures Bounded(r.states[i])
  {
    if i > 0 {
      RunIsBounded(r, i - 1);
      assert StepAt(r, i - 1);
      StepKeepsBound(r.states[i - 1], r.labels[i - 1]);
    }
  }

  /**
   In every reachable state the uncommitted rows are at most BATCH_SIZE for each batch commit
   that threw since the last success, plus the counter modulo BATCH_SIZE.
   */
  lemma BatchBound(r: Run, i: nat)
    requires IsRun(r) && i < |r.states|
    ensures 0 <= Uncommitted(r.states[i])
    ensures Uncommitted(r.states[i])
         <= BATCH_SIZE * Thrown(r, LastCommit(r, i), i) + r.states[i].mRecordCount % BATCH_SIZE
    ensures Thrown(r, LastCommit(r, i), i) == 0 ==> Uncommitted(r.states[i]) < BATCH_SIZE
  {
    RunIsBounded(r, i);
    FailedExactly(r, i);
  }

  /** No batch commit of the run throws. */
  ghost predicate BatchCommitsSucceed(r: Run)
    requires IsRun(r)
  {
    forall i :: 0 <= i < |r.labels| ==> r.labels[i].DbExecute? ==> r.labels[i].a.commits
  }

  lemma {:induction false} NoneFailed(r: Run, i: nat)
    requires IsRun(r) && BatchCommitsSucceed(r) && i < |r.states|
    ensures r.states[i].failed == 0
  {
    if i > 0 {
      NoneFailed(r, i - 1);
      assert StepAt(r, i - 1);
      assert r.labels[i - 1].DbExecute? ==> r.labels[i - 1].a.commits;
    }
  }

  /** With no failing batch commit fewer than BATCH_SIZE rows are ever at risk, over any wrap of the counter. */
  lemma FewerThanABatch(r: Run, i: nat)
    requires IsRun(r) && BatchCommitsSucceed(r) && i < |r.states|
    ensures Uncommitted(r.states[i]) < BATCH_SIZE
    ensures Uncommitted(r.states[i]) > 0 ==> r.states[i].mRecordCount > 0
  {
    NoneFailed(r, i);
    RunIsBounded(r, i);
  }

  // ----- durability -----

  /** Executed rows are messages in the order of enqueueing; the queue holds what follows. */
  ghost predicate InOrder(s: State) {
    && |s.queue| <= s.enqueued
    && (forall i :: 0 <= i < |s.queue| ==> s.queue[i] == s.enqueued - |s.queue| + i)
    && Increasing(s.rows.executed)
    && Below(s.rows.executed, s.enqueued - |s.queue|)
    && s.rows.committed <= |s.rows.executed|
    && (!s.connected ==> s.needToClose && !s.db.DbHolding? && s.rows.committed == |s.rows.executed|)
  }

  lemma ExecuteKeepsOrder(s: State, a: Answers)
    requires InOrder(s) && Can(s, DbExecute(a))
    ensures InOrder(Next(s, DbExecute(a)))
  {
    if s.queue != [] {
      var popped := s.(queue := s.queue[1..], db := DbWaiting);
      assert InOrder(popped);
      assert s.queue[0] == s.enqueued - |s.queue|;
    }
  }

  lemma StepKeepsOrder(s: State, l: Label)
    requires InOrder(s) && Can(s, l)
    ensures InOrder(Next(s, l))
  {
    hide AfterDML;
    match l
    case DbExecute(a) => ExecuteKeepsOrder(s, a);
    case _ =>
  }

  /** What is durable: the committed prefix of the executed rows. */
  function Durable(s: State): seq<nat> {
    if s.rows.committed <= |s.rows.executed| then s.rows.executed[..s.rows.committed] else s.rows.executed
  }

  /**
   The durable rows are always a prefix of the executed rows, which are a subsequence of the
   enqueued messages in order; once the destructor has committed, every executed row is durable.
   */
  lemma {:induction false} DurablePrefix(r: Run, i: nat)
    requires IsRun(r) && i < |r.states|
    ensures var s := r.states[i];
            && Durable(s) <= s.rows.executed
            && Increasing(s.rows.executed) && Below(s.rows.executed, s.enqueued - |s.queue|)
            && (!s.connected ==> Durable(s) == s.rows.executed)
    ensures InOrder(r.states[i])
  {
    if i > 0 {
      DurablePrefix(r, i - 1);
      assert StepAt(r, i - 1);
      StepKeepsOrder(r.states[i - 1], r.labels[i - 1]);
    }
  }

  /**
   A row becomes durable at a step that commits and at no other: what is durable is what had been
   executed at the last such step.
   */
  lemma {:induction false} DurableExactly(r: Run, i: nat)
    requires IsRun(r) && i < |r.states|
    ensures Durable(r.states[i]) == r.states[LastCommit(r, i)].rows.executed
  {
    hide Next, Can, CommitsRows;
    DurablePrefix(r, i);
    if i > 0 {
      DurableExactly(r, i - 1);
      DurablePrefix(r, i - 1);
      DurablePrefix(r, LastCommit(r, i - 1));
      assert StepAt(r, i - 1);
      StepDurable(r.states[i - 1], r.labels[i - 1]);
    }
  }

  lemma StepDurable(s: State, l: Label)
    requires InOrder(s) && Can(s, l)
    ensures Durable(Next(s, l)) == if CommitsRows(s, l) then Next(s, l).rows.executed else Durable(s)
  {
  }

  /** The step runs its row on the server. */
  predicate Executes(s: State, l: Label) {
    l.DbExecute? && l.a.prepares && l.a.executes
  }

  lemma StepExecutes(s: State, l: Label)
    requires InOrder(s) && Can(s, l) && (l.DbExecute? ==> s.queue != [])
    ensures var t := Next(s, l);
            if Executes(s, l) then
              && t.rows.executed == s.rows.executed + [s.enqueued - |s.queue|]
              && t.mRecordCount == Inc(s.mRecordCount)
            else t.rows.executed == s.rows.executed && t.mRecordCount == s.mRecordCount
  {
  }

  /** The rows are the messages that were the oldest ones at the steps that ran one. */
  lemma ExecutedExactly(r: Run, i: nat)
    requires IsRun(r) && i < |r.labels|
    ensures var s, t := r.states[i], r.states[i + 1];
            t.rows.executed ==
            if r.labels[i].DbExecute? && r.labels[i].a.prepares && r.labels[i].a.executes
            then s.rows.executed + [s.enqueued - |s.queue|]
            else s.rows.executed
  {
    hide Next, Can, InOrder;
    assert StepAt(r, i);
    PopsFilled(r, i);
    DurablePrefix(r, i);
    StepExecutes(r.states[i], r.labels[i]);
  }

  lemma CountsOn(c: U32, n: nat)
    requires c == n % TWO_32
    ensures Inc(c) == (n + 1) % TWO_32
  {
  }

  /** The counter counts the rows modulo 2^32. */
  lemma {:induction false} CounterExactly(r: Run, i: nat)
    requires IsRun(r) && i < |r.states|
    ensures r.states[i].mRecordCount == |r.states[i].rows.executed| % TWO_32
  {
    if i > 0 {
      CounterExactly(r, i - 1);
      hide Next, Can, InOrder, Executes, Inc;
      assert StepAt(r, i - 1);
      PopsFilled(r, i - 1);
      DurablePrefix(r, i - 1);
      StepExecutes(r.states[i - 1], r.labels[i - 1]);
      CountsOn(r.states[i - 1].mRecordCount, |r.states[i - 1].rows.executed|);
    }
  }

  /** Behind a commit that succeeds every executed row is durable; no other step makes a row durable. */
  lemma CommitsExactly(r: Run, i: nat)
    requires IsRun(r) && i < |r.labels|
    ensures var s, l, t := r.states[i], r.labels[i], r.states[i + 1];
            if (l == CommitRuns(true) && s.connected) || l == Destroy(true)
               || (l.DbExecute? && l.a.prepares && l.a.executes && l.a.commits && t.mRecordCount % 1000 == 0)
            then Durable(t) == t.rows.executed
            else Durable(t) == Durable(s)
  {
    hide Next, Can, InOrder, Durable;
    assert StepAt(r, i);
    PopsFilled(r, i);
    DurablePrefix(r, i);
    StepExecutes(r.states[i], r.labels[i]);
    StepDurable(r.states[i], r.labels[i]);
  }

  /** Only the DB thread commits in the run. */
  ghost predicate OnlyBatches(r: Run)
    requires IsRun(r)
  {
    forall i :: 0 <= i < |r.labels| ==> !r.labels[i].CommitRuns? && !r.labels[i].Destroy?
  }

  /**
   While the DB thread alone commits, no commit throws and the counter has not wrapped, exactly
   the full thousands of the executed rows are durable.
   */
  lemma {:induction false} FullBatches(r: Run, i: nat)
    requires IsRun(r) && OnlyBatches(r) && BatchCommitsSucceed(r) && i < |r.states|
    requires |r.states[i].rows.executed| < TWO_32
    ensures |Durable(r.states[i])| == |r.states[i].rows.executed| / 1000 * 1000
  {
    hide Next, Can, InOrder, Durable, Inc, Executes, CommitsRows;
    if i == 0 {
      NothingDurable();
    } else {
      var s, l := r.states[i - 1], r.labels[i - 1];
      assert StepAt(r, i - 1);
      PopsFilled(r, i - 1);
      DurablePrefix(r, i - 1);
      CounterExactly(r, i - 1);
      StepExecutes(s, l);
      StepDurable(s, l);
      assert !l.CommitRuns? && !l.Destroy? && (l.DbExecute? ==> l.a.commits);
      StepFills(s, l);
      FullBatches(r, i - 1);
      CountsOn(s.mRecordCount, |s.rows.executed|);
      BatchIsFull(|s.rows.executed|, |r.states[i].rows.executed|, s.mRecordCount, Inc(s.mRecordCount));
    }
  }

  lemma NothingDurable()
    ensures Durable(INIT) == []
  {
  }

  lemma StepFills(s: State, l: Label)
    requires !l.CommitRuns? && !l.Destroy? && (l.DbExecute? ==> l.a.commits && s.queue != [])
    ensures CommitsRows(s, l) <==> Executes(s, l) && Inc(s.mRecordCount) % 1000 == 0
  {
  }

  lemma BatchIsFull(n: nat, m: nat, c: U32, d: U32)
    requires c == n % TWO_32 && d == (n + 1) % TWO_32 && (m == n || m == n + 1) && m < TWO_32
    ensures m == n + 1 && d % 1000 == 0 ==> m / 1000 * 1000 == m
    ensures m == n + 1 && d % 1000 != 0 ==> m / 1000 * 1000 == n / 1000 * 1000
  {
    if m == n + 1 {
      assert d == n + 1;
    }
  }

  lemma StepOnlyGrows(s: State, l: Label)
    requires InOrder(s) && Can(s, l)
    ensures Durable(s) <= Durable(Next(s, l)) && s.rows.executed <= Next(s, l).rows.executed
  {
  }

  /** Nothing durable is ever lost or changed, and nothing executed is. */
  lemma {:induction false} DurableOnlyGrows(r: Run, i: nat, j: nat)
    requires IsRun(r) && i <= j < |r.states|
    ensures Durable(r.states[i]) <= Durable(r.states[j])
    ensures r.states[i].rows.executed <= r.states[j].rows.executed
  {
    if i < j {
      DurableOnlyGrows(r, i, j - 1);
      DurablePrefix(r, j - 1);
      assert StepAt(r, j - 1);
      StepOnlyGrows(r.states[j - 1], r.labels[j - 1]);
    }
  }

  // ----- safe dequeue -----

  /** What the DB thread read stays true while it holds mMutex, whatever sessions push meanwhile. */
  lemma {:induction false} QueueStaysFilled(r: Run, i: nat)
    requires IsRun(r) && i < |r.states|
    ensures r.states[i].db.DbHolding? ==> r.states[i].queue != []
  {
    if i > 0 {
      QueueStaysFilled(r, i - 1);
      assert StepAt(r, i - 1);
    }
  }

  lemma PopsFilled(r: Run, i: nat)
    requires IsRun(r) && i < |r.labels|
    ensures r.labels[i].DbExecute? ==> r.states[i].queue != []
  {
    QueueStaysFilled(r, i);
    assert StepAt(r, i);
  }

  lemma HeldQueueIsFilled(r: Run)
    requires IsRun(r) && Last(r).db.DbHolding?
    ensures Last(r).queue != []
  {
    QueueStaysFilled(r, |r.labels|);
  }

  /** In no interleaving does the DB thread pop an empty queue: it always takes the oldest message. */
  lemma SafeDequeue(r: Run, i: nat)
    requires IsRun(r) && i < |r.labels| && r.labels[i].DbExecute?
    ensures var s, t := r.states[i], r.states[i + 1];
            s.queue != [] && t.queue == s.queue[1..] && !t.terminated && s.queue[0] == s.enqueued - |s.queue|
  {
    QueueStaysFilled(r, i);
    DurablePrefix(r, i);
    assert StepAt(r, i);
  }

  // ----- shutting down -----

  /** No commit of the run throws. */
  ghost predicate CommitsSucceed(r: Run)
    requires IsRun(r)
  {
    forall i :: 0 <= i < |r.labels| ==>
      match r.labels[i]
      case DbExecute(a) => a.commits
      case CommitRuns(c) => c
      case Destroy(c) => c
      case _ => true
  }

  /** The destructor closes the connection while the idle committer has passed its check and not yet committed. */
  predicate DestroysUnderCommit(s: State, l: Label) {
    l.Destroy? && s.committer.Committing?
  }

  /** The process has ended abnormally, or a committer is about to commit on a closed connection. */
  predicate Doomed(s: State) {
    s.terminated || (!s.connected && s.committer.Committing?)
  }

  lemma {:induction false} DoomedOnlyUnderCommit(r: Run, i: nat)
    requires IsRun(r) && CommitsSucceed(r) && i < |r.states| && Doomed(r.states[i])
    ensures exists j: nat :: j < i && DestroysUnderCommit(r.states[j], r.labels[j])
  {
    assert i > 0;
    assert StepAt(r, i - 1);
    if Doomed(r.states[i - 1]) {
      DoomedOnlyUnderCommit(r, i - 1);
    } else {
      ClosedMeansClosing(r, i - 1);
      QueueStaysFilled(r, i - 1);
      assert DestroysUnderCommit(r.states[i - 1], r.labels[i - 1]);
    }
  }

  lemma {:induction false} DestroyDooms(r: Run, j: nat, i: nat)
    requires IsRun(r) && CommitsSucceed(r) && j < i < |r.states| && DestroysUnderCommit(r.states[j], r.labels[j])
    ensures Doomed(r.states[i])
    decreases i
  {
    assert StepAt(r, i - 1);
    if j < i - 1 {
      DestroyDooms(r, j, i - 1);
    } else {
      assert match r.labels[j] case Destroy(c) => c case _ => true;
    }
  }

  /**
   When no commit throws, the process ends abnormally or is bound to exactly when the destructor
   ran between the idle committer's check and its commit.
   */
  lemma CrashExactlyUnderCommit(r: Run, i: nat)
    requires IsRun(r) && CommitsSucceed(r) && i < |r.states|
    ensures Doomed(r.states[i]) <==> exists j: nat :: j < i && DestroysUnderCommit(r.states[j], r.labels[j])
  {
    if Doomed(r.states[i]) {
      DoomedOnlyUnderCommit(r, i);
    }
    if j: nat :| j < i && DestroysUnderCommit(r.states[j], r.labels[j]) {
      DestroyDooms(r, j, i);
    }
  }

  lemma {:induction false} ClosedMeansClosing(r: Run, i: nat)
    requires IsRun(r) && i < |r.states|
    ensures !r.states[i].connected ==> r.states[i].needToClose
  {
    if i > 0 {
      ClosedMeansClosing(r, i - 1);
      assert StepAt(r, i - 1);
    }
  }

  /** The process ends abnormally exactly at a commit outside any try block that throws or finds no connection. */
  lemma {:induction false} TerminatedExactly(r: Run, i: nat)
    requires IsRun(r) && i < |r.states|
    ensures r.states[i].terminated <==>
            exists j :: 0 <= j < i && (r.labels[j] == CommitRuns(false) || r.labels[j] == Destroy(false)
                                       || (r.labels[j].CommitRuns? && !r.states[j].connected))
  {
    if i > 0 {
      TerminatedExactly(r, i - 1);
      PopsFilled(r, i - 1);
      assert StepAt(r, i - 1);
    }
  }

  // ----- the two loops -----

  /** The idle committer goes to commit only from a test that found the connection idle and a row counted. */
  lemma {:induction false} CommitsOnlyWhenIdle(r: Run, i: nat)
    requires IsRun(r) && i < |r.states| && r.states[i].committer.Committing?
    ensures exists j :: 0 <= j < i && r.labels[j] == CommitCheck(true) && r.states[j].mRecordCount > 0
                        && forall k :: j < k <= i ==> r.states[k].committer.Committing?
  {
    assert i > 0;
    assert StepAt(r, i - 1);
    if r.states[i - 1].committer.Committing? {
      CommitsOnlyWhenIdle(r, i - 1);
    } else {
      assert r.labels[i - 1] == CommitCheck(true);
    }
  }

  /** The close flag is set behind the first SetClose, and not before. */
  lemma {:induction false} ClosingExactly(r: Run, i: nat)
    requires IsRun(r) && i < |r.states|
    ensures r.states[i].needToClose <==> exists j :: 0 <= j < i && r.labels[j].SetClose?
  {
    if i > 0 {
      ClosingExactly(r, i - 1);
      assert StepAt(r, i - 1);
    }
  }

  /**
   The first look of each loop behind a SetClose is its last. Before one, a timeout on a queue
   that is not empty goes on to execute its oldest message, and an idle test with a row counted
   goes on to commit.
   */
  lemma LoopsRun(r: Run, i: nat)
    requires IsRun(r) && i < |r.labels|
    ensures var closing, s, t := exists j :: 0 <= j < i && r.labels[j].SetClose?, r.states[i], r.states[i + 1];
            && (r.labels[i].DbTimeout? ==>
                  t.db == (if closing then DbDone else if s.queue != [] then DbHolding else DbWaiting)
                  && t.queue == s.queue)
            && (r.labels[i] == CommitCheck(true) && !closing && s.mRecordCount > 0 ==> t.committer == Committing)
            && (r.labels[i].CommitCheck? && closing ==> t.committer == CommitDone)
            && (r.labels[i].CommitRuns? && !t.terminated ==> t.committer == Checking)
            && (r.labels[i].DbExecute? ==> t.db == DbWaiting)
  {
    ClosingExactly(r, i);
    PopsFilled(r, i);
    assert StepAt(r, i);
  }

  /** One row is executed and the idle committer has passed its check. */
  lemma OneRowToCommit() returns (r: Run)
    ensures IsRun(r) && CommitsSucceed(r)
    ensures Last(r) == INIT.(enqueued := 1, rows := Rows([0], 0), mRecordCount := 1, committer := Committing)
  {
    r := Extend(Run([INIT], []), Enqueue);
    r := Extend(r, DbTimeout);
    r := Extend(r, DbExecute(Answers(true, true, true)));
    r := Extend(r, CommitCheck(true));
  }

  /** It does happen. */
  lemma CrashUnderCommitHappens() returns (r: Run)
    ensures IsRun(r) && CommitsSucceed(r) && r.states[|r.labels|].terminated
  {
    r := OneRowToCommit();
    r := Extend(r, SetClose);
    r := Extend(r, Destroy(true));
    r := Extend(r, CommitRuns(true));
  }

  // ----- the object -----

  /** The events `es` carry, as DML, the statements of the messages `ids`. */
  ghost predicate Matches(es: seq<Event>, ids: seq<nat>, statements: seq<Text>) {
    && |es| == |ids|
    && forall i :: 0 <= i < |ids| ==>
         && ids[i] < |statements| && IsEvent(es[i])
         && QueryText(es[i]) == statements[ids[i]] && QueryType(es[i]) == DATA_MANIPULATION
  }

  /** The server ran the statements of the messages `ids`, in that order. */
  ghost predicate Ran(rows: seq<Text>, ids: seq<nat>, statements: seq<Text>) {
    |rows| == |ids| && forall i :: 0 <= i < |ids| ==> ids[i] < |statements| && rows[i] == statements[ids[i]]
  }

  lemma RanMore(rows: seq<Text>, ids: seq<nat>, statements: seq<Text>, m: nat)
    requires Ran(rows, ids, statements) && m < |statements|
    ensures Ran(rows + [statements[m]], ids + [m], statements)
  {
  }

  lemma RanAsMany(rows: seq<Text>, ids: seq<nat>, statements: seq<Text>)
    requires Ran(rows, ids, statements)
    ensures |rows| == |ids|
  {
  }

  /**
   The connector, its queue and its server, which has run `rows`. The ghost fields say which
   messages these are and where its two threads are; `run` is all that has happened, and it is a
   run of the machine.
   */
  class MySQLConnector {
    const queue: EventQueueInterface
    var rows: seq<Text>
    var committed: nat
    var mRecordCount: U32
    var mNeedToClose: bool
    var connected: bool
    ghost var statements: seq<Text>            // by message
    ghost var queued: seq<nat>
    ghost var executed: seq<nat>
    ghost var db: DbPc
    ghost var committer: CommitPc
    ghost var terminated: bool
    ghost var failed: nat
    ghost var run: Run

    ghost function View(): State
      reads this
    {
      State(|statements|, queued, Rows(executed, committed), mRecordCount, mNeedToClose,
            db, committer, connected, terminated, failed)
    }

    ghost predicate Valid()
      reads this, queue, queue.mEventQueue, queue.mEventQueue.owned
    {
      && IsRun(run) && Last(run) == View()
      && queue.Valid() && Matches(queue.Contents(), queued, statements)
      && Ran(rows, executed, statements)
    }

    ghost predicate Enabled(l: Label)
      reads this, queue, queue.mEventQueue, queue.mEventQueue.owned
    {
      Valid() && Can(View(), l)
    }

    constructor ()
      ensures Valid() && run.labels == [] && statements == [] && rows == []
      ensures fresh(queue) && fresh(queue.mEventQueue) && fresh(queue.mEventQueue.owned)
    {
      queue := new EventQueueInterface();
      rows, committed, mRecordCount := [], 0, 0;
      mNeedToClose, connected, db, committer := false, true, DbWaiting, Checking;
      statements, queued, executed := [], [], [];
      terminated, failed, run := false, 0, Run([INIT], []);
    }

    /** A session enqueues a DML statement, which must fit its buffer with its NUL, as the table's name must. */
    method PushEvent(table: seq<Byte>, query: seq<Byte>, tableJunk: seq<Byte>, queryJunk: seq<Byte>, key: U64)
      requires Enabled(Enqueue)
      requires |tableJunk| == DB_TABLE_BUFFER_SIZE && |CString(table)| < DB_TABLE_BUFFER_SIZE
      requires |queryJunk| == STRING_SIZE && |CString(query)| < STRING_SIZE
      modifies this, queue.mEventQueue, queue.mEventQueue.owned
      ensures Valid() && run == Extend(old(run), Enqueue)
      ensures statements == old(statements) + [CString(query)] && rows == old(rows)
      ensures fresh(queue.mEventQueue.owned - old(queue.mEventQueue.owned))
    {
      hide EventQueueInterface.Valid, EventQueueInterface.Contents, IsRun, Matches, CString;
      PushQuery(DbMemory(table, query, tableJunk, queryJunk), key, CString(query), queued, statements) by {
        QuerySurvives(table, query, tableJunk, queryJunk);
      }
      run := Extend(run, Enqueue);
      queued := queued + [|statements|];
      statements := statements + [CString(query)];
    }

    /** Lines 52-60 of a session: the message goes to the queue. */
    method PushQuery(message: seq<Byte>, key: U64, ghost text: Text, ghost ids: seq<nat>, ghost texts: seq<Text>)
      requires queue.Valid() && Matches(queue.Contents(), ids, texts) && |message| == DB_MESSAGE_SIZE
      requires QueryText(EventOf(message)) == text && QueryType(EventOf(message)) == DATA_MANIPULATION
      modifies queue.mEventQueue, queue.mEventQueue.owned
      ensures queue.Valid() && Matches(queue.Contents(), ids + [|texts|], texts + [text])
      ensures fresh(queue.mEventQueue.owned - old(queue.mEventQueue.owned))
    {
      hide EventQueueInterface.Valid, EventQueueInterface.Contents, QueryText, QueryType, EventOf;
      var event := new EventMessageInterface();
      event.SetMessage(message, key);
      queue.PushEvent(event, key);
    }

    method Commit()
      modifies this`committed, this`failed
      ensures committed == |rows| && failed == 0
    {
      committed := |rows|;
      failed := 0;
    }

    /** Both throwing calls of the try block lead to ERROR; so does the prepare before it, caught by the caller. */
    method ProcessDMLQuery(queryString: Text, ghost m: nat, a: Answers) returns (status: Status)
      requires |rows| == |executed|
      modifies this`rows, this`executed, this`committed, this`mRecordCount, this`failed
      ensures View() == AfterDML(old(View()), m, a)
      ensures rows == if a.prepares && a.executes then old(rows) + [queryString] else old(rows)
      ensures status == if a.prepares && a.executes && (mRecordCount % BATCH_SIZE == 0 ==> a.commits) then SUCCESS
                        else ERROR
    {
      if !a.prepares || !a.executes {
        return ERROR;
      }
      rows := rows + [queryString];
      executed := executed + [m];
      mRecordCount := Inc(mRecordCount);
      if mRecordCount % BATCH_SIZE == 0 {
        if !a.commits {
          failed := failed + 1;
          return ERROR;
        }
        Commit();
      }
      return SUCCESS;
    }

    /**
     The DB thread's wait times out, lines 174-182: it ends, goes on waiting, or holds on to a
     queue whose length, an unsigned int, is not 0.
     */
    method WaitTimesOut()
      requires Enabled(DbTimeout)
      modifies this
      ensures Valid() && rows == old(rows) && statements == old(statements)
      ensures run == if !mNeedToClose && |old(queued)| % TWO_32 == 0 && old(queued) != [] then old(run)
                     else Extend(old(run), DbTimeout)
    {
      hide EventQueueInterface.Valid, EventQueueInterface.Contents, IsRun, Matches, Ran;
      var n := QueueLength();
      if mNeedToClose {
        run := Extend(run, DbTimeout);
        db := DbDone;
      } else if n > 0 {
        run := Extend(run, DbTimeout);
        db := DbHolding;
      } else if queued == [] {
        run := Extend(run, DbTimeout);
      }
    }

    method QueueLength() returns (n: U32)
      requires Valid()
      ensures n == |queued| % TWO_32
    {
      n := queue.GetQueueLength();
    }

    /**
     Lines 184-188. Sessions may have pushed since the length was read; the queue is still not
     empty. The server gets the statement that the oldest message was enqueued with.
     */
    method ExecuteOldest(a: Answers, key: U64)
      requires Enabled(DbExecute(a))
      modifies this, queue.mEventQueue, queue.mEventQueue.owned
      ensures Valid() && run == Extend(old(run), DbExecute(a)) && statements == old(statements)
      ensures !terminated && old(queued) != [] && queued == old(queued[1..])
      ensures old(queued)[0] < |statements|
      ensures rows == if a.prepares && a.executes then old(rows) + [statements[old(queued)[0]]] else old(rows)
      ensures queue.mEventQueue.owned <= old(queue.mEventQueue.owned)
    {
      hide EventQueueInterface.Valid, EventQueueInterface.Contents, IsRun, Matches, Ran;
      HeldQueueIsFilled(run);
      RanAsMany(rows, executed, statements);
      var queryString, queryType := GetQuery(key, queued, statements);
      run := Extend(run, DbExecute(a));
      ghost var m := queued[0];
      RanMore(rows, executed, statements, m);
      queued, db := queued[1..], DbWaiting;
      if queryType == DATA_MANIPULATION {
        var status := ProcessDMLQuery(queryString, m, a);
      }
    }

    /** Lines 185-188: the oldest message's statement and its type. */
    method GetQuery(key: U64, ghost ids: seq<nat>, ghost texts: seq<Text>) returns (queryString: Text, queryType: U32)
      requires queue.Valid() && Matches(queue.Contents(), ids, texts) && ids != []
      modifies queue.mEventQueue, queue.mEventQueue.owned
      ensures queue.Valid() && Matches(queue.Contents(), ids[1..], texts)
      ensures ids[0] < |texts| && queryString == texts[ids[0]] && queryType == DATA_MANIPULATION
      ensures queue.mEventQueue.owned <= old(queue.mEventQueue.owned)
    {
      hide EventQueueInterface.Valid, EventQueueInterface.Contents, QueryText, QueryType;
      var elem1 := queue.GetEvent(key);
      var message := elem1.eventMsg;
      return QueryText(message), QueryType(message);
    }

    /** The idle committer's test, lines 198-204. */
    method CheckIdle(idle: bool)
      requires Enabled(CommitCheck(idle))
      modifies this
      ensures Valid() && run == Extend(old(run), CommitCheck(idle))
      ensures rows == old(rows) && statements == old(statements)
    {
      hide EventQueueInterface.Valid, EventQueueInterface.Contents, IsRun, Matches, Ran;
      run := Extend(run, CommitCheck(idle));
      if mNeedToClose {
        committer := CommitDone;
      } else if idle && mRecordCount > 0 {
        committer := Committing;
      }
    }

    /** The idle committer's commit, lines 207-209, outside any try block. */
    method CommitIdle(commits: bool)
      requires Enabled(CommitRuns(commits))
      modifies this
      ensures Valid() && run == Extend(old(run), CommitRuns(commits))
      ensures rows == old(rows) && statements == old(statements)
    {
      hide EventQueueInterface.Valid, EventQueueInterface.Contents, IsRun, Matches;
      run := Extend(run, CommitRuns(commits));
      if connected && commits {
        Commit();
        committer := Checking;
      } else {
        terminated := true;
      }
    }

    method SetCloseflag()
      requires Enabled(SetClose)
      modifies this
      ensures Valid() && run == Extend(old(run), SetClose) && rows == old(rows) && statements == old(statements)
    {
      hide EventQueueInterface.Valid, EventQueueInterface.Contents, IsRun, Matches, Ran;
      run := Extend(run, SetClose);
      mNeedToClose := true;
    }

    /** The destructor's part under mMutex, lines 29-45: an exception that leaves it ends the process. */
    method Finalize(commits: bool)
      requires Enabled(Destroy(commits))
      modifies this
      ensures Valid() && run == Extend(old(run), Destroy(commits)) && rows == old(rows) && statements == old(statements)
    {
      hide EventQueueInterface.Valid, EventQueueInterface.Contents, IsRun, Matches;
      run := Extend(run, Destroy(commits));
      if commits {
        Commit();
        connected := false;
      } else {
        terminated := true;
      }
    }
  }
}
