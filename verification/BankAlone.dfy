/** The step machine and the transaction code agree: a thread that nobody holds up does, step by
    step, what the method LoadDb.Transaction promises for the whole request. */
module BankAlone {
  import opened Bank
  import opened BankMemory
  import opened BankProtocol
  import opened BankRuns
  import opened BankProgress

  /** No other thread holds a row or a mutex that the thread needs. */
  predicate Unhindered(s: State, t: nat)
    requires t < |s.threads|
  {
    var r := s.threads[t].req;
    && (forall i :: 0 <= i < |Statements(r)| && Statements(r)[i].account in s.rowLock ==>
        s.rowLock[Statements(r)[i].account] == t)
    && (forall i :: 0 <= i < |Mutexes(r)| && Mutexes(r)[i] in s.mutex ==> s.mutex[Mutexes(r)[i]] == t)
  }

  datatype Outcome = Outcome(success: bool, db: Db, mem: Table)

  /** How the request will end if its thread runs on alone. */
  function Ending(s: State, th: Thread): Outcome {
    var db := Db(s.rows, s.log);
    match th.pc
    case Executing(_, ok) =>
      if ok && Atomic(db, th.req).Some?
          then Outcome(true, Atomic(db, th.req).value, MirrorRun(s.mem, Movements(th.req)))
      else Outcome(false, db, s.mem)
    case Done(success) => Outcome(success, db, s.mem)
    case _ => Outcome(true, db, MirrorRun(s.mem, Pending(th)))
  }

  /** A step of the thread does not change how it will end. */
  lemma EndingKept(init: Table, s: State, t: nat)
    requires s.rows.Keys == init.Keys && ThreadsOk(init, s) && Enabled(s, t)
    ensures Ending(Next(s, t), Next(s, t).threads[t]) == Ending(s, s.threads[t])
  {
    hide Affects, ApplyOp, MirrorOp, Statements, Movements, Mutexes, LogRows, Unlock, WorkOk, Committed, Proper, Atomic;
    var th := s.threads[t];
    assert PcOk(init, th);
    StepRefines(init, s, t);
    var ms := Movements(th.req);
    match th.pc
    case Executing(i, ok) =>
      ExecutingEnding(init, s, t);
    case Locking(j) =>
      assert ms[0..] == ms;
    case Applying(k) =>
      assert ms[k..][0] == ms[k] && ms[k..][1..] == ms[k + 1..];
    case Unlocking(left) =>
    case Done(_) =>
  }

  lemma ExecutingEnding(init: Table, s: State, t: nat)
    requires s.rows.Keys == init.Keys && ThreadsOk(init, s) && Enabled(s, t) && s.threads[t].pc.Executing?
    ensures Ending(Next(s, t), Next(s, t).threads[t]) == Ending(s, s.threads[t])
  {
    hide Affects, ApplyOp, MirrorRun, Statements, Movements, Mutexes, LogRows, Unlock, WorkOk, PcOk, Atomic;
    var th, th' := s.threads[t], Next(s, t).threads[t];
    StepRefines(init, s, t);
    if th.pc.ok && ((th'.pc.Executing? && !th'.pc.ok) || th'.pc.Done?) {
      RefusalJustified(init, s, t);
    }
  }

  lemma UnhinderedKept(s: State, t: nat)
    requires Enabled(s, t) && Unhindered(s, t)
    ensures Unhindered(Next(s, t), t)
  {
    hide Affects, ApplyOp, MirrorOp, Statements, Movements, Mutexes, LogRows;
    StepShape(s, t);
  }

  /** Whoever the lock tables name holds the lock. */
  lemma OwnersHold(s: State)
    requires Locks(s)
    ensures forall a :: a in s.rowLock ==> s.rowLock[a] < |s.threads| && a in s.threads[s.rowLock[a]].work
    ensures forall a :: a in s.mutex ==> s.mutex[a] < |s.threads| && a in Held(s.threads[s.mutex[a]])
  {
    forall t | 0 <= t < |s.threads|
      ensures RowsHeld(s.threads)[t] == s.threads[t].work.Keys && MutexesHeld(s.threads)[t] == Held(s.threads[t])
    {
      HeldIs(s.threads, t);
    }
  }

  lemma NextRowFree(init: Table, s: State, t: nat)
    requires Locks(s) && ThreadsOk(init, s) && t < |s.threads| && Unhindered(s, t)
    requires s.threads[t].pc.Executing? && s.threads[t].pc.i < |Statements(s.threads[t].req)|
    ensures Statements(s.threads[t].req)[s.threads[t].pc.i].account !in s.rowLock
  {
    hide Proper, Committed, Statements, Mutexes, Movements, Affects;
    var th := s.threads[t];
    OwnersHold(s);
    MutexesDistinct(th.req);
    assert WorkOk(s.rows, th) && PcOk(init, th);
    var next := Statements(th.req)[th.pc.i].account;
    forall a | a in th.work ensures a != next {
      var k :| 0 <= k < th.pc.i && FromStatement(s.rows, th, a, k);
    }
  }

  lemma NextMutexFree(init: Table, s: State, t: nat)
    requires Locks(s) && ThreadsOk(init, s) && t < |s.threads| && Unhindered(s, t)
    requires s.threads[t].pc.Locking? && s.threads[t].pc.j < |Mutexes(s.threads[t].req)|
    ensures Mutexes(s.threads[t].req)[s.threads[t].pc.j] !in s.mutex
  {
    hide Committed, Statements, Mutexes, Movements, WorkOk;
    var th := s.threads[t];
    OwnersHold(s);
    assert PcOk(init, th);
    MutexesDistinct(th.req);
    var next := Mutexes(th.req)[th.pc.j];
    forall a | a in Held(th) ensures a != next {
    }
  }

  /** A thread that nobody hinders can move until it is done. */
  lemma UnhinderedMoves(init: Table, s: State, t: nat)
    requires Locks(s) && ThreadsOk(init, s) && t < |s.threads| && Unhindered(s, t)
    ensures Enabled(s, t) || s.threads[t].pc.Done?
  {
    hide Locks, Unhindered, Committed, Statements, Mutexes, Movements, WorkOk;
    var th := s.threads[t];
    assert PcOk(init, th);
    if th.pc.Executing? && th.pc.i < |Statements(th.req)| {
      NextRowFree(init, s, t);
    } else if th.pc.Locking? {
      NextMutexFree(init, s, t);
    }
  }

  /** Running alone, the thread ends as announced. */
  lemma {:induction false} RunAlone(init: Table, s: State, t: nat) returns (schedule: seq<nat>)
    requires Inv(init, s) && t < |s.threads| && Unhindered(s, t)
    ensures forall i :: 0 <= i < |schedule| ==> schedule[i] == t
    ensures After(s, schedule).Some?
    ensures var end := After(s, schedule).value;
            t < |end.threads| && end.threads[t].pc.Done? &&
            Ending(s, s.threads[t]) == Outcome(end.threads[t].pc.success, Db(end.rows, end.log), end.mem)
    decreases Left(s.threads[t].pc)
  {
    hide Replay, Net, OpsOf, PendingNet, Granted, MirrorData, Next, Unhindered, Locks, ThreadsOk, Atomic,
         MirrorRun, Enabled;
    if s.threads[t].pc.Done? {
      schedule := [];
    } else {
      UnhinderedMoves(init, s, t);
      StepShape(s, t);
      EndingKept(init, s, t);
      UnhinderedKept(s, t);
      StepSpends(init, s, t);
      StepKeepsInv(init, s, t);
      hide Inv, Ending, Left;
      var rest := RunAlone(init, Next(s, t), t);
      schedule := [t] + rest;
      assert schedule[1..] == rest;
    }
  }

  /** Running alone from its start, a request has the outcome that LoadDb.Transaction promises: for
      the answer, the rows, the log and the mirror. */
  lemma AloneIsTransaction(init: Table, s: State, t: nat) returns (schedule: seq<nat>)
    requires Inv(init, s) && t < |s.threads| && s.threads[t].pc == Executing(0, true) && Unhindered(s, t)
    ensures After(s, schedule).Some?
    ensures var end, db, r := After(s, schedule).value, Db(s.rows, s.log), s.threads[t].req;
            t < |end.threads| && end.threads[t].pc == Done(Atomic(db, r).Some?) &&
            Db(end.rows, end.log) == (if Atomic(db, r).Some? then Atomic(db, r).value else db) &&
            end.mem == if Atomic(db, r).Some? then Mirror(s.mem, r) else s.mem
  {
    hide Replay, Net, OpsOf, PendingNet, Granted, MirrorData, Next, Unhindered, Locks, MirrorRun, WorkOk;
    schedule := RunAlone(init, s, t);
    var db, r := Db(s.rows, s.log), s.threads[t].req;
    assert PcOk(init, s.threads[t]);
    if Atomic(db, r).Some? {
      GrantedIsLoaded(init, s, r);
    }
  }

  lemma GrantedIsLoaded(init: Table, s: State, r: Request)
    requires Inv(init, s) && Proper(r) && Atomic(Db(s.rows, s.log), r).Some?
    ensures Loaded(s.mem, r)
  {
    hide Replay, Net, OpsOf, PendingNet, Granted, Locks, ThreadsOk, Covered;
    RunMovements(s.rows, r);
    forall i | 0 <= i < |Movements(r)| ensures Movements(r)[i].account in s.mem {
      RunAccounts(s.rows, Movements(r), i);
    }
  }
}
