/** What every run of the bank protocol keeps. */
module BankRuns {
  import opened Bank
  import opened BankMemory
  import opened BankProtocol
  import opened Wrappers

  // ---- Steps ----

  /** The movement that the step applies to the mirror, if any. */
  function Mirrored(s: State, t: nat): seq<Op>
    requires Enabled(s, t)
  {
    if s.threads[t].pc.Applying? then [Movements(s.threads[t].req)[s.threads[t].pc.k]] else []
  }

  /** Which parts of the state a step changes. */
  lemma StepShape(s: State, t: nat)
    requires Enabled(s, t)
    ensures t < |s.threads| && Next(s, t).threads == s.threads[t := Next(s, t).threads[t]]
    ensures Next(s, t).threads[t].req == s.threads[t].req
    ensures Next(s, t).rows == if Commits(s, t) then s.rows + s.threads[t].work else s.rows
    ensures Next(s, t).log == s.log + if Commits(s, t) then LogRows(s.threads[t].req) else []
    ensures Next(s, t).history == s.history + if Commits(s, t) then [s.threads[t].req] else []
    ensures Next(s, t).applied == s.applied + Mirrored(s, t)
  {
    hide Affects, ApplyOp, MirrorOp, Statements, Movements, Mutexes, LogRows, Unlock;
    assert s.log + [] == s.log && s.history + [] == s.history && s.applied + [] == s.applied;
  }

  // ---- Threads keep to their statements ----

  /** No row is locked by two transactions. */
  lemma Disjoint(s: State, t: nat, u: nat)
    requires Locks(s) && t < |s.threads| && u < |s.threads| && t != u
    ensures s.threads[t].work.Keys !! s.threads[u].work.Keys
  {
    HeldIs(s.threads, t);
    HeldIs(s.threads, u);
    var held := RowsHeld(s.threads);
    assert forall a :: a in held[t] ==> s.rowLock[a] == t;
    assert forall a :: a in held[u] ==> s.rowLock[a] == u;
  }

  lemma OtherWork(rows: Table, work: Table, th: Thread)
    requires WorkOk(rows, th) && work.Keys !! th.work.Keys
    ensures WorkOk(rows + work, th)
  {
    if th.pc.Executing? {
      forall a | a in th.work ensures exists k :: 0 <= k < th.pc.i && FromStatement(rows + work, th, a, k) {
        var k :| 0 <= k < th.pc.i && FromStatement(rows, th, a, k);
        assert a !in work.Keys;
        assert FromStatement(rows + work, th, a, k);
      }
    }
  }

  /** The uncommitted versions belong to the accounts of the statements executed so far. */
  lemma WorkAccounts(rows: Table, th: Thread)
    requires WorkOk(rows, th) && Proper(th.req) && th.pc == Executing(|Statements(th.req)|, true)
    ensures forall a :: a in th.work <==>
            exists i :: 0 <= i < |Statements(th.req)| && Statements(th.req)[i].account == a
    ensures forall i :: 0 <= i < |Statements(th.req)| ==>
              var op := Statements(th.req)[i];
              Affects(rows, op) && op.account in th.work && th.work[op.account] == ApplyOp(rows[op.account], op)
  {
    hide Statements, Affects, ApplyOp, Proper;
    var ops := Statements(th.req);
    MutexesDistinct(th.req);
    forall a | a in th.work ensures exists i :: 0 <= i < |ops| && ops[i].account == a {
      var k :| 0 <= k < |ops| && FromStatement(rows, th, a, k);
    }
    forall i | 0 <= i < |ops| ensures FromStatement(rows, th, ops[i].account, i) {
      var k :| 0 <= k < |ops| && FromStatement(rows, th, ops[i].account, k);
      assert k == i;
    }
  }

  /** Uncommitted versions, once all statements took effect, are what running them produces. */
  lemma WorkIsRun(rows: Table, th: Thread)
    requires WorkOk(rows, th) && Proper(th.req) && th.pc == Executing(|Statements(th.req)|, true)
    ensures Run(rows, Statements(th.req)) == Some(rows + th.work)
    ensures th.work.Keys <= rows.Keys
    ensures forall i :: 0 <= i < |Statements(th.req)| ==> Statements(th.req)[i].account in rows
  {
    hide WorkOk, Statements, ApplyOp, Proper;
    var ops := Statements(th.req);
    MutexesDistinct(th.req);
    WorkAccounts(rows, th);
    if |ops| == 1 {
      RunOne(rows, ops[0]);
      assert ops == [ops[0]];
      assert forall a :: a in th.work <==> a == ops[0].account;
      assert rows + th.work == rows[ops[0].account := th.work[ops[0].account]];
    } else if |ops| == 2 {
      RunApart(rows, ops[0], ops[1]);
      assert ops == [ops[0], ops[1]];
      var a, b := ops[0].account, ops[1].account;
      assert forall x :: x in th.work <==> x == a || x == b;
      assert rows + th.work == rows[a := th.work[a]][b := th.work[b]];
    } else {
      assert forall a :: a !in th.work;
      assert rows + th.work == rows;
    }
  }

  lemma RunApart(rows: Table, p: Op, q: Op)
    requires p.account != q.account && Affects(rows, p) && Affects(rows, q)
    ensures Run(rows, [p, q]) ==
            Some(rows[p.account := ApplyOp(rows[p.account], p)][q.account := ApplyOp(rows[q.account], q)])
  {
    RunTwo(rows, p, q);
  }

  lemma {:induction false} NextThread(init: Table, s: State, t: nat)
    requires s.rows.Keys == init.Keys && ThreadsOk(init, s) && Enabled(s, t)
    ensures WorkOk(Next(s, t).rows, Next(s, t).threads[t]) && PcOk(init, Next(s, t).threads[t])
    ensures Next(s, t).rows.Keys == init.Keys
  {
    var th := s.threads[t];
    MutexesDistinct(th.req);
    if Commits(s, t) {
      WorkIsRun(s.rows, th);
      CommittedFromStatements(init, th.req);
    } else if th.pc.Executing? {
      ExecutingThread(init, s, t);
    }
  }

  lemma CommittedFromStatements(init: Table, r: Request)
    requires Proper(r) && Statements(r) != []
    requires forall i :: 0 <= i < |Statements(r)| ==> Statements(r)[i].account in init
    ensures Committed(init, r)
  {
    assert Statements(r)[0].account in init;
    assert |Statements(r)| == 2 ==> Statements(r)[1].account in init;
  }

  lemma ExecutingThread(init: Table, s: State, t: nat)
    requires ThreadsOk(init, s) && Enabled(s, t) && s.threads[t].pc.Executing? && !Commits(s, t)
    ensures WorkOk(Next(s, t).rows, Next(s, t).threads[t]) && PcOk(init, Next(s, t).threads[t])
    ensures Next(s, t).rows == s.rows
  {
    hide Statements, Affects, ApplyOp, Unlock, Committed, Proper;
    var th := s.threads[t];
    var th' := Next(s, t).threads[t];
    assert WorkOk(s.rows, th);
    if th'.pc.Executing? {
      var i := th.pc.i;
      forall a | a in th'.work ensures exists k :: 0 <= k < i + 1 && FromStatement(s.rows, th', a, k) {
        if a in th.work && th'.work[a] == th.work[a] {
          var k :| 0 <= k < i && FromStatement(s.rows, th, a, k);
          assert FromStatement(s.rows, th', a, k);
        } else {
          assert FromStatement(s.rows, th', a, i);
        }
      }
    }
  }

  lemma NextKeepsThreads(init: Table, s: State, t: nat)
    requires s.rows.Keys == init.Keys && Locks(s) && ThreadsOk(init, s) && Enabled(s, t)
    ensures ThreadsOk(init, Next(s, t)) && Next(s, t).rows.Keys == init.Keys
  {
    NextThread(init, s, t);
    StepShape(s, t);
    hide Next, WorkOk, PcOk, Enabled, Locks;
    var s' := Next(s, t);
    forall u | 0 <= u < |s'.threads| ensures WorkOk(s'.rows, s'.threads[u]) && PcOk(init, s'.threads[u]) {
      if u != t {
        Disjoint(s, t, u);
        OtherWork(s.rows, s.threads[t].work, s.threads[u]);
      }
    }
  }

  // ---- Refinement of the atomic bank ----

  /** A commit is the whole request at once on the committed state; every other step leaves the
      committed state alone, so an aborted request leaves no trace. */
  lemma StepRefines(init: Table, s: State, t: nat)
    requires s.rows.Keys == init.Keys && ThreadsOk(init, s) && Enabled(s, t)
    ensures Commits(s, t) ==> Atomic(Db(s.rows, s.log), s.threads[t].req) == Some(Db(Next(s, t).rows, Next(s, t).log))
    ensures !Commits(s, t) ==> Db(Next(s, t).rows, Next(s, t).log) == Db(s.rows, s.log)
  {
    hide Affects, ApplyOp, MirrorOp, Statements, Movements, Mutexes, LogRows, Unlock, Run, WorkOk, Proper;
    assert WorkOk(s.rows, s.threads[t]) && PcOk(init, s.threads[t]);
    if Commits(s, t) {
      WorkIsRun(s.rows, s.threads[t]);
    }
  }

  /** A request is turned down only when the atomic bank would turn it down at that moment. */
  lemma RefusalJustified(init: Table, s: State, t: nat)
    requires ThreadsOk(init, s) && Enabled(s, t)
    requires s.threads[t].pc.Executing? && s.threads[t].pc.ok
    requires var th' := Next(s, t).threads[t]; (th'.pc.Executing? && !th'.pc.ok) || th'.pc.Done?
    ensures Atomic(Db(s.rows, s.log), s.threads[t].req) == None
  {
    hide ApplyOp, Proper, LogRows, Unlock;
    var th := s.threads[t];
    var ops := Statements(th.req);
    assert WorkOk(s.rows, th);
    MutexesDistinct(th.req);
    hide Statements;
    if ops != [] {
      var i := th.pc.i;
      assert i < |ops| && !Affects(s.rows, ops[i]);
      if i == 1 {
        assert ops[0].account in th.work;
        assert ops == [ops[0], ops[1]];
        RunTwo(s.rows, ops[0], ops[1]);
      }
    }
  }

  // ---- What is committed but not yet mirrored ----

  lemma {:induction false} PendingUpdate(ths: seq<Thread>, t: nat, th: Thread, a: int)
    requires t < |ths|
    ensures PendingNet(ths[t := th], a) == PendingNet(ths, a) - Net(Pending(ths[t]), a) + Net(Pending(th), a)
    decreases |ths|
  {
    hide Net, Pending;
    var n := |ths| - 1;
    if t == n {
      assert ths[t := th][..n] == ths[..n];
    } else {
      assert ths[t := th][..n] == ths[..n][t := th];
      PendingUpdate(ths[..n], t, th, a);
    }
  }

  predicate IsGranted(th: Thread) {
    th.pc.Locking? || th.pc.Applying? || th.pc.Unlocking? || th.pc == Done(true)
  }

  function GrantOf(th: Thread): multiset<Request> {
    if IsGranted(th) then multiset{th.req} else multiset{}
  }

  /** The requests of the threads that got past their commit. */
  function Granted(ths: seq<Thread>): multiset<Request> {
    if ths == [] then multiset{} else Granted(ths[..|ths| - 1]) + GrantOf(ths[|ths| - 1])
  }

  lemma {:induction false} GrantedUpdate(ths: seq<Thread>, t: nat, th: Thread, more: multiset<Request>)
    requires t < |ths| && GrantOf(th) == GrantOf(ths[t]) + more
    ensures Granted(ths[t := th]) == Granted(ths) + more
    decreases |ths|
  {
    hide GrantOf;
    var n := |ths| - 1;
    if t == n {
      assert ths[t := th][..n] == ths[..n];
    } else {
      assert ths[t := th][..n] == ths[..n][t := th];
      GrantedUpdate(ths[..n], t, th, more);
    }
  }

  /** The committed requests are exactly those of the threads that got past their commit. */
  lemma NextGranted(init: Table, s: State, t: nat)
    requires ThreadsOk(init, s) && Enabled(s, t) && Granted(s.threads) == multiset(s.history)
    ensures Granted(Next(s, t).threads) == multiset(Next(s, t).history)
  {
    hide ThreadsOk, Granted, GrantOf, Next, Enabled;
    StepShape(s, t);
    GrantStep(s, t);
    var more := if Commits(s, t) then multiset{s.threads[t].req} else multiset{};
    GrantedUpdate(s.threads, t, Next(s, t).threads[t], more);
  }

  lemma GrantStep(s: State, t: nat)
    requires Enabled(s, t)
    ensures GrantOf(Next(s, t).threads[t]) ==
            GrantOf(s.threads[t]) + if Commits(s, t) then multiset{s.threads[t].req} else multiset{}
  {
    hide Affects, ApplyOp, MirrorOp, Statements, Movements, Mutexes, LogRows, Unlock, GrantOf;
    var th, th' := s.threads[t], Next(s, t).threads[t];
    GrantOfNext(th, th', Commits(s, t));
  }

  lemma GrantOfNext(th: Thread, th': Thread, commits: bool)
    requires th'.req == th.req && (IsGranted(th') <==> IsGranted(th) || commits) && (commits ==> !IsGranted(th))
    ensures GrantOf(th') == GrantOf(th) + if commits then multiset{th.req} else multiset{}
  {
  }

  // ---- The three steps that touch the data ----

  lemma PendingStep(init: Table, s: State, t: nat)
    requires ThreadsOk(init, s) && Enabled(s, t)
    ensures Mirrored(s, t) + Pending(Next(s, t).threads[t]) ==
            Pending(s.threads[t]) + if Commits(s, t) then Movements(s.threads[t].req) else []
  {
    hide Affects, ApplyOp, MirrorOp, Statements, Movements, Mutexes, LogRows, Unlock, WorkOk;
    var th := s.threads[t];
    assert PcOk(init, th);
    var ms := Movements(th.req);
    if th.pc.Applying? {
      assert [ms[th.pc.k]] + ms[th.pc.k + 1..] == ms[th.pc.k..];
    } else if th.pc.Locking? {
      assert ms[0..] == ms;
    }
  }

  /** Commits are what adds to the log and to the pending mirror work. */
  lemma NextPending(init: Table, s: State, t: nat, a: int)
    requires ThreadsOk(init, s) && Enabled(s, t)
    requires Net(OpsOf(s.log), a) == Net(s.applied, a) + PendingNet(s.threads, a)
    ensures Net(OpsOf(Next(s, t).log), a) == Net(Next(s, t).applied, a) + PendingNet(Next(s, t).threads, a)
  {
    hide Next, Enabled, Commits, Movements, LogRows, OpsOf, Net, PendingNet, Mirrored, Pending, ThreadsOk;
    StepShape(s, t);
    PendingStep(init, s, t);
    var r, th, th' := s.threads[t].req, s.threads[t], Next(s, t).threads[t];
    PendingUpdate(s.threads, t, th', a);
    LogRecordsMovements(r);
    OpsOfAppend(s.log, LogRows(r));
    NetAppend(OpsOf(s.log), Movements(r), a);
    NetAppend(s.applied, Mirrored(s, t), a);
    NetAppend(Mirrored(s, t), Pending(th'), a);
    NetAppend(Pending(th), Movements(r), a);
    assert s.log + [] == s.log && Pending(th) + [] == Pending(th);
  }

  /** The mirror is the initial balances moved by the applied movements, less the dropped ones. */
  predicate MirrorData(init: Table, mem: Table, applied: seq<Op>, dropped: seq<Op>) {
    && mem.Keys == init.Keys
    && (forall a :: a in init ==> mem[a] == Shift(init[a], Net(applied, a) - Net(dropped, a)))
    && (dropped == [] <==> Covered(init, applied))
    && (forall i :: 0 <= i < |dropped| ==> dropped[i].Debit? && dropped[i].amount > 0 && dropped[i].account in init)
  }

  lemma MirrorStep(init: Table, mem: Table, applied: seq<Op>, dropped: seq<Op>, op: Op)
    requires MirrorData(init, mem, applied, dropped) && op.account in init && op.amount > 0
    ensures MirrorData(init, MirrorOp(mem, op), applied + [op], if Affects(mem, op) then dropped else dropped + [op])
  {
    hide Covered, Net;
    forall a ensures Net(applied + [op], a) == Net(applied, a) + if op.account == a then Signed(op) else 0 {
      NetAppend(applied, [op], a);
      NetOne(op, a);
    }
    forall a ensures Net(dropped + [op], a) == Net(dropped, a) + if op.account == a then Signed(op) else 0 {
      NetAppend(dropped, [op], a);
      NetOne(op, a);
    }
    CoveredMore(init, applied, op);
    assert Net([], op.account) == 0 by { NetEmpty(op.account); }
  }

  lemma NetEmpty(a: int)
    ensures Net([], a) == 0
  {
  }

  // ---- The invariant of every run ----

  /** The committed data is a sequential replay of the committed requests, the mirror trails it by
      the pending movements, and the threads and lock tables agree. */
  ghost predicate Inv(init: Table, s: State) {
    && s.rows.Keys == init.Keys
    && Locks(s)
    && ThreadsOk(init, s)
    && (forall i :: 0 <= i < |s.history| ==> Proper(s.history[i]))
    && Granted(s.threads) == multiset(s.history)
    && Replay(Db(init, []), s.history) == Some(Db(s.rows, s.log))
    && (forall a :: Net(OpsOf(s.log), a) == Net(s.applied, a) + PendingNet(s.threads, a))
    && MirrorData(init, s.mem, s.applied, s.dropped)
  }

  lemma {:induction false} NothingYet(ths: seq<Thread>)
    requires forall t :: 0 <= t < |ths| ==> ths[t].pc == Executing(0, true)
    ensures Granted(ths) == multiset{} && forall a :: PendingNet(ths, a) == 0
    decreases |ths|
  {
    if ths != [] {
      NothingYet(ths[..|ths| - 1]);
      forall a ensures PendingNet(ths, a) == 0 {
        NetEmpty(a);
      }
    }
  }

  lemma StartHolds(init: Table, s: State)
    requires Start(init, s)
    ensures Inv(init, s)
  {
    NothingYet(s.threads);
    assert OpsOf([]) == [];
    forall a ensures Net([], a) == 0 {
    }
    assert multiset(s.history) == multiset{};
  }

  lemma NextKeepsMirror(init: Table, s: State, t: nat)
    requires ThreadsOk(init, s) && Enabled(s, t) && MirrorData(init, s.mem, s.applied, s.dropped)
    ensures MirrorData(init, Next(s, t).mem, Next(s, t).applied, Next(s, t).dropped)
  {
    hide MirrorData, MirrorOp, ApplyOp, Affects, Statements, Mutexes, LogRows, Unlock, WorkOk;
    var th := s.threads[t];
    assert PcOk(init, th);
    if th.pc.Applying? {
      var op := Movements(th.req)[th.pc.k];
      MirrorStep(init, s.mem, s.applied, s.dropped, op);
    }
  }

  lemma NextKeepsHistory(init: Table, s: State, t: nat)
    requires s.rows.Keys == init.Keys && ThreadsOk(init, s) && Enabled(s, t)
    requires Replay(Db(init, []), s.history) == Some(Db(s.rows, s.log))
    requires forall i :: 0 <= i < |s.history| ==> Proper(s.history[i])
    ensures forall i :: 0 <= i < |Next(s, t).history| ==> Proper(Next(s, t).history[i])
    ensures Replay(Db(init, []), Next(s, t).history) == Some(Db(Next(s, t).rows, Next(s, t).log))
  {
    StepShape(s, t);
    StepRefines(init, s, t);
    assert PcOk(init, s.threads[t]);
    hide Next, Enabled, ThreadsOk, Commits, Atomic, WorkOk;
    if Commits(s, t) {
      assert (s.history + [s.threads[t].req])[..|s.history|] == s.history;
    } else {
      assert s.history + [] == s.history;
    }
  }

  lemma StepKeepsInv(init: Table, s: State, t: nat)
    requires Inv(init, s) && Enabled(s, t)
    ensures Inv(init, Next(s, t))
  {
    hide Next, Enabled, Replay, Locks, ThreadsOk, Net, OpsOf, PendingNet, Granted, MirrorData, Proper;
    NextKeepsLocks(init, s, t);
    NextKeepsThreads(init, s, t);
    NextKeepsHistory(init, s, t);
    NextGranted(init, s, t);
    NextKeepsMirror(init, s, t);
    forall a ensures Net(OpsOf(Next(s, t).log), a) == Net(Next(s, t).applied, a) + PendingNet(Next(s, t).threads, a) {
      NextPending(init, s, t, a);
    }
  }

  /** The state after a schedule; None if a scheduled thread could not take a step. */
  function After(s: State, schedule: seq<nat>): Option<State>
    decreases |schedule|
  {
    if schedule == [] then Some(s)
    else if Enabled(s, schedule[0]) then After(Next(s, schedule[0]), schedule[1..])
    else None
  }

  lemma {:induction false} RunKeepsInv(init: Table, s: State, schedule: seq<nat>)
    requires Inv(init, s) && After(s, schedule).Some?
    ensures Inv(init, After(s, schedule).value)
    decreases |schedule|
  {
    hide Inv, Enabled, Next;
    if schedule != [] {
      StepKeepsInv(init, s, schedule[0]);
      RunKeepsInv(init, Next(s, schedule[0]), schedule[1..]);
    }
  }
}
