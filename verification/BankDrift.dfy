/** When memory can drift from the database: a condition on the requests alone.

    Some schedule ends with memory different from the database exactly if some of the requests, granted
    in some order, withdraw in total more from an account than it held at the start. */
module BankDrift {
  import opened Bank
  import opened BankAlone
  import opened BankLaws
  import opened BankMemory
  import opened BankProgress
  import opened BankProtocol
  import opened BankRuns
  import opened Wrappers

  // ---- Totals of withdrawals ----

  function DebitOf(op: Op, a: int): int {
    if op.Debit? && op.account == a then op.amount else 0
  }

  /** The total withdrawn from an account. */
  function Debits(ops: seq<Op>, a: int): int
    decreases |ops|
  {
    if ops == [] then 0 else Debits(ops[..|ops| - 1], a) + DebitOf(ops[|ops| - 1], a)
  }

  predicate Positive(ops: seq<Op>) {
    forall i :: 0 <= i < |ops| ==> ops[i].amount > 0
  }

  lemma {:induction false} DebitsAppend(p: seq<Op>, q: seq<Op>, a: int)
    ensures Debits(p + q, a) == Debits(p, a) + Debits(q, a)
    decreases |q|
  {
    if q == [] {
      assert p + q == p;
    } else {
      DebitsAppend(p, q[..|q| - 1], a);
      assert (p + q)[..|p| + |q| - 1] == p + q[..|q| - 1];
    }
  }

  lemma {:induction false} DebitsBounds(ops: seq<Op>, a: int)
    requires Positive(ops)
    ensures Debits(ops, a) >= 0 && Net(ops, a) >= -Debits(ops, a)
    decreases |ops|
  {
    if ops != [] {
      DebitsBounds(ops[..|ops| - 1], a);
    }
  }

  function PendingDebits(ths: seq<Thread>, a: int): int
    decreases |ths|
  {
    if ths == [] then 0 else PendingDebits(ths[..|ths| - 1], a) + Debits(Pending(ths[|ths| - 1]), a)
  }

  lemma {:induction false} PendingDebitsUpdate(ths: seq<Thread>, t: nat, th: Thread, a: int)
    requires t < |ths|
    ensures PendingDebits(ths[t := th], a) ==
            PendingDebits(ths, a) - Debits(Pending(ths[t]), a) + Debits(Pending(th), a)
    decreases |ths|
  {
    hide Debits, Pending;
    var n := |ths| - 1;
    if t == n {
      assert ths[t := th][..n] == ths[..n];
    } else {
      assert ths[t := th][..n] == ths[..n][t := th];
      PendingDebitsUpdate(ths[..n], t, th, a);
    }
  }

  lemma {:induction false} NoPendingDebits(ths: seq<Thread>, a: int)
    requires forall t :: 0 <= t < |ths| ==> Pending(ths[t]) == []
    ensures PendingDebits(ths, a) == 0
    decreases |ths|
  {
    if ths != [] {
      NoPendingDebits(ths[..|ths| - 1], a);
    }
  }

  // ---- What else every run keeps ----

  /** The threads whose commits made the history, in order. */
  ghost predicate Committers(s: State, ts: seq<nat>) {
    && |ts| == |s.history|
    && (forall k :: 0 <= k < |ts| ==>
        ts[k] < |s.threads| && s.threads[ts[k]].req == s.history[k] && IsGranted(s.threads[ts[k]]))
    && (forall j, k :: 0 <= j < k < |ts| ==> ts[j] != ts[k])
  }

  ghost predicate Known(init: Table, ops: seq<Op>) {
    forall i :: 0 <= i < |ops| ==> ops[i].account in init && ops[i].amount > 0
  }

  ghost predicate Kept(init: Table, s: State) {
    && (exists ts :: Committers(s, ts))
    && Known(init, s.applied)
    && forall a :: Debits(OpsOf(s.log), a) == Debits(s.applied, a) + PendingDebits(s.threads, a)
  }

  lemma NextDebits(init: Table, s: State, t: nat, a: int)
    requires ThreadsOk(init, s) && Enabled(s, t)
    requires Debits(OpsOf(s.log), a) == Debits(s.applied, a) + PendingDebits(s.threads, a)
    ensures Debits(OpsOf(Next(s, t).log), a) == Debits(Next(s, t).applied, a) + PendingDebits(Next(s, t).threads, a)
  {
    hide Next, Enabled, Commits, Movements, LogRows, OpsOf, Debits, PendingDebits, Mirrored, Pending, ThreadsOk;
    StepShape(s, t);
    PendingStep(init, s, t);
    var r, th, th' := s.threads[t].req, s.threads[t], Next(s, t).threads[t];
    PendingDebitsUpdate(s.threads, t, th', a);
    LogRecordsMovements(r);
    OpsOfAppend(s.log, LogRows(r));
    DebitsAppend(OpsOf(s.log), Movements(r), a);
    DebitsAppend(s.applied, Mirrored(s, t), a);
    DebitsAppend(Mirrored(s, t), Pending(th'), a);
    DebitsAppend(Pending(th), Movements(r), a);
    assert s.log + [] == s.log && Pending(th) + [] == Pending(th);
  }

  lemma NextCommitters(s: State, t: nat, ts: seq<nat>)
    requires Enabled(s, t) && Committers(s, ts)
    ensures exists us :: Committers(Next(s, t), us)
  {
    StepShape(s, t);
    GrantedAfter(s, t);
    hide Next, Enabled, Commits, IsGranted;
    var us := ts + if Commits(s, t) then [t] else [];
    assert Committers(Next(s, t), us);
  }

  lemma GrantedAfter(s: State, t: nat)
    requires Enabled(s, t)
    ensures IsGranted(Next(s, t).threads[t]) == (IsGranted(s.threads[t]) || Commits(s, t))
    ensures Commits(s, t) ==> !IsGranted(s.threads[t])
  {
    hide Affects, ApplyOp, MirrorOp, Statements, Movements, Mutexes, LogRows, Unlock;
  }

  lemma NextKnown(init: Table, s: State, t: nat)
    requires ThreadsOk(init, s) && Enabled(s, t) && Known(init, s.applied)
    ensures Known(init, Next(s, t).applied)
  {
    StepShape(s, t);
    assert PcOk(init, s.threads[t]);
    hide Next, WorkOk, Affects, Statements, Mutexes, LogRows;
  }

  lemma NextKept(init: Table, s: State, t: nat)
    requires ThreadsOk(init, s) && Enabled(s, t) && Kept(init, s)
    ensures Kept(init, Next(s, t))
  {
    var ts :| Committers(s, ts);
    NextCommitters(s, t, ts);
    NextKnown(init, s, t);
    hide Next, Enabled, ThreadsOk, Committers, Known, Debits, PendingDebits, OpsOf;
    forall a
      ensures Debits(OpsOf(Next(s, t).log), a) == Debits(Next(s, t).applied, a) + PendingDebits(Next(s, t).threads, a)
    {
      NextDebits(init, s, t, a);
    }
  }

  lemma {:induction false} RunKept(init: Table, s: State, schedule: seq<nat>)
    requires Inv(init, s) && Kept(init, s) && After(s, schedule).Some?
    ensures Kept(init, After(s, schedule).value)
    decreases |schedule|
  {
    hide Enabled, Next, Kept;
    if schedule != [] {
      NextKept(init, s, schedule[0]);
      StepKeepsInv(init, s, schedule[0]);
      hide Inv;
      RunKept(init, Next(s, schedule[0]), schedule[1..]);
    }
  }

  lemma StartKept(init: Table, s: State)
    requires Start(init, s)
    ensures Kept(init, s)
  {
    assert Committers(s, []);
    assert OpsOf([]) == [];
    forall a ensures PendingDebits(s.threads, a) == 0 {
      NoPendingDebits(s.threads, a);
    }
  }

  // ---- The condition ----

  predicate DistinctThreads(s: State, ts: seq<nat>) {
    (forall k :: 0 <= k < |ts| ==> ts[k] < |s.threads|) && forall j, k :: 0 <= j < k < |ts| ==> ts[j] != ts[k]
  }

  function RequestsAt(s: State, ts: seq<nat>): (rs: seq<Request>)
    requires forall k :: 0 <= k < |ts| ==> ts[k] < |s.threads|
    ensures |rs| == |ts|
  {
    seq(|ts|, k requires 0 <= k < |ts| => s.threads[ts[k]].req)
  }

  /** Granted in this order, the requests of these threads withdraw more from the account in total than it
      held at the start. */
  predicate Overdraws(init: Table, s: State, ts: seq<nat>, a: int) {
    && DistinctThreads(s, ts) && a in init
    && var granted := Replay(Db(init, []), RequestsAt(s, ts));
       granted.Some? && Debits(OpsOf(granted.value.log), a) > (if init[a].available > 0 then init[a].available else 0)
  }

  // ---- Drift needs it ----

  lemma UncoveredDebit(init: Table, ops: seq<Op>)
    requires Known(init, ops) && !Covered(init, ops)
    ensures exists a :: a in init && Debits(ops, a) > 0 && Debits(ops, a) > init[a].available
  {
    var k :| 0 <= k < |ops| && ops[k].Debit? &&
      !(ops[k].account in init && ops[k].amount <= init[ops[k].account].available + Net(ops[..k], ops[k].account));
    var a := ops[k].account;
    DebitsBounds(ops[..k], a);
    DebitsBounds(ops[k + 1..], a);
    assert ops == ops[..k] + ([ops[k]] + ops[k + 1..]);
    DebitsAppend(ops[..k], [ops[k]] + ops[k + 1..], a);
    DebitsAppend([ops[k]], ops[k + 1..], a);
    assert [ops[k]][..0] == [];
    assert Debits([ops[k]], a) == ops[k].amount;
  }

  lemma FinishedOverdraws(init: Table, s: State, end: State)
    requires Inv(init, end) && Kept(init, end) && Finished(end) && end.mem != end.rows
    requires |end.threads| == |s.threads| && forall t :: 0 <= t < |s.threads| ==> end.threads[t].req == s.threads[t].req
    ensures exists ts, a :: Overdraws(init, s, ts, a)
  {
    hide Inv, Covered, Debits, PendingDebits, Replay, OpsOf, Known;
    QuiescentMirror(init, end);
    InvReplay(init, end);
    UncoveredDebit(init, end.applied);
    var a :| a in init && Debits(end.applied, a) > 0 && Debits(end.applied, a) > init[a].available;
    NoPendingDebits(end.threads, a);
    var ts :| Committers(end, ts);
    assert RequestsAt(s, ts) == end.history;
    assert Overdraws(init, s, ts, a);
  }

  lemma DriftOverdraws(init: Table, s: State, schedule: seq<nat>)
    requires Start(init, s) && After(s, schedule).Some?
    requires var end := After(s, schedule).value; Finished(end) && end.mem != end.rows
    ensures exists ts, a :: Overdraws(init, s, ts, a)
  {
    hide Inv, Start, Kept, After, Finished, Overdraws;
    StartHolds(init, s);
    StartKept(init, s);
    RunKeepsInv(init, s, schedule);
    RunKept(init, s, schedule);
    RunRequests(s, schedule);
    FinishedOverdraws(init, s, After(s, schedule).value);
  }

  lemma InvReplay(init: Table, s: State)
    requires Inv(init, s)
    ensures Replay(Db(init, []), s.history) == Some(Db(s.rows, s.log))
  {
  }

  lemma {:induction false} RunRequests(s: State, schedule: seq<nat>)
    requires After(s, schedule).Some?
    ensures |After(s, schedule).value.threads| == |s.threads|
    ensures forall t :: 0 <= t < |s.threads| ==> After(s, schedule).value.threads[t].req == s.threads[t].req
    decreases |schedule|
  {
    if schedule != [] {
      StepShape(s, schedule[0]);
      hide Enabled, Next;
      RunRequests(Next(s, schedule[0]), schedule[1..]);
    }
  }

  // ---- One thread's phases ----

  lemma ExecutingFrame(s: State, t: nat)
    requires Enabled(s, t) && s.threads[t].pc.Executing?
    ensures Next(s, t).mem == s.mem && Next(s, t).mutex == s.mutex && Next(s, t).dropped == s.dropped
  {
    hide Affects, ApplyOp, Statements, Movements, Mutexes, LogRows, Unlock;
  }

  /** A request that would be granted commits when its thread runs on alone. */
  lemma {:induction false} CommitAlone(init: Table, s: State, t: nat) returns (schedule: seq<nat>)
    requires Inv(init, s) && t < |s.threads| && Unhindered(s, t)
    requires s.threads[t].pc.Executing? && s.threads[t].pc.ok && Atomic(Db(s.rows, s.log), s.threads[t].req).Some?
    ensures After(s, schedule).Some?
    ensures var end, r := After(s, schedule).value, s.threads[t].req;
            && end.threads == s.threads[t := Thread(r, Locking(0), map[])] && end.history == s.history + [r]
            && Some(Db(end.rows, end.log)) == Atomic(Db(s.rows, s.log), r)
            && end.mem == s.mem && end.mutex == s.mutex && end.applied == s.applied && end.dropped == s.dropped
    decreases Left(s.threads[t].pc)
  {
    hide Replay, Net, OpsOf, PendingNet, Granted, MirrorData, Unhindered, Locks, ThreadsOk, Atomic, Left;
    UnhinderedMoves(init, s, t);
    ExecutingFrame(s, t);
    StepShape(s, t);
    StepRefines(init, s, t);
    StepKeepsInv(init, s, t);
    StepSpends(init, s, t);
    UnhinderedKept(s, t);
    if Commits(s, t) {
      CommitsTo(s, t);
      schedule := [t];
      AfterOne(s, t);
      assert Next(s, t).threads == s.threads[t := Thread(s.threads[t].req, Locking(0), map[])];
    } else {
      GoesOn(init, s, t);
      hide Next, Enabled, Inv, Commits;
      assert s.history + [] == s.history && s.applied + [] == s.applied && s.log + [] == s.log;
      var rest := CommitAlone(init, Next(s, t), t);
      schedule := [t] + rest;
      assert schedule[1..] == rest;
    }
  }

  lemma CommitsTo(s: State, t: nat)
    requires Enabled(s, t) && Commits(s, t)
    ensures Next(s, t).threads[t] == Thread(s.threads[t].req, Locking(0), map[])
    ensures Mirrored(s, t) == []
  {
    hide Affects, ApplyOp, Statements, Movements, Mutexes, LogRows, Unlock;
  }

  lemma GoesOn(init: Table, s: State, t: nat)
    requires Inv(init, s) && Enabled(s, t) && !Commits(s, t)
    requires s.threads[t].pc.Executing? && s.threads[t].pc.ok && Atomic(Db(s.rows, s.log), s.threads[t].req).Some?
    ensures Next(s, t).threads[t].pc.Executing? && Next(s, t).threads[t].pc.ok
    ensures Mirrored(s, t) == []
  {
    hide Affects, ApplyOp, Statements, Movements, Mutexes, LogRows, Unlock, Locks, Replay, MirrorData, ThreadsOk,
         Atomic;
    var th' := Next(s, t).threads[t];
    if (th'.pc.Executing? && !th'.pc.ok) || th'.pc.Done? {
      RefusalJustified(init, s, t);
    }
  }

  lemma AfterFirst(s: State, t: nat)
    requires Enabled(s, t)
    ensures forall rest :: After(s, [t] + rest) == After(Next(s, t), rest)
  {
    forall rest ensures After(s, [t] + rest) == After(Next(s, t), rest) {
      assert ([t] + rest)[1..] == rest;
    }
  }

  lemma MirrorFrame(s: State, t: nat)
    requires Enabled(s, t) && !s.threads[t].pc.Executing?
    ensures Next(s, t).rows == s.rows && Next(s, t).log == s.log && Next(s, t).history == s.history
    ensures Next(s, t).threads[t].work == s.threads[t].work && !Next(s, t).threads[t].pc.Executing?
    ensures Commits(s, t) ==> false
    ensures !s.threads[t].pc.Done?
  {
    hide Affects, ApplyOp, Statements, Movements, Mutexes, LogRows, Unlock, MirrorOp;
  }

  /** One step of a thread past its commit, when nobody hinders it. */
  lemma MirrorMove(init: Table, s: State, t: nat)
    requires Inv(init, s) && t < |s.threads| && Unhindered(s, t)
    requires !s.threads[t].pc.Executing? && !s.threads[t].pc.Done?
    ensures Enabled(s, t) && Inv(init, Next(s, t)) && Unhindered(Next(s, t), t)
    ensures var s' := Next(s, t);
            && |s'.threads| == |s.threads| && s'.threads == s.threads[t := s'.threads[t]]
            && s'.threads[t].req == s.threads[t].req && s'.threads[t].work == s.threads[t].work
            && !s'.threads[t].pc.Executing? && Left(s'.threads[t].pc) < Left(s.threads[t].pc)
            && s'.rows == s.rows && s'.log == s.log && s'.history == s.history
            && s'.applied == s.applied + Mirrored(s, t)
            && Pending(s.threads[t]) == Mirrored(s, t) + Pending(s'.threads[t])
  {
    UnhinderedMoves(init, s, t);
    hide Replay, Net, OpsOf, PendingNet, Granted, MirrorData, Unhindered, Locks, ThreadsOk, Left;
    StepShape(s, t);
    PendingStep(init, s, t);
    MirrorFrame(s, t);
    StepKeepsInv(init, s, t);
    StepSpends(init, s, t);
    UnhinderedKept(s, t);
    hide Next, Enabled, Inv, Commits, Pending, Mirrored;
    assert Pending(s.threads[t]) + [] == Pending(s.threads[t]);
  }

  lemma NothingPending(s: State, t: nat)
    requires t < |s.threads| && s.threads[t].pc.Done?
    ensures After(s, []) == Some(s) && s.applied == s.applied + Pending(s.threads[t])
    ensures s.threads == s.threads[t := s.threads[t]]
  {
    hide Next, Enabled, Movements;
  }

  /** A committed request is mirrored when its thread runs on alone. */
  lemma {:induction false} MirrorAlone(init: Table, s: State, t: nat) returns (schedule: seq<nat>)
    requires Inv(init, s) && t < |s.threads| && Unhindered(s, t) && !s.threads[t].pc.Executing?
    ensures After(s, schedule).Some?
    ensures var end := After(s, schedule).value;
            && |end.threads| == |s.threads| && end.threads[t].pc.Done?
            && end.threads == s.threads[t := end.threads[t]] && end.threads[t].req == s.threads[t].req
            && end.threads[t].work == s.threads[t].work
            && end.rows == s.rows && end.log == s.log && end.history == s.history
            && end.applied == s.applied + Pending(s.threads[t])
    decreases Left(s.threads[t].pc)
  {
    hide *;
    if s.threads[t].pc.Done? {
      schedule := [];
      NothingPending(s, t);
    } else {
      MirrorMove(init, s, t);
      AfterFirst(s, t);
      var rest := MirrorAlone(init, Next(s, t), t);
      schedule := [t] + rest;
      assert s.applied + Mirrored(s, t) + Pending(Next(s, t).threads[t])
          == s.applied + (Mirrored(s, t) + Pending(Next(s, t).threads[t]));
    }
  }

  // ---- Any state can be finished ----

  lemma StepDrops(s: State, t: nat)
    requires Enabled(s, t)
    ensures s.dropped <= Next(s, t).dropped
  {
    hide Affects, ApplyOp, Statements, Movements, Mutexes, LogRows, Unlock, MirrorOp;
  }

  lemma {:induction false} Complete(init: Table, s: State) returns (schedule: seq<nat>)
    requires Inv(init, s)
    ensures After(s, schedule).Some? && Finished(After(s, schedule).value)
    ensures s.dropped <= After(s, schedule).value.dropped
    decreases Total(s.threads)
  {
    hide Inv, Enabled, Next, Total, Left;
    if u :| 0 <= u < |s.threads| && !s.threads[u].pc.Done? {
      var t := NoDeadlock(init, s, u);
      InvThreads(init, s);
      StepSpends(init, s, t);
      StepShape(s, t);
      TotalUpdate(s.threads, t, Next(s, t).threads[t]);
      StepKeepsInv(init, s, t);
      StepDrops(s, t);
      var rest := Complete(init, Next(s, t));
      schedule := [t] + rest;
      assert schedule[1..] == rest;
    } else {
      schedule := [];
    }
  }

  lemma InvThreads(init: Table, s: State)
    requires Inv(init, s)
    ensures ThreadsOk(init, s)
  {
  }

  // ---- The schedule that drifts ----

  /** A thread between its phases: it holds no lock. */
  predicate Resting(th: Thread) {
    th.work == map[] && (th.pc == Executing(0, true) || th.pc == Locking(0) || th.pc.Done?)
  }

  ghost predicate AllResting(s: State) {
    forall t :: 0 <= t < |s.threads| ==> Resting(s.threads[t])
  }

  lemma RestingFree(init: Table, s: State, t: nat)
    requires Inv(init, s) && AllResting(s) && t < |s.threads|
    ensures Unhindered(s, t)
  {
    hide Replay, Net, OpsOf, PendingNet, Granted, MirrorData, ThreadsOk, Locks, Statements, Mutexes;
    OwnersHold(s);
    forall u | 0 <= u < |s.threads| ensures s.threads[u].work == map[] && Held(s.threads[u]) == {} {
      RestingHolds(s.threads[u]);
    }
    hide Held, Resting;
    forall a ensures a !in s.rowLock && a !in s.mutex {
    }
  }

  lemma RestingHolds(th: Thread)
    requires Resting(th)
    ensures th.work == map[] && Held(th) == {}
  {
    NoneFirst(Mutexes(th.req));
  }

  lemma {:induction false} ReplayPrefix(db: Db, rs: seq<Request>, k: nat)
    requires k <= |rs| && Replay(db, rs).Some?
    ensures Replay(db, rs[..k]).Some?
    decreases |rs|
  {
    hide Atomic;
    if k == |rs| {
      assert rs[..k] == rs;
    } else {
      ReplayPrefix(db, rs[..|rs| - 1], k);
      assert rs[..|rs| - 1][..k] == rs[..k];
    }
  }

  /** Where the requests of the threads stand after the first `k` of them have committed. */
  ghost predicate CommittedFirst(init: Table, s: State, end: State, ts: seq<nat>, k: nat)
    requires DistinctThreads(s, ts) && k <= |ts|
  {
    && Inv(init, end) && AllResting(end) && |end.threads| == |s.threads|
    && (forall t :: 0 <= t < |s.threads| ==> end.threads[t].req == s.threads[t].req)
    && (forall i :: 0 <= i < k ==> end.threads[ts[i]].pc == Locking(0))
    && (forall i :: k <= i < |ts| ==> end.threads[ts[i]].pc == Executing(0, true))
    && end.history == RequestsAt(s, ts)[..k] && end.applied == []
  }

  lemma CommitNext(init: Table, s: State, end: State, ts: seq<nat>, k: nat) returns (schedule: seq<nat>)
    requires DistinctThreads(s, ts) && k < |ts| && Replay(Db(init, []), RequestsAt(s, ts)).Some?
    requires CommittedFirst(init, s, end, ts, k)
    ensures After(end, schedule).Some? && CommittedFirst(init, s, After(end, schedule).value, ts, k + 1)
  {
    hide Inv, Unhindered, After, Atomic;
    var t, rs := ts[k], RequestsAt(s, ts);
    RestingFree(init, end, t);
    InvReplay(init, end);
    ReplayPrefix(Db(init, []), rs, k + 1);
    assert rs[..k + 1][..k] == rs[..k] && rs[..k + 1][k] == end.threads[t].req;
    hide Replay;
    schedule := CommitAlone(init, end, t);
    RunKeepsInv(init, end, schedule);
    var next := After(end, schedule).value;
    assert rs[..k + 1] == rs[..k] + [rs[k]];
    forall i | 0 <= i < |ts| && i != k ensures next.threads[ts[i]] == end.threads[ts[i]] {
      assert ts[i] != ts[k];
    }
    forall u | 0 <= u < |next.threads| ensures Resting(next.threads[u]) {
      assert u != t ==> Resting(end.threads[u]);
    }
  }

  lemma {:induction false} CommitAll(init: Table, s: State, ts: seq<nat>, k: nat) returns (schedule: seq<nat>)
    requires Start(init, s) && DistinctThreads(s, ts) && k <= |ts| && Replay(Db(init, []), RequestsAt(s, ts)).Some?
    ensures After(s, schedule).Some? && CommittedFirst(init, s, After(s, schedule).value, ts, k)
    decreases k
  {
    if k == 0 {
      StartHolds(init, s);
      schedule := [];
      assert RequestsAt(s, ts)[..0] == [];
      hide Inv;
    } else {
      hide Inv, Start, After, Replay, RequestsAt, CommittedFirst;
      var first := CommitAll(init, s, ts, k - 1);
      var last := CommitNext(init, s, After(s, first).value, ts, k - 1);
      schedule := first + last;
      AfterBoth(s, first, last);
    }
  }

  // ---- Mirroring the withdrawals first ----

  predicate NoCredits(ops: seq<Op>, a: int) {
    forall i :: 0 <= i < |ops| && ops[i].Credit? ==> ops[i].account != a
  }

  /** The total that requests withdraw from an account. */
  function RequestDebits(rs: seq<Request>, a: int): int
    decreases |rs|
  {
    if rs == [] then 0 else RequestDebits(rs[..|rs| - 1], a) + Debits(Movements(rs[|rs| - 1]), a)
  }

  lemma {:induction false} ReplayDebits(init: Table, rs: seq<Request>, a: int)
    requires Replay(Db(init, []), rs).Some?
    ensures Debits(OpsOf(Replay(Db(init, []), rs).value.log), a) == RequestDebits(rs, a)
    decreases |rs|
  {
    hide Run, Movements, LogRows, OpsOf, Debits;
    if rs == [] {
      NoDebits(a);
    } else {
      var front, r := rs[..|rs| - 1], rs[|rs| - 1];
      ReplayDebits(init, front, a);
      var log := Replay(Db(init, []), front).value.log;
      LogRecordsMovements(r);
      OpsOfAppend(log, LogRows(r));
      DebitsAppend(OpsOf(log), Movements(r), a);
    }
  }

  lemma NoDebits(a: int)
    ensures Debits(OpsOf([]), a) == 0
  {
  }

  /** Once covered, withdrawals without any credit stay within the balance. */
  lemma {:induction false} CoveredTotal(init: Table, ops: seq<Op>, a: int)
    requires Covered(init, ops) && NoCredits(ops, a) && Known(init, ops) && a in init
    ensures Net(ops, a) == -Debits(ops, a)
    ensures Debits(ops, a) > 0 ==> Debits(ops, a) <= init[a].available
    decreases |ops|
  {
    hide Covered;
    if ops != [] {
      var n := |ops| - 1;
      assert ops == ops[..n] + [ops[n]];
      CoveredMore(init, ops[..n], ops[n]);
      CoveredTotal(init, ops[..n], a);
    }
  }

  ghost predicate MirroredFirst(init: Table, s: State, end: State, ts: seq<nat>, k: nat, a: int)
    requires DistinctThreads(s, ts) && k <= |ts|
  {
    && Inv(init, end) && AllResting(end) && |end.threads| == |s.threads|
    && (forall t :: 0 <= t < |s.threads| ==> end.threads[t].req == s.threads[t].req)
    && (forall i :: k <= i < |ts| ==> end.threads[ts[i]].pc == Locking(0))
    && Known(init, end.applied) && NoCredits(end.applied, a)
    && Debits(end.applied, a) == RequestDebits(RequestsAt(s, ts)[..k], a)
  }

  lemma DebitingRequest(r: Request, a: int)
    requires Proper(r)
    ensures Debits(Movements(r), a) >= 0
    ensures Debits(Movements(r), a) > 0 ==> NoCredits(Movements(r), a)
  {
    if r.kind.Transfer? && r.to.Some? {
      var d, c := Debit(r.account, r.amount), Credit(r.to.value, r.amount);
      assert Movements(r) == [d] + [c];
      DebitsAppend([d], [c], a);
      assert [d][..0] == [] && [c][..0] == [];
      assert Debits([c], a) == 0;
    }
  }

  lemma MirrorNext(init: Table, s: State, end: State, ts: seq<nat>, k: nat, a: int) returns (schedule: seq<nat>)
    requires DistinctThreads(s, ts) && k < |ts| && MirroredFirst(init, s, end, ts, k, a)
    ensures After(end, schedule).Some? && MirroredFirst(init, s, After(end, schedule).value, ts, k + 1, a)
  {
    hide MirroredFirst, Movements, Debits, After, Proper, Committed, NoCredits;
    NextRequest(init, s, end, ts, k, a);
    var r := end.threads[ts[k]].req;
    DebitingRequest(r, a);
    if Debits(Movements(r), a) == 0 {
      schedule := [];
      AfterNothing(end);
      SkipRequest(init, s, end, ts, k, a);
    } else {
      schedule := MirrorDebiting(init, s, end, ts, k, a);
    }
  }

  lemma NextRequest(init: Table, s: State, end: State, ts: seq<nat>, k: nat, a: int)
    requires DistinctThreads(s, ts) && k < |ts| && MirroredFirst(init, s, end, ts, k, a)
    ensures ts[k] < |end.threads|
    ensures Proper(end.threads[ts[k]].req) && Committed(init, end.threads[ts[k]].req)
  {
    hide Inv;
    ProperCommitted(init, end, ts[k]);
  }

  lemma SkipRequest(init: Table, s: State, end: State, ts: seq<nat>, k: nat, a: int)
    requires DistinctThreads(s, ts) && k < |ts| && MirroredFirst(init, s, end, ts, k, a)
    requires ts[k] < |end.threads| && Debits(Movements(end.threads[ts[k]].req), a) == 0
    ensures MirroredFirst(init, s, end, ts, k + 1, a)
  {
    hide Inv, Movements, Debits;
    var rs := RequestsAt(s, ts);
    assert rs[..k + 1][..k] == rs[..k] && rs[..k + 1][k] == end.threads[ts[k]].req;
  }

  lemma MirrorDebiting(init: Table, s: State, end: State, ts: seq<nat>, k: nat, a: int) returns (schedule: seq<nat>)
    requires DistinctThreads(s, ts) && k < |ts| && MirroredFirst(init, s, end, ts, k, a)
    requires ts[k] < |end.threads|
    requires var r := end.threads[ts[k]].req; Proper(r) && Committed(init, r) && NoCredits(Movements(r), a)
    ensures After(end, schedule).Some? && MirroredFirst(init, s, After(end, schedule).value, ts, k + 1, a)
  {
    var t := ts[k];
    hide Inv, Unhindered, Movements, Debits, After, ThreadsOk, Known, NoCredits, RequestDebits;
    RestingFree(init, end, t);
    assert Pending(end.threads[t]) == Movements(end.threads[t].req);
    hide AllResting;
    schedule := MirrorAlone(init, end, t);
    RunKeepsInv(init, end, schedule);
    MirrorResult(init, s, end, After(end, schedule).value, ts, k, a);
  }

  lemma AfterNothing(s: State)
    ensures After(s, []) == Some(s)
  {
  }

  lemma ProperCommitted(init: Table, s: State, t: nat)
    requires Inv(init, s) && t < |s.threads| && s.threads[t].pc == Locking(0)
    ensures Proper(s.threads[t].req) && Committed(init, s.threads[t].req)
  {
    InvThreads(init, s);
    hide Inv;
    assert PcOk(init, s.threads[t]);
  }

  lemma MirrorResult(init: Table, s: State, end: State, next: State, ts: seq<nat>, k: nat, a: int)
    requires DistinctThreads(s, ts) && k < |ts| && MirroredFirst(init, s, end, ts, k, a) && Inv(init, next)
    requires var t := ts[k];
             && |next.threads| == |end.threads| && next.threads[t].pc.Done? &&
                next.threads[t].work == end.threads[t].work
             && next.threads[t].req == end.threads[t].req && next.threads == end.threads[t := next.threads[t]]
             && next.applied == end.applied + Movements(end.threads[t].req)
             && NoCredits(Movements(end.threads[t].req), a)
             && Proper(end.threads[t].req) && Committed(init, end.threads[t].req)
    ensures MirroredFirst(init, s, next, ts, k + 1, a)
  {
    hide Inv, Movements, Debits, Proper, Committed;
    var t, rs := ts[k], RequestsAt(s, ts);
    var r := end.threads[t].req;
    DebitsAppend(end.applied, Movements(r), a);
    KnownMovements(init, r);
    assert rs[..k + 1][..k] == rs[..k] && rs[..k + 1][k] == r;
    forall i | k < i < |ts| ensures next.threads[ts[i]] == end.threads[ts[i]] {
      assert ts[i] != ts[k];
    }
    forall u | 0 <= u < |next.threads| ensures Resting(next.threads[u]) {
      assert Resting(end.threads[u]);
    }
  }

  lemma KnownMovements(init: Table, r: Request)
    requires Committed(init, r) && Proper(r)
    ensures Known(init, Movements(r))
  {
  }

  lemma {:induction false} MirrorAll(init: Table, s: State, start: State, ts: seq<nat>, k: nat, a: int)
    returns (schedule: seq<nat>)
    requires DistinctThreads(s, ts) && k <= |ts| && CommittedFirst(init, s, start, ts, |ts|)
    ensures After(start, schedule).Some? && MirroredFirst(init, s, After(start, schedule).value, ts, k, a)
    decreases k
  {
    hide Inv;
    if k == 0 {
      schedule := [];
    } else {
      var first := MirrorAll(init, s, start, ts, k - 1, a);
      hide CommittedFirst, MirroredFirst, After;
      var last := MirrorNext(init, s, After(start, first).value, ts, k - 1, a);
      schedule := first + last;
      AfterBoth(start, first, last);
    }
  }

  // ---- The condition is exact ----

  predicate Drifts(s: State, schedule: seq<nat>) {
    var end := After(s, schedule);
    end.Some? && Finished(end.value) && end.value.mem != end.value.rows
  }

  lemma DroppedAfter(init: Table, s: State, end: State, ts: seq<nat>, a: int)
    requires Overdraws(init, s, ts, a) && MirroredFirst(init, s, end, ts, |ts|, a)
    ensures end.dropped != []
  {
    hide Debits, Covered, Replay, OpsOf;
    ReplayDebits(init, RequestsAt(s, ts), a);
    assert RequestsAt(s, ts)[..|ts|] == RequestsAt(s, ts);
    InvCovered(init, end);
    if end.dropped == [] {
      CoveredTotal(init, end.applied, a);
    }
  }

  lemma InvCovered(init: Table, s: State)
    requires Inv(init, s)
    ensures s.dropped == [] <==> Covered(init, s.applied)
  {
  }

  lemma OverdrawDrifts(init: Table, s: State, ts: seq<nat>, a: int) returns (schedule: seq<nat>)
    requires Start(init, s) && Overdraws(init, s, ts, a)
    ensures Drifts(s, schedule)
  {
    var commits := CommitAll(init, s, ts, |ts|);
    hide After, CommittedFirst, MirroredFirst, Inv, Finished;
    var s1 := After(s, commits).value;
    var mirrors := MirrorAll(init, s, s1, ts, |ts|, a);
    var s2 := After(s1, mirrors).value;
    DroppedAfter(init, s, s2, ts, a);
    MirroredInv(init, s, s2, ts, a);
    var rest := Complete(init, s2);
    RunKeepsInv(init, s2, rest);
    var end := After(s2, rest).value;
    assert s2.dropped[0] == end.dropped[0];
    QuiescentMirror(init, end);
    AfterBoth(s, commits, mirrors);
    AfterBoth(s, commits + mirrors, rest);
    schedule := commits + mirrors + rest;
  }

  lemma MirroredInv(init: Table, s: State, end: State, ts: seq<nat>, a: int)
    requires DistinctThreads(s, ts) && MirroredFirst(init, s, end, ts, |ts|, a)
    ensures Inv(init, end)
  {
  }

  /** Some schedule ends with memory different from the database if and only if some of the requests, in
      an order in which the bank grants them all, overdraw an account's initial balance. */
  lemma DriftExactly(init: Table, s: State)
    requires Start(init, s)
    ensures (exists schedule :: Drifts(s, schedule)) <==> exists ts, a :: Overdraws(init, s, ts, a)
  {
    hide Start, Overdraws;
    if schedule :| Drifts(s, schedule) {
      DriftOverdraws(init, s, schedule);
    }
    if ts, a :| Overdraws(init, s, ts, a) {
      var schedule := OverdrawDrifts(init, s, ts, a);
    }
  }
}
