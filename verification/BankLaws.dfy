/** What the invariant of the bank protocol means: for the balances in the database, and for the
    mirror in memory. */
module BankLaws {
  import opened Bank
  import opened BankMemory
  import opened BankProtocol
  import opened BankRuns
  import opened Wrappers

  // ---- The database ----

  lemma {:induction false} ReplayPositive(init: Table, history: seq<Request>)
    requires forall i :: 0 <= i < |history| ==> Proper(history[i])
    requires Replay(Db(init, []), history).Some?
    ensures var log := Replay(Db(init, []), history).value.log; forall i :: 0 <= i < |log| ==> log[i].amount > 0
    decreases |history|
  {
    hide Run, Statements;
    if history != [] {
      ReplayPositive(init, history[..|history| - 1]);
    }
  }

  /** In every reachable state, whatever the interleaving: a balance is its initial value plus the
      signed sum of its log rows, actual minus available is constant, and no account that started
      with funds is overdrawn. */
  lemma Balances(init: Table, s: State, a: int)
    requires Inv(init, s) && a in init
    ensures a in s.rows && s.rows[a] == Shift(init[a], Net(OpsOf(s.log), a))
    ensures s.rows[a].actual - s.rows[a].available == init[a].actual - init[a].available
    ensures init[a].available >= 0 ==> s.rows[a].available >= 0
  {
    hide Locks, ThreadsOk, MirrorData, Granted, PendingNet, Atomic;
    ReplayExplains(init, s.history);
    ReplayPositive(init, s.history);
    BalanceLaws(init, Db(s.rows, s.log), a);
  }

  // ---- The mirror ----

  /** The total of the withdrawals on an account that the mirror turned down. */
  function Refused(s: State, a: int): int {
    -Net(s.dropped, a)
  }

  /** Memory is the database less the committed movements still to be mirrored, plus the refused
      withdrawals. */
  lemma MirrorEquation(init: Table, s: State, a: int)
    requires Inv(init, s) && a in init
    ensures a in s.mem && a in s.rows
    ensures s.mem[a] == Shift(s.rows[a], Refused(s, a) - PendingNet(s.threads, a))
  {
    hide Locks, ThreadsOk, Granted, PendingNet, Replay, OpsOf, Net;
    Balances(init, s, a);
  }

  /** Two threads never apply movements to one account at the same time. */
  lemma MirrorsExclude(init: Table, s: State, t: nat, u: nat, i: nat, j: nat)
    requires Inv(init, s) && t < |s.threads| && u < |s.threads| && t != u
    requires s.threads[t].pc.Applying? && s.threads[u].pc.Applying?
    requires i < |Movements(s.threads[t].req)| && j < |Movements(s.threads[u].req)|
    ensures Movements(s.threads[t].req)[i].account != Movements(s.threads[u].req)[j].account
  {
    hide Replay, Net, OpsOf, PendingNet, Granted, MirrorData, ThreadsOk, Movements;
    MovementsAreLocked(s.threads[t], i);
    MovementsAreLocked(s.threads[u], j);
    HeldIs(s.threads, t);
    HeldIs(s.threads, u);
    var held := MutexesHeld(s.threads);
    assert forall a :: a in held[t] ==> s.mutex[a] == t;
    assert forall a :: a in held[u] ==> s.mutex[a] == u;
  }

  lemma MovementsAreLocked(th: Thread, i: nat)
    requires th.pc.Applying? && i < |Movements(th.req)|
    ensures Movements(th.req)[i].account in Held(th)
  {
    var ms := Mutexes(th.req);
    var a := Movements(th.req)[i].account;
    assert a == ms[0] || (|ms| > 1 && a == ms[1]);
  }

  predicate Finished(s: State) {
    forall t :: 0 <= t < |s.threads| ==> s.threads[t].pc.Done?
  }

  lemma {:induction false} NothingPending(ths: seq<Thread>, a: int)
    requires forall t :: 0 <= t < |ths| ==> ths[t].pc.Done?
    ensures PendingNet(ths, a) == 0
    decreases |ths|
  {
    if ths != [] {
      NothingPending(ths[..|ths| - 1], a);
      NetEmpty(a);
    }
  }

  lemma {:induction false} DebitsAreNegative(ops: seq<Op>, a: int)
    requires forall i :: 0 <= i < |ops| ==> ops[i].Debit? && ops[i].amount > 0
    ensures Net(ops, a) <= 0
    ensures (exists i :: 0 <= i < |ops| && ops[i].account == a) ==> Net(ops, a) < 0
    decreases |ops|
  {
    if ops != [] {
      DebitsAreNegative(ops[..|ops| - 1], a);
    }
  }

  /** Once all requests are answered, memory equals the database exactly when every mirrored
      withdrawal was covered by what had been mirrored before it. */
  lemma QuiescentMirror(init: Table, s: State)
    requires Inv(init, s) && Finished(s)
    ensures s.mem == s.rows <==> s.dropped == []
    ensures s.dropped == [] <==> Covered(init, s.applied)
  {
    hide Locks, ThreadsOk, Granted, PendingNet, Replay, OpsOf, Net;
    forall a | a in init ensures a in s.mem && a in s.rows && s.mem[a] == Shift(s.rows[a], Refused(s, a)) {
      MirrorEquation(init, s, a);
      NothingPending(s.threads, a);
    }
    if s.dropped == [] {
      forall a | a in init ensures s.mem[a] == s.rows[a] {
        NetEmpty(a);
      }
      assert s.mem.Keys == s.rows.Keys == init.Keys;
      assert s.mem == s.rows;
    } else {
      var a := s.dropped[0].account;
      DebitsAreNegative(s.dropped, a);
      assert Refused(s, a) > 0;
    }
  }

  // ---- Mirroring in commit order ----

  /** The movements on one account. */
  function On(ops: seq<Op>, a: int): seq<Op> {
    if ops == [] then []
    else On(ops[..|ops| - 1], a) + if ops[|ops| - 1].account == a then [ops[|ops| - 1]] else []
  }

  /** Each account's movements have reached the mirror in the order of their commits. */
  ghost predicate InCommitOrder(s: State) {
    forall a :: On(s.applied, a) <= On(OpsOf(s.log), a)
  }

  lemma {:induction false} OnNet(ops: seq<Op>, a: int)
    ensures Net(On(ops, a), a) == Net(ops, a)
    decreases |ops|
  {
    if ops != [] {
      var n := |ops| - 1;
      OnNet(ops[..n], a);
      NetAppend(On(ops[..n], a), if ops[n].account == a then [ops[n]] else [], a);
      NetOne(ops[n], a);
      NetEmpty(a);
    }
  }

  /** Whether an account's withdrawals are covered depends on that account's movements only. */
  lemma {:induction false} CoveredOn(init: Table, ops: seq<Op>, a: int)
    requires Covered(init, ops)
    ensures Covered(init, On(ops, a))
    decreases |ops|
  {
    hide Covered;
    if ops == [] {
      CoveredNone(init);
    } else {
      var n := |ops| - 1;
      var op := ops[n];
      assert ops == ops[..n] + [op];
      CoveredMore(init, ops[..n], op);
      CoveredOn(init, ops[..n], a);
      OnNet(ops[..n], a);
      CoveredMore(init, On(ops[..n], a), op);
      assert On(ops[..n], a) + [] == On(ops[..n], a);
    }
  }

  lemma CoveredNone(init: Table)
    ensures Covered(init, [])
  {
  }

  lemma {:induction false} CoveredFromOn(init: Table, ops: seq<Op>)
    requires forall a :: Covered(init, On(ops, a))
    ensures Covered(init, ops)
    decreases |ops|
  {
    hide Covered;
    if ops == [] {
      CoveredNone(init);
    } else {
      var n := |ops| - 1;
      var op := ops[n];
      assert ops == ops[..n] + [op];
      forall a ensures Covered(init, On(ops[..n], a)) {
        CoveredPrefix(init, On(ops[..n], a), On(ops, a));
      }
      CoveredFromOn(init, ops[..n]);
      assert Covered(init, On(ops, op.account));
      OnNet(ops[..n], op.account);
      CoveredMore(init, On(ops[..n], op.account), op);
      CoveredMore(init, ops[..n], op);
    }
  }

  lemma CoveredPrefix(init: Table, p: seq<Op>, ops: seq<Op>)
    requires p <= ops && Covered(init, ops)
    ensures Covered(init, p)
  {
    forall k | 0 <= k < |p| && p[k].Debit?
      ensures p[k].account in init && p[k].amount <= init[p[k].account].available + Net(p[..k], p[k].account)
    {
      assert p[k] == ops[k] && p[..k] == ops[..k];
    }
  }

  /** Mirroring in commit order never drops a withdrawal, so memory is the database less what is
      still pending, and equals it when all requests are answered. */
  lemma CommitOrderSuffices(init: Table, s: State)
    requires Inv(init, s) && InCommitOrder(s)
    ensures s.dropped == []
    ensures forall a :: a in init ==>
            a in s.mem && a in s.rows && s.mem[a] == Shift(s.rows[a], -PendingNet(s.threads, a))
    ensures Finished(s) ==> s.mem == s.rows
  {
    hide Covered, Locks, ThreadsOk, Granted, PendingNet, Replay, OpsOf, Net;
    ReplayExplains(init, s.history);
    forall a ensures Covered(init, On(s.applied, a)) {
      CoveredOn(init, OpsOf(s.log), a);
      CoveredPrefix(init, On(s.applied, a), On(OpsOf(s.log), a));
    }
    CoveredFromOn(init, s.applied);
    forall a | a in init ensures a in s.mem && a in s.rows && s.mem[a] == Shift(s.rows[a], -PendingNet(s.threads, a)) {
      MirrorEquation(init, s, a);
      NetEmpty(a);
    }
    if Finished(s) {
      QuiescentMirror(init, s);
    }
  }

  // ---- Out of order ----

  /** A deposit and a withdrawal of 100 on an empty account, each by its own thread. */
  function TwoRequests(): State {
    var init := map[1 := Row(0, 0)];
    State(init, [], init,
          [Thread(Request(Deposit, 1, None, 100), Executing(0, true), map[]),
           Thread(Request(Withdraw, 1, None, 100), Executing(0, true), map[])],
          map[], map[], [], [], [])
  }

  /** The deposit commits; the withdrawal commits and is mirrored; the deposit is mirrored. */
  function Overtaking(): seq<nat> {
    [0, 0, 1, 1, 1, 1, 1, 0, 0, 0]
  }

  lemma {:induction false} AfterBoth(s: State, p: seq<nat>, q: seq<nat>)
    requires After(s, p).Some?
    ensures After(s, p + q) == After(After(s, p).value, q)
    decreases |p|
  {
    hide Enabled, Next;
    if p == [] {
      assert p + q == q;
    } else {
      assert (p + q)[1..] == p[1..] + q;
      AfterBoth(Next(s, p[0]), p[1..], q);
    }
  }

  /** A request of one statement that meets a free row and is covered commits in two steps. */
  lemma CommitsInTwo(s: State, t: nat, r: Request, op: Op)
    requires t < |s.threads| && s.threads[t] == Thread(r, Executing(0, true), map[]) && Statements(r) == [op]
    requires Affects(s.rows, op) && op.account !in s.rowLock
    ensures After(s, [t, t]) ==
            Some(s.(rows := s.rows[op.account := ApplyOp(s.rows[op.account], op)], log := s.log + LogRows(r),
                history := s.history + [r],
                    threads := s.threads[t := Thread(r, Locking(0), map[])]))
  {
    StatementStep(s, t, r, op);
    hide Affects, ApplyOp, Statements, LogRows, After, Enabled, Next;
    var row := ApplyOp(s.rows[op.account], op);
    var s1 := Next(s, t);
    CommitStep(s1, t, r, op);
    assert s.rows + map[op.account := row] == s.rows[op.account := row];
    assert s1.threads[t].work.Keys == {op.account} && Unlock(s1.rowLock, {op.account}) == s.rowLock;
    assert s1.threads[t := Thread(r, Locking(0), map[])] == s.threads[t := Thread(r, Locking(0), map[])];
    AfterTwo(s, t);
  }

  lemma StatementStep(s: State, t: nat, r: Request, op: Op)
    requires t < |s.threads| && s.threads[t] == Thread(r, Executing(0, true), map[]) && Statements(r) == [op]
    requires Affects(s.rows, op) && op.account !in s.rowLock
    ensures Enabled(s, t) && op.account in s.rows
    ensures Next(s, t) == s.(rowLock := s.rowLock[op.account := t],
                             threads := s.threads[t := Thread(r, Executing(1, true),
                                 map[op.account := ApplyOp(s.rows[op.account], op)])])
  {
    assert op.account in s.rows;
    hide Affects, ApplyOp, Statements, LogRows;
  }

  lemma CommitStep(s: State, t: nat, r: Request, op: Op)
    requires t < |s.threads| && Statements(r) == [op]
    requires s.threads[t].req == r && s.threads[t].pc == Executing(1, true)
    ensures Enabled(s, t)
    ensures Next(s, t) == s.(rows := s.rows + s.threads[t].work, log := s.log + LogRows(r), history := s.history + [r],
                             rowLock := Unlock(s.rowLock, s.threads[t].work.Keys),
                                 threads := s.threads[t := Thread(r, Locking(0), map[])])
  {
    hide Affects, ApplyOp, Statements, LogRows;
  }

  lemma AfterTwo(s: State, t: nat)
    requires Enabled(s, t) && Enabled(Next(s, t), t)
    ensures After(s, [t, t]) == Some(Next(Next(s, t), t))
  {
    hide Enabled, Next;
    assert [t, t][1..] == [t] && [t][1..] == [];
    assert After(Next(s, t), [t]) == After(Next(Next(s, t), t), []);
  }

  /** Its mirror update takes three more: lock, movement, unlock. */
  lemma MirrorsInThree(s: State, t: nat, r: Request, op: Op)
    requires t < |s.threads| && s.threads[t] == Thread(r, Locking(0), map[])
    requires Movements(r) == [op] && Mutexes(r) == [op.account] && op.account !in s.mutex
    ensures After(s, [t, t, t]) ==
            Some(s.(mem := MirrorOp(s.mem, op), applied := s.applied + [op],
                    dropped := if Affects(s.mem, op) then s.dropped else s.dropped + [op],
                    threads := s.threads[t := Thread(r, Done(true), map[])]))
  {
    hide Affects, MirrorOp, Movements, Mutexes, After;
    var s1 := s.(mutex := s.mutex[op.account := t], threads := s.threads[t := Thread(r, Applying(0), map[])]);
    assert Enabled(s, t) && Next(s, t) == s1;
    var s2 := Next(s1, t);
    assert Enabled(s1, t) && s2.threads == s.threads[t := Thread(r, Unlocking(1), map[])];
    assert Unlock(s1.mutex, {op.account}) == s.mutex;
    assert Enabled(s2, t) && Next(s2, t).threads == s.threads[t := Thread(r, Done(true), map[])];
    AfterTwo(s, t);
    AfterBoth(s, [t, t], [t]);
    assert [t, t] + [t] == [t, t, t] && [t][1..] == [];
    AfterOne(s2, t);
  }

  lemma AfterOne(s: State, t: nat)
    requires Enabled(s, t)
    ensures After(s, [t]) == Some(Next(s, t))
  {
    hide Enabled, Next;
    assert [t][1..] == [];
  }

  /** When a mirror update overtakes an earlier one, a withdrawal that the database granted is lost
      in memory: 100 in memory, 0 in the database. */
  lemma OvertakingDrifts()
    ensures Start(map[1 := Row(0, 0)], TwoRequests())
    ensures var end := After(TwoRequests(), Overtaking());
            end.Some? && Finished(end.value) && end.value.rows == map[1 := Row(0, 0)] &&
                end.value.mem == map[1 := Row(100, 100)]
  {
    hide After, Enabled, Next;
    var d, w := Request(Deposit, 1, None, 100), Request(Withdraw, 1, None, 100);
    var s0 := TwoRequests();
    CommitsInTwo(s0, 0, d, Credit(1, 100));
    var s1 := After(s0, [0, 0]).value;
    CommitsInTwo(s1, 1, w, Debit(1, 100));
    var s2 := After(s1, [1, 1]).value;
    MirrorsInThree(s2, 1, w, Debit(1, 100));
    var s3 := After(s2, [1, 1, 1]).value;
    MirrorsInThree(s3, 0, d, Credit(1, 100));
    AfterBoth(s0, [0, 0], [1, 1]);
    AfterBoth(s0, [0, 0] + [1, 1], [1, 1, 1]);
    AfterBoth(s0, [0, 0] + [1, 1] + [1, 1, 1], [0, 0, 0]);
    assert [0, 0] + [1, 1] + [1, 1, 1] + [0, 0, 0] == Overtaking();
  }
}
