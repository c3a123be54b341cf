/** No run of the bank protocol deadlocks, and every run ends with all requests answered. */
module BankProgress {
  import opened Bank
  import opened BankProtocol
  import opened BankRuns

  // ---- Following the locks upwards ----

  function Above(keys: set<int>, a: int): set<int> {
    set x | x in keys && x > a
  }

  lemma AboveShrinks(keys: set<int>, a: int, b: int)
    requires b in keys && a < b
    ensures |Above(keys, b)| < |Above(keys, a)|
  {
    var p, q := Above(keys, b), Above(keys, a);
    assert b in q - p;
    assert q == p + (q - p) && p * (q - p) == {};
  }

  /** The thread that holds row `a` can move, or waits for a higher row. */
  lemma RowOwner(init: Table, s: State, a: int)
    requires Locks(s) && ThreadsOk(init, s) && a in s.rowLock
    ensures var u := s.rowLock[a]; u < |s.threads| && s.threads[u].pc.Executing?
    ensures var u := s.rowLock[a];
            !Enabled(s, u) ==>
              var i := s.threads[u].pc.i;
              i < |Statements(s.threads[u].req)| &&
              var b := Statements(s.threads[u].req)[i].account; a < b && b in s.rows && b in s.rowLock
  {
    hide Statements, Proper, Committed, Mutexes, Movements;
    var u := s.rowLock[a];
    HeldIs(s.threads, u);
    var th := s.threads[u];
    assert a in RowsHeld(s.threads)[u] && WorkOk(s.rows, th) && PcOk(init, th);
    var k :| 0 <= k < th.pc.i && FromStatement(s.rows, th, a, k);
    MutexesDistinct(th.req);
    if !Enabled(s, u) {
      assert Statements(th.req)[k].account < Statements(th.req)[th.pc.i].account;
    }
  }

  /** Some owner up the chain of row locks can move. */
  lemma {:induction false} RowChain(init: Table, s: State, a: int) returns (t: nat)
    requires Locks(s) && ThreadsOk(init, s) && a in s.rowLock
    ensures Enabled(s, t)
    decreases |Above(s.rows.Keys, a)|
  {
    hide Locks, ThreadsOk, Enabled, Affects, Above;
    RowOwner(init, s, a);
    t := s.rowLock[a];
    if !Enabled(s, t) {
      var b := Statements(s.threads[t].req)[s.threads[t].pc.i].account;
      AboveShrinks(s.rows.Keys, a, b);
      t := RowChain(init, s, b);
    }
  }

  lemma MutexOwner(init: Table, s: State, a: int)
    requires Locks(s) && ThreadsOk(init, s) && a in s.mutex
    ensures var u := s.mutex[a]; u < |s.threads|
    ensures var u := s.mutex[a];
            !Enabled(s, u) ==>
              s.threads[u].pc.Locking? &&
              var j := s.threads[u].pc.j;
              j < |Mutexes(s.threads[u].req)| &&
              var b := Mutexes(s.threads[u].req)[j]; a < b && b in init && b in s.mutex
  {
    hide Statements, Proper, Mutexes, Movements, WorkOk;
    var u := s.mutex[a];
    HeldIs(s.threads, u);
    var th := s.threads[u];
    assert a in MutexesHeld(s.threads)[u] && PcOk(init, th);
    MutexesDistinct(th.req);
    if !Enabled(s, u) {
      var i :| 0 <= i < th.pc.j && i < |Mutexes(th.req)| && Mutexes(th.req)[i] == a;
      assert Mutexes(th.req)[i] < Mutexes(th.req)[th.pc.j];
    }
  }

  /** Some owner up the chain of mutexes can move. */
  lemma {:induction false} MutexChain(init: Table, s: State, a: int) returns (t: nat)
    requires Locks(s) && ThreadsOk(init, s) && a in s.mutex
    ensures Enabled(s, t)
    decreases |Above(init.Keys, a)|
  {
    hide Locks, ThreadsOk, Enabled, Above;
    MutexOwner(init, s, a);
    t := s.mutex[a];
    if !Enabled(s, t) {
      var b := Mutexes(s.threads[t].req)[s.threads[t].pc.j];
      AboveShrinks(init.Keys, a, b);
      t := MutexChain(init, s, b);
    }
  }

  lemma WhyBlocked(init: Table, s: State, u: nat)
    requires ThreadsOk(init, s) && u < |s.threads| && !s.threads[u].pc.Done? && !Enabled(s, u)
    ensures s.threads[u].pc.Executing? ==>
              var i := s.threads[u].pc.i;
              i < |Statements(s.threads[u].req)| && Statements(s.threads[u].req)[i].account in s.rowLock
    ensures !s.threads[u].pc.Executing? ==>
              s.threads[u].pc.Locking? &&
              s.threads[u].pc.j < |Mutexes(s.threads[u].req)| && Mutexes(s.threads[u].req)[s.threads[u].pc.j] in s.mutex
  {
    hide Statements, Mutexes, Movements, WorkOk, Committed;
    assert PcOk(init, s.threads[u]);
  }

  /** No reachable state has every unfinished thread blocked. */
  lemma NoDeadlock(init: Table, s: State, u: nat) returns (t: nat)
    requires Inv(init, s) && u < |s.threads| && !s.threads[u].pc.Done?
    ensures Enabled(s, t)
  {
    hide Locks, ThreadsOk, Enabled, Statements, Mutexes, Replay, Net, OpsOf, PendingNet, Granted, MirrorData;
    t := u;
    if !Enabled(s, u) {
      WhyBlocked(init, s, u);
      if s.threads[u].pc.Executing? {
        t := RowChain(init, s, Statements(s.threads[u].req)[s.threads[u].pc.i].account);
      } else {
        t := MutexChain(init, s, Mutexes(s.threads[u].req)[s.threads[u].pc.j]);
      }
    }
  }

  // ---- Runs end ----

  /** How many steps a thread still has to take, at most. */
  function Left(pc: Pc): nat {
    match pc
    case Executing(i, _) => if i <= 2 then 10 - i else 8
    case Locking(j) => if j <= 1 then 7 - j else 6
    case Applying(k) => if k <= 1 then 5 - k else 4
    case Unlocking(left) => left
    case Done(_) => 0
  }

  function Total(ths: seq<Thread>): nat {
    if ths == [] then 0 else Total(ths[..|ths| - 1]) + Left(ths[|ths| - 1].pc)
  }

  lemma {:induction false} TotalUpdate(ths: seq<Thread>, t: nat, th: Thread)
    requires t < |ths| && Left(th.pc) < Left(ths[t].pc)
    ensures Total(ths[t := th]) < Total(ths)
    decreases |ths|
  {
    hide Left;
    var n := |ths| - 1;
    if t == n {
      assert ths[t := th][..n] == ths[..n];
    } else {
      assert ths[t := th][..n] == ths[..n][t := th];
      TotalUpdate(ths[..n], t, th);
    }
  }

  lemma ExecuteSpends(init: Table, s: State, t: nat)
    requires Enabled(s, t) && s.threads[t].pc.Executing? && PcOk(init, s.threads[t])
    ensures Left(Execute(s, t).threads[t].pc) < Left(s.threads[t].pc)
  {
    hide Statements, LogRows, Unlock, Affects, ApplyOp, Committed, Proper, Commits;
    MutexesDistinct(s.threads[t].req);
  }

  lemma StepSpends(init: Table, s: State, t: nat)
    requires ThreadsOk(init, s) && Enabled(s, t)
    ensures Left(Next(s, t).threads[t].pc) < Left(s.threads[t].pc)
  {
    hide Statements, Mutexes, Movements, Unlock, Affects, WorkOk, Committed, Proper, Execute;
    var th := s.threads[t];
    assert PcOk(init, th);
    MutexesDistinct(th.req);
    if th.pc.Executing? {
      ExecuteSpends(init, s, t);
    }
  }

  /** A run takes at most as many steps as its threads have left. */
  lemma {:induction false} RunsAreBounded(init: Table, s: State, schedule: seq<nat>)
    requires Inv(init, s) && After(s, schedule).Some?
    ensures |schedule| + Total(After(s, schedule).value.threads) <= Total(s.threads)
    decreases |schedule|
  {
    if schedule != [] {
      var t := schedule[0];
      StepSpends(init, s, t);
      StepShape(s, t);
      TotalUpdate(s.threads, t, Next(s, t).threads[t]);
      StepKeepsInv(init, s, t);
      hide Inv, Enabled, Next, Total;
      RunsAreBounded(init, Next(s, t), schedule[1..]);
    }
  }

  lemma {:induction false} TotalAtStart(ths: seq<Thread>)
    requires forall t :: 0 <= t < |ths| ==> ths[t].pc == Executing(0, true)
    ensures Total(ths) == 10 * |ths|
    decreases |ths|
  {
    if ths != [] {
      TotalAtStart(ths[..|ths| - 1]);
    }
  }

  /** Every run from a start state has at most ten steps a request, and as long as some request is
      unanswered some thread can move: every run that goes on while it can answers every request. */
  lemma EveryRunFinishes(init: Table, s: State, schedule: seq<nat>)
    requires Start(init, s) && After(s, schedule).Some?
    ensures |schedule| <= 10 * |s.threads|
    ensures var end := After(s, schedule).value;
            (forall t :: !Enabled(end, t)) ==> forall u :: 0 <= u < |end.threads| ==> end.threads[u].pc.Done?
  {
    StartHolds(init, s);
    TotalAtStart(s.threads);
    RunsAreBounded(init, s, schedule);
    RunKeepsInv(init, s, schedule);
    hide Enabled, Inv;
    var end := After(s, schedule).value;
    if u :| 0 <= u < |end.threads| && !end.threads[u].pc.Done? {
      var t := NoDeadlock(init, end, u);
    }
  }
}
