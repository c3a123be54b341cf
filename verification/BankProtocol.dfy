/** Any number of requests in flight at once: row locks and uncommitted versions in the database,
    account mutexes in memory, one statement, commit, lock operation or mirror movement per step.

    Row locks last until commit or rollback; mutexes are taken after commit. Both are taken in
    ascending account order. */
module BankProtocol {
  import opened Bank
  import opened BankMemory

  /** Where a request stands: statements executed and whether all affected a row; mutexes held;
      movements applied to the mirror; mutexes still to be released; or finished. */
  datatype Pc =
    | Executing(i: nat, ok: bool)
    | Locking(j: nat)
    | Applying(k: nat)
    | Unlocking(left: nat)
    | Done(success: bool)

  /** `work` holds the uncommitted versions of the rows the transaction has locked. */
  datatype Thread = Thread(req: Request, pc: Pc, work: Table)

  datatype State = State(
    rows: Table, log: seq<LogRow>, mem: Table, threads: seq<Thread>,
    rowLock: map<int, nat>, mutex: map<int, nat>,
    history: seq<Request>, applied: seq<Op>, dropped: seq<Op>)

  /** The accounts whose mutexes a request takes, lower account first. */
  function Mutexes(r: Request): seq<int> {
    match r.kind
    case Withdraw => [r.account]
    case Deposit => [r.account]
    case Transfer =>
      if r.to.None? then []
      else if r.account < r.to.value then [r.account, r.to.value] else [r.to.value, r.account]
    case Unknown => []
  }

  predicate Start(init: Table, s: State) {
    && s.rows == init && s.mem == init && s.log == [] && s.rowLock == map[] && s.mutex == map[]
    && s.history == [] && s.applied == [] && s.dropped == []
    && forall t :: 0 <= t < |s.threads| ==>
       Proper(s.threads[t].req) && s.threads[t].pc == Executing(0, true) && s.threads[t].work == map[]
  }

  // ---- Steps ----

  /** A statement that would affect a row waits while another transaction holds that row. */
  predicate Enabled(s: State, t: nat) {
    t < |s.threads| &&
    var th := s.threads[t];
    match th.pc
    case Executing(i, _) =>
      i >= |Statements(th.req)| || !Affects(s.rows, Statements(th.req)[i]) ||
          Statements(th.req)[i].account !in s.rowLock
    case Locking(j) => j < |Mutexes(th.req)| && Mutexes(th.req)[j] !in s.mutex
    case Applying(k) => k < |Movements(th.req)|
    case Unlocking(left) => 0 < left <= |Mutexes(th.req)|
    case Done(_) => false
  }

  predicate Commits(s: State, t: nat) {
    t < |s.threads| &&
    var th := s.threads[t];
    th.pc == Executing(|Statements(th.req)|, true) && Statements(th.req) != []
  }

  function Unlock(locks: map<int, nat>, accounts: set<int>): map<int, nat> {
    locks - accounts
  }

  function Execute(s: State, t: nat): State
    requires Enabled(s, t) && s.threads[t].pc.Executing?
  {
    var th := s.threads[t];
    var i := th.pc.i;
    if i < |Statements(th.req)| then
      var op := Statements(th.req)[i];
      if Affects(s.rows, op) then
        s.(rowLock := s.rowLock[op.account := t],
           threads := s.threads[t := Thread(th.req, Executing(i + 1, th.pc.ok),
               th.work[op.account := ApplyOp(s.rows[op.account], op)])])
      else
        s.(threads := s.threads[t := Thread(th.req, Executing(i + 1, false), th.work)])
    else if Commits(s, t) then
      s.(rows := s.rows + th.work, log := s.log + LogRows(th.req), history := s.history + [th.req],
         rowLock := Unlock(s.rowLock, th.work.Keys), threads := s.threads[t := Thread(th.req, Locking(0), map[])])
    else
      s.(rowLock := Unlock(s.rowLock, th.work.Keys), threads := s.threads[t := Thread(th.req, Done(false), map[])])
  }

  function ApplyMirror(s: State, t: nat): State
    requires Enabled(s, t) && s.threads[t].pc.Applying?
  {
    var th := s.threads[t];
    var k := th.pc.k;
    var op := Movements(th.req)[k];
    var pc := if k + 1 < |Movements(th.req)| then Applying(k + 1) else Unlocking(|Mutexes(th.req)|);
    s.(mem := MirrorOp(s.mem, op), applied := s.applied + [op],
       dropped := if Affects(s.mem, op) then s.dropped else s.dropped + [op],
       threads := s.threads[t := Thread(th.req, pc, th.work)])
  }

  function Next(s: State, t: nat): State
    requires Enabled(s, t)
  {
    var th := s.threads[t];
    match th.pc
    case Executing(_, _) => Execute(s, t)
    case Locking(j) =>
      var pc := if j + 1 < |Mutexes(th.req)| then Locking(j + 1) else Applying(0);
      s.(mutex := s.mutex[Mutexes(th.req)[j] := t], threads := s.threads[t := Thread(th.req, pc, th.work)])
    case Applying(_) => ApplyMirror(s, t)
    case Unlocking(left) =>
      var pc := if left > 1 then Unlocking(left - 1) else Done(true);
      s.(mutex := Unlock(s.mutex, {Mutexes(th.req)[left - 1]}), threads := s.threads[t := Thread(th.req, pc, th.work)])
    case Done(_) => s
  }

  // ---- Locks ----

  function First(ms: seq<int>, n: nat): set<int> {
    set i | 0 <= i < n && i < |ms| :: ms[i]
  }

  /** The mutexes a thread holds. */
  function Held(th: Thread): set<int> {
    match th.pc
    case Locking(j) => First(Mutexes(th.req), j)
    case Applying(_) => First(Mutexes(th.req), |Mutexes(th.req)|)
    case Unlocking(left) => First(Mutexes(th.req), left)
    case _ => {}
  }

  /** The lock table says exactly which thread holds which lock. */
  predicate Owns(locks: map<int, nat>, held: seq<set<int>>) {
    && (forall a :: a in locks ==> locks[a] < |held| && a in held[locks[a]])
    && (forall t, a :: 0 <= t < |held| && a in held[t] ==> a in locks && locks[a] == t)
  }

  function RowsHeld(ths: seq<Thread>): seq<set<int>> {
    seq(|ths|, t requires 0 <= t < |ths| => ths[t].work.Keys)
  }

  function MutexesHeld(ths: seq<Thread>): seq<set<int>> {
    seq(|ths|, t requires 0 <= t < |ths| => Held(ths[t]))
  }

  predicate Locks(s: State) {
    Owns(s.rowLock, RowsHeld(s.threads)) && Owns(s.mutex, MutexesHeld(s.threads))
  }

  lemma Acquire(locks: map<int, nat>, held: seq<set<int>>, a: int, t: nat)
    requires Owns(locks, held) && t < |held| && a !in locks
    ensures Owns(locks[a := t], held[t := held[t] + {a}])
  {
  }

  lemma Release(locks: map<int, nat>, held: seq<set<int>>, t: nat, xs: set<int>)
    requires Owns(locks, held) && t < |held| && xs <= held[t]
    ensures Owns(Unlock(locks, xs), held[t := held[t] - xs])
  {
    var after := held[t := held[t] - xs];
    forall u, a | 0 <= u < |after| && a in after[u] ensures a in Unlock(locks, xs) && Unlock(locks, xs)[a] == u {
      assert a in held[u];
      assert locks[a] == u;
      assert a in held[t] ==> locks[a] == t;
    }
    forall a | a in Unlock(locks, xs) ensures Unlock(locks, xs)[a] < |after| && a in after[Unlock(locks, xs)[a]] {
      assert a in locks && a !in xs;
    }
  }

  lemma HeldUpdate(ths: seq<Thread>, t: nat, th: Thread)
    requires t < |ths|
    ensures RowsHeld(ths[t := th]) == RowsHeld(ths)[t := th.work.Keys]
    ensures MutexesHeld(ths[t := th]) == MutexesHeld(ths)[t := Held(th)]
  {
  }

  lemma FirstStep(ms: seq<int>, n: nat)
    requires n < |ms|
    ensures First(ms, n + 1) == First(ms, n) + {ms[n]}
    ensures (forall i, j :: 0 <= i < j < |ms| ==> ms[i] != ms[j]) ==> First(ms, n) == First(ms, n + 1) - {ms[n]}
  {
    forall x ensures x in First(ms, n + 1) <==> x in First(ms, n) || x == ms[n] {
      if x in First(ms, n) {
        var i :| 0 <= i < n && i < |ms| && ms[i] == x;
        assert i < n + 1;
      }
    }
  }

  // ---- Threads ----

  /** What a thread's position says about its uncommitted rows: each is the statement applied to the
      committed row, and while all statements succeeded there is one for each. */
  predicate WorkOk(rows: Table, th: Thread) {
    match th.pc
    case Executing(i, ok) =>
      && i <= |Statements(th.req)|
      && (forall a :: a in th.work ==> exists k :: 0 <= k < i && FromStatement(rows, th, a, k))
      && (ok ==> forall k :: 0 <= k < i ==> Statements(th.req)[k].account in th.work)
    case _ => th.work == map[]
  }

  predicate FromStatement(rows: Table, th: Thread, a: int, k: nat)
    requires a in th.work
  {
    k < |Statements(th.req)| &&
    var op := Statements(th.req)[k];
    op.account == a && Affects(rows, op) && th.work[a] == ApplyOp(rows[a], op)
  }

  predicate PcOk(init: Table, th: Thread) {
    && Proper(th.req)
    && (th.pc.Locking? || th.pc.Applying? || th.pc.Unlocking? ==> Committed(init, th.req))
    && match th.pc {
         case Executing(i, _) => i <= |Statements(th.req)|
         case Locking(j) => j < |Mutexes(th.req)|
         case Applying(k) => k < |Movements(th.req)|
         case Unlocking(left) => 0 < left <= |Mutexes(th.req)|
         case Done(_) => true
       }
  }

  /** A request that can have committed: it has movements, all on known accounts. */
  predicate Committed(init: Table, r: Request) {
    && Movements(r) != []
    && (forall i :: 0 <= i < |Movements(r)| ==> Movements(r)[i].account in init)
    && (forall i :: 0 <= i < |Mutexes(r)| ==> Mutexes(r)[i] in init)
  }

  // ---- Pending mirror work ----

  function Pending(th: Thread): seq<Op> {
    match th.pc
    case Locking(_) => Movements(th.req)
    case Applying(k) => if k <= |Movements(th.req)| then Movements(th.req)[k..] else []
    case _ => []
  }

  /** The committed but unmirrored net change of an account. */
  function PendingNet(ths: seq<Thread>, a: int): int {
    if ths == [] then 0 else PendingNet(ths[..|ths| - 1], a) + Net(Pending(ths[|ths| - 1]), a)
  }

  predicate ThreadsOk(init: Table, s: State) {
    forall t :: 0 <= t < |s.threads| ==> WorkOk(s.rows, s.threads[t]) && PcOk(init, s.threads[t])
  }

  // ---- Lock tables are kept ----

  lemma MutexesDistinct(r: Request)
    requires Proper(r)
    ensures forall i, j :: 0 <= i < j < |Mutexes(r)| ==> Mutexes(r)[i] < Mutexes(r)[j]
    ensures |Mutexes(r)| == |Statements(r)| == |Movements(r)| <= 2
    ensures forall i, j :: 0 <= i < j < |Statements(r)| ==> Statements(r)[i].account < Statements(r)[j].account
  {
  }

  lemma ExecuteKeepsLocks(init: Table, s: State, t: nat)
    requires Locks(s) && ThreadsOk(init, s) && Enabled(s, t) && s.threads[t].pc.Executing?
    ensures Locks(Execute(s, t))
  {
    hide Owns, RowsHeld, MutexesHeld, Affects, ApplyOp, Statements, LogRows, FromStatement, PcOk;
    var th := s.threads[t];
    var th' := Execute(s, t).threads[t];
    HeldUpdate(s.threads, t, th');
    HeldIs(s.threads, t);
    SameHeld(s.threads, t);
    MutexesHeldAt(th, th');
    var i := th.pc.i;
    if i < |Statements(th.req)| {
      var op := Statements(th.req)[i];
      if Affects(s.rows, op) {
        Acquire(s.rowLock, RowsHeld(s.threads), op.account, t);
        assert th'.work.Keys == th.work.Keys + {op.account};
      }
    } else {
      Release(s.rowLock, RowsHeld(s.threads), t, th.work.Keys);
      assert th.work.Keys - th.work.Keys == th'.work.Keys;
    }
  }

  lemma HeldIs(ths: seq<Thread>, t: nat)
    requires t < |ths|
    ensures |RowsHeld(ths)| == |MutexesHeld(ths)| == |ths|
    ensures RowsHeld(ths)[t] == ths[t].work.Keys && MutexesHeld(ths)[t] == Held(ths[t])
  {
  }

  lemma SameHeld(ths: seq<Thread>, t: nat)
    requires t < |ths|
    ensures RowsHeld(ths)[t := ths[t].work.Keys] == RowsHeld(ths)
    ensures MutexesHeld(ths)[t := Held(ths[t])] == MutexesHeld(ths)
  {
  }

  lemma MutexesHeldAt(th: Thread, th': Thread)
    requires th.pc.Executing? && (th'.pc.Executing? || th'.pc == Locking(0) || th'.pc.Done?)
    ensures Held(th) == Held(th') == {}
  {
  }

  lemma NextKeepsLocks(init: Table, s: State, t: nat)
    requires Locks(s) && ThreadsOk(init, s) && Enabled(s, t)
    ensures Locks(Next(s, t))
  {
    hide Owns, RowsHeld, MutexesHeld, Movements, Mutexes, First, WorkOk, Execute, Unlock;
    var th := s.threads[t];
    if th.pc.Executing? {
      ExecuteKeepsLocks(init, s, t);
    } else {
      var th' := Next(s, t).threads[t];
      HeldUpdate(s.threads, t, th');
      HeldIs(s.threads, t);
      SameHeld(s.threads, t);
      var ms := Mutexes(th.req);
      MutexesDistinct(th.req);
      match th.pc
      case Locking(j) =>
        FirstStep(ms, j);
        Acquire(s.mutex, MutexesHeld(s.threads), ms[j], t);
      case Applying(k) =>
      case Unlocking(left) =>
        FirstStep(ms, left - 1);
        Release(s.mutex, MutexesHeld(s.threads), t, {ms[left - 1]});
        NoneFirst(ms);
    }
  }

  lemma NoneFirst(ms: seq<int>)
    ensures First(ms, 0) == {}
  {
  }
}
