/** Requests, account rows, and what a request means as one indivisible step.

    A database transaction is a list of row updates that must all affect a row. The log of the
    granted requests explains the balances. */
module Bank {
  import opened Wrappers

  datatype Kind = Withdraw | Deposit | Transfer | Unknown

  datatype Request = Request(kind: Kind, account: int, to: Option<int>, amount: int)

  datatype Row = Row(actual: int, available: int)

  type Table = map<int, Row>

  datatype LogRow = LogRow(account: int, kind: Kind, amount: int, toAccount: Option<int>, fromAccount: Option<int>)

  datatype Db = Db(rows: Table, log: seq<LogRow>)

  /** A movement on one account. */
  datatype Op = Debit(account: int, amount: int) | Credit(account: int, amount: int)

  /** What the callers guarantee: positive amounts and transfers between different accounts. */
  predicate Proper(r: Request) {
    r.amount > 0 && (r.kind.Transfer? && r.to.Some? ==> r.to.value != r.account)
  }

  // ---- The statements of a request ----

  /** The row updates of a request in the order the code issues them: the lower account first. */
  function Statements(r: Request): seq<Op> {
    match r.kind
    case Withdraw => [Debit(r.account, r.amount)]
    case Deposit => [Credit(r.account, r.amount)]
    case Transfer =>
      if r.to.None? then []
      else if r.account < r.to.value then [Debit(r.account, r.amount), Credit(r.to.value, r.amount)]
      else [Credit(r.to.value, r.amount), Debit(r.account, r.amount)]
    case Unknown => []
  }

  /** The movements of a request, the withdrawal first: the order of the log rows and of the mirror. */
  function Movements(r: Request): seq<Op> {
    match r.kind
    case Withdraw => [Debit(r.account, r.amount)]
    case Deposit => [Credit(r.account, r.amount)]
    case Transfer => if r.to.None? then [] else [Debit(r.account, r.amount), Credit(r.to.value, r.amount)]
    case Unknown => []
  }

  function LogRows(r: Request): seq<LogRow> {
    match r.kind
    case Withdraw => [LogRow(r.account, Withdraw, r.amount, None, None)]
    case Deposit => [LogRow(r.account, Deposit, r.amount, None, None)]
    case Transfer =>
      if r.to.None? then []
      else [LogRow(r.account, Transfer, r.amount, r.to, None),
          LogRow(r.to.value, Transfer, r.amount, None, Some(r.account))]
    case Unknown => []
  }

  /** The movement that a log row records. */
  function OpOf(l: LogRow): Op {
    if l.kind.Deposit? || (l.kind.Transfer? && l.fromAccount.Some?) then Credit(l.account, l.amount)
    else Debit(l.account, l.amount)
  }

  function OpsOf(log: seq<LogRow>): (ops: seq<Op>)
    ensures |ops| == |log|
  {
    seq(|log|, i requires 0 <= i < |log| => OpOf(log[i]))
  }

  /** The log of a request records its movements. */
  lemma LogRecordsMovements(r: Request)
    ensures OpsOf(LogRows(r)) == Movements(r)
  {
  }

  // ---- Effects ----

  function ApplyOp(row: Row, op: Op): Row {
    match op
    case Debit(_, x) => Row(row.actual - x, row.available - x)
    case Credit(_, x) => Row(row.actual + x, row.available + x)
  }

  /** The WHERE clause of the update: the row exists and a withdrawal is covered. */
  predicate Affects(rows: Table, op: Op) {
    op.account in rows && (op.Debit? ==> rows[op.account].available >= op.amount)
  }

  /** Runs the updates in order; None if some update affects no row. */
  function Run(rows: Table, ops: seq<Op>): Option<Table>
    decreases |ops|
  {
    if ops == [] then Some(rows)
    else if Affects(rows, ops[0]) then Run(rows[ops[0].account := ApplyOp(rows[ops[0].account], ops[0])], ops[1..])
    else None
  }

  /** The request as one indivisible step; None when it is refused. */
  function Atomic(db: Db, r: Request): Option<Db> {
    if Statements(r) == [] then None
    else
      var rows := Run(db.rows, Statements(r));
      if rows.None? then None else Some(Db(rows.value, db.log + LogRows(r)))
  }

  /** For distinct endpoints the order of the two updates does not matter: neither for success nor
      for the outcome. */
  lemma OrderAgrees(rows: Table, f: int, t: int, x: int)
    requires f != t
    ensures Run(rows, [Debit(f, x), Credit(t, x)]) == Run(rows, [Credit(t, x), Debit(f, x)])
  {
    var df, ct := Debit(f, x), Credit(t, x);
    assert [df, ct][1..] == [ct] && [ct, df][1..] == [df] && [ct][1..] == [] && [df][1..] == [];
    if Affects(rows, df) && Affects(rows, ct) {
      var a := rows[f := ApplyOp(rows[f], df)];
      var b := rows[t := ApplyOp(rows[t], ct)];
      assert Run(rows, [df, ct]) == Run(a, [ct]) == Some(a[t := ApplyOp(a[t], ct)]);
      assert Run(rows, [ct, df]) == Run(b, [df]) == Some(b[f := ApplyOp(b[f], df)]);
      assert a[t := ApplyOp(a[t], ct)] == b[f := ApplyOp(b[f], df)];
    } else {
      if Affects(rows, df) {
        assert Run(rows, [df, ct]) == Run(rows[f := ApplyOp(rows[f], df)], [ct]) == None;
      }
      if Affects(rows, ct) {
        assert Run(rows, [ct, df]) == Run(rows[t := ApplyOp(rows[t], ct)], [df]) == None;
      }
    }
  }

  // ---- Net effect of movements ----

  function Signed(op: Op): int {
    if op.Debit? then -op.amount else op.amount
  }

  /** The signed sum of the movements on one account. */
  function Net(ops: seq<Op>, a: int): int {
    if ops == [] then 0
    else Net(ops[..|ops| - 1], a) + if ops[|ops| - 1].account == a then Signed(ops[|ops| - 1]) else 0
  }

  function Shift(row: Row, d: int): Row {
    Row(row.actual + d, row.available + d)
  }

  lemma {:induction false} NetAppend(p: seq<Op>, q: seq<Op>, a: int)
    ensures Net(p + q, a) == Net(p, a) + Net(q, a)
    decreases |q|
  {
    if q == [] {
      assert p + q == p;
    } else {
      NetAppend(p, q[..|q| - 1], a);
      assert (p + q)[..|p| + |q| - 1] == p + q[..|q| - 1];
    }
  }

  lemma NetOne(op: Op, a: int)
    ensures Net([op], a) == if op.account == a then Signed(op) else 0
  {
    assert [op][..0] == [];
  }

  lemma NetTwo(p: Op, q: Op, a: int)
    ensures Net([p, q], a) == Net([p], a) + Net([q], a)
  {
    NetAppend([p], [q], a);
    assert [p] + [q] == [p, q];
  }

  /** Running updates moves every balance by the net of the updates. */
  lemma {:induction false} RunShifts(rows: Table, ops: seq<Op>, a: int)
    requires Run(rows, ops).Some? && a in rows
    ensures Run(rows, ops).value.Keys == rows.Keys
    ensures Run(rows, ops).value[a] == Shift(rows[a], Net(ops, a))
    decreases |ops|
  {
    if ops != [] {
      var op := ops[0];
      var next := rows[op.account := ApplyOp(rows[op.account], op)];
      RunShifts(next, ops[1..], a);
      NetAppend([op], ops[1..], a);
      NetOne(op, a);
      assert [op] + ops[1..] == ops;
    }
  }

  /** Statements and movements are the same up to order. */
  lemma StatementsNet(r: Request, a: int)
    ensures Net(Statements(r), a) == Net(Movements(r), a)
  {
    if r.kind.Transfer? && r.to.Some? {
      var d, c := Debit(r.account, r.amount), Credit(r.to.value, r.amount);
      NetTwo(d, c, a);
      NetTwo(c, d, a);
    }
  }

  // ---- Sequences of requests ----

  /** Requests that were granted one after the other. */
  function Replay(db: Db, history: seq<Request>): Option<Db> {
    if history == [] then Some(db)
    else
      var before := Replay(db, history[..|history| - 1]);
      if before.None? then None else Atomic(before.value, history[|history| - 1])
  }

  /** Every withdrawal of a list of movements is covered by what came before it on its account. */
  predicate Covered(init: Table, ops: seq<Op>) {
    forall k :: 0 <= k < |ops| && ops[k].Debit? ==>
      ops[k].account in init && ops[k].amount <= init[ops[k].account].available + Net(ops[..k], ops[k].account)
  }

  lemma CoveredMore(init: Table, ops: seq<Op>, op: Op)
    ensures Covered(init, ops + [op]) <==>
            Covered(init, ops) && (op.Debit? ==>
                op.account in init && op.amount <= init[op.account].available + Net(ops, op.account))
  {
    var all := ops + [op];
    assert all[..|ops|] == ops;
    forall k | 0 <= k < |ops| ensures all[..k] == ops[..k] {
    }
    if Covered(init, all) {
      forall k | 0 <= k < |ops| && ops[k].Debit?
        ensures ops[k].account in init &&
                ops[k].amount <= init[ops[k].account].available + Net(ops[..k], ops[k].account)
      {
        assert all[k] == ops[k];
      }
      assert all[|ops|] == op;
    }
  }

  /** What a log means for the balances it led to. */
  predicate Explains(init: Table, db: Db) {
    Moved(init, db.rows, OpsOf(db.log)) && Covered(init, OpsOf(db.log))
  }

  lemma OpsOfAppend(p: seq<LogRow>, q: seq<LogRow>)
    ensures OpsOf(p + q) == OpsOf(p) + OpsOf(q)
  {
  }

  /** Running a request's statements and its movements comes to the same, for distinct endpoints. */
  lemma RunMovements(rows: Table, r: Request)
    requires Proper(r)
    ensures Run(rows, Statements(r)) == Run(rows, Movements(r))
  {
    if r.kind.Transfer? && r.to.Some? {
      OrderAgrees(rows, r.account, r.to.value, r.amount);
    }
  }

  /** The rows are the initial balances moved by the net of `done`. */
  predicate Moved(init: Table, rows: Table, done: seq<Op>) {
    rows.Keys == init.Keys && forall a :: a in init ==> rows[a] == Shift(init[a], Net(done, a))
  }

  lemma MovedMore(init: Table, rows: Table, done: seq<Op>, op: Op)
    requires Moved(init, rows, done) && op.account in rows
    ensures Moved(init, rows[op.account := ApplyOp(rows[op.account], op)], done + [op])
  {
    forall a ensures Net(done + [op], a) == Net(done, a) + if op.account == a then Signed(op) else 0 {
      NetAppend(done, [op], a);
      NetOne(op, a);
    }
  }

  /** Movements that all take effect are covered. */
  lemma {:induction false} RunCovered(init: Table, rows: Table, done: seq<Op>, ops: seq<Op>)
    requires Run(rows, ops).Some? && Covered(init, done) && Moved(init, rows, done)
    ensures Covered(init, done + ops)
    decreases |ops|
  {
    hide Covered, Net, ApplyOp;
    if ops == [] {
      assert done + ops == done;
    } else {
      var op := ops[0];
      CoveredMore(init, done, op);
      MovedMore(init, rows, done, op);
      RunCovered(init, rows[op.account := ApplyOp(rows[op.account], op)], done + [op], ops[1..]);
      assert done + [op] + ops[1..] == done + ops;
    }
  }

  /** A granted request keeps the log an explanation of the balances. */
  lemma AtomicExplains(init: Table, db: Db, r: Request)
    requires Explains(init, db) && Proper(r) && Atomic(db, r).Some?
    ensures Explains(init, Atomic(db, r).value)
  {
    var after := Atomic(db, r).value;
    LogRecordsMovements(r);
    OpsOfAppend(db.log, LogRows(r));
    RunMovements(db.rows, r);
    RunCovered(init, db.rows, OpsOf(db.log), Movements(r));
    hide Run, Covered, OpsOf, Statements, Movements, LogRows;
    forall a | a in init
      ensures after.rows.Keys == init.Keys && after.rows[a] == Shift(init[a], Net(OpsOf(after.log), a))
    {
      RunShifts(db.rows, Statements(r), a);
      StatementsNet(r, a);
      NetAppend(OpsOf(db.log), Movements(r), a);
    }
    if init.Keys == {} {
      assert after.rows.Keys == init.Keys by { RunKeys(db.rows, Statements(r)); }
    }
  }

  lemma {:induction false} RunKeys(rows: Table, ops: seq<Op>)
    requires Run(rows, ops).Some?
    ensures Run(rows, ops).value.Keys == rows.Keys
    decreases |ops|
  {
    if ops != [] {
      RunKeys(rows[ops[0].account := ApplyOp(rows[ops[0].account], ops[0])], ops[1..]);
    }
  }

  /** After any sequence of granted requests every balance is its initial value plus the signed sum
      of its log rows, and every logged withdrawal was covered when it was made. */
  lemma {:induction false} ReplayExplains(init: Table, history: seq<Request>)
    requires forall i :: 0 <= i < |history| ==> Proper(history[i])
    requires Replay(Db(init, []), history).Some?
    ensures Explains(init, Replay(Db(init, []), history).value)
  {
    if history == [] {
      assert OpsOf([]) == [];
    } else {
      var n := |history| - 1;
      ReplayExplains(init, history[..n]);
      AtomicExplains(init, Replay(Db(init, []), history[..n]).value, history[n]);
    }
  }

  /** Covered withdrawals never overdraw an account that started with funds. */
  lemma {:induction false} CoveredNonnegative(init: Table, ops: seq<Op>, a: int)
    requires a in init && init[a].available >= 0 && Covered(init, ops)
    requires forall i :: 0 <= i < |ops| ==> ops[i].amount > 0
    ensures init[a].available + Net(ops, a) >= 0
    decreases |ops|
  {
    if ops != [] {
      var n := |ops| - 1;
      assert ops == ops[..n] + [ops[n]];
      CoveredMore(init, ops[..n], ops[n]);
      CoveredNonnegative(init, ops[..n], a);
    }
  }

  /** actual minus available never changes, and nothing is overdrawn. */
  lemma BalanceLaws(init: Table, db: Db, a: int)
    requires Explains(init, db) && a in init
    ensures db.rows[a].actual - db.rows[a].available == init[a].actual - init[a].available
    ensures init[a].available >= 0 && (forall i :: 0 <= i < |db.log| ==> db.log[i].amount > 0) ==>
            db.rows[a].available >= 0
  {
    if init[a].available >= 0 && forall i :: 0 <= i < |db.log| ==> db.log[i].amount > 0 {
      CoveredNonnegative(init, OpsOf(db.log), a);
    }
  }
}
