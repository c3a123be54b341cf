/** The accounts in memory and the transaction code that updates the database, then the mirror. */
module BankMemory {
  import opened Bank
  import opened Wrappers

  datatype Error = InvalidArgument

  class Account {
    var actualBalance: int
    var availableBalance: int
    var locked: bool

    constructor (actual: int, available: int)
      ensures actualBalance == actual && availableBalance == available && !locked
    {
      actualBalance, availableBalance, locked := actual, available, false;
    }

    function Value(): Row
      reads this
    {
      Row(actualBalance, availableBalance)
    }

    method DepositUnlocked(amount: int) returns (r: Result<(), Error>)
      modifies this
      ensures r.Err? <==> amount <= 0
      ensures Value() == if amount <= 0 then old(Value()) else Shift(old(Value()), amount)
      ensures locked == old(locked)
    {
      if amount <= 0 {
        return Err(InvalidArgument);
      }
      actualBalance := actualBalance + amount;
      availableBalance := availableBalance + amount;
      return Ok(());
    }

    /** The Boolean is false when the available balance does not cover the amount. */
    method WithdrawUnlocked(amount: int) returns (r: Result<bool, Error>)
      modifies this
      ensures r.Err? <==> amount <= 0
      ensures r.Ok? ==> (r.value <==> amount <= old(availableBalance))
      ensures Value() == if r == Ok(true) then Shift(old(Value()), -amount) else old(Value())
      ensures locked == old(locked)
    {
      if amount <= 0 {
        return Err(InvalidArgument);
      }
      if amount > availableBalance {
        return Ok(false);
      }
      actualBalance := actualBalance - amount;
      availableBalance := availableBalance - amount;
      return Ok(true);
    }
  }

  // ---- The mirror ----

  /** A movement on the mirror: a withdrawal that is not covered is silently dropped. */
  function MirrorOp(mem: Table, op: Op): Table {
    if Affects(mem, op) then mem[op.account := ApplyOp(mem[op.account], op)] else mem
  }

  function MirrorRun(mem: Table, ops: seq<Op>): Table {
    if ops == [] then mem else MirrorRun(MirrorOp(mem, ops[0]), ops[1..])
  }

  /** All accounts of the request are in memory. */
  predicate Loaded(mem: Table, r: Request) {
    Movements(r) != [] && forall i :: 0 <= i < |Movements(r)| ==> Movements(r)[i].account in mem
  }

  /** applyMemoryUpdate: nothing happens unless all accounts are found. */
  function Mirror(mem: Table, r: Request): Table {
    if Loaded(mem, r) then MirrorRun(mem, Movements(r)) else mem
  }

  /** When the mirror equals the database before a granted request, it equals it afterwards: no
      withdrawal is dropped. */
  lemma {:induction false} MirrorRunFollows(mem: Table, ops: seq<Op>)
    requires Run(mem, ops).Some?
    ensures MirrorRun(mem, ops) == Run(mem, ops).value
    decreases |ops|
  {
    if ops != [] {
      MirrorRunFollows(MirrorOp(mem, ops[0]), ops[1..]);
    }
  }

  lemma {:induction false} RunAccounts(rows: Table, ops: seq<Op>, i: nat)
    requires Run(rows, ops).Some? && i < |ops|
    ensures ops[i].account in rows
    decreases |ops|
  {
    if i > 0 {
      RunAccounts(rows[ops[0].account := ApplyOp(rows[ops[0].account], ops[0])], ops[1..], i - 1);
    }
  }

  lemma MirrorFollows(db: Db, r: Request)
    requires Proper(r) && Atomic(db, r).Some?
    ensures Mirror(db.rows, r) == Atomic(db, r).value.rows
  {
    RunMovements(db.rows, r);
    forall i | 0 <= i < |Movements(r)| ensures Movements(r)[i].account in db.rows {
      RunAccounts(db.rows, Movements(r), i);
    }
    MirrorRunFollows(db.rows, Movements(r));
  }

  // ---- applyMemoryUpdate for every request ----

  /** A call returns, throws, or waits for a mutex that nobody will release. */
  datatype Outcome = Returned(ok: bool) | Threw | Blocked

  datatype Updated = Updated(outcome: Outcome, mem: Table, locked: set<int>)

  /** The update of a memory in which some mutexes are held. A transfer with equal endpoints takes one
      mutex twice; one with a non-positive amount throws with both mutexes held. */
  function Update(mem: Table, locked: set<int>, t: Request): Updated {
    var done := Updated(Returned(true), MirrorRun(mem, Movements(t)), locked);
    var refused := Updated(Returned(false), mem, locked);
    if t.account !in mem then refused
    else
      match t.kind
      case Unknown => refused
      case Transfer =>
        if t.to.None? || t.to.value !in mem then refused
        else
          var first := if t.account < t.to.value then t.account else t.to.value;
          var second := if t.account < t.to.value then t.to.value else t.account;
          if first in locked then Updated(Blocked, mem, locked)
          else if second in locked + {first} then Updated(Blocked, mem, locked + {first})
          else if t.amount <= 0 then Updated(Threw, mem, locked + {first, second})
          else done
      case _ =>
        if t.account in locked then Updated(Blocked, mem, locked)
        else if t.amount <= 0 then Updated(Threw, mem, locked)
        else done
  }

  /** With no mutex held, a proper request is mirrored and leaves no mutex held. */
  lemma ProperUpdate(mem: Table, t: Request)
    requires Proper(t)
    ensures Update(mem, {}, t) == Updated(Returned(Loaded(mem, t)), Mirror(mem, t), {})
  {
    LoadedCases(mem, t);
    hide Movements, MirrorRun;
  }

  /** With no mutex held and the accounts loaded, the update goes through exactly for proper requests. */
  lemma UpdateIsProper(mem: Table, t: Request)
    requires Loaded(mem, t)
    ensures Update(mem, {}, t).outcome == Returned(true) <==> Proper(t)
    ensures t.kind.Transfer? && t.to == Some(t.account) ==> Update(mem, {}, t) == Updated(Blocked, mem, {t.account})
  {
    LoadedCases(mem, t);
    hide Movements, MirrorRun, Loaded;
  }

  class MemoryBank {
    var accounts: map<int, Account>

    ghost predicate Valid()
      reads this
    {
      forall a, b :: a in accounts && b in accounts && a != b ==> accounts[a] != accounts[b]
    }

    ghost function Memory(): (m: Table)
      reads this, accounts.Values
      ensures m.Keys == accounts.Keys
    {
      map a | a in accounts :: accounts[a].Value()
    }

    /** The accounts whose mutex is held. */
    ghost function Locked(): set<int>
      reads this, accounts.Values
    {
      set a | a in accounts && accounts[a].locked
    }

    constructor ()
      ensures Valid() && accounts == map[]
    {
      accounts := map[];
    }

    /** pthread_mutex_lock and pthread_mutex_unlock on a found account. */
    method SetLock(a: int, acc: Account, held: bool)
      requires Valid() && a in accounts && accounts[a] == acc
      modifies acc
      ensures Valid() && accounts == old(accounts) && Memory() == old(Memory())
      ensures Locked() == if held then old(Locked()) + {a} else old(Locked()) - {a}
    {
      assert forall b :: b in accounts && b != a ==> accounts[b] != acc;
      acc.locked := held;
    }

    /** depositUnlocked on a found account. */
    method DepositTo(a: int, acc: Account, amount: int) returns (ok: bool)
      requires Valid() && a in accounts && accounts[a] == acc
      modifies acc
      ensures Valid() && accounts == old(accounts) && Locked() == old(Locked())
      ensures ok <==> amount > 0
      ensures Memory() == if ok then MirrorOp(old(Memory()), Credit(a, amount)) else old(Memory())
    {
      assert forall b :: b in accounts && b != a ==> accounts[b] != acc;
      var r := acc.DepositUnlocked(amount);
      return r.Ok?;
    }

    /** withdrawUnlocked on a found account, its result ignored. */
    method WithdrawFrom(a: int, acc: Account, amount: int) returns (ok: bool)
      requires Valid() && a in accounts && accounts[a] == acc
      modifies acc
      ensures Valid() && accounts == old(accounts) && Locked() == old(Locked())
      ensures ok <==> amount > 0
      ensures Memory() == if ok then MirrorOp(old(Memory()), Debit(a, amount)) else old(Memory())
    {
      assert forall b :: b in accounts && b != a ==> accounts[b] != acc;
      var r := acc.WithdrawUnlocked(amount);
      return r.Ok?;
    }

    /** applyMemoryUpdate: the result of a refused withdrawal is ignored. */
    method ApplyMemoryUpdate(t: Request) returns (r: Outcome)
      requires Valid()
      modifies accounts.Values
      ensures Valid() && accounts == old(accounts)
      ensures Updated(r, Memory(), Locked()) == Update(old(Memory()), old(Locked()), t)
    {
      hide Movements, Memory, MirrorOp, MirrorRun;
      ghost var m := Memory();
      LoadedCases(m, t);
      if t.account !in accounts {
        return Returned(false);
      }
      var acc := accounts[t.account];
      if t.kind.Deposit? || t.kind.Withdraw? {
        if acc.locked {
          return Blocked;
        }
        SetLock(t.account, acc, true);
        var ok;
        if t.kind.Deposit? {
          ok := DepositTo(t.account, acc, t.amount);
          MirrorOne(m, Credit(t.account, t.amount));
        } else {
          ok := WithdrawFrom(t.account, acc, t.amount);
          MirrorOne(m, Debit(t.account, t.amount));
        }
        SetLock(t.account, acc, false);
        return if ok then Returned(true) else Threw;
      } else if t.kind.Transfer? {
        if t.to.None? {
          return Returned(false);
        }
        if t.to.value !in accounts {
          return Returned(false);
        }
        var to := accounts[t.to.value];
        r := UpdateTransfer(t, acc, to);
        return;
      }
      return Returned(false);
    }

    /** The transfer branch of applyMemoryUpdate, once both accounts are found. */
    method UpdateTransfer(t: Request, acc: Account, to: Account) returns (r: Outcome)
      requires Valid() && t.kind.Transfer? && t.to.Some?
      requires t.account in accounts && accounts[t.account] == acc && t.to.value in accounts &&
               accounts[t.to.value] == to
      modifies accounts.Values
      ensures Valid() && accounts == old(accounts)
      ensures Updated(r, Memory(), Locked()) == Update(old(Memory()), old(Locked()), t)
    {
      hide Movements, MirrorOp, MirrorRun, Memory;
      ghost var m := Memory();
      LoadedCases(m, t);
      var firstId := if t.account < t.to.value then t.account else t.to.value;
      var secondId := if t.account < t.to.value then t.to.value else t.account;
      var first := if t.account < t.to.value then acc else to;
      var second := if t.account < t.to.value then to else acc;
      if first.locked {
        return Blocked;
      }
      SetLock(firstId, first, true);
      if second.locked {
        return Blocked;
      }
      SetLock(secondId, second, true);
      var ok := WithdrawFrom(t.account, acc, t.amount);
      if !ok {
        return Threw;
      }
      ok := DepositTo(t.to.value, to, t.amount);
      MirrorTwo(m, Debit(t.account, t.amount), Credit(t.to.value, t.amount));
      SetLock(secondId, second, false);
      SetLock(firstId, first, false);
      return Returned(true);
    }
  }

  lemma LoadedCases(m: Table, t: Request)
    ensures t.account !in m ==> !Loaded(m, t)
    ensures t.kind.Unknown? || (t.kind.Transfer? && t.to.None?) ==> !Loaded(m, t)
    ensures t.kind.Transfer? && t.to.Some? ==> (Loaded(m, t) <==> t.account in m && t.to.value in m)
    ensures t.kind.Withdraw? || t.kind.Deposit? ==> (Loaded(m, t) <==> t.account in m)
    ensures t.kind.Withdraw? ==> Movements(t) == [Debit(t.account, t.amount)]
    ensures t.kind.Deposit? ==> Movements(t) == [Credit(t.account, t.amount)]
    ensures t.kind.Transfer? && t.to.Some? ==>
            Movements(t) == [Debit(t.account, t.amount), Credit(t.to.value, t.amount)]
  {
    if Loaded(m, t) {
      assert Movements(t)[0].account in m;
      if |Movements(t)| > 1 {
        assert Movements(t)[1].account in m;
      }
    }
  }

  lemma MirrorOne(m: Table, op: Op)
    ensures MirrorRun(m, [op]) == MirrorOp(m, op)
  {
    assert [op][1..] == [];
  }

  lemma MirrorTwo(m: Table, p: Op, q: Op)
    ensures MirrorRun(m, [p, q]) == MirrorOp(MirrorOp(m, p), q)
  {
    assert [p, q][1..] == [q];
    MirrorOne(MirrorOp(m, p), q);
  }

  // ---- The database side ----

  class LoadDb {
    var rows: Table
    var log: seq<LogRow>

    constructor (rows: Table)
      ensures this.rows == rows && log == []
    {
      this.rows := rows;
      this.log := [];
    }

    /** Load_DB::transaction. The database changes exactly as the atomic bank says; the answer is true
        only if the update of the memory returned, for an exception is answered with false although the
        database has committed. */
    method Transaction(t: Request, bank: MemoryBank) returns (answer: Outcome)
      requires bank.Valid()
      modifies this, bank.accounts.Values
      ensures bank.Valid() && bank.accounts == old(bank.accounts)
      ensures var granted, updated := Atomic(old(Db(rows, log)), t), Update(old(bank.Memory()), old(bank.Locked()), t);
              && Db(rows, log) == (if granted.Some? then granted.value else old(Db(rows, log)))
              && bank.Memory() == (if granted.Some? then updated.mem else old(bank.Memory()))
              && bank.Locked() == (if granted.Some? then updated.locked else old(bank.Locked()))
              && answer == (if granted.None? then Returned(false) else AnswerFor(updated.outcome))
    {
      hide Run, Update, ApplyOp;
      var work, workLog := rows, log;
      if t.kind.Withdraw? {
        var withdraw := Debit(t.account, t.amount);
        RunOne(rows, withdraw);
        if !Affects(work, withdraw) {
          return Returned(false);
        }
        work := work[t.account := ApplyOp(work[t.account], withdraw)];
        workLog := workLog + [LogRow(t.account, t.kind, t.amount, None, None)];
        rows, log := work, workLog;
        var outcome := bank.ApplyMemoryUpdate(t);
        return AnswerFor(outcome);
      } else if t.kind.Deposit? {
        var deposit := Credit(t.account, t.amount);
        RunOne(rows, deposit);
        if !Affects(work, deposit) {
          return Returned(false);
        }
        work := work[t.account := ApplyOp(work[t.account], deposit)];
        workLog := workLog + [LogRow(t.account, t.kind, t.amount, None, None)];
        rows, log := work, workLog;
        var outcome := bank.ApplyMemoryUpdate(t);
        return AnswerFor(outcome);
      } else if t.kind.Transfer? {
        if t.to.None? {
          return Returned(false);
        }
        var fromId, toId := t.account, t.to.value;
        var withdraw, deposit := Debit(fromId, t.amount), Credit(toId, t.amount);
        var withdrawAffected, depositAffected;
        RunTwo(rows, withdraw, deposit);
        RunTwo(rows, deposit, withdraw);
        if fromId < toId {
          withdrawAffected := Affects(work, withdraw);
          work := if withdrawAffected then work[fromId := ApplyOp(work[fromId], withdraw)] else work;
          depositAffected := Affects(work, deposit);
          work := if depositAffected then work[toId := ApplyOp(work[toId], deposit)] else work;
        } else {
          depositAffected := Affects(work, deposit);
          work := if depositAffected then work[toId := ApplyOp(work[toId], deposit)] else work;
          withdrawAffected := Affects(work, withdraw);
          work := if withdrawAffected then work[fromId := ApplyOp(work[fromId], withdraw)] else work;
        }
        if !withdrawAffected {
          return Returned(false);
        }
        if !depositAffected {
          return Returned(false);
        }
        workLog := workLog + [LogRow(t.account, t.kind, t.amount, t.to, None)];
        workLog := workLog + [LogRow(t.to.value, t.kind, t.amount, None, Some(t.account))];
        rows, log := work, workLog;
        var outcome := bank.ApplyMemoryUpdate(t);
        return AnswerFor(outcome);
      }
      return Returned(false);
    }
  }

  /** What transaction makes of the outcome of applyMemoryUpdate: its Boolean is ignored, an exception is
      caught and answered with false. */
  function AnswerFor(outcome: Outcome): Outcome {
    match outcome
    case Returned(_) => Returned(true)
    case Threw => Returned(false)
    case Blocked => Blocked
  }

  /** The answer to a request on loaded accounts, no mutex being held, is whether it was granted, except
      for granted requests that are not proper: those change the database and are answered with false, or
      never. */
  lemma AnswerIsGrant(db: Db, t: Request)
    requires Loaded(db.rows, t)
    ensures var granted := Atomic(db, t).Some?;
            var answer := if granted then AnswerFor(Update(db.rows, {}, t).outcome) else Returned(false);
            answer == Returned(granted) <==> !granted || Proper(t)
  {
    UpdateIsProper(db.rows, t);
    hide Update, Proper;
    ReturnsTrue(db.rows, t);
  }

  lemma ReturnsTrue(mem: Table, t: Request)
    requires Loaded(mem, t)
    ensures Update(mem, {}, t).outcome != Returned(false)
  {
    LoadedCases(mem, t);
    hide Movements, Loaded, MirrorRun;
  }

  lemma RunOne(rows: Table, op: Op)
    ensures Run(rows, [op]) == if Affects(rows, op) then Some(rows[op.account := ApplyOp(rows[op.account], op)])
            else None
  {
    assert [op][1..] == [];
  }

  lemma RunTwo(rows: Table, p: Op, q: Op)
    ensures Run(rows, [p, q]) ==
            if Affects(rows, p) then Run(rows[p.account := ApplyOp(rows[p.account], p)], [q]) else None
    ensures Affects(rows, p) ==>
              var next := rows[p.account := ApplyOp(rows[p.account], p)];
              Run(rows, [p, q]) == if Affects(next, q) then Some(next[q.account := ApplyOp(next[q.account], q)])
                  else None
  {
    assert [p, q][1..] == [q];
    if Affects(rows, p) {
      RunOne(rows[p.account := ApplyOp(rows[p.account], p)], q);
    }
  }
}
