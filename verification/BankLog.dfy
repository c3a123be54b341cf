/** The log tells the history: a reader of the log rows alone recovers every granted request, with both
    endpoints of every transfer. */
module BankLog {
  import opened Bank
  import opened BankProtocol
  import opened BankRuns
  import opened Wrappers

  /** A request without the field that only transfers use. */
  function Plain(r: Request): Request {
    if r.kind.Transfer? then r else r.(to := None)
  }

  function PlainAll(rs: seq<Request>): (ps: seq<Request>)
    ensures |ps| == |rs|
  {
    seq(|rs|, i requires 0 <= i < |rs| => Plain(rs[i]))
  }

  /** Reads the rows from the front: one row for a withdrawal or a deposit, two rows that name each other for
      a transfer. */
  function ReadLog(log: seq<LogRow>): Option<seq<Request>>
    decreases |log|
  {
    if log == [] then Some([])
    else
      var first := log[0];
      match first.kind
      case Unknown => None
      case Transfer =>
        if |log| < 2 || !Partners(first, log[1]) then None
        else Put(Request(Transfer, first.account, first.toAccount, first.amount), ReadLog(log[2..]))
      case kind =>
        if first.toAccount.Some? || first.fromAccount.Some? then None
        else Put(Request(kind, first.account, None, first.amount), ReadLog(log[1..]))
  }

  /** The sender's row names the receiver, the receiver's row names the sender, and the amounts agree. */
  predicate Partners(sent: LogRow, received: LogRow) {
    && sent.kind == received.kind == Transfer && sent.amount == received.amount
    && sent.toAccount == Some(received.account) && sent.fromAccount == None
    && received.fromAccount == Some(sent.account) && received.toAccount == None
  }

  function Put(r: Request, rest: Option<seq<Request>>): Option<seq<Request>> {
    if rest.None? then None else Some([r] + rest.value)
  }

  lemma {:induction false} ReadAppend(p: seq<LogRow>, q: seq<LogRow>)
    requires ReadLog(p).Some?
    ensures ReadLog(p + q) == if ReadLog(q).None? then None else Some(ReadLog(p).value + ReadLog(q).value)
    decreases |p|
  {
    if p == [] {
      assert p + q == q;
      assert ReadLog(q).Some? ==> [] + ReadLog(q).value == ReadLog(q).value;
    } else if p[0].kind.Transfer? {
      assert (p + q)[2..] == p[2..] + q && (p + q)[1] == p[1] && (p + q)[0] == p[0];
      ReadAppend(p[2..], q);
      PutAppend(Request(Transfer, p[0].account, p[0].toAccount, p[0].amount), ReadLog(p[2..]).value, ReadLog(q));
    } else {
      assert (p + q)[1..] == p[1..] + q;
      ReadAppend(p[1..], q);
      PutAppend(Request(p[0].kind, p[0].account, None, p[0].amount), ReadLog(p[1..]).value, ReadLog(q));
    }
  }

  lemma PutAppend(r: Request, a: seq<Request>, b: Option<seq<Request>>)
    ensures b.Some? ==> [r] + (a + b.value) == [r] + a + b.value
  {
  }

  lemma ReadOne(r: Request)
    requires Statements(r) != []
    ensures ReadLog(LogRows(r)) == Some([Plain(r)])
  {
    var log := LogRows(r);
    NothingLogged();
    assert [Plain(r)] + [] == [Plain(r)];
    if r.kind.Transfer? {
      assert log[2..] == [];
      assert ReadLog(log) == Put(Plain(r), ReadLog(log[2..]));
    } else {
      assert log[1..] == [];
      assert ReadLog(log) == Put(Plain(r), ReadLog(log[1..]));
    }
  }

  /** The log of any sequence of granted requests is that sequence. */
  lemma {:induction false} LogTellsHistory(init: Table, history: seq<Request>)
    requires Replay(Db(init, []), history).Some?
    ensures ReadLog(Replay(Db(init, []), history).value.log) == Some(PlainAll(history))
    decreases |history|
  {
    hide Run, LogRows, ReadLog;
    if history == [] {
      NothingLogged();
    } else {
      var front, r := history[..|history| - 1], history[|history| - 1];
      LogTellsHistory(init, front);
      ReadOne(r);
      ReadAppend(Replay(Db(init, []), front).value.log, LogRows(r));
      assert PlainAll(history) == PlainAll(front) + [Plain(r)];
    }
  }

  lemma NothingLogged()
    ensures ReadLog([]) == Some([])
  {
  }

  /** In every reachable state, whatever the interleaving, the log reads as the committed requests in the
      order of their commits. */
  lemma LogIsHistory(init: Table, s: State)
    requires Inv(init, s)
    ensures ReadLog(s.log) == Some(PlainAll(s.history))
    ensures Granted(s.threads) == multiset(s.history)
  {
    hide Locks, ThreadsOk, MirrorData, Granted, PendingNet, ReadLog, Replay;
    LogTellsHistory(init, s.history);
  }

  /** The log of every run from a start state reads as its history. */
  lemma RunLogIsHistory(init: Table, s: State, schedule: seq<nat>)
    requires Start(init, s) && After(s, schedule).Some?
    ensures var end := After(s, schedule).value; ReadLog(end.log) == Some(PlainAll(end.history))
  {
    hide Inv, Start, After;
    StartHolds(init, s);
    RunKeepsInv(init, s, schedule);
    LogIsHistory(init, After(s, schedule).value);
  }
}
