/** Every run has a sequential order of all answered requests, refused ones included, in which the
    atomic bank gives each of them the answer it got. */
module BankSerial {
  import opened Bank
  import opened BankProtocol
  import opened BankRuns
  import opened Wrappers

  datatype Answer = Answer(thread: nat, granted: bool)

  function RequestsOf(s: State): (rs: seq<Request>)
    ensures |rs| == |s.threads|
  {
    seq(|s.threads|, t requires 0 <= t < |s.threads| => s.threads[t].req)
  }

  /** The bank after answering requests one after the other; None if the atomic bank would give one of
      them the other answer. */
  function Serial(db: Db, rs: seq<Request>, order: seq<Answer>): Option<Db>
    decreases |order|
  {
    if order == [] then Some(db)
    else
      var n := |order| - 1;
      var before := Serial(db, rs, order[..n]);
      if before.None? || order[n].thread >= |rs| then None
      else
        var after := Atomic(before.value, rs[order[n].thread]);
        if after.Some? != order[n].granted then None else if after.Some? then after else before
  }

  /** The answer that is certain once a thread has committed or failed a statement. */
  function Decided(th: Thread): Option<bool> {
    match th.pc
    case Executing(_, ok) => if ok then None else Some(false)
    case Done(success) => Some(success)
    case _ => Some(true)
  }

  predicate Refuses(s: State, t: nat)
    requires Enabled(s, t)
  {
    var th, th' := s.threads[t], Next(s, t).threads[t];
    th.pc.Executing? && th.pc.ok && ((th'.pc.Executing? && !th'.pc.ok) || th'.pc.Done?)
  }

  /** What a step adds to the order. */
  function Decision(s: State, t: nat): seq<Answer>
    requires Enabled(s, t)
  {
    if Commits(s, t) then [Answer(t, true)] else if Refuses(s, t) then [Answer(t, false)] else []
  }

  lemma DecidedStep(s: State, t: nat)
    requires Enabled(s, t)
    ensures Decision(s, t) == [] ==> Decided(Next(s, t).threads[t]) == Decided(s.threads[t])
    ensures Decision(s, t) != [] ==>
              Decided(s.threads[t]) == None && Decision(s, t)[0].thread == t &&
              Decided(Next(s, t).threads[t]) == Some(Decision(s, t)[0].granted)
  {
    hide Affects, ApplyOp, Statements, Movements, Mutexes, LogRows, Unlock;
  }

  // ---- The order of a run ----

  /** The order lists each decided thread once, with its answer. */
  ghost predicate Lists(ths: seq<Thread>, order: seq<Answer>) {
    && (forall k :: 0 <= k < |order| ==>
        order[k].thread < |ths| && Decided(ths[order[k].thread]) == Some(order[k].granted))
    && (forall j, k :: 0 <= j < k < |order| ==> order[j].thread != order[k].thread)
    && (forall t :: 0 <= t < |ths| && Decided(ths[t]).Some? ==> Answer(t, Decided(ths[t]).value) in order)
  }

  ghost predicate Explained(init: Table, s: State, order: seq<Answer>) {
    Lists(s.threads, order) && Serial(Db(init, []), RequestsOf(s), order) == Some(Db(s.rows, s.log))
  }

  lemma ListsStep(ths: seq<Thread>, order: seq<Answer>, t: nat, th: Thread, more: seq<Answer>)
    requires Lists(ths, order) && t < |ths|
    requires more == [] ==> Decided(th) == Decided(ths[t])
    requires more != [] ==>
               |more| == 1 && more[0].thread == t && Decided(ths[t]) == None && Decided(th) == Some(more[0].granted)
    ensures Lists(ths[t := th], order + more)
  {
    hide Decided;
    var after, all := ths[t := th], order + more;
    forall k | 0 <= k < |all|
      ensures all[k].thread < |after| && Decided(after[all[k].thread]) == Some(all[k].granted)
    {
      if k < |order| {
        assert all[k] == order[k];
      }
    }
    forall u | 0 <= u < |after| && Decided(after[u]).Some? ensures Answer(u, Decided(after[u]).value) in all {
      if u != t || more == [] {
        assert Answer(u, Decided(ths[u]).value) in order;
      } else {
        assert all[|order|] == Answer(u, Decided(after[u]).value);
      }
    }
  }

  lemma SameRequests(s: State, t: nat)
    requires Enabled(s, t)
    ensures RequestsOf(Next(s, t)) == RequestsOf(s)
  {
    StepShape(s, t);
    hide Next, Enabled;
  }

  lemma SerialStep(init: Table, s: State, t: nat, order: seq<Answer>)
    requires Inv(init, s) && Enabled(s, t) && Explained(init, s, order)
    ensures Explained(init, Next(s, t), order + Decision(s, t))
  {
    hide Replay, Locks, Net, OpsOf, PendingNet, Granted, MirrorData, Next, Enabled, Commits, Atomic, Decided, Lists;
    StepShape(s, t);
    DecidedStep(s, t);
    ListsStep(s.threads, order, t, Next(s, t).threads[t], Decision(s, t));
    SameRequests(s, t);
    StepRefines(init, s, t);
    var all := order + Decision(s, t);
    if Decision(s, t) == [] {
      assert all == order;
    } else {
      assert all[..|order|] == order;
      if Refuses(s, t) {
        RefusalJustified(init, s, t);
      }
    }
  }

  lemma {:induction false} RunExplained(init: Table, s: State, schedule: seq<nat>, order: seq<Answer>)
    requires Inv(init, s) && Explained(init, s, order) && After(s, schedule).Some?
    ensures exists o :: Explained(init, After(s, schedule).value, o)
    decreases |schedule|
  {
    hide Inv, Enabled, Next, Explained;
    if schedule != [] {
      var t := schedule[0];
      SerialStep(init, s, t, order);
      StepKeepsInv(init, s, t);
      RunExplained(init, Next(s, t), schedule[1..], order + Decision(s, t));
    }
  }

  /** Every run, with all its refusals, is explained by a sequential order. */
  lemma Serializable(init: Table, s: State, schedule: seq<nat>)
    requires Start(init, s) && After(s, schedule).Some?
    ensures exists order :: Explained(init, After(s, schedule).value, order)
  {
    StartHolds(init, s);
    assert Explained(init, s, []);
    hide Start, Inv, Explained, Next, Enabled;
    RunExplained(init, s, schedule, []);
  }

  /** When all requests are answered, the order lists them all, each once, with the answers given. */
  lemma FinishedOrder(init: Table, s: State, order: seq<Answer>)
    requires Explained(init, s, order) && forall t :: 0 <= t < |s.threads| ==> s.threads[t].pc.Done?
    ensures forall t :: 0 <= t < |s.threads| ==> Answer(t, s.threads[t].pc.success) in order
    ensures |order| == |s.threads|
  {
    hide Serial;
    forall t | 0 <= t < |s.threads| ensures Answer(t, s.threads[t].pc.success) in order {
      assert Decided(s.threads[t]) == Some(s.threads[t].pc.success);
    }
    forall t | 0 <= t < |s.threads| ensures Names(order, t) {
      assert Answer(t, s.threads[t].pc.success) in order;
    }
    assert order != [] ==> order[0].thread < |s.threads|;
    EachOnce(|s.threads|, order);
  }

  predicate Names(order: seq<Answer>, t: nat) {
    exists k :: 0 <= k < |order| && order[k].thread == t
  }

  /** A list of distinct threads that holds all of the first n, and no others, has n entries. */
  lemma {:induction false} EachOnce(n: nat, order: seq<Answer>)
    requires order != [] ==> n > 0
    requires forall k :: 0 <= k < |order| ==> order[k].thread < n
    requires forall j, k :: 0 <= j < k < |order| ==> order[j].thread != order[k].thread
    requires forall t :: 0 <= t < n ==> Names(order, t)
    ensures |order| == n
  {
    if n > 0 {
      assert Names(order, n - 1);
      var k :| 0 <= k < |order| && order[k].thread == n - 1;
      var rest := order[..k] + order[k + 1..];
      forall t | 0 <= t < n - 1 ensures Names(rest, t) {
        assert Names(order, t);
        var i :| 0 <= i < |order| && order[i].thread == t;
        assert rest[if i < k then i else i - 1] == order[i];
      }
      assert rest != [] ==> rest[0].thread < n - 1;
      EachOnce(n - 1, rest);
    }
  }
}
