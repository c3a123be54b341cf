/** The request queue's monitor and the pool of workers that drain it.

    `RequestQueue` is the object under its mutex. The state machine adds the threads: producers
    that push, workers that pop, process and respond, waits on the condition variable with signals,
    broadcasts and spurious wake-ups, and shutdown. */
module RequestQueue {
  import opened CircularQueue
  import opened Wrappers

  // ---- The monitor's operations ----

  /** What one pass of pop's loop does under the mutex. */
  datatype Attempt<T> = Wait | Closed | Taken(item: T)

  class RequestQueue<T(0)> {
    const queue: CircularQueue<T>
    var shuttingDown: bool

    ghost predicate Valid()
      reads this, queue, queue.arr
    {
      queue.Valid()
    }

    ghost function Contents(): seq<T>
      requires Valid()
      reads this, queue, queue.arr
    {
      queue.Contents()
    }

    constructor (capacity: int)
      requires capacity > 0
      ensures Valid() && Contents() == [] && !shuttingDown && queue.max == capacity
    {
      queue := new CircularQueue<T>(capacity);
      shuttingDown := false;
    }

    /** push: true unless shutting down, even when the full ring refuses the item. */
    method Push(req: T) returns (ok: bool)
      requires Valid()
      modifies queue, queue.arr
      ensures Valid() && ok == !shuttingDown
      ensures Contents() == PushRing(old(Contents()), queue.max, shuttingDown, req)
    {
      if shuttingDown {
        return false;
      }
      var _ := queue.Push(req);
      return true;
    }

    method Shutdown()
      requires Valid()
      modifies this
      ensures Valid() && shuttingDown && Contents() == old(Contents())
    {
      shuttingDown := true;
    }

    /** One evaluation of pop's loop condition and, if it falls through, the rest of pop. */
    method TryPop() returns (r: Attempt<T>)
      requires Valid()
      modifies queue
      ensures Valid() && r == AttemptOf(old(Contents()), shuttingDown)
      ensures Contents() == if r.Taken? then old(Contents())[1..] else old(Contents())
    {
      var empty := queue.IsEmpty();
      if empty && !shuttingDown {
        return Wait;
      }
      if empty {
        return Closed;
      }
      var front := queue.Front();
      var _ := queue.Pop();
      return Taken(front.value);
    }
  }

  function PushRing<T>(ring: seq<T>, capacity: int, closed: bool, item: T): seq<T> {
    if closed || |ring| >= capacity then ring else ring + [item]
  }

  function AttemptOf<T>(ring: seq<T>, closed: bool): Attempt<T> {
    if ring != [] then Taken(ring[0]) else if closed then Closed else Wait
  }

  // ---- The workers ----

  /** A worker about to evaluate pop's condition for the first time, asleep on the condition
      variable, woken but not yet back in the mutex, processing an item, or gone. */
  datatype Worker<T> = Ready | Sleeping | Woken | Busy(item: T) | Gone

  datatype State<T> = State(
    ring: seq<T>, capacity: int, closed: bool, workers: seq<Worker<T>>,
    accepted: seq<T>, popped: seq<T>, responses: seq<T>)

  predicate Start<T(==)>(s: State<T>) {
    && s.ring == s.accepted == s.popped == s.responses == [] && !s.closed && s.capacity > 0
    && forall i :: 0 <= i < |s.workers| ==> s.workers[i] == Ready
  }

  /** pthread_cond_broadcast. */
  function WakeAll<T>(ws: seq<Worker<T>>): (r: seq<Worker<T>>)
    ensures |r| == |ws|
  {
    seq(|ws|, i requires 0 <= i < |ws| => if ws[i].Sleeping? then Woken else ws[i])
  }

  datatype Step<T> =
    | Push(item: T, signalled: nat)
    | Shutdown
    | Broadcast
    | Spurious(worker: nat)
    | Check(worker: nat)
    | Respond(worker: nat)

  predicate NoneSleeps<T>(ws: seq<Worker<T>>) {
    forall i :: 0 <= i < |ws| ==> !ws[i].Sleeping?
  }

  predicate Enabled<T>(s: State<T>, step: Step<T>) {
    match step
    case Push(_, w) =>
      // the signal reaches some sleeper if there is one
      s.closed || NoneSleeps(s.workers) || (w < |s.workers| && s.workers[w].Sleeping?)
    case Shutdown => true
    case Broadcast => true
    case Spurious(w) => w < |s.workers| && s.workers[w].Sleeping?
    case Check(w) => w < |s.workers| && (s.workers[w].Ready? || s.workers[w].Woken?)
    case Respond(w) => w < |s.workers| && s.workers[w].Busy?
  }

  function Next<T>(s: State<T>, step: Step<T>): State<T>
    requires Enabled(s, step)
  {
    match step
    case Push(item, w) =>
      if s.closed then s
      else
        var ring := PushRing(s.ring, s.capacity, false, item);
        s.(ring := ring,
           accepted := if |ring| > |s.ring| then s.accepted + [item] else s.accepted,
           workers := if NoneSleeps(s.workers) then s.workers else s.workers[w := Woken])
    case Shutdown => s.(closed := true, workers := WakeAll(s.workers))
    case Broadcast => s.(workers := WakeAll(s.workers))
    case Spurious(w) => s.(workers := s.workers[w := Woken])
    case Check(w) =>
      (match AttemptOf(s.ring, s.closed)
       case Wait => s.(workers := s.workers[w := Sleeping])
       case Closed => s.(workers := s.workers[w := Gone])
       case Taken(x) => s.(ring := s.ring[1..], popped := s.popped + [x], workers := s.workers[w := Busy(x)]))
    case Respond(w) =>
      s.(responses := s.responses + [s.workers[w].item], workers := s.workers[w := Ready])
  }

  // ---- Counting workers ----

  function WokenCount<T>(w: Worker<T>): nat {
    if w.Woken? then 1 else 0
  }

  function ItemOf<T>(w: Worker<T>): multiset<T> {
    if w.Busy? then multiset{w.item} else multiset{}
  }

  function Wokens<T>(ws: seq<Worker<T>>): nat {
    if ws == [] then 0 else Wokens(ws[..|ws| - 1]) + WokenCount(ws[|ws| - 1])
  }

  function InProcess<T>(ws: seq<Worker<T>>): multiset<T> {
    if ws == [] then multiset{} else InProcess(ws[..|ws| - 1]) + ItemOf(ws[|ws| - 1])
  }

  lemma {:induction false} UpdateWokens<T>(ws: seq<Worker<T>>, w: nat, v: Worker<T>)
    requires w < |ws|
    ensures Wokens(ws[w := v]) + WokenCount(ws[w]) == Wokens(ws) + WokenCount(v)
  {
    hide WokenCount;
    var n := |ws| - 1;
    if w < n {
      UpdateWokens(ws[..n], w, v);
      assert ws[w := v][..n] == ws[..n][w := v];
    } else {
      assert ws[w := v][..n] == ws[..n];
    }
  }

  lemma Regroup<T>(a: multiset<T>, b: multiset<T>, c: multiset<T>)
    ensures (a + b) + c == (a + c) + b
  {
  }

  lemma {:induction false} UpdateInProcess<T>(ws: seq<Worker<T>>, w: nat, v: Worker<T>)
    requires w < |ws|
    ensures InProcess(ws[w := v]) + ItemOf(ws[w]) == InProcess(ws) + ItemOf(v)
  {
    hide ItemOf;
    var n := |ws| - 1;
    if w < n {
      UpdateInProcess(ws[..n], w, v);
      assert ws[w := v][..n] == ws[..n][w := v];
      Regroup(InProcess(ws[..n][w := v]), ItemOf(ws[n]), ItemOf(ws[w]));
      Regroup(InProcess(ws[..n]), ItemOf(ws[n]), ItemOf(v));
    } else {
      assert ws[w := v][..n] == ws[..n];
    }
  }

  lemma UpdateCounts<T>(ws: seq<Worker<T>>, w: nat, v: Worker<T>)
    requires w < |ws|
    ensures Wokens(ws[w := v]) + WokenCount(ws[w]) == Wokens(ws) + WokenCount(v)
    ensures !ws[w].Busy? && !v.Busy? ==> InProcess(ws[w := v]) == InProcess(ws)
    ensures !ws[w].Busy? && v.Busy? ==> InProcess(ws[w := v]) == InProcess(ws) + multiset{v.item}
    ensures ws[w].Busy? && !v.Busy? ==> InProcess(ws[w := v]) + multiset{ws[w].item} == InProcess(ws)
  {
    hide Wokens, InProcess;
    UpdateWokens(ws, w, v);
    UpdateInProcess(ws, w, v);
    PlusNothing(InProcess(ws[w := v]));
    PlusNothing(InProcess(ws));
  }

  lemma PlusNothing<T>(a: multiset<T>)
    ensures a + multiset{} == a
  {
  }

  lemma {:induction false} WakeAllCounts<T>(ws: seq<Worker<T>>)
    ensures InProcess(WakeAll(ws)) == InProcess(ws)
    ensures Wokens(WakeAll(ws)) >= Wokens(ws)
  {
    if ws != [] {
      var n := |ws| - 1;
      WakeAllCounts(ws[..n]);
      assert WakeAll(ws)[..n] == WakeAll(ws[..n]);
      assert ItemOf(WakeAll(ws)[n]) == ItemOf(ws[n]) && WokenCount(WakeAll(ws)[n]) >= WokenCount(ws[n]);
      hide ItemOf, WokenCount, WakeAll;
      assert WakeAll(ws) != [];
    }
  }

  // ---- Invariants of every run ----

  /** Items leave in the order the ring accepted them. */
  predicate Fifo<T(==)>(s: State<T>) {
    s.popped + s.ring == s.accepted
  }

  /** Every popped item is answered or being processed. */
  ghost predicate Conserved<T>(s: State<T>) {
    multiset(s.responses) + InProcess(s.workers) == multiset(s.popped)
  }

  /** No wake-up is lost: while somebody sleeps, a woken worker is on its way for every item. */
  predicate NoLostWakeup<T>(s: State<T>) {
    NoneSleeps(s.workers) || (|s.ring| <= Wokens(s.workers) && !s.closed)
  }

  /** Workers leave only after shutdown, and only once the ring is drained for good. */
  predicate LeavesDrained<T(==)>(s: State<T>) {
    (exists i :: 0 <= i < |s.workers| && s.workers[i].Gone?) ==> s.closed && s.ring == []
  }

  ghost predicate Inv<T(!new)>(s: State<T>) {
    s.capacity > 0 && |s.ring| <= s.capacity && Fifo(s) && Conserved(s) && NoLostWakeup(s) && LeavesDrained(s)
  }

  lemma {:induction false} IdleCounts<T>(ws: seq<Worker<T>>)
    requires forall i :: 0 <= i < |ws| ==> ws[i] == Ready
    ensures InProcess(ws) == multiset{} && Wokens(ws) == 0
  {
    if ws != [] {
      IdleCounts(ws[..|ws| - 1]);
    }
  }

  lemma StartHolds<T(!new)>(s: State<T>)
    requires Start(s)
    ensures Inv(s)
  {
    IdleCounts(s.workers);
  }

  /** Every step of every thread keeps all invariants. */
  lemma StepKeepsInv<T(!new)>(s: State<T>, step: Step<T>)
    requires Inv(s) && Enabled(s, step)
    ensures Inv(Next(s, step))
  {
    hide Wokens, InProcess, WakeAll;
    match step
    case Push(item, w) =>
      if !s.closed && !NoneSleeps(s.workers) {
        UpdateCounts(s.workers, w, Woken);
      }
      assert s.popped + (s.ring + [item]) == (s.popped + s.ring) + [item];
    case Shutdown =>
      WakeAllCounts(s.workers);
      WakeAllGone(s.workers);
    case Broadcast =>
      WakeAllCounts(s.workers);
      WakeAllGone(s.workers);
    case Spurious(w) =>
      UpdateCounts(s.workers, w, Woken);
    case Check(w) =>
      CheckKeepsInv(s, w);
    case Respond(w) =>
      var x := s.workers[w].item;
      UpdateCounts(s.workers, w, Ready);
      assert multiset(s.responses + [x]) == multiset(s.responses) + multiset{x};
      Regroup(multiset(s.responses), multiset{x}, InProcess(s.workers[w := Ready]));
      assert multiset(s.responses) + (InProcess(s.workers[w := Ready]) + multiset{x}) == multiset(s.popped);
  }

  lemma WakeAllGone<T>(ws: seq<Worker<T>>)
    ensures NoneSleeps(WakeAll(ws))
    ensures forall i :: 0 <= i < |ws| ==> (WakeAll(ws)[i].Gone? <==> ws[i].Gone?)
  {
  }

  lemma CheckKeepsInv<T(!new)>(s: State<T>, w: nat)
    requires Inv(s) && Enabled(s, Check(w))
    ensures Inv(Next(s, Check(w)))
  {
    hide Wokens, InProcess;
    match AttemptOf(s.ring, s.closed)
    case Wait =>
      UpdateCounts(s.workers, w, Sleeping);
    case Closed =>
      UpdateCounts(s.workers, w, Gone);
    case Taken(x) =>
      UpdateCounts(s.workers, w, Busy(x));
      assert s.ring == [x] + s.ring[1..];
      assert s.popped + [x] + s.ring[1..] == s.popped + s.ring;
      assert multiset(s.popped + [x]) == multiset(s.popped) + multiset{x};
      assert multiset(s.responses) + (InProcess(s.workers) + multiset{x}) == multiset(s.popped) + multiset{x};
  }

  // ---- Whole runs ----

  /** The state after a list of steps, if each is enabled when its turn comes. */
  function Execute<T>(s: State<T>, steps: seq<Step<T>>): Option<State<T>>
    decreases |steps|
  {
    if steps == [] then Some(s)
    else if Enabled(s, steps[0]) then Execute(Next(s, steps[0]), steps[1..])
    else None
  }

  /** Every state of every run satisfies the invariants. */
  lemma {:induction false} RunKeepsInv<T(!new)>(s: State<T>, steps: seq<Step<T>>)
    requires Inv(s) && Execute(s, steps).Some?
    ensures Inv(Execute(s, steps).value)
    decreases |steps|
  {
    hide Inv, Enabled, Next;
    if steps != [] {
      StepKeepsInv(s, steps[0]);
      RunKeepsInv(Next(s, steps[0]), steps[1..]);
    }
  }

  /** Responses, items in process and queued items always add up to the accepted items. */
  lemma NothingLost<T(!new)>(s: State<T>, steps: seq<Step<T>>)
    requires Start(s) && Execute(s, steps).Some?
    ensures var t := Execute(s, steps).value;
            multiset(t.responses) + InProcess(t.workers) + multiset(t.ring) == multiset(t.accepted)
  {
    StartHolds(s);
    RunKeepsInv(s, steps);
    var t := Execute(s, steps).value;
    assert multiset(t.popped + t.ring) == multiset(t.popped) + multiset(t.ring);
  }

  lemma {:induction false} GoneProcessNothing<T>(ws: seq<Worker<T>>)
    requires forall i :: 0 <= i < |ws| ==> ws[i].Gone?
    ensures InProcess(ws) == multiset{}
  {
    if ws != [] {
      GoneProcessNothing(ws[..|ws| - 1]);
      PlusNothing<T>(multiset{});
    }
  }

  /** Once all workers have left, every accepted item has been answered exactly once. */
  lemma AllAnswered<T(!new)>(s: State<T>, steps: seq<Step<T>>)
    requires Start(s) && Execute(s, steps).Some?
    requires var t := Execute(s, steps).value; t.workers != [] && forall i :: 0 <= i < |t.workers| ==>
             t.workers[i].Gone?
    ensures var t := Execute(s, steps).value; multiset(t.responses) == multiset(t.accepted) && t.popped == t.accepted
  {
    StartHolds(s);
    RunKeepsInv(s, steps);
    var t := Execute(s, steps).value;
    assert t.workers[0].Gone?;
    GoneProcessNothing(t.workers);
    PlusNothing(multiset(t.responses));
    assert t.popped + [] == t.popped;
  }

  lemma {:induction false} WokenExists<T>(ws: seq<Worker<T>>) returns (i: nat)
    requires Wokens(ws) > 0
    ensures i < |ws| && ws[i].Woken?
  {
    var n := |ws| - 1;
    if ws[n].Woken? {
      i := n;
    } else {
      i := WokenExists(ws[..n]);
    }
  }

  /** A queued item never waits on sleeping workers only: somebody is awake to take it. */
  lemma SomebodyAwake<T(!new)>(s: State<T>)
    requires Inv(s) && s.ring != [] && s.workers != []
    ensures exists i :: 0 <= i < |s.workers| && !s.workers[i].Sleeping? && !s.workers[i].Gone?
  {
    if NoneSleeps(s.workers) {
      assert !s.workers[0].Sleeping? && !s.workers[0].Gone?;
    } else {
      var i := WokenExists(s.workers);
    }
  }

  // ---- Shutdown ----

  function Weight<T>(w: Worker<T>): nat {
    match w
    case Gone => 0
    case Busy(_) => 2
    case _ => 1
  }

  function Weights<T>(ws: seq<Worker<T>>): nat {
    if ws == [] then 0 else Weights(ws[..|ws| - 1]) + Weight(ws[|ws| - 1])
  }

  /** How much is left to do before all workers can leave. */
  function Work<T>(s: State<T>): nat {
    3 * |s.ring| + Weights(s.workers)
  }

  lemma {:induction false} UpdateWeights<T>(ws: seq<Worker<T>>, w: nat, v: Worker<T>)
    requires w < |ws|
    ensures Weights(ws[w := v]) + Weight(ws[w]) == Weights(ws) + Weight(v)
  {
    hide Weight;
    var n := |ws| - 1;
    if w < n {
      UpdateWeights(ws[..n], w, v);
      assert ws[w := v][..n] == ws[..n][w := v];
    } else {
      assert ws[w := v][..n] == ws[..n];
    }
  }

  predicate WorkerStep<T>(step: Step<T>) {
    step.Check? || step.Respond?
  }

  /** After shutdown a worker's step leaves less to do, and no other step adds anything. */
  lemma ClosedStep<T(!new)>(s: State<T>, step: Step<T>)
    requires Inv(s) && s.closed && Enabled(s, step)
    ensures Next(s, step).closed && Next(s, step).accepted == s.accepted
    ensures if WorkerStep(step) then Work(Next(s, step)) < Work(s) else Work(Next(s, step)) == Work(s)
  {
    hide Weights;
    match step
    case Push(_, _) =>
    case Shutdown => assert WakeAll(s.workers) == s.workers;
    case Broadcast => assert WakeAll(s.workers) == s.workers;
    case Spurious(w) =>
    case Check(w) =>
      UpdateWeights(s.workers, w, Next(s, step).workers[w]);
    case Respond(w) =>
      UpdateWeights(s.workers, w, Ready);
  }

  /** After shutdown, while a worker remains, a worker can step. */
  lemma ClosedProgress<T(!new)>(s: State<T>, i: nat)
    requires Inv(s) && s.closed && i < |s.workers| && !s.workers[i].Gone?
    ensures Enabled(s, if s.workers[i].Busy? then Respond(i) else Check(i))
  {
    assert NoneSleeps(s.workers);
  }

  function WorkerSteps<T>(steps: seq<Step<T>>): nat {
    if steps == [] then 0 else (if WorkerStep(steps[0]) then 1 else 0) + WorkerSteps(steps[1..])
  }

  /** Joining the workers returns: after shutdown, whatever other threads do, the workers take at
      most Work(s) more steps in any run, and a run in which no worker can step has none left. */
  lemma {:induction false} ShutdownFinishes<T(!new)>(s: State<T>, steps: seq<Step<T>>)
    requires Inv(s) && s.closed && Execute(s, steps).Some?
    ensures WorkerSteps(steps) + Work(Execute(s, steps).value) <= Work(s)
    ensures var t := Execute(s, steps).value;
            (forall i: nat :: !Enabled(t, Check(i)) && !Enabled(t, Respond(i))) ==>
            forall i :: 0 <= i < |t.workers| ==> t.workers[i].Gone?
    decreases |steps|
  {
    hide Inv, Enabled, Next, Work;
    if steps != [] {
      ClosedStep(s, steps[0]);
      StepKeepsInv(s, steps[0]);
      ShutdownFinishes(Next(s, steps[0]), steps[1..]);
    } else {
      forall i | 0 <= i < |s.workers| && !s.workers[i].Gone?
        ensures exists j: nat :: Enabled(s, Check(j)) || Enabled(s, Respond(j))
      {
        ClosedProgress(s, i);
      }
    }
  }
}
