/** The search for circular flows of money in the graph of transfers.

    The specification is a predicate on walks through the multigraph. The recursive search, which
    carries the current path, the visited accounts and the earliest and latest timestamps, is
    proved to report every suspicious walk exactly once and nothing else. */
module FraudDetector {
  import opened Wrappers

  datatype Edge = Edge(to: int, amount: int, timestamp: int)

  /** Outgoing transfers of every account, in insertion order. */
  type Graph = map<int, seq<Edge>>

  /** The thresholds of a detector; a cycle length of 0 means no limit. */
  datatype Limits = Limits(minAmount: int, tolerance: real, window: int, maxLength: nat)

  // ---- What counts as a suspicious cycle ----

  function Outgoing(g: Graph, node: int): seq<Edge> {
    if node in g then g[node] else []
  }

  /** A walk names, at every step, which of the current account's outgoing edges it follows. */
  type Walk = seq<nat>

  function EndOf(start: int, es: seq<Edge>): int {
    if es == [] then start else es[|es| - 1].to
  }

  /** The edges that a walk follows, if all its steps exist. */
  function Follow(g: Graph, start: int, w: Walk): (r: Option<seq<Edge>>)
    ensures r.Some? ==> |r.value| == |w|
    decreases |w|
  {
    if w == [] then Some([])
    else
      var n := |w| - 1;
      var r := Follow(g, start, w[..n]);
      if r.None? || w[n] >= |Outgoing(g, EndOf(start, r.value))| then None
      else Some(r.value + [Outgoing(g, EndOf(start, r.value))[w[n]]])
  }

  /** The accounts that a list of edges passes, start included. */
  function NodesOf(start: int, es: seq<Edge>): (ns: seq<int>)
    ensures |ns| == |es| + 1
  {
    [start] + seq(|es|, i requires 0 <= i < |es| => es[i].to)
  }

  predicate AmountsHigh(l: Limits, es: seq<Edge>) {
    forall i :: 0 <= i < |es| ==> es[i].amount >= l.minAmount
  }

  /** A plausible next amount: a little less than the previous one, or hardly more. */
  predicate RatioOk(l: Limits, previous: int, next: int) {
    previous > 0 && 1.0 - l.tolerance <= next as real / previous as real <= 1.02
  }

  /** The ratio test without division: not below the tolerance, and at most 2 percent more. */
  lemma RatioCrossMultiplied(l: Limits, previous: int, next: int)
    ensures RatioOk(l, previous, next) <==>
            previous > 0 && next as real >= (1.0 - l.tolerance) * previous as real && 100 * next <= 102 * previous
  {
    if previous > 0 {
      var p, q := previous as real, next as real / previous as real;
      assert next as real == q * p;
      QuotientOrder(1.0 - l.tolerance, q, p);
      QuotientOrder(q, 1.02, p);
      assert 1.02 * p >= next as real <==> 102 * previous >= 100 * next;
    }
  }

  lemma QuotientOrder(a: real, b: real, p: real)
    requires p > 0.0
    ensures a <= b <==> a * p <= b * p
  {
  }

  predicate RatiosOk(l: Limits, es: seq<Edge>) {
    forall i :: 0 <= i < |es| - 1 ==> RatioOk(l, es[i].amount, es[i + 1].amount)
  }

  predicate WithinWindow(l: Limits, es: seq<Edge>) {
    forall i, j :: 0 <= i < |es| && 0 <= j < |es| ==> es[i].timestamp - es[j].timestamp <= l.window
  }

  predicate Plausible(l: Limits, es: seq<Edge>) {
    AmountsHigh(l, es) && RatiosOk(l, es) && WithinWindow(l, es)
  }

  predicate Distinct(ns: seq<int>) {
    forall i, j :: 0 <= i < j < |ns| ==> ns[i] != ns[j]
  }

  /** A path from `start` through distinct accounts, all others above it. */
  predicate OpenPath(start: int, es: seq<Edge>) {
    Distinct(NodesOf(start, es)) && forall i :: 0 <= i < |es| ==> es[i].to > start
  }

  /** A path that one more edge closes. */
  predicate Closed(start: int, es: seq<Edge>) {
    |es| > 0 && OpenPath(start, es[..|es| - 1]) && es[|es| - 1].to == start
  }

  predicate ShortEnough(l: Limits, n: nat) {
    l.maxLength == 0 || n <= l.maxLength
  }

  /** A suspicious cycle with `start` as its least account. */
  predicate Suspicious(g: Graph, l: Limits, start: int, w: Walk) {
    && Follow(g, start, w).Some?
    && var es := Follow(g, start, w).value;
       Closed(start, es) && Plausible(l, es) && ShortEnough(l, |es|)
  }

  // ---- Prefixes of walks ----

  lemma FollowStep(g: Graph, start: int, w: Walk)
    requires w != [] && Follow(g, start, w).Some?
    ensures var n, r := |w| - 1, Follow(g, start, w[..|w| - 1]);
            && r.Some? && w[n] < |Outgoing(g, EndOf(start, r.value))|
            && Follow(g, start, w).value == r.value + [Outgoing(g, EndOf(start, r.value))[w[n]]]
  {
  }

  lemma {:induction false} FollowPrefix(g: Graph, start: int, w: Walk, k: nat)
    requires k <= |w| && Follow(g, start, w).Some?
    ensures Follow(g, start, w[..k]) == Some(Follow(g, start, w).value[..k])
    decreases |w|
  {
    hide Follow;
    if k == |w| {
      assert w[..k] == w && Follow(g, start, w).value[..k] == Follow(g, start, w).value;
    } else {
      var n := |w| - 1;
      FollowStep(g, start, w);
      FollowPrefix(g, start, w[..n], k);
      assert w[..n][..k] == w[..k];
      assert Follow(g, start, w).value[..k] == Follow(g, start, w[..n]).value[..k];
    }
  }

  lemma PlausiblePrefix(l: Limits, es: seq<Edge>, k: nat)
    requires Plausible(l, es) && k <= |es|
    ensures Plausible(l, es[..k])
  {
    hide RatioOk;
  }

  /** A walk that extends a path shares its edges and takes one of the outgoing ones next. */
  lemma SharedEdges(g: Graph, start: int, p: Walk, es: seq<Edge>, w: Walk)
    requires Follow(g, start, p) == Some(es) && p < w && Follow(g, start, w).Some?
    ensures var k, all := |p|, Follow(g, start, w).value;
            && w[k] < |Outgoing(g, EndOf(start, es))|
            && all[..k] == es && all[k] == Outgoing(g, EndOf(start, es))[w[k]]
            && all[..k + 1] == es + [all[k]]
  {
    hide Follow;
    var k := |p|;
    var q := w[..k + 1];
    FollowPrefix(g, start, w, k);
    FollowPrefix(g, start, w, k + 1);
    assert w[..k] == p && q[..k] == p;
    FollowStep(g, start, q);
    assert q[k] == w[k];
    var all := Follow(g, start, w).value;
    assert all[..k + 1][k] == all[k];
  }

  /** An inner account of a closed path is above the start and new to the path before it. */
  lemma InnerAccount(start: int, all: seq<Edge>, k: nat)
    requires Closed(start, all) && k < |all| - 1
    ensures all[k].to > start && all[k].to !in NodesOf(start, all[..k])
  {
    var open := all[..|all| - 1];
    assert open[k] == all[k] && NodesOf(start, open)[k + 1] == all[k].to;
    forall i | 0 <= i <= k ensures NodesOf(start, all[..k])[i] != all[k].to {
      assert NodesOf(start, open)[i] == NodesOf(start, all[..k])[i];
    }
  }

  /** What the next edge must be for a suspicious walk to extend a path by it. */
  lemma NextStep(g: Graph, l: Limits, start: int, p: Walk, es: seq<Edge>, w: Walk)
    requires Follow(g, start, p) == Some(es)
    requires p < w && Suspicious(g, l, start, w)
    ensures w[|p|] < |Outgoing(g, EndOf(start, es))|
    ensures var e := Outgoing(g, EndOf(start, es))[w[|p|]];
            && Plausible(l, es + [e])
            && ShortEnough(l, |p| + 1)
            && (e.to == start ==> |w| == |p| + 1)
            && (e.to != start ==> |w| > |p| + 1 && e.to > start && e.to !in NodesOf(start, es))
  {
    hide Plausible, Follow, OpenPath, NodesOf;
    SharedEdges(g, start, p, es, w);
    var k, all := |p|, Follow(g, start, w).value;
    PlausiblePrefix(l, all, k + 1);
    if k < |all| - 1 {
      InnerAccount(start, all, k);
    }
  }

  // ---- Viability of one hop ----

  function MinTime(es: seq<Edge>): (t: int)
    requires es != []
    ensures forall i :: 0 <= i < |es| ==> t <= es[i].timestamp
    ensures exists i :: 0 <= i < |es| && es[i].timestamp == t
  {
    var n := |es| - 1;
    if n == 0 then es[0].timestamp
    else
      var t := MinTime(es[..n]);
      if es[n].timestamp < t then es[n].timestamp else t
  }

  function MaxTime(es: seq<Edge>): (t: int)
    requires es != []
    ensures forall i :: 0 <= i < |es| ==> es[i].timestamp <= t
    ensures exists i :: 0 <= i < |es| && es[i].timestamp == t
  {
    var n := |es| - 1;
    if n == 0 then es[0].timestamp
    else
      var t := MaxTime(es[..n]);
      if es[n].timestamp > t then es[n].timestamp else t
  }

  /** Earliest and latest describe the path's timestamps; on an empty path they mean nothing. */
  predicate Times(es: seq<Edge>, earliest: int, latest: int) {
    es != [] ==> earliest == MinTime(es) && latest == MaxTime(es)
  }

  /** The window holds for all pairs of edges exactly if it holds for the extremes. */
  lemma WindowByExtremes(l: Limits, es: seq<Edge>)
    requires es != []
    ensures WithinWindow(l, es) <==> MaxTime(es) - MinTime(es) <= l.window
    ensures MinTime(es) <= MaxTime(es)
  {
    var i :| 0 <= i < |es| && es[i].timestamp == MaxTime(es);
    var j :| 0 <= j < |es| && es[j].timestamp == MinTime(es);
    assert es[j].timestamp <= MaxTime(es);
    if WithinWindow(l, es) {
      assert es[i].timestamp - es[j].timestamp <= l.window;
    }
  }

  /** The incremental checks of a hop decide plausibility of the longer path. */
  lemma HopDecides(l: Limits, es: seq<Edge>, e: Edge)
    requires Plausible(l, es)
    ensures Plausible(l, es + [e]) <==>
            && e.amount >= l.minAmount
            && (es != [] ==> RatioOk(l, es[|es| - 1].amount, e.amount))
            && MaxTime(es + [e]) - MinTime(es + [e]) <= l.window
  {
    hide RatioOk, MaxTime, MinTime;
    var all := es + [e];
    WindowByExtremes(l, all);
    hide WithinWindow;
    assert all[|es|] == e;
    if es != [] && RatiosOk(l, all) {
      assert all[|es| - 1] == es[|es| - 1];
      assert RatioOk(l, all[|es| - 1].amount, all[|es| - 1 + 1].amount);
    }
  }

  lemma TimesExtend(es: seq<Edge>, e: Edge)
    ensures MinTime(es + [e]) == if es == [] || e.timestamp < MinTime(es) then e.timestamp else MinTime(es)
    ensures MaxTime(es + [e]) == if es == [] || e.timestamp > MaxTime(es) then e.timestamp else MaxTime(es)
  {
    assert (es + [e])[..|es|] == es;
  }

  // ---- Collections of walks ----

  /** The node lists reported for a list of walks. */
  function Reports(g: Graph, start: int, ws: seq<Walk>): (r: seq<seq<int>>)
    ensures |r| == |ws|
  {
    seq(|ws|, i requires 0 <= i < |ws| =>
      if Follow(g, start, ws[i]).Some? then NodesOf(start, Follow(g, start, ws[i]).value) else [])
  }

  predicate NoRepeats(ws: seq<Walk>) {
    forall i, j :: 0 <= i < j < |ws| ==> ws[i] != ws[j]
  }

  /** `ws` lists, once each, the suspicious walks that extend `p` by an edge numbered below `bound`. */
  ghost predicate ListsExtensions(g: Graph, l: Limits, start: int, p: Walk, bound: nat, ws: seq<Walk>) {
    && NoRepeats(ws)
    && forall w: Walk :: w in ws <==> p < w && w[|p|] < bound && Suspicious(g, l, start, w)
  }

  /** `ws` lists, once each, the suspicious walks that extend `p`. */
  ghost predicate ListsAll(g: Graph, l: Limits, start: int, p: Walk, ws: seq<Walk>) {
    NoRepeats(ws) && forall w: Walk :: w in ws <==> p < w && Suspicious(g, l, start, w)
  }

  lemma ListsNext(g: Graph, l: Limits, start: int, p: Walk, i: nat, ws: seq<Walk>, more: seq<Walk>)
    requires ListsExtensions(g, l, start, p, i, ws)
    requires NoRepeats(more)
    requires forall w: Walk :: w in more <==> p < w && w[|p|] == i && Suspicious(g, l, start, w)
    ensures ListsExtensions(g, l, start, p, i + 1, ws + more)
  {
    hide Suspicious;
    var all := ws + more;
    forall a, b | 0 <= a < b < |all| ensures all[a] != all[b] {
      if a < |ws| && b >= |ws| {
        assert all[a] in ws && all[b] in more;
      }
    }
    forall w: Walk ensures w in all <==> p < w && w[|p|] < i + 1 && Suspicious(g, l, start, w) {
      assert w in all <==> w in ws || w in more;
    }
  }

  lemma ReportsAppend(g: Graph, start: int, a: seq<Walk>, b: seq<Walk>)
    ensures Reports(g, start, a + b) == Reports(g, start, a) + Reports(g, start, b)
  {
  }

  /** The state the search passes by reference. */
  class Search {
    var onPath: set<int>
    var pathNodes: seq<int>
    var pathEdges: seq<Edge>
    var flaggedCycles: seq<seq<int>>

    constructor ()
      ensures onPath == {} && pathNodes == [] && pathEdges == [] && flaggedCycles == []
    {
      onPath, pathNodes, pathEdges, flaggedCycles := {}, [], [], [];
    }
  }

  /** Every account an edge can lead to, and the start, are in the universe. */
  predicate Covers(universe: set<int>, g: Graph, start: int) {
    start in universe && forall n, i :: n in g && 0 <= i < |g[n]| ==> g[n][i].to in universe
  }

  class FraudDetector {
    var graph: Graph
    const limits: Limits

    constructor (limits: Limits)
      ensures graph == map[] && this.limits == limits
    {
      graph := map[];
      this.limits := limits;
    }

    /** addEdge. */
    method AddEdge(from: int, to: int, amount: int, ts: int)
      modifies this
      ensures graph.Keys == old(graph).Keys + {from}
      ensures forall n ::
                Outgoing(graph, n) == Outgoing(old(graph), n) + if n == from then [Edge(to, amount, ts)] else []
    {
      var edges := Outgoing(graph, from);
      edges := edges + [Edge(to, amount, ts)];
      graph := graph[from := edges];
    }

    /** hopIsViable. */
    method HopIsViable(pathEdges: seq<Edge>, e: Edge, earliest: int, latest: int)
      returns (ok: bool, newEarliest: int, newLatest: int)
      requires Plausible(limits, pathEdges) && Times(pathEdges, earliest, latest)
      ensures ok <==> Plausible(limits, pathEdges + [e])
      ensures ok ==> Times(pathEdges + [e], newEarliest, newLatest)
    {
      hide Plausible, MinTime, MaxTime;
      HopDecides(limits, pathEdges, e);
      TimesExtend(pathEdges, e);
      WindowByExtremes(limits, pathEdges + [e]);
      newEarliest, newLatest := 0, 0;
      if e.amount < limits.minAmount {
        return false, newEarliest, newLatest;
      }
      if pathEdges != [] {
        var prevAmount := pathEdges[|pathEdges| - 1].amount;
        if prevAmount <= 0 {
          return false, newEarliest, newLatest;
        }
        var ratio := e.amount as real / prevAmount as real;
        if ratio < 1.0 - limits.tolerance || ratio > 1.02 {
          return false, newEarliest, newLatest;
        }
      }
      newEarliest := if pathEdges == [] then e.timestamp else if e.timestamp < earliest then e.timestamp else earliest;
      newLatest := if pathEdges == [] then e.timestamp else if e.timestamp > latest then e.timestamp else latest;
      var span := newLatest - newEarliest;
      if span < 0 || span > limits.window {
        return false, newEarliest, newLatest;
      }
      return true, newEarliest, newLatest;
    }

    /** findCyclesFrom, at the end of the path that walk `p` describes. */
    method FindCyclesFrom(startNode: int, node: int, s: Search, earliest: int, latest: int,
                          ghost p: Walk, ghost universe: set<int>)
      returns (ghost ws: seq<Walk>)
      requires Covers(universe, graph, startNode)
      requires Follow(graph, startNode, p) == Some(s.pathEdges) && node == EndOf(startNode, s.pathEdges)
      requires s.pathNodes == NodesOf(startNode, s.pathEdges)
      requires forall n :: n in s.onPath <==> n in s.pathNodes
      requires s.onPath <= universe && OpenPath(startNode, s.pathEdges)
      requires Plausible(limits, s.pathEdges) && Times(s.pathEdges, earliest, latest)
      modifies s
      ensures s.onPath == old(s.onPath) && s.pathNodes == old(s.pathNodes) && s.pathEdges == old(s.pathEdges)
      ensures ListsAll(graph, limits, startNode, p, ws)
      ensures s.flaggedCycles == old(s.flaggedCycles) + Reports(graph, startNode, ws)
      decreases universe - s.onPath
    {
      hide Plausible, Suspicious, ListsExtensions, Follow, Reports, Times, OpenPath;
      ws := [];
      ghost var es := s.pathEdges;
      if limits.maxLength != 0 && |s.pathEdges| >= limits.maxLength {
        TooLong(graph, limits, startNode, p, es);
        return;
      }
      if node !in graph {
        DeadEnd(graph, limits, startNode, p, es);
        return;
      }
      var outgoing := graph[node];
      assert outgoing == Outgoing(graph, EndOf(startNode, es));
      NothingYet(graph, limits, startNode, p);
      for i := 0 to |outgoing|
        invariant s.onPath == old(s.onPath) && s.pathNodes == old(s.pathNodes) && s.pathEdges == es
        invariant ListsExtensions(graph, limits, startNode, p, i, ws)
        invariant s.flaggedCycles == old(s.flaggedCycles) + Reports(graph, startNode, ws)
      {
        var e := outgoing[i];
        ghost var more := TryEdge(startNode, node, s, earliest, latest, p, universe, i, e);
        ListsNext(graph, limits, startNode, p, i, ws, more);
        ReportsAppend(graph, startNode, ws, more);
        ws := ws + more;
      }
      ListsDone(graph, limits, startNode, p, es, ws);
    }

    /** The body of findCyclesFrom's loop, for the edge numbered `i`. */
    method TryEdge(startNode: int, node: int, s: Search, earliest: int, latest: int,
                   ghost p: Walk, ghost universe: set<int>, ghost i: nat, e: Edge)
      returns (ghost more: seq<Walk>)
      requires Covers(universe, graph, startNode)
      requires Follow(graph, startNode, p) == Some(s.pathEdges) && node == EndOf(startNode, s.pathEdges)
      requires i < |Outgoing(graph, node)| && e == Outgoing(graph, node)[i]
      requires ShortEnough(limits, |p| + 1)
      requires s.pathNodes == NodesOf(startNode, s.pathEdges)
      requires forall n :: n in s.onPath <==> n in s.pathNodes
      requires s.onPath <= universe && OpenPath(startNode, s.pathEdges)
      requires Plausible(limits, s.pathEdges) && Times(s.pathEdges, earliest, latest)
      modifies s
      ensures s.onPath == old(s.onPath) && s.pathNodes == old(s.pathNodes) && s.pathEdges == old(s.pathEdges)
      ensures NoRepeats(more)
      ensures forall w: Walk :: w in more <==> p < w && w[|p|] == i && Suspicious(graph, limits, startNode, w)
      ensures s.flaggedCycles == old(s.flaggedCycles) + Reports(graph, startNode, more)
      decreases universe - s.onPath, 0
    {
      hide Plausible, Suspicious, Follow, Reports, Times, OpenPath, NodesOf;
      ghost var es := s.pathEdges;
      more := [];
      forall w: Walk | p < w && w[|p|] == i && Suspicious(graph, limits, startNode, w)
        ensures Plausible(limits, es + [e]) && p + [i] <= w
        ensures e.to == startNode ==> w == p + [i]
        ensures e.to != startNode ==> e.to > startNode && e.to !in NodesOf(startNode, es) && p + [i] < w
      {
        NextStep(graph, limits, startNode, p, es, w);
        assert w[..|p| + 1] == p + [i];
      }
      assert Reports(graph, startNode, []) == [] by { NoReports(graph, startNode); }
      if e.to < startNode {
        return;
      }
      var ok, newEarliest, newLatest := HopIsViable(s.pathEdges, e, earliest, latest);
      if !ok {
        return;
      }
      FollowOne(graph, startNode, p, es, i);
      if e.to == startNode {
        ClosingWalk(graph, limits, startNode, p, es, i);
        var cycleNodes := s.pathNodes + [startNode];
        s.flaggedCycles := s.flaggedCycles + [cycleNodes];
        more := [p + [i]];
        return;
      }
      if e.to in s.onPath {
        return;
      }
      ExtendPath(startNode, es, e);
      s.onPath := s.onPath + {e.to};
      s.pathNodes := s.pathNodes + [e.to];
      s.pathEdges := s.pathEdges + [e];
      more := FindCyclesFrom(startNode, e.to, s, newEarliest, newLatest, p + [i], universe);
      s.pathEdges := s.pathEdges[..|s.pathEdges| - 1];
      s.pathNodes := s.pathNodes[..|s.pathNodes| - 1];
      s.onPath := s.onPath - {e.to};
      forall w: Walk ensures w in more <==> p < w && w[|p|] == i && Suspicious(graph, limits, startNode, w) {
        if p + [i] < w {
          assert w[..|p|] == p;
          assert p < w && w[|p|] == i;
        }
      }
    }
  }

  lemma TooLong(g: Graph, l: Limits, start: int, p: Walk, es: seq<Edge>)
    requires Follow(g, start, p) == Some(es) && !ShortEnough(l, |p| + 1)
    ensures ListsAll(g, l, start, p, []) && Reports(g, start, []) == []
  {
    forall w: Walk | p < w && Suspicious(g, l, start, w) ensures false {
      NextStep(g, l, start, p, es, w);
    }
  }

  lemma DeadEnd(g: Graph, l: Limits, start: int, p: Walk, es: seq<Edge>)
    requires Follow(g, start, p) == Some(es) && Outgoing(g, EndOf(start, es)) == []
    ensures ListsAll(g, l, start, p, []) && Reports(g, start, []) == []
  {
    forall w: Walk | p < w && Suspicious(g, l, start, w) ensures false {
      NextStep(g, l, start, p, es, w);
    }
  }

  lemma NothingYet(g: Graph, l: Limits, start: int, p: Walk)
    ensures ListsExtensions(g, l, start, p, 0, []) && Reports(g, start, []) == []
  {
    hide Suspicious;
  }

  lemma NoReports(g: Graph, start: int)
    ensures Reports(g, start, []) == []
  {
  }

  lemma ListsDone(g: Graph, l: Limits, start: int, p: Walk, es: seq<Edge>, ws: seq<Walk>)
    requires Follow(g, start, p) == Some(es)
    requires ListsExtensions(g, l, start, p, |Outgoing(g, EndOf(start, es))|, ws)
    ensures ListsAll(g, l, start, p, ws)
  {
    hide Suspicious, Follow;
    forall w: Walk | p < w && Suspicious(g, l, start, w) ensures w[|p|] < |Outgoing(g, EndOf(start, es))| {
      NextStep(g, l, start, p, es, w);
    }
  }

  lemma FollowOne(g: Graph, start: int, p: Walk, es: seq<Edge>, i: nat)
    requires Follow(g, start, p) == Some(es) && i < |Outgoing(g, EndOf(start, es))|
    ensures Follow(g, start, p + [i]) == Some(es + [Outgoing(g, EndOf(start, es))[i]])
  {
    assert (p + [i])[..|p|] == p;
  }

  lemma ClosingWalk(g: Graph, l: Limits, start: int, p: Walk, es: seq<Edge>, i: nat)
    requires Follow(g, start, p) == Some(es) && i < |Outgoing(g, EndOf(start, es))|
    requires var e := Outgoing(g, EndOf(start, es))[i]; e.to == start && Plausible(l, es + [e])
    requires OpenPath(start, es) && ShortEnough(l, |p| + 1)
    ensures Suspicious(g, l, start, p + [i])
    ensures Reports(g, start, [p + [i]]) == [NodesOf(start, es) + [start]]
  {
    hide Plausible, OpenPath;
    FollowOne(g, start, p, es, i);
    var e := Outgoing(g, EndOf(start, es))[i];
    assert (es + [e])[..|es|] == es;
    assert NodesOf(start, es + [e]) == NodesOf(start, es) + [start];
  }

  lemma ExtendPath(start: int, es: seq<Edge>, e: Edge)
    requires OpenPath(start, es) && e.to > start && e.to !in NodesOf(start, es)
    ensures OpenPath(start, es + [e])
    ensures NodesOf(start, es + [e]) == NodesOf(start, es) + [e.to]
    ensures EndOf(start, es + [e]) == e.to
  {
    assert NodesOf(start, es + [e]) == NodesOf(start, es) + [e.to];
  }

  // ---- All accounts ----

  predicate Sorted(s: seq<int>) {
    forall i, j :: 0 <= i < j < |s| ==> s[i] <= s[j]
  }

  /** Insertion into a sorted list. */
  function Insert(x: int, s: seq<int>): (r: seq<int>)
    requires Sorted(s)
    ensures |r| == |s| + 1 && Sorted(r) && multiset(r) == multiset(s) + multiset{x}
    ensures r[0] == x || (s != [] && r[0] == s[0])
  {
    if s == [] then [x]
    else if x <= s[0] then [x] + s
    else
      assert s == [s[0]] + s[1..];
      var r := Insert(x, s[1..]);
      SortedCons(s[0], r);
      [s[0]] + r
  }

  lemma SortedCons(x: int, r: seq<int>)
    requires r != [] && Sorted(r) && x <= r[0]
    ensures Sorted([x] + r)
  {
  }

  /** std::sort. */
  function Sort(s: seq<int>): (r: seq<int>)
    ensures |r| == |s| && Sorted(r) && multiset(r) == multiset(s)
  {
    if s == [] then []
    else
      assert s == [s[0]] + s[1..];
      Insert(s[0], Sort(s[1..]))
  }

  /** `found` lists, once each, the suspicious walks from the accounts at positions below `n`. */
  ghost predicate ListsCycles(g: Graph, l: Limits, accounts: seq<int>, n: nat, found: seq<(nat, Walk)>)
    requires n <= |accounts|
  {
    && (forall i, j :: 0 <= i < j < |found| ==> found[i] != found[j])
    && forall k: nat, w: Walk :: (k, w) in found <==> k < n && Suspicious(g, l, accounts[k], w)
  }

  /** The node list that is reported for a found walk. */
  predicate Reported(g: Graph, start: int, w: Walk, nodes: seq<int>) {
    Follow(g, start, w).Some? && nodes == NodesOf(start, Follow(g, start, w).value)
  }

  /** The reported node lists are those of the listed cycles, in the order of the list. */
  ghost predicate ReportsCycles(g: Graph, l: Limits, accounts: seq<int>, found: seq<(nat, Walk)>,
      flagged: seq<seq<int>>) {
    && ListsCycles(g, l, accounts, |accounts|, found)
    && |flagged| == |found|
    && forall i :: 0 <= i < |found| ==>
       found[i].0 < |accounts| && Reported(g, accounts[found[i].0], found[i].1, flagged[i])
  }

  function Tag(k: nat, ws: seq<Walk>): (r: seq<(nat, Walk)>)
    ensures |r| == |ws|
  {
    seq(|ws|, i requires 0 <= i < |ws| => (k, ws[i]))
  }

  lemma CyclesNext(g: Graph, l: Limits, accounts: seq<int>, k: nat, found: seq<(nat, Walk)>, ws: seq<Walk>)
    requires k < |accounts| && ListsCycles(g, l, accounts, k, found)
    requires ListsAll(g, l, accounts[k], [], ws)
    ensures ListsCycles(g, l, accounts, k + 1, found + Tag(k, ws))
  {
    hide Suspicious;
    var tagged := Tag(k, ws);
    var all := found + tagged;
    forall w: Walk ensures (k, w) in tagged <==> w in ws {
      if w in ws {
        var i :| 0 <= i < |ws| && ws[i] == w;
        assert tagged[i] == (k, w);
      }
    }
    forall i, j | 0 <= i < j < |all| ensures all[i] != all[j] {
      if i < |found| && j >= |found| {
        assert all[i] in found && all[j] == (k, ws[j - |found|]);
        var (a, w) := all[i];
        assert (a, w) in found;
      }
    }
    forall j: nat, w: Walk ensures (j, w) in all <==> j < k + 1 && Suspicious(g, l, accounts[j], w) {
      assert (j, w) in all <==> (j, w) in found || (j, w) in tagged;
      if (j, w) in tagged {
        var i :| 0 <= i < |tagged| && tagged[i] == (j, w);
      }
      if j == k && Suspicious(g, l, accounts[k], w) {
        assert w != [] by { CyclesHaveEdges(g, l, accounts[k], w); }
        assert [] < w;
      }
    }
  }

  lemma CyclesHaveEdges(g: Graph, l: Limits, start: int, w: Walk)
    requires Suspicious(g, l, start, w)
    ensures w != []
  {
  }

  lemma ReportsAreReported(g: Graph, l: Limits, start: int, ws: seq<Walk>, i: nat)
    requires ListsAll(g, l, start, [], ws) && i < |ws|
    ensures Reported(g, start, ws[i], Reports(g, start, ws)[i])
  {
    assert ws[i] in ws;
  }

  function AllTargets(g: Graph, keys: set<int>): (t: set<int>)
    requires keys <= g.Keys
  {
    set n, i | n in keys && 0 <= i < |g[n]| :: g[n][i].to
  }

  /** detectCycles over the accounts of the loaded bank. */
  method DetectCycles(detector: FraudDetector, allAccounts: seq<int>)
    returns (flagged: seq<seq<int>>)
    ensures exists found :: ReportsCycles(detector.graph, detector.limits, Sort(allAccounts), found, flagged)
  {
    hide Sort, Suspicious, Reported, ListsAll, Follow, Reports;
    var accounts := Sort(allAccounts);
    flagged := [];
    ghost var found: seq<(nat, Walk)> := [];
    ghost var g, l := detector.graph, detector.limits;
    for k := 0 to |accounts|
      invariant ListsCycles(g, l, accounts, k, found) && |flagged| == |found|
      invariant forall i :: 0 <= i < |found| ==>
                  found[i].0 < |accounts| && Reported(g, accounts[found[i].0], found[i].1, flagged[i])
    {
      var s := accounts[k];
      var state := new Search();
      state.onPath := state.onPath + {s};
      state.pathNodes := state.pathNodes + [s];
      state.flaggedCycles := flagged;
      ghost var universe := AllTargets(g, g.Keys) + {s};
      EmptyPath(g, l, s);
      ghost var ws := detector.FindCyclesFrom(s, s, state, 0, 0, [], universe);
      CyclesNext(g, l, accounts, k, found, ws);
      forall i | 0 <= i < |ws| ensures Reported(g, s, ws[i], Reports(g, s, ws)[i]) {
        ReportsAreReported(g, l, s, ws, i);
      }
      flagged := state.flaggedCycles;
      found := found + Tag(k, ws);
    }
    assert ReportsCycles(g, l, accounts, found, flagged);
  }

  lemma EmptyPath(g: Graph, l: Limits, s: int)
    ensures Follow(g, s, []) == Some([]) && EndOf(s, []) == s && NodesOf(s, []) == [s]
    ensures OpenPath(s, []) && Plausible(l, [])
  {
  }

  /** A cycle is found from its least account only: no rotation of it is reported as well. */
  lemma StartIsLeast(g: Graph, l: Limits, start: int, w: Walk)
    requires Suspicious(g, l, start, w)
    ensures forall n :: n in NodesOf(start, Follow(g, start, w).value) ==> n >= start
  {
    hide Plausible;
    var es := Follow(g, start, w).value;
    forall i | 0 <= i < |es| ensures es[i].to >= start {
      if i < |es| - 1 {
        assert es[..|es| - 1][i] == es[i];
      }
    }
  }
}
