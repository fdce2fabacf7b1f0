/** The shortest-path search of the network benchmark: a first-in first-out queue of
    (node, distance) items, labels that are corrected whenever a shorter way is found,
    and 9999 for "no edge" and "not reached". */
module Dijkstra {
  const NUM_NODES := 100
  const NONE := 9999
  const INT_MAX := 0x7FFF_FFFF

  datatype NodeRec = NodeRec(dist: int, prev: int)
  datatype Item = Item(node: int, dist: int, prev: int)

  type Matrix = seq<seq<int>>
  type Nodes = seq<NodeRec>

  predicate IsNode(v: int) {
    0 <= v < NUM_NODES
  }

  ghost predicate Square(adj: Matrix) {
    |adj| == NUM_NODES && forall u {:trigger adj[u]} :: IsNode(u) ==> |adj[u]| == NUM_NODES
  }

  ghost predicate Edge(adj: Matrix, u: int, v: int)
    requires Square(adj)
  {
    IsNode(u) && IsNode(v) && adj[u][v] != NONE
  }

  // ---- paths ----

  /** A sequence of nodes along edges. */
  ghost predicate Walk(adj: Matrix, p: seq<int>)
    requires Square(adj)
  {
    && |p| > 0 && (forall k :: 0 <= k < |p| ==> IsNode(p[k]))
    && forall k :: 0 <= k < |p| - 1 ==> Edge(adj, p[k], p[k + 1])
  }

  ghost function Cost(adj: Matrix, p: seq<int>): int
    requires Square(adj) && Walk(adj, p)
  {
    if |p| == 1 then 0
    else
      assert Edge(adj, p[|p| - 2], p[|p| - 2 + 1]);
      Cost(adj, p[..|p| - 1]) + adj[p[|p| - 2]][p[|p| - 1]]
  }

  ghost predicate Distinct(p: seq<int>) {
    forall i, j :: 0 <= i < j < |p| ==> p[i] != p[j]
  }

  /** Edge costs are between 0 and `c`, and sums of them along a path without repeats fit a
      machine integer. */
  ghost predicate Bounded(adj: Matrix, c: nat) {
    && Square(adj) && NUM_NODES * c <= INT_MAX
    && (forall u, v {:trigger adj[u][v]} :: IsNode(u) && IsNode(v) ==> adj[u][v] == NONE || 0 <= adj[u][v] <= c)
  }

  lemma WalkPrefix(adj: Matrix, c: nat, p: seq<int>, k: nat)
    requires Square(adj) && Walk(adj, p) && 0 < k <= |p|
    ensures Walk(adj, p[..k])
  {
  }

  lemma WalkSnoc(adj: Matrix, c: nat, p: seq<int>, v: int)
    requires Bounded(adj, c) && Walk(adj, p) && Edge(adj, p[|p| - 1], v)
    ensures Walk(adj, p + [v]) && Cost(adj, p + [v]) == Cost(adj, p) + adj[p[|p| - 1]][v]
  {
    var q := p + [v];
    forall k | 0 <= k < |q| - 1 ensures Edge(adj, q[k], q[k + 1]) {
    }
    assert q[..|p|] == p;
  }

  lemma {:induction false} CostBound(adj: Matrix, c: nat, p: seq<int>)
    requires Bounded(adj, c) && Walk(adj, p)
    ensures 0 <= Cost(adj, p) <= (|p| - 1) * c
  {
    if |p| > 1 {
      WalkPrefix(adj, c, p, |p| - 1);
      CostBound(adj, c, p[..|p| - 1]);
      assert Edge(adj, p[|p| - 2], p[|p| - 2 + 1]);
    }
  }

  lemma {:induction false} NodeSet(p: seq<int>)
    requires Distinct(p)
    ensures |set x | x in p| == |p|
  {
    if p != [] {
      var q := p[..|p| - 1];
      NodeSet(q);
      assert (set x | x in p) == (set x | x in q) + {p[|p| - 1]};
    }
  }

  // Without repetition there are at most as many as there are nodes.
  lemma FewNodes(p: seq<int>)
    requires Distinct(p) && forall k :: 0 <= k < |p| ==> IsNode(p[k])
    ensures |p| <= NUM_NODES
  {
    NodeSet(p);
    SubsetSize((set x | x in p), NodesBelow(NUM_NODES));
  }

  ghost function NodesBelow(n: nat): (r: set<int>)
    ensures |r| == n && forall x :: x in r <==> 0 <= x < n
  {
    if n == 0 then {} else NodesBelow(n - 1) + {n - 1}
  }

  lemma SubsetSize<T>(a: set<T>, b: set<T>)
    requires a <= b
    ensures |a| <= |b|
  {
    if a != {} {
      var x :| x in a;
      SubsetSize(a - {x}, b - {x});
    }
  }

  lemma Few(n: int, c: nat)
    requires n <= NUM_NODES - 1
    ensures n * c <= (NUM_NODES - 1) * c
  {
  }

  // ---- least costs ----

  ghost predicate From(adj: Matrix, start: int, v: int, p: seq<int>)
    requires Square(adj)
  {
    Walk(adj, p) && p[0] == start && p[|p| - 1] == v
  }

  /** No way from the start to `v` is cheaper. */
  ghost predicate Best(adj: Matrix, start: int, v: int, p: seq<int>)
    requires Square(adj)
  {
    From(adj, start, v, p) && forall q :: From(adj, start, v, q) ==> Cost(adj, p) <= Cost(adj, q)
  }

  /** The least cost of a way from the start to `v`, -1 when there is none. */
  ghost function Dist(adj: Matrix, start: int, v: int): int
    requires Square(adj)
  {
    if exists p :: Best(adj, start, v, p) then
      var p :| Best(adj, start, v, p);
      Cost(adj, p)
    else -1
  }

  lemma {:induction false} BestExists(adj: Matrix, c: nat, start: int, v: int, p: seq<int>) returns (q: seq<int>)
    requires Bounded(adj, c) && From(adj, start, v, p)
    ensures Best(adj, start, v, q)
    decreases Cost(adj, p)
  {
    CostBound(adj, c, p);
    if r :| From(adj, start, v, r) && Cost(adj, r) < Cost(adj, p) {
      CostBound(adj, c, r);
      q := BestExists(adj, c, start, v, r);
    } else {
      q := p;
    }
  }

  lemma DistAt(adj: Matrix, c: nat, start: int, v: int) returns (p: seq<int>)
    requires Bounded(adj, c) && Dist(adj, start, v) != -1
    ensures Best(adj, start, v, p) && From(adj, start, v, p) && Cost(adj, p) == Dist(adj, start, v) >= 0
  {
    p :| Best(adj, start, v, p) && Cost(adj, p) == Dist(adj, start, v);
    assert From(adj, start, v, p);
    CostBound(adj, c, p);
  }

  lemma DistSome(adj: Matrix, c: nat, start: int, v: int, p: seq<int>)
    requires Bounded(adj, c) && Best(adj, start, v, p)
    ensures Dist(adj, start, v) == Cost(adj, p) >= 0
  {
    CostBound(adj, c, p);
  }

  lemma DistOf(adj: Matrix, c: nat, start: int, v: int, p: seq<int>)
    requires Bounded(adj, c) && From(adj, start, v, p)
    ensures 0 <= Dist(adj, start, v) <= Cost(adj, p)
    ensures Best(adj, start, v, p) <==> Cost(adj, p) == Dist(adj, start, v)
  {
    hide Dist;
    var q := BestExists(adj, c, start, v, p);
    DistSome(adj, c, start, v, q);
  }

  // A way to `u` and an edge on from there.
  lemma DistEdge(adj: Matrix, c: nat, start: int, u: int, v: int)
    requires Bounded(adj, c) && Dist(adj, start, u) != -1 && Edge(adj, u, v)
    ensures 0 <= Dist(adj, start, v) <= Dist(adj, start, u) + adj[u][v]
  {
    var p := DistAt(adj, c, start, u);
    WalkSnoc(adj, c, p, v);
    DistOf(adj, c, start, v, p + [v]);
  }

  lemma DistStart(adj: Matrix, c: nat, start: int)
    requires Bounded(adj, c) && IsNode(start)
    ensures Dist(adj, start, start) == 0
  {
    assert From(adj, start, start, [start]);
    DistOf(adj, c, start, start, [start]);
  }

  /** A best way without its last edge is a best way. */
  lemma BestPrefix(adj: Matrix, c: nat, start: int, v: int, p: seq<int>)
    requires Bounded(adj, c) && From(adj, start, v, p) && Cost(adj, p) == Dist(adj, start, v) && |p| > 1
    ensures var u, q := p[|p| - 2], p[..|p| - 1];
            && From(adj, start, u, q) && Cost(adj, q) == Dist(adj, start, u) && Edge(adj, u, v)
            && Dist(adj, start, u) + adj[u][v] == Dist(adj, start, v)
  {
    var u, q := p[|p| - 2], p[..|p| - 1];
    WalkPrefix(adj, c, p, |p| - 1);
    assert Edge(adj, p[|p| - 2], p[|p| - 2 + 1]);
    DistOf(adj, c, start, u, q);
    DistEdge(adj, c, start, u, v);
  }

  lemma WalkRest(adj: Matrix, p: seq<int>, k: nat)
    requires Square(adj) && Walk(adj, p) && k < |p|
    ensures Walk(adj, p[k..])
  {
    var q := p[k..];
    forall j | 0 <= j < |q| - 1
      ensures Edge(adj, q[j], q[j + 1])
    {
      assert Edge(adj, p[k + j], p[k + j + 1]);
    }
  }

  lemma {:induction false} CostSplit(adj: Matrix, p: seq<int>, k: nat)
    requires Square(adj) && Walk(adj, p) && k < |p|
    ensures Walk(adj, p[..k + 1]) && Walk(adj, p[k..]) && Cost(adj, p) == Cost(adj, p[..k + 1]) + Cost(adj, p[k..])
    decreases |p|
  {
    WalkRest(adj, p, k);
    if k == |p| - 1 {
      assert p[..k + 1] == p;
    } else {
      var q := p[..|p| - 1];
      assert Walk(adj, q);
      CostSplit(adj, q, k);
      assert q[..k + 1] == p[..k + 1] && p[k..][..|p[k..]| - 1] == q[k..];
    }
  }

  lemma WalksMeet(adj: Matrix, p: seq<int>, q: seq<int>)
    requires Square(adj) && Walk(adj, p) && Walk(adj, q) && p[|p| - 1] == q[0]
    ensures Walk(adj, p + q[1..])
  {
    hide Edge;
    var r := p + q[1..];
    forall j | 0 <= j < |r| - 1
      ensures Edge(adj, r[j], r[j + 1])
    {
      if j < |p| - 1 {
        assert Edge(adj, p[j], p[j + 1]);
      } else {
        assert Edge(adj, q[j - |p| + 1], q[j - |p| + 1 + 1]);
      }
    }
  }

  lemma WalkJoin(adj: Matrix, p: seq<int>, q: seq<int>)
    requires Square(adj) && Walk(adj, p) && Walk(adj, q) && p[|p| - 1] == q[0]
    ensures Walk(adj, p + q[1..]) && Cost(adj, p + q[1..]) == Cost(adj, p) + Cost(adj, q)
  {
    hide Cost;
    var r := p + q[1..];
    WalksMeet(adj, p, q);
    CostSplit(adj, r, |p| - 1);
    assert r[..|p|] == p && r[|p| - 1..] == q;
  }

  // A way that visits a node twice has a shorter one that is not dearer.
  lemma CutLoop(adj: Matrix, c: nat, p: seq<int>, i: nat, j: nat) returns (q: seq<int>)
    requires Bounded(adj, c) && Walk(adj, p) && i < j < |p| && p[i] == p[j]
    ensures Walk(adj, q) && |q| < |p| && q[0] == p[0] && q[|q| - 1] == p[|p| - 1] && Cost(adj, q) <= Cost(adj, p)
  {
    CostSplit(adj, p, i);
    CostSplit(adj, p[i..], j - i);
    assert p[i..][j - i..] == p[j..];
    CostBound(adj, c, p[i..][..j - i + 1]);
    WalkJoin(adj, p[..i + 1], p[j..]);
    q := p[..i + 1] + p[j..][1..];
  }

  /** There is a best way with no more edges than other nodes. */
  lemma {:induction false} Shortened(adj: Matrix, c: nat, p: seq<int>) returns (q: seq<int>)
    requires Bounded(adj, c) && Walk(adj, p)
    ensures Walk(adj, q) && |q| <= NUM_NODES && q[0] == p[0] && q[|q| - 1] == p[|p| - 1] && Cost(adj, q) <= Cost(adj, p)
    decreases |p|
  {
    if |p| <= NUM_NODES {
      q := p;
    } else {
      if Distinct(p) { FewNodes(p); }
      var i: nat, j: nat :| i < j < |p| && p[i] == p[j];
      q := CutLoop(adj, c, p, i, j);
      q := Shortened(adj, c, q);
    }
  }

  /** A best way to `v` with at most `k` edges. */
  ghost predicate BestBy(adj: Matrix, start: int, v: int, k: int)
    requires Square(adj)
  {
    exists p :: From(adj, start, v, p) && |p| <= k + 1 && Cost(adj, p) == Dist(adj, start, v)
  }

  lemma BestByNodes(adj: Matrix, c: nat, start: int, v: int)
    requires Bounded(adj, c) && Dist(adj, start, v) != -1
    ensures BestBy(adj, start, v, NUM_NODES - 1)
  {
    var p := DistAt(adj, c, start, v);
    var q := Shortened(adj, c, p);
    DistOf(adj, c, start, v, q);
  }

  // ---- what the search computes ----

  /** The labels are the least path costs, and 9999 marks exactly the nodes no path
      leads to. */
  ghost predicate LeastCosts(adj: Matrix, start: int, s: Nodes) {
    && Square(adj) && |s| == NUM_NODES
    && (forall p {:trigger Walk(adj, p)} :: Walk(adj, p) && p[0] == start ==>
          s[p[|p| - 1]].dist != NONE && s[p[|p| - 1]].dist <= Cost(adj, p))
    && (forall v {:trigger s[v]} :: IsNode(v) && s[v].dist != NONE ==>
          exists p :: Walk(adj, p) && p[0] == start && p[|p| - 1] == v && Cost(adj, p) == s[v].dist)
  }

  /** No node's least cost is the mark for a node that is not reached. */
  ghost predicate Unmarked(adj: Matrix, start: int)
    requires Square(adj)
  {
    forall v {:trigger Dist(adj, start, v)} :: IsNode(v) ==> Dist(adj, start, v) != NONE
  }

  ghost predicate Settled(adj: Matrix, start: int, s: Nodes, v: int)
    requires Square(adj) && |s| == NUM_NODES && IsNode(v)
  {
    s[v].dist == Dist(adj, start, v)
  }

  // Every node that can be reached has its least cost, and no other node has a label.
  ghost predicate AllSettled(adj: Matrix, start: int, s: Nodes)
    requires Square(adj)
  {
    && |s| == NUM_NODES
    && forall v {:trigger s[v]} :: IsNode(v) ==>
         if Dist(adj, start, v) == -1 then s[v].dist == NONE else Settled(adj, start, s, v)
  }

  lemma SettledIsLeast(adj: Matrix, c: nat, start: int, s: Nodes)
    requires Bounded(adj, c) && Unmarked(adj, start) && AllSettled(adj, start, s)
    ensures LeastCosts(adj, start, s)
  {
    forall p | Walk(adj, p) && p[0] == start
      ensures s[p[|p| - 1]].dist != NONE && s[p[|p| - 1]].dist <= Cost(adj, p)
    {
      assert From(adj, start, p[|p| - 1], p);
      DistOf(adj, c, start, p[|p| - 1], p);
    }
    forall v | IsNode(v) && s[v].dist != NONE
      ensures exists p :: Walk(adj, p) && p[0] == start && p[|p| - 1] == v && Cost(adj, p) == s[v].dist
    {
      var p := DistAt(adj, c, start, v);
    }
  }

  /** Labels that are least costs can be given if and only if no least cost is 9999. */
  lemma RightExactlyWhen(adj: Matrix, c: nat, start: int)
    requires Bounded(adj, c) && IsNode(start)
    ensures (exists s :: LeastCosts(adj, start, s)) <==> Unmarked(adj, start)
  {
    if Unmarked(adj, start) {
      var s := seq(NUM_NODES, v => if Dist(adj, start, v) == -1 then NodeRec(NONE, NONE) else NodeRec(Dist(adj, start, v), NONE));
      forall v | IsNode(v)
        ensures if Dist(adj, start, v) == -1 then s[v].dist == NONE else Settled(adj, start, s, v)
      {
      }
      SettledIsLeast(adj, c, start, s);
    }
    if s: Nodes :| LeastCosts(adj, start, s) {
      forall v | IsNode(v)
        ensures Dist(adj, start, v) != NONE
      {
        if Dist(adj, start, v) != -1 {
          var p := DistAt(adj, c, start, v);
          assert Walk(adj, p) && p[0] == start;
          var q :| Walk(adj, q) && q[0] == start && q[|q| - 1] == v && Cost(adj, q) == s[v].dist;
          DistOf(adj, c, start, v, q);
        }
      }
    }
  }

  /** Edges that are cheap enough for no path to get as far as the mark. */
  lemma CheapUnmarked(adj: Matrix, c: nat, start: int)
    requires Bounded(adj, c) && (NUM_NODES - 1) * c < NONE
    ensures Unmarked(adj, start)
  {
    forall v | IsNode(v)
      ensures Dist(adj, start, v) != NONE
    {
      if Dist(adj, start, v) != -1 {
        BestByNodes(adj, c, start, v);
        var p :| From(adj, start, v, p) && |p| <= NUM_NODES && Cost(adj, p) == Dist(adj, start, v);
        CostBound(adj, c, p);
        Few(|p| - 1, c);
      }
    }
  }

  /** Costs up to 100 are safe. */
  lemma UpToHundred(adj: Matrix, start: int)
    requires Bounded(adj, 100)
    ensures Unmarked(adj, start)
  {
    CheapUnmarked(adj, 100, start);
  }

  // Two edges in a row whose costs add up to the mark.
  function TwoEdges(u: int, v: int): int {
    if u == 0 && v == 1 then 5000 else if u == 1 && v == 2 then 4999 else NONE
  }

  function TwoInARow(): (adj: Matrix)
    ensures Bounded(adj, 5000) && forall u, v {:trigger adj[u][v]} :: IsNode(u) && IsNode(v) ==> adj[u][v] == TwoEdges(u, v)
  {
    seq(NUM_NODES, u => seq(NUM_NODES, v => TwoEdges(u, v)))
  }

  /** The second node behind the start can be reached and has no right label. */
  lemma TwoInARowFails()
    ensures Dist(TwoInARow(), 0, 2) == NONE
    ensures !Unmarked(TwoInARow(), 0) && forall s :: !LeastCosts(TwoInARow(), 0, s)
  {
    hide Dist, Cost, TwoInARow, LeastCosts;
    var adj := TwoInARow();
    DistStart(adj, 5000, 0);
    DistEdge(adj, 5000, 0, 0, 1);
    DistEdge(adj, 5000, 0, 1, 2);
    OnlyEdgeTo(adj, 0, 1);
    OnlyEdgeTo(adj, 1, 2);
    RightExactlyWhen(adj, 5000, 0);
  }

  // The last edge of every way to `v` comes from `u`.
  lemma OnlyEdgeTo(adj: Matrix, u: int, v: int)
    requires adj == TwoInARow() && Edge(adj, u, v) && v != 0 && Dist(adj, 0, v) != -1
    ensures Dist(adj, 0, v) == Dist(adj, 0, u) + adj[u][v]
  {
    hide Dist, Cost, TwoInARow;
    var p := DistAt(adj, 5000, 0, v);
    BestPrefix(adj, 5000, 0, v, p);
  }

  // ---- the invariant ----

  /** `p` is a way from the start to `u` at cost `d` through `n` nodes. When that is the
      least cost, the label of `u` is right and no best way to `u` has fewer nodes. */
  ghost predicate OnWay(adj: Matrix, start: int, s: Nodes, u: int, d: int, p: seq<int>, n: int)
    requires Square(adj)
  {
    && |s| == NUM_NODES && IsNode(u) && From(adj, start, u, p) && Cost(adj, p) == d && |p| == n <= NUM_NODES
    && (d == Dist(adj, start, u) ==> Settled(adj, start, s, u) && !BestBy(adj, start, u, n - 2))
  }

  /** The predecessor of `v` is on a best way to it, and has had its label for longer. */
  ghost predicate PrevOk(adj: Matrix, start: int, s: Nodes, stamp: seq<int>, v: int)
    requires Square(adj) && |s| == |stamp| == NUM_NODES && IsNode(v)
  {
    var u := s[v].prev;
    Tight(adj, start, u, v) && Settled(adj, start, s, u) && stamp[u] < stamp[v]
  }

  ghost predicate LabelOk(adj: Matrix, start: int, s: Nodes, stamp: seq<int>, now: int, v: int)
    requires Square(adj) && |s| == |stamp| == NUM_NODES && IsNode(v)
  {
    && 0 <= stamp[v] < now
    && (if Dist(adj, start, v) == -1 then s[v] == NodeRec(NONE, NONE)
        else s[v].dist == NONE || Dist(adj, start, v) <= s[v].dist)
    && (Settled(adj, start, s, v) && v != start ==> PrevOk(adj, start, s, stamp, v))
  }

  ghost predicate Labels(adj: Matrix, c: nat, start: int, s: Nodes, stamp: seq<int>, now: int) {
    && Bounded(adj, c) && Unmarked(adj, start) && |s| == |stamp| == NUM_NODES && IsNode(start) && s[start] == NodeRec(0, NONE)
    && forall v {:trigger LabelOk(adj, start, s, stamp, now, v)} :: IsNode(v) ==> LabelOk(adj, start, s, stamp, now, v)
  }

  /** Where a best way with at most `level` edges leads, the label is right. */
  ghost predicate Reached(adj: Matrix, start: int, s: Nodes, level: int)
    requires Square(adj) && |s| == NUM_NODES
  {
    forall v {:trigger BestBy(adj, start, v, level)} :: IsNode(v) && BestBy(adj, start, v, level) ==> Settled(adj, start, s, v)
  }

  /** The first `here` items were reached over `level` edges, the others over one more. */
  ghost predicate Queued(adj: Matrix, start: int, s: Nodes, items: seq<Item>, paths: seq<seq<int>>, level: nat, here: nat)
    requires Square(adj)
  {
    && |items| == |paths| && here <= |items|
    && forall k :: 0 <= k < |items| ==>
         OnWay(adj, start, s, items[k].node, items[k].dist, paths[k], if k < here then level + 1 else level + 2)
  }

  /** The edge is the last one of a best way. */
  ghost predicate Tight(adj: Matrix, start: int, u: int, v: int)
    requires Square(adj)
  {
    Edge(adj, u, v) && Dist(adj, start, u) + adj[u][v] == Dist(adj, start, v)
  }

  ghost predicate Waits(items: seq<Item>, u: int, d: int) {
    exists k :: 0 <= k < |items| && items[k].node == u && items[k].dist == d
  }

  /** A right label has been handed on over every last edge of a best way, or the node waits
      in the queue with it, or it is `u` itself, whose edges from `i` on are still to be
      looked at. */
  ghost predicate Pending(adj: Matrix, start: int, s: Nodes, items: seq<Item>, u: int, d: int, i: int)
    requires Square(adj) && |s| == NUM_NODES
  {
    forall x, v {:trigger Tight(adj, start, x, v)} :: Tight(adj, start, x, v) && Settled(adj, start, s, x) ==>
      Settled(adj, start, s, v) || Waits(items, x, s[x].dist) || (x == u && s[x].dist == d && i <= v)
  }

  // ---- one relaxation ----

  ghost predicate Improves(adj: Matrix, s: Nodes, u: int, d: int, i: int)
    requires Square(adj) && |s| == NUM_NODES
  {
    Edge(adj, u, i) && (s[i].dist == NONE || s[i].dist > d + adj[u][i])
  }

  /** A right label is never improved, whatever the distance that the node was queued with. */
  lemma NotSettled(adj: Matrix, c: nat, start: int, s: Nodes, p: seq<int>, u: int, d: int, i: int, n: int)
    requires Bounded(adj, c) && Unmarked(adj, start) && OnWay(adj, start, s, u, d, p, n) && Improves(adj, s, u, d, i)
    ensures From(adj, start, i, p + [i]) && Cost(adj, p + [i]) == d + adj[u][i] && 0 <= Dist(adj, start, i) <= d + adj[u][i]
    ensures !Settled(adj, start, s, i)
  {
    hide Dist, Cost, BestBy;
    WalkSnoc(adj, c, p, i);
    assert From(adj, start, i, p + [i]);
    DistOf(adj, c, start, i, p + [i]);
  }

  // A right label goes to `i` only from a right label, over the last edge of a best way.
  lemma RightFromRight(adj: Matrix, c: nat, start: int, s: Nodes, p: seq<int>, u: int, d: int, i: int, n: int)
    requires Bounded(adj, c) && OnWay(adj, start, s, u, d, p, n) && Edge(adj, u, i) && d + adj[u][i] == Dist(adj, start, i)
    ensures Tight(adj, start, u, i) && Settled(adj, start, s, u) && d == Dist(adj, start, u)
  {
    hide Dist, Cost, BestBy;
    DistOf(adj, c, start, u, p);
    DistEdge(adj, c, start, u, i);
  }

  lemma LabelsKept(adj: Matrix, c: nat, start: int, s: Nodes, stamp: seq<int>, now: int, p: seq<int>, u: int, d: int, i: int, n: int)
    requires Labels(adj, c, start, s, stamp, now) && OnWay(adj, start, s, u, d, p, n) && Improves(adj, s, u, d, i)
    ensures Labels(adj, c, start, s[i := NodeRec(d + adj[u][i], u)], stamp[i := now], now + 1)
  {
    hide Dist, Cost, BestBy;
    var e := d + adj[u][i];
    var s', stamp' := s[i := NodeRec(e, u)], stamp[i := now];
    NotSettled(adj, c, start, s, p, u, d, i, n);
    DistStart(adj, c, start);
    assert LabelOk(adj, start, s, stamp, now, i) && LabelOk(adj, start, s, stamp, now, u);
    forall v | IsNode(v)
      ensures LabelOk(adj, start, s', stamp', now + 1, v)
    {
      assert LabelOk(adj, start, s, stamp, now, v);
      if v == i && e == Dist(adj, start, i) {
        RightFromRight(adj, c, start, s, p, u, d, i, n);
      }
    }
  }

  // A label that was not right is replaced: ways in the queue stay what they are.
  lemma OnWayKept(adj: Matrix, start: int, s: Nodes, x: int, d: int, p: seq<int>, n: int, i: int, r: NodeRec)
    requires Square(adj) && OnWay(adj, start, s, x, d, p, n) && IsNode(i) && !Settled(adj, start, s, i)
    ensures OnWay(adj, start, s[i := r], x, d, p, n)
  {
  }

  // The new item has one edge more, and comes no later than any best way.
  lemma OnWayNext(adj: Matrix, c: nat, start: int, s: Nodes, p: seq<int>, u: int, d: int, i: int, level: nat)
    requires Bounded(adj, c) && Unmarked(adj, start) && OnWay(adj, start, s, u, d, p, level + 1) && Improves(adj, s, u, d, i)
    requires Reached(adj, start, s, level)
    ensures OnWay(adj, start, s[i := NodeRec(d + adj[u][i], u)], i, d + adj[u][i], p + [i], level + 2)
  {
    hide Dist, Cost, BestBy;
    NotSettled(adj, c, start, s, p, u, d, i, level + 1);
    BestByNodes(adj, c, start, i);
  }

  lemma PendingKept(adj: Matrix, c: nat, start: int, s: Nodes, items: seq<Item>, p: seq<int>, u: int, d: int, i: int, n: int)
    requires Bounded(adj, c) && Unmarked(adj, start) && OnWay(adj, start, s, u, d, p, n) && Improves(adj, s, u, d, i)
    requires Pending(adj, start, s, items, u, d, i)
    ensures var e := d + adj[u][i];
            Pending(adj, start, s[i := NodeRec(e, u)], items + [Item(i, e, u)], u, d, i + 1)
  {
    hide Dist, Cost, BestBy;
    var e := d + adj[u][i];
    var s', items' := s[i := NodeRec(e, u)], items + [Item(i, e, u)];
    NotSettled(adj, c, start, s, p, u, d, i, n);
    assert items'[|items|] == Item(i, e, u);
    forall x, v | Tight(adj, start, x, v) && Settled(adj, start, s', x)
      ensures Settled(adj, start, s', v) || Waits(items', x, s'[x].dist) || (x == u && s'[x].dist == d && i + 1 <= v)
    {
      if x != i {
        assert Settled(adj, start, s, v) || Waits(items, x, s[x].dist) || (x == u && s[x].dist == d && i <= v);
        if Waits(items, x, s[x].dist) {
          var k :| 0 <= k < |items| && items[k].node == x && items[k].dist == s[x].dist;
          assert items'[k] == items[k];
        }
      }
    }
  }

  // An edge that is not improved has handed on a right label.
  lemma Passed(adj: Matrix, c: nat, start: int, s: Nodes, stamp: seq<int>, now: int, items: seq<Item>, u: int, d: int, i: int)
    requires Labels(adj, c, start, s, stamp, now) && IsNode(i)
    requires Pending(adj, start, s, items, u, d, i) && !Improves(adj, s, u, d, i)
    ensures Pending(adj, start, s, items, u, d, i + 1)
  {
    hide Dist;
    forall x, v | Tight(adj, start, x, v) && Settled(adj, start, s, x)
      ensures Settled(adj, start, s, v) || Waits(items, x, s[x].dist) || (x == u && s[x].dist == d && i + 1 <= v)
    {
      assert Settled(adj, start, s, v) || Waits(items, x, s[x].dist) || (x == u && s[x].dist == d && i <= v);
      assert LabelOk(adj, start, s, stamp, now, v) && LabelOk(adj, start, s, stamp, now, x);
    }
  }

  // ---- from one item to the next ----

  lemma Started(adj: Matrix, c: nat, start: int, s: Nodes)
    requires Bounded(adj, c) && Unmarked(adj, start) && IsNode(start) && |s| == NUM_NODES
    requires forall v :: IsNode(v) ==> s[v] == if v == start then NodeRec(0, NONE) else NodeRec(NONE, NONE)
    ensures Labels(adj, c, start, s, seq(NUM_NODES, _ => 0), 1)
    ensures Reached(adj, start, s, 0) && Queued(adj, start, s, [Item(start, 0, NONE)], [[start]], 0, 1)
    ensures Pending(adj, start, s, [Item(start, 0, NONE)], start, 0, NUM_NODES)
  {
    hide Dist;
    var stamp, items := seq(NUM_NODES, _ => 0), [Item(start, 0, NONE)];
    DistStart(adj, c, start);
    assert From(adj, start, start, [start]);
    assert items[0].node == start && items[0].dist == 0;
    forall v | IsNode(v)
      ensures LabelOk(adj, start, s, stamp, 1, v)
    {
    }
    forall x, v | Tight(adj, start, x, v) && Settled(adj, start, s, x)
      ensures Waits(items, x, s[x].dist)
    {
      assert x == start;
    }
  }

  lemma Taken(adj: Matrix, start: int, s: Nodes, items: seq<Item>, rest: seq<Item>, x: Item)
    requires Square(adj) && |s| == NUM_NODES && Pending(adj, start, s, items, start, 0, NUM_NODES) && items == [x] + rest
    ensures Pending(adj, start, s, rest, x.node, x.dist, 0)
  {
    hide Dist;
    forall y, v | Tight(adj, start, y, v) && Settled(adj, start, s, y)
      ensures Settled(adj, start, s, v) || Waits(rest, y, s[y].dist) || (y == x.node && s[y].dist == x.dist && 0 <= v)
    {
      assert Settled(adj, start, s, v) || Waits(items, y, s[y].dist);
      if Waits(items, y, s[y].dist) {
        var k :| 0 <= k < |items| && items[k].node == y && items[k].dist == s[y].dist;
        if k > 0 { assert rest[k - 1] == items[k]; }
      }
    }
  }

  // When all edges of a node have been looked at, it does not matter which node it was.
  lemma Idle(adj: Matrix, start: int, s: Nodes, items: seq<Item>, u: int, d: int)
    requires Square(adj) && |s| == NUM_NODES && Pending(adj, start, s, items, u, d, NUM_NODES)
    ensures Pending(adj, start, s, items, start, 0, NUM_NODES)
  {
    hide Dist;
  }

  /** When all items reached over `level` edges are gone, every node that a best way with one
      edge more leads to has its right label. */
  lemma LevelUp(adj: Matrix, c: nat, start: int, s: Nodes, stamp: seq<int>, now: int, items: seq<Item>, paths: seq<seq<int>>, level: nat)
    requires Labels(adj, c, start, s, stamp, now) && Reached(adj, start, s, level) && Queued(adj, start, s, items, paths, level, 0)
    requires Pending(adj, start, s, items, start, 0, NUM_NODES)
    ensures Reached(adj, start, s, level + 1)
  {
    hide Dist, Cost;
    forall v | IsNode(v) && BestBy(adj, start, v, level + 1)
      ensures Settled(adj, start, s, v)
    {
      var p :| From(adj, start, v, p) && |p| <= level + 2 && Cost(adj, p) == Dist(adj, start, v);
      if |p| <= level + 1 {
        assert BestBy(adj, start, v, level);
      } else {
        BestPrefix(adj, c, start, v, p);
        var u := p[|p| - 2];
        assert BestBy(adj, start, u, level);
        assert Tight(adj, start, u, v) && Settled(adj, start, s, u);
      }
    }
  }

  /** With an empty queue every node at the end of a way has its right label. */
  lemma {:induction false} WaySettled(adj: Matrix, c: nat, start: int, s: Nodes, stamp: seq<int>, now: int, v: int, p: seq<int>)
    requires Labels(adj, c, start, s, stamp, now) && Pending(adj, start, s, [], start, 0, NUM_NODES)
    requires From(adj, start, v, p) && Cost(adj, p) == Dist(adj, start, v)
    ensures IsNode(v) && Settled(adj, start, s, v)
    decreases |p|
  {
    hide Dist;
    if |p| > 1 {
      BestPrefix(adj, c, start, v, p);
      WaySettled(adj, c, start, s, stamp, now, p[|p| - 2], p[..|p| - 1]);
      assert Tight(adj, start, p[|p| - 2], v);
    }
  }

  lemma SearchDone(adj: Matrix, c: nat, start: int, s: Nodes, stamp: seq<int>, now: int)
    requires Labels(adj, c, start, s, stamp, now) && Pending(adj, start, s, [], start, 0, NUM_NODES)
    ensures AllSettled(adj, start, s) && LeastCosts(adj, start, s)
  {
    hide Dist, Cost, LeastCosts;
    forall v | IsNode(v)
      ensures if Dist(adj, start, v) == -1 then s[v].dist == NONE else Settled(adj, start, s, v)
    {
      assert LabelOk(adj, start, s, stamp, now, v);
      if Dist(adj, start, v) != -1 {
        var p := DistAt(adj, c, start, v);
        WaySettled(adj, c, start, s, stamp, now, v, p);
      }
    }
    SettledIsLeast(adj, c, start, s);
  }

  /** The nodes that following the predecessors of `v` visits, the start first. */
  ghost function Chain(adj: Matrix, c: nat, start: int, s: Nodes, stamp: seq<int>, now: int, v: int): seq<int>
    requires Labels(adj, c, start, s, stamp, now) && AllSettled(adj, start, s) && IsNode(v)
    decreases stamp[v]
  {
    assert LabelOk(adj, start, s, stamp, now, v);
    if s[v].prev == NONE then [v]
    else
      assert LabelOk(adj, start, s, stamp, now, s[v].prev);
      Chain(adj, c, start, s, stamp, now, s[v].prev) + [v]
  }

  /** The chain of a reached node is a path from the start whose cost is the label. */
  lemma {:induction false} ChainIsPath(adj: Matrix, c: nat, start: int, s: Nodes, stamp: seq<int>, now: int, v: int)
    requires Labels(adj, c, start, s, stamp, now) && AllSettled(adj, start, s)
    requires IsNode(v) && s[v].dist != NONE
    ensures var p := Chain(adj, c, start, s, stamp, now, v);
            From(adj, start, v, p) && Cost(adj, p) == s[v].dist
    decreases stamp[v]
  {
    hide Dist;
    assert LabelOk(adj, start, s, stamp, now, v);
    DistStart(adj, c, start);
    if v != start {
      var u := s[v].prev;
      assert PrevOk(adj, start, s, stamp, v) && LabelOk(adj, start, s, stamp, now, u);
      ChainIsPath(adj, c, start, s, stamp, now, u);
      WalkSnoc(adj, c, Chain(adj, c, start, s, stamp, now, u), v);
    }
  }

  // ---- the queue ----

  class QItem {
    var node: int
    var dist: int
    var prev: int
    var next: QItem?

    constructor (node: int, dist: int, prev: int)
      ensures this.node == node && this.dist == dist && this.prev == prev && next == null
    {
      this.node, this.dist, this.prev, next := node, dist, prev, null;
    }

    ghost predicate Holds(x: Item)
      reads this
    {
      x == Item(node, dist, prev)
    }
  }

  /** The item at position `k` of the list holds `x`, and the next one is behind it. */
  ghost predicate Cell(list: seq<QItem>, k: int, x: Item)
    requires 0 <= k < |list|
    reads list[k]
  {
    list[k].Holds(x) && list[k].next == if k + 1 < |list| then list[k + 1] else null
  }

  class Queue {
    var head: QItem?
    var count: int
    ghost var items: seq<Item>
    ghost var list: seq<QItem>

    ghost predicate Valid()
      reads this, list
    {
      && |list| == |items| == count
      && (if list == [] then head == null else head == list[0])
      && (forall i, j :: 0 <= i < j < |list| ==> list[i] != list[j])
      && (forall k {:trigger Cell(list, k, items[k])} :: 0 <= k < |list| ==> Cell(list, k, items[k]))
    }

    constructor ()
      ensures Valid() && items == [] && list == []
    {
      head, count, items, list := null, 0, [], [];
    }

    /** Walk to the last item and append behind it. */
    method Enqueue(node: int, dist: int, prev: int)
      requires Valid()
      modifies this, list
      ensures Valid() && items == old(items) + [Item(node, dist, prev)]
      ensures forall k :: 0 <= k < |list| ==> list[k] in old(list) || fresh(list[k])
    {
      var added := new QItem(node, dist, prev);
      var last := head;
      if last == null {
        head := added;
      } else {
        ghost var k := 0;
        while last.next != null
          invariant 0 <= k < |list| && last == list[k] && Valid()
          decreases |list| - k
        {
          assert Cell(list, k, items[k]);
          last := last.next;
          k := k + 1;
        }
        assert Cell(list, k, items[k]);
        last.next := added;
      }
      ghost var was := list;
      assert forall k :: 0 <= k < |was| - 1 ==> Cell(was, k, items[k]);
      list, items := list + [added], items + [Item(node, dist, prev)];
      count := count + 1;
      forall k | 0 <= k < |list| ensures Cell(list, k, items[k]) {
        assert k < |was| - 1 ==> Cell(was, k, items[k]);
      }
    }

    /** Take the first item; an empty queue leaves the caller's values alone. */
    method Dequeue(node0: int, dist0: int, prev0: int) returns (node: int, dist: int, prev: int)
      requires Valid()
      modifies this
      ensures old(items) == [] ==> items == [] && (node, dist, prev) == (node0, dist0, prev0)
      ensures old(items) != [] ==> [Item(node, dist, prev)] + items == old(items)
      ensures Valid() && forall k :: 0 <= k < |list| ==> list[k] in old(list)
    {
      node, dist, prev := node0, dist0, prev0;
      if head != null {
        node, dist, prev := head.node, head.dist, head.prev;
        assert Cell(list, 0, items[0]);
        assert forall k :: 0 < k < |list| ==> Cell(list, k, items[k]);
        ghost var was := list;
        head := head.next;
        list, items := list[1..], items[1..];
        count := count - 1;
        forall k | 0 <= k < |list| ensures Cell(list, k, items[k]) {
          assert Cell(was, k + 1, items[k]);
        }
      }
    }

    method Count() returns (n: int)
      requires Valid()
      ensures n == |items|
    {
      n := count;
    }
  }

  // ---- the search ----

  class ShortestPath {
    const adj: Matrix
    const nodes: array<NodeRec>
    const queue: Queue
    ghost var stamp: seq<int>
    ghost var now: int
    ghost var paths: seq<seq<int>>
    ghost var level: nat
    ghost var here: nat

    constructor (adj: Matrix)
      ensures this.adj == adj && nodes.Length == NUM_NODES && queue.Valid() && queue.items == []
      ensures fresh(nodes) && fresh(queue) && queue.list == []
    {
      this.adj := adj;
      nodes := new NodeRec[NUM_NODES](_ => NodeRec(NONE, NONE));
      queue := new Queue();
    }

    /** The state of the search while the edges of `u`, taken from the queue with the
        distance `d`, are looked at from `i` on. */
    ghost predicate Searching(c: nat, start: int, u: int, d: int, i: int)
      reads this, nodes, queue, queue.list
    {
      && nodes.Length == NUM_NODES && queue.Valid() && 0 <= now
      && Labels(adj, c, start, nodes[..], stamp, now)
      && Reached(adj, start, nodes[..], level)
      && Queued(adj, start, nodes[..], queue.items, paths, level, here)
      && Pending(adj, start, nodes[..], queue.items, u, d, i)
    }

    // All that one relaxation keeps.
    lemma RelaxStep(c: nat, start: int, p: seq<int>, u: int, d: int, i: int, s': Nodes)
      requires Searching(c, start, u, d, i) && OnWay(adj, start, nodes[..], u, d, p, level + 1)
      requires Improves(adj, nodes[..], u, d, i) && s' == nodes[..][i := NodeRec(d + adj[u][i], u)]
      ensures |stamp| == NUM_NODES
      ensures var e := d + adj[u][i];
              && Labels(adj, c, start, s', stamp[i := now], now + 1)
              && Reached(adj, start, s', level)
              && Queued(adj, start, s', queue.items + [Item(i, e, u)], paths + [p + [i]], level, here)
              && Pending(adj, start, s', queue.items + [Item(i, e, u)], u, d, i + 1)
              && OnWay(adj, start, s', u, d, p, level + 1)
    {
      hide OnWay, Pending, LabelOk, Dist, BestBy;
      var s := nodes[..];
      NotSettled(adj, c, start, s, p, u, d, i, level + 1);
      LabelsKept(adj, c, start, s, stamp, now, p, u, d, i, level + 1);
      OnWayNext(adj, c, start, s, p, u, d, i, level);
      OnWayKept(adj, start, s, u, d, p, level + 1, i, NodeRec(d + adj[u][i], u));
      PendingKept(adj, c, start, s, queue.items, p, u, d, i, level + 1);
      forall k | 0 <= k < |queue.items|
        ensures OnWay(adj, start, s', queue.items[k].node, queue.items[k].dist, paths[k], if k < here then level + 1 else level + 2)
      {
        var n := if k < here then level + 1 else level + 2;
        OnWayKept(adj, start, s, queue.items[k].node, queue.items[k].dist, paths[k], n, i, NodeRec(d + adj[u][i], u));
      }
    }

    lemma ImprovesNode(c: nat, start: int, u: int, d: int, i: int)
      requires Searching(c, start, u, d, i) && Improves(adj, nodes[..], u, d, i)
      ensures Square(adj) && IsNode(u) && IsNode(i)
    {
    }

    // The new label of `i`, and its place in the queue.
    method Record(i: int, dist: int, prev: int)
      requires nodes.Length == NUM_NODES && queue.Valid() && IsNode(i)
      modifies nodes, queue, queue.list
      ensures nodes[..] == old(nodes[..])[i := NodeRec(dist, prev)]
      ensures queue.Valid() && queue.items == old(queue.items) + [Item(i, dist, prev)]
      ensures forall k :: 0 <= k < |queue.list| ==> queue.list[k] in old(queue.list) || fresh(queue.list[k])
    {
      nodes[i] := NodeRec(dist, prev);
      queue.Enqueue(i, dist, prev);
    }

    /** A shorter way to `i` is found: it is recorded and `i` is queued. */
    method Relax(ghost c: nat, ghost start: int, u: int, d: int, i: int, cost: int, ghost p: seq<int>)
      requires Searching(c, start, u, d, i) && OnWay(adj, start, nodes[..], u, d, p, level + 1)
      requires Improves(adj, nodes[..], u, d, i) && cost == adj[u][i]
      modifies this`stamp, this`now, this`paths, nodes, queue, queue.list
      ensures Searching(c, start, u, d, i + 1) && OnWay(adj, start, nodes[..], u, d, p, level + 1)
      ensures forall k :: 0 <= k < |queue.list| ==> queue.list[k] in old(queue.list) || fresh(queue.list[k])
    {
      hide Labels, Reached, Queued, Pending, OnWay, Improves, Dist;
      ImprovesNode(c, start, u, d, i);
      RelaxStep(c, start, p, u, d, i, nodes[..][i := NodeRec(d + cost, u)]);
      Record(i, d + cost, u);
      stamp, now, paths := stamp[i := now], now + 1, paths + [p + [i]];
    }

    // What the code needs to know about the item it works on.
    lemma ItemFacts(c: nat, start: int, u: int, d: int, i: int, p: seq<int>)
      requires Searching(c, start, u, d, i) && OnWay(adj, start, nodes[..], u, d, p, level + 1)
      ensures Square(adj) && IsNode(u) && 0 <= d <= (NUM_NODES - 1) * c && level < NUM_NODES
      ensures forall v {:trigger adj[u][v]} :: IsNode(v) ==> adj[u][v] == NONE || 0 <= adj[u][v] + d <= INT_MAX
    {
      CostBound(adj, c, p);
      Few(|p| - 1, c);
    }

    /** All edges of `u` are looked at; no sum of costs overflows. */
    method Scan(ghost c: nat, ghost start: int, u: int, d: int, ghost p: seq<int>)
      requires Searching(c, start, u, d, 0) && OnWay(adj, start, nodes[..], u, d, p, level + 1)
      modifies this`stamp, this`now, this`paths, nodes, queue, queue.list
      ensures Searching(c, start, u, d, NUM_NODES)
      ensures forall k :: 0 <= k < |queue.list| ==> queue.list[k] in old(queue.list) || fresh(queue.list[k])
    {
      hide Labels, Reached, Queued, Pending, OnWay;
      ItemFacts(c, start, u, d, 0, p);
      for i := 0 to NUM_NODES
        invariant Searching(c, start, u, d, i) && OnWay(adj, start, nodes[..], u, d, p, level + 1)
        invariant forall k :: 0 <= k < |queue.list| ==> queue.list[k] in old(queue.list) || fresh(queue.list[k])
      {
        var cost := adj[u][i];
        assert nodes[..][i] == nodes[i];
        if cost != NONE && (NONE == nodes[i].dist || nodes[i].dist > cost + d) {
          assert 0 <= cost + d <= INT_MAX;
          Relax(c, start, u, d, i, cost, p);
        } else {
          Passed(adj, c, start, nodes[..], stamp, now, queue.items, u, d, i);
        }
      }
    }

    lemma TakenStep(c: nat, start: int, items: seq<Item>, level': nat, here': nat, x: Item, rest: seq<Item>)
      requires Searching(c, start, start, 0, NUM_NODES) && queue.items == [x] + rest
      requires if here == 0 then level' == level + 1 && here' == |rest| else level' == level && here' == here - 1
      ensures Reached(adj, start, nodes[..], level') && |paths| > 0 && OnWay(adj, start, nodes[..], x.node, x.dist, paths[0], level' + 1)
      ensures Queued(adj, start, nodes[..], rest, paths[1..], level', here')
      ensures Pending(adj, start, nodes[..], rest, x.node, x.dist, 0)
    {
      hide OnWay, Pending, Reached, LabelOk;
      if here == 0 { LevelUp(adj, c, start, nodes[..], stamp, now, queue.items, paths, level); }
      Taken(adj, start, nodes[..], queue.items, rest, x);
      assert queue.items[0] == x;
      forall k | 0 <= k < |rest|
        ensures OnWay(adj, start, nodes[..], rest[k].node, rest[k].dist, paths[1..][k], if k < here' then level' + 1 else level' + 2)
      {
        assert rest[k] == queue.items[k + 1];
      }
    }

    /** The first item is taken and its edges are looked at.  Every item of one level comes
        before those of the next, and there are no more levels than nodes. */
    method Turn(ghost c: nat, ghost start: int, node0: int, dist0: int, prev0: int) returns (node: int, dist: int, prev: int)
      requires Searching(c, start, start, 0, NUM_NODES) && queue.items != []
      modifies this`stamp, this`now, this`paths, this`level, this`here, nodes, queue, queue.list
      ensures Searching(c, start, start, 0, NUM_NODES)
      ensures old(level) <= level < NUM_NODES && (level == old(level) ==> here < old(here))
      ensures forall k :: 0 <= k < |queue.list| ==> queue.list[k] in old(queue.list) || fresh(queue.list[k])
    {
      hide Labels, Reached, Queued, Pending, OnWay;
      ghost var x, rest := queue.items[0], queue.items[1..];
      ghost var level', here' := if here == 0 then level + 1 else level, if here == 0 then |rest| else here - 1;
      TakenStep(c, start, queue.items, level', here', x, rest);
      ghost var p := paths[0];
      node, dist, prev := queue.Dequeue(node0, dist0, prev0);
      assert Item(node, dist, prev) == x && queue.items == rest;
      paths, level, here := paths[1..], level', here';
      ItemFacts(c, start, node, dist, 0, p);
      Scan(c, start, node, dist, p);
      Idle(adj, start, nodes[..], queue.items, node, dist);
    }

    /** No node is reached. */
    method Reset()
      requires nodes.Length == NUM_NODES
      modifies nodes
      ensures forall v :: IsNode(v) ==> nodes[v] == NodeRec(NONE, NONE)
    {
      for k := 0 to NUM_NODES
        invariant forall v :: 0 <= v < k ==> nodes[v] == NodeRec(NONE, NONE)
      {
        nodes[k] := NodeRec(NONE, NONE);
      }
    }

    /** The path to a node, along the predecessors; the links never form a cycle. */
    method PrintPath(ghost c: nat, ghost start: int, node: int) returns (out: seq<int>)
      requires nodes.Length == NUM_NODES && IsNode(node)
      requires Labels(adj, c, start, nodes[..], stamp, now) && AllSettled(adj, start, nodes[..])
      ensures out == Chain(adj, c, start, nodes[..], stamp, now, node)
      decreases stamp[node]
    {
      assert LabelOk(adj, start, nodes[..], stamp, now, node);
      out := [];
      if nodes[node].prev != NONE {
        assert LabelOk(adj, start, nodes[..], stamp, now, nodes[node].prev);
        out := PrintPath(c, start, nodes[node].prev);
      }
      out := out + [node];
    }

    /** The search: it ends, the labels are the least costs, and the path printed for a
        node that is reached leads there from the start at that cost. */
    method Search(ghost c: nat, start: int, end: int) returns (cost: int, path: seq<int>)
      requires nodes.Length == NUM_NODES && queue.Valid() && queue.items == []
      requires Bounded(adj, c) && IsNode(start) && IsNode(end) && (start != end ==> Unmarked(adj, start))
      modifies this`stamp, this`now, this`paths, this`level, this`here, nodes, queue, queue.list
      ensures queue.Valid() && queue.items == []
      ensures start == end ==> cost == 0 && path == []
      ensures start != end ==> LeastCosts(adj, start, nodes[..]) && cost == nodes[end].dist
      ensures start != end ==>
                if cost == NONE then path == [end] else From(adj, start, end, path) && Cost(adj, path) == cost
    {
      hide Labels, Reached, Queued, Pending, OnWay, Bounded, LeastCosts, From, Cost, Unmarked, AllSettled;
      Reset();
      if start == end {
        return 0, [];
      }
      nodes[start] := NodeRec(0, NONE);
      Started(adj, c, start, nodes[..]);
      stamp, now, paths, level, here := seq(NUM_NODES, _ => 0), 1, [[start]], 0, 1;
      queue.Enqueue(start, 0, NONE);
      assert [] + [Item(start, 0, NONE)] == [Item(start, 0, NONE)];
      var node, dist, prev := 0, 0, 0;
      var count := queue.Count();
      while count > 0
        invariant Searching(c, start, start, 0, NUM_NODES) && count == |queue.items|
        invariant forall k :: 0 <= k < |queue.list| ==> queue.list[k] in old(queue.list) || fresh(queue.list[k])
        decreases NUM_NODES - level, here
      {
        node, dist, prev := Turn(c, start, node, dist, prev);
        count := queue.Count();
      }
      assert queue.items == [];
      SearchDone(adj, c, start, nodes[..], stamp, now);
      cost := nodes[end].dist;
      path := PrintPath(c, start, end);
      PrintedPath(c, start, end);
    }

    lemma PrintedPath(c: nat, start: int, v: int)
      requires nodes.Length == NUM_NODES && Labels(adj, c, start, nodes[..], stamp, now) && AllSettled(adj, start, nodes[..]) && IsNode(v)
      ensures var p := Chain(adj, c, start, nodes[..], stamp, now, v);
              if nodes[v].dist == NONE then p == [v] else From(adj, start, v, p) && Cost(adj, p) == nodes[v].dist
    {
      hide Dist;
      assert LabelOk(adj, start, nodes[..], stamp, now, v);
      if nodes[v].dist != NONE { ChainIsPath(adj, c, start, nodes[..], stamp, now, v); }
    }
  }
}
