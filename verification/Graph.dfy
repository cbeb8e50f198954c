/** Finite directed graphs given by their edge sets, and the path-extending walk
    that pgjobdb._check_goal_cycle runs as a recursive query. */
module Graph {

  ghost predicate IsPath<N>(edges: set<(N, N)>, p: seq<N>) {
    && |p| > 0
    && forall i :: 0 <= i < |p| - 1 ==> (p[i], p[i + 1]) in edges
  }

  /** A nonempty closed walk: it returns to the node it started from. */
  ghost predicate IsCycle<N>(edges: set<(N, N)>, p: seq<N>) {
    IsPath(edges, p) && |p| > 1 && p[0] == p[|p| - 1]
  }

  ghost predicate Acyclic<N(!new)>(edges: set<(N, N)>) {
    forall p: seq<N> :: !IsCycle(edges, p)
  }

  ghost predicate Reaches<N(!new)>(edges: set<(N, N)>, a: N, b: N) {
    exists p :: IsPath(edges, p) && p[0] == a && p[|p| - 1] == b
  }

  /** Some cycle can be reached from the start node. */
  ghost predicate ReachesCycle<N(!new)>(edges: set<(N, N)>, start: N) {
    exists a, p :: Reaches(edges, start, a) && IsCycle(edges, p) && p[0] == a
  }

  function Heads<N>(edges: set<(N, N)>): set<N> {
    set e | e in edges :: e.1
  }

  function Elements<N>(p: seq<N>): set<N> {
    set n | n in p
  }

  predicate NoRepeats<N(==)>(p: seq<N>) {
    forall i, j :: 0 <= i < j < |p| ==> p[i] != p[j]
  }

  /** The recursive query: extend the path by every edge out of its last node, stop a
      branch at the first repeated node, report whether any branch met one. */
  predicate Walk<N(==)>(edges: set<(N, N)>, path: seq<N>)
    requires |path| > 0
    decreases |Heads(edges) - Elements(path)|
  {
    exists e | e in edges && e.0 == path[|path| - 1] ::
      || e.1 in path
      || (assert e.1 in Heads(edges) - Elements(path);
          assert Heads(edges) - Elements(path + [e.1]) <= Heads(edges) - Elements(path) - {e.1};
          SubsetSize(Heads(edges) - Elements(path + [e.1]), Heads(edges) - Elements(path) - {e.1});
          Walk(edges, path + [e.1]))
  }

  lemma SubsetSize<T>(a: set<T>, b: set<T>)
    requires a <= b
    ensures |a| <= |b|
  {
    if a != {} {
      var x :| x in a;
      SubsetSize(a - {x}, b - {x});
    }
  }

  lemma PathJoin<N>(edges: set<(N, N)>, p: seq<N>, q: seq<N>)
    requires IsPath(edges, p) && IsPath(edges, q) && p[|p| - 1] == q[0]
    ensures IsPath(edges, p + q[1..])
    ensures (p + q[1..])[0] == p[0]
    ensures (p + q[1..])[|p + q[1..]| - 1] == q[|q| - 1]
  {
    var r := p + q[1..];
    forall i | 0 <= i < |r| - 1
      ensures (r[i], r[i + 1]) in edges
    {
      if i >= |p| - 1 {
        assert r[i] == q[i - |p| + 1] && r[i + 1] == q[i - |p| + 2];
      }
    }
  }

  lemma SubPath<N>(edges: set<(N, N)>, p: seq<N>, i: nat, j: nat)
    requires IsPath(edges, p) && i < j <= |p|
    ensures IsPath(edges, p[i..j])
  {
  }

  /** A cycle can be restarted at any node on it. */
  lemma Rotate<N>(edges: set<(N, N)>, p: seq<N>, i: nat) returns (c: seq<N>)
    requires IsCycle(edges, p) && i < |p| - 1
    ensures IsCycle(edges, c) && c[0] == p[i]
  {
    SubPath(edges, p, i, |p|);
    SubPath(edges, p, 0, i + 1);
    PathJoin(edges, p[i..], p[..i + 1]);
    c := p[i..] + p[..i + 1][1..];
  }

  /** Stepping back onto a path closes a cycle its start reaches. */
  lemma RepeatClosesCycle<N(!new)>(edges: set<(N, N)>, path: seq<N>, e: (N, N))
    requires IsPath(edges, path) && e in edges && e.0 == path[|path| - 1] && e.1 in path
    ensures ReachesCycle(edges, path[0])
  {
    var longer := path + [e.1];
    assert IsPath(edges, longer);
    var k :| 0 <= k < |path| && path[k] == e.1;
    SubPath(edges, longer, k, |longer|);
    SubPath(edges, longer, 0, k + 1);
    var head, loop := longer[..k + 1], longer[k..];
    assert IsPath(edges, head) && head[0] == path[0] && head[|head| - 1] == e.1;
    assert Reaches(edges, path[0], e.1);
    assert IsCycle(edges, loop) && loop[0] == e.1;
  }

  /** A step to a new node stays on a path and leaves fewer nodes to visit. */
  lemma LongerIsCloser<N>(edges: set<(N, N)>, path: seq<N>, e: (N, N))
    requires IsPath(edges, path) && e in edges && e.0 == path[|path| - 1] && e.1 !in path
    ensures IsPath(edges, path + [e.1])
    ensures |Heads(edges) - Elements(path + [e.1])| < |Heads(edges) - Elements(path)|
  {
    assert Elements(path + [e.1]) == Elements(path) + {e.1};
    var left := Heads(edges) - Elements(path);
    assert e.1 in left && Heads(edges) - (Elements(path) + {e.1}) == left - {e.1};
  }

  /** Soundness of the walk: it reports only real cycles, reachable from its start. */
  lemma {:induction false} WalkSound<N(!new)>(edges: set<(N, N)>, path: seq<N>)
    requires IsPath(edges, path) && Walk(edges, path)
    ensures ReachesCycle(edges, path[0])
    decreases |Heads(edges) - Elements(path)|
  {
    var e :| e in edges && e.0 == path[|path| - 1] &&
      (e.1 in path || Walk(edges, path + [e.1]));
    if e.1 in path {
      RepeatClosesCycle(edges, path, e);
    } else {
      LongerIsCloser(edges, path, e);
      WalkSound(edges, path + [e.1]);
    }
  }

  /** The walk follows any given path up to its first repeated node. */
  lemma {:induction false} WalkFollows<N>(edges: set<(N, N)>, p: seq<N>, i: nat, k: nat)
    requires IsPath(edges, p) && 0 < i <= k < |p|
    requires p[k] in p[..k] && NoRepeats(p[..k])
    ensures Walk(edges, p[..i])
    decreases k - i
  {
    var e := (p[i - 1], p[i]);
    assert e in edges && e.0 == p[..i][|p[..i]| - 1];
    if i < k {
      WalkFollows(edges, p, i + 1, k);
      assert p[..i] + [e.1] == p[..i + 1];
    } else {
      assert e.1 in p[..i];
    }
  }

  lemma FirstRepeat<N>(p: seq<N>) returns (k: nat)
    requires !NoRepeats(p)
    ensures k < |p| && p[k] in p[..k] && NoRepeats(p[..k])
  {
    k := 0;
    assert p[..|p|] == p;
    while k < |p| && p[k] !in p[..k]
      invariant k <= |p| && NoRepeats(p[..k])
    {
      assert forall i :: 0 <= i < k ==> p[..k][i] == p[i];
      assert NoRepeats(p[..k + 1]);
      k := k + 1;
    }
  }

  /** Completeness of the walk: a reachable cycle is always met. */
  lemma WalkComplete<N(!new)>(edges: set<(N, N)>, start: N)
    requires ReachesCycle(edges, start)
    ensures Walk(edges, [start])
  {
    var a, c :| Reaches(edges, start, a) && IsCycle(edges, c) && c[0] == a;
    var h :| IsPath(edges, h) && h[0] == start && h[|h| - 1] == a;
    PathJoin(edges, h, c);
    var p := h + c[1..];
    assert p[|h| - 1] == a && p[|p| - 1] == a && |h| - 1 < |p| - 1;
    var k := FirstRepeat(p);
    assert k > 0;
    WalkFollows(edges, p, 1, k);
    assert p[..1] == [start];
  }

  /** The recursive query answers exactly "a cycle is reachable from the start". */
  lemma WalkExact<N(!new)>(edges: set<(N, N)>, start: N)
    ensures Walk(edges, [start]) <==> ReachesCycle(edges, start)
  {
    if Walk(edges, [start]) {
      WalkSound(edges, [start]);
    }
    if ReachesCycle(edges, start) {
      WalkComplete(edges, start);
    }
  }

  lemma EmptyAcyclic<N(!new)>()
    ensures Acyclic<N>({})
  {
    var none: set<(N, N)> := {};
    forall p: seq<N>
      ensures !IsCycle(none, p)
    {
      if |p| > 1 {
        assert (p[0], p[1]) !in none;
      }
    }
  }

  lemma SubgraphAcyclic<N(!new)>(small: set<(N, N)>, large: set<(N, N)>)
    requires small <= large && Acyclic(large)
    ensures Acyclic(small)
  {
    forall p: seq<N>
      ensures !IsCycle(small, p)
    {
      if IsCycle(small, p) {
        assert IsCycle(large, p);
      }
    }
  }

  lemma CleanCycleIsOld<N>(old_: set<(N, N)>, new_: set<(N, N)>, dirty: set<N>, p: seq<N>)
    requires forall e :: e in new_ && e.0 !in dirty ==> e in old_
    requires IsCycle(new_, p) && forall i :: 0 <= i < |p| - 1 ==> p[i] !in dirty
    ensures IsCycle(old_, p)
  {
    assert forall i :: 0 <= i < |p| - 1 ==> (p[i], p[i + 1]) in new_;
  }

  /** Only edges out of `dirty` nodes are new, and no cycle is reachable from those. */
  lemma GuardedGrowthAcyclic<N(!new)>(old_: set<(N, N)>, new_: set<(N, N)>, dirty: set<N>)
    requires Acyclic(old_)
    requires forall e :: e in new_ && e.0 !in dirty ==> e in old_
    requires forall d :: d in dirty ==> !ReachesCycle(new_, d)
    ensures Acyclic(new_)
  {
    forall p: seq<N>
      ensures !IsCycle(new_, p)
    {
      if IsCycle(new_, p) {
        if i :| 0 <= i < |p| - 1 && p[i] in dirty {
          var c := Rotate(new_, p, i);
          assert IsPath(new_, [p[i]]);
          assert Reaches(new_, p[i], p[i]);
        } else {
          CleanCycleIsOld(old_, new_, dirty, p);
        }
      }
    }
  }

  /** New edges that all lead into a node without edges close no cycle. */
  lemma EdgesIntoSinkAcyclic<N(!new)>(old_: set<(N, N)>, new_: set<(N, N)>, sink: N)
    requires Acyclic(old_)
    requires forall e :: e in new_ ==> e in old_ || e.1 == sink
    requires forall e :: e in new_ ==> e.0 != sink
    ensures Acyclic(new_)
  {
    forall p: seq<N>
      ensures !IsCycle(new_, p)
    {
      if IsCycle(new_, p) {
        CycleAvoidsSink(old_, new_, sink, p);
      }
    }
  }

  lemma CycleAvoidsSink<N>(old_: set<(N, N)>, new_: set<(N, N)>, sink: N, p: seq<N>)
    requires forall e :: e in new_ ==> e in old_ || e.1 == sink
    requires forall e :: e in new_ ==> e.0 != sink
    requires IsCycle(new_, p)
    ensures IsCycle(old_, p)
  {
    forall i | 0 <= i < |p| - 1
      ensures (p[i], p[i + 1]) in old_
    {
      assert (p[i], p[i + 1]) in new_;
      if i + 1 < |p| - 1 {
        assert (p[i + 1], p[i + 2]) in new_;
      } else {
        assert (p[0], p[1]) in new_;
      }
    }
  }

  /** The graph with edges from one node to all of `heads` added. */
  function Grow<N>(edges: set<(N, N)>, node: N, heads: set<N>): set<(N, N)> {
    edges + (set h | h in heads :: (node, h))
  }

  /** Adding edges out of one node closes a cycle exactly when a new head already
      reaches that node. */
  lemma NewEdgesCloseCycleIff<N(!new)>(edges: set<(N, N)>, node: N, heads: set<N>)
    requires Acyclic(edges)
    ensures ReachesCycle(Grow(edges, node, heads), node) <==> exists h :: h in heads && Reaches(edges, h, node)
  {
    var grown := Grow(edges, node, heads);
    if h :| h in heads && Reaches(edges, h, node) {
      var p :| IsPath(edges, p) && p[0] == h && p[|p| - 1] == node;
      var c := [node] + p;
      assert IsPath(grown, c);
      assert IsCycle(grown, c);
      assert IsPath(grown, [node]);
      assert Reaches(grown, node, node);
    }
    if ReachesCycle(grown, node) {
      var a, c :| Reaches(grown, node, a) && IsCycle(grown, c) && c[0] == a;
      LastNewEdge(edges, grown, node, heads, c);
    }
  }

  /** A cycle of the grown graph leaves `node` by a new edge and returns by old ones. */
  lemma LastNewEdge<N(!new)>(edges: set<(N, N)>, grown: set<(N, N)>, node: N, heads: set<N>, c: seq<N>)
    requires Acyclic(edges) && IsCycle(grown, c)
    requires grown == Grow(edges, node, heads)
    ensures exists h :: h in heads && Reaches(edges, h, node)
  {
    if forall i :: 0 <= i < |c| - 1 ==> (c[i], c[i + 1]) in edges {
      assert IsCycle(edges, c);
    } else {
      var i :| 0 <= i < |c| - 1 && (c[i], c[i + 1]) !in edges;
      var d := Rotate(grown, c, i);
      assert d[0] == node;
      // The last edge of d that is not an old one starts at node; what follows it is old.
      var k := |d| - 1;
      while k > 0 && (d[k - 1], d[k]) in edges
        invariant 0 <= k <= |d| - 1
        invariant forall j :: k <= j < |d| - 1 ==> (d[j], d[j + 1]) in edges
      {
        k := k - 1;
      }
      if k == 0 {
        assert IsCycle(edges, d);
        assert false;
      }
      var tail := d[k..];
      assert (d[k - 1], d[k]) in grown && d[k] in heads;
      assert IsPath(edges, tail) && tail[0] == d[k] && tail[|tail| - 1] == node;
      assert Reaches(edges, d[k], node);
    }
  }

  /** Following edges in a finite graph ends at a node without edges, or runs in a circle. */
  lemma {:induction false} SinkOrCycle<N(!new)>(edges: set<(N, N)>, path: seq<N>) returns (sink: N)
    requires IsPath(edges, path)
    ensures ReachesCycle(edges, path[0]) || (Reaches(edges, path[0], sink) && forall e :: e in edges ==> e.0 != sink)
    decreases |Heads(edges) - Elements(path)|
  {
    sink := path[|path| - 1];
    if e :| e in edges && e.0 == path[|path| - 1] {
      var longer := path + [e.1];
      if e.1 in path {
        RepeatClosesCycle(edges, path, e);
      } else {
        LongerIsCloser(edges, path, e);
        sink := SinkOrCycle(edges, longer);
      }
    }
  }
}
