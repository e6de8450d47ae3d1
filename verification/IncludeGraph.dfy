/**
 The include graph of features, with ignored names taken out.

 `Reach` and `OnCycle` are the yardsticks for everything the traversal computes;
 they are defined by paths and know nothing about stacks.
 */
module IncludeGraph {
  import opened Lists

  type Graph = map<string, seq<string>>

  /** Looking up a name the graph does not have gives no edges, as indexing a Go map does. */
  function Includes(g: Graph, v: string): seq<string> {
    if v in g then g[v] else []
  }

  ghost predicate Edge(g: Graph, ign: set<string>, u: string, v: string) {
    u !in ign && v !in ign && v in Includes(g, u)
  }

  ghost predicate Path(g: Graph, ign: set<string>, p: seq<string>, u: string, v: string) {
    && |p| > 0 && p[0] == u && Last(p) == v
    && u !in ign
    && forall i :: 0 <= i < |p| - 1 ==> Edge(g, ign, p[i], p[i + 1])
  }

  ghost predicate Reach(g: Graph, ign: set<string>, u: string, v: string) {
    exists p :: Path(g, ign, p, u, v)
  }

  ghost predicate OnCycle(g: Graph, ign: set<string>, v: string) {
    exists w :: Edge(g, ign, v, w) && Reach(g, ign, w, v)
  }

  ghost predicate Acyclic(g: Graph, ign: set<string>) {
    forall v :: !OnCycle(g, ign, v)
  }

  /** Every name the graph mentions, as a key or in an include list. */
  function Names(g: Graph): set<string> {
    g.Keys + set v, w | v in g.Keys && w in g[v] :: w
  }

  lemma ReachRefl(g: Graph, ign: set<string>, u: string)
    requires u !in ign
    ensures Reach(g, ign, u, u)
  {
    assert Path(g, ign, [u], u, u);
  }

  lemma ReachEdge(g: Graph, ign: set<string>, u: string, v: string)
    requires Edge(g, ign, u, v)
    ensures Reach(g, ign, u, v)
  {
    assert Path(g, ign, [u, v], u, v);
  }

  lemma ReachTrans(g: Graph, ign: set<string>, u: string, v: string, w: string)
    requires Reach(g, ign, u, v) && Reach(g, ign, v, w)
    ensures Reach(g, ign, u, w)
  {
    var p :| Path(g, ign, p, u, v);
    var q :| Path(g, ign, q, v, w);
    var r := p + q[1..];
    forall i | 0 <= i < |r| - 1 ensures Edge(g, ign, r[i], r[i + 1]) {
      if i >= |p| - 1 {
        assert r[i] == q[i - (|p| - 1)] && r[i + 1] == q[i + 1 - (|p| - 1)];
      }
    }
    assert Path(g, ign, r, u, w);
  }

  lemma ReachSnoc(g: Graph, ign: set<string>, u: string, v: string, w: string)
    requires Reach(g, ign, u, v) && Edge(g, ign, v, w)
    ensures Reach(g, ign, u, w)
  {
    ReachEdge(g, ign, v, w);
    ReachTrans(g, ign, u, v, w);
  }

  lemma ReachEnds(g: Graph, ign: set<string>, u: string, v: string)
    requires Reach(g, ign, u, v)
    ensures u !in ign && v !in ign
    ensures u == v || v in Names(g)
  {
    var p :| Path(g, ign, p, u, v);
    if |p| > 1 {
      assert Edge(g, ign, p[|p| - 2], p[|p| - 2 + 1]);
    }
  }

  /** A set closed under the edges keeps whatever it reaches. */
  lemma {:induction false} ClosedUnderReach(g: Graph, ign: set<string>, s: set<string>, u: string, v: string)
    requires u in s && Reach(g, ign, u, v)
    requires forall a, b :: a in s && Edge(g, ign, a, b) ==> b in s
    ensures v in s
  {
    var p :| Path(g, ign, p, u, v);
    ClosedUnderPath(g, ign, s, p, |p| - 1);
  }

  lemma {:induction false} ClosedUnderPath(g: Graph, ign: set<string>, s: set<string>, p: seq<string>, i: nat)
    requires i < |p| && p[0] in s
    requires forall k :: 0 <= k < |p| - 1 ==> Edge(g, ign, p[k], p[k + 1])
    requires forall a, b :: a in s && Edge(g, ign, a, b) ==> b in s
    ensures p[i] in s
  {
    if i > 0 {
      ClosedUnderPath(g, ign, s, p, i - 1);
      assert Edge(g, ign, p[i - 1], p[i - 1 + 1]);
    }
  }

  /** The first step of a path. */
  lemma ReachFirst(g: Graph, ign: set<string>, u: string, v: string) returns (w: string)
    requires Reach(g, ign, u, v) && u != v
    ensures Edge(g, ign, u, w) && Reach(g, ign, w, v)
  {
    var p :| Path(g, ign, p, u, v);
    w := p[1];
    assert Edge(g, ign, p[0], p[0 + 1]);
    forall i | 0 <= i < |p[1..]| - 1 ensures Edge(g, ign, p[1..][i], p[1..][i + 1]) {
      assert Edge(g, ign, p[i + 1], p[i + 1 + 1]);
    }
    assert Path(g, ign, p[1..], w, v);
  }

  /** The last step of a path. */
  lemma ReachLast(g: Graph, ign: set<string>, u: string, v: string) returns (w: string)
    requires Reach(g, ign, u, v) && u != v
    ensures Reach(g, ign, u, w) && Edge(g, ign, w, v)
  {
    var p :| Path(g, ign, p, u, v);
    w := p[|p| - 2];
    assert Edge(g, ign, p[|p| - 2], p[|p| - 2 + 1]);
    assert Path(g, ign, p[..|p| - 1], u, w);
  }

  lemma CycleIffMutual(g: Graph, ign: set<string>, u: string, v: string)
    requires u != v && Reach(g, ign, u, v) && Reach(g, ign, v, u)
    ensures OnCycle(g, ign, u)
  {
    var w := ReachFirst(g, ign, u, v);
    ReachTrans(g, ign, w, v, u);
  }

  /** What a set of roots reaches: the meaning of a feature list. */
  ghost function Closure(g: Graph, ign: set<string>, roots: set<string>): (r: set<string>)
    ensures forall v :: v in r <==> exists u :: u in roots && Reach(g, ign, u, v)
  {
    var r := set v | v in roots + Names(g) && exists u :: u in roots && Reach(g, ign, u, v);
    forall v, u | u in roots && Reach(g, ign, u, v) ensures v in r {
      ReachEnds(g, ign, u, v);
    }
    r
  }
}
