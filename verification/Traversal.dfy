/**
 The depth-first walk of the include graph, step by step.

 A vertex is marked seen when it is pushed, not when it is visited, so a vertex can sit
 on the stack, unvisited, while vertices above it are finished. `Run` is the meaning of
 the stack loop; PostorderWalk.PostorderDFS is the loop itself.
 */
module Traversal {
  import opened Lists
  import opened FeatureErrors
  import opened IncludeGraph

  /** `emitted` logs the calls of processVertex, `refused` the names allowVertex turned down. */
  datatype State = State(
    seen: set<string>, hot: set<string>, stack: seq<string>, emitted: seq<string>, refused: set<string>)

  datatype Walk = Walk(err: Option<Error>, state: State)

  datatype ScanResult = ScanResult(loop: Option<string>, seen: set<string>, stack: seq<string>)

  /** Looks at edges[n - 1], ..., edges[0], pushing what is not seen yet. */
  function Scan(edges: seq<string>, n: nat, hot: set<string>, seen: set<string>, stack: seq<string>): ScanResult
    requires n <= |edges|
  {
    if n == 0 then ScanResult(None, seen, stack)
    else
      var e := edges[n - 1];
      if e in hot then ScanResult(Some(e), seen, stack)
      else if e in seen then Scan(edges, n - 1, hot, seen, stack)
      else Scan(edges, n - 1, hot, seen + {e}, stack + [e])
  }

  /** allowVertex said no: the vertex is dropped. */
  function Refuse(s: State): State
    requires |s.stack| > 0
  {
    s.(stack := DropLast(s.stack), refused := s.refused + {Last(s.stack)})
  }

  function TopScan(g: Graph, s: State): ScanResult
    requires |s.stack| > 0
  {
    var v := Last(s.stack);
    Scan(Includes(g, v), |Includes(g, v)|, s.hot + {v}, s.seen, s.stack)
  }

  /** The vertex turns hot and its unseen includes go on the stack. */
  function Advance(g: Graph, s: State): State
    requires |s.stack| > 0
  {
    var r := TopScan(g, s);
    s.(hot := s.hot + {Last(s.stack)}, seen := r.seen, stack := r.stack)
  }

  /** Nothing left to push: the vertex leaves the stack and is processed. */
  function Finish(s: State): State
    requires |s.stack| > 0
  {
    var v := Last(s.stack);
    s.(stack := DropLast(s.stack), hot := s.hot - {v}, emitted := s.emitted + [v])
  }

  function Step(g: Graph, ign: set<string>, s: State): Walk
    requires |s.stack| > 0
  {
    if Last(s.stack) in ign then Walk(None, Refuse(s))
    else
      var r := TopScan(g, s);
      var a := Advance(g, s);
      if r.loop.Some? then Walk(Some(PartOfLoop(r.loop.value)), a)
      else if r.stack == s.stack then Walk(None, Finish(a))
      else Walk(None, a)
  }

  /** Terminates on every graph: each step marks a new name or shortens the stack. */
  function Run(g: Graph, ign: set<string>, s: State): Walk
    decreases |Names(g) - s.seen|, |s.stack|
  {
    if s.stack == [] then Walk(None, s)
    else
      var w := Step(g, ign, s);
      if w.err.Some? then w
      else
        StepShrinks(g, ign, s);
        Run(g, ign, w.state)
  }

  function Start(seen: set<string>, origin: string): State {
    State(seen + {origin}, {}, [origin], [], {})
  }

  function Dfs(g: Graph, ign: set<string>, seen: set<string>, origin: string): Walk {
    if origin !in g then Walk(Some(NotInGraph(origin)), State(seen, {}, [], [], {}))
    else if origin in seen then Walk(None, State(seen, {}, [], [], {}))
    else Run(g, ign, Start(seen, origin))
  }

  // ---- what one scan does ----

  lemma {:induction false} ScanPushes(edges: seq<string>, n: nat, hot: set<string>, seen: set<string>, stack: seq<string>)
    requires n <= |edges|
    ensures var r := Scan(edges, n, hot, seen, stack);
            && |stack| <= |r.stack| && r.stack[..|stack|] == stack
            && r.seen == seen + Elems(r.stack[|stack|..])
            && (forall x :: x in r.stack[|stack|..] ==> x in edges[..n] && x !in seen)
            && NoDup(r.stack[|stack|..])
  {
    var r := Scan(edges, n, hot, seen, stack);
    if n == 0 || edges[n - 1] in hot {
      assert r.stack[|stack|..] == [];
    } else if edges[n - 1] in seen {
      ScanPushes(edges, n - 1, hot, seen, stack);
      assert edges[..n] == edges[..n - 1] + [edges[n - 1]];
    } else {
      var e := edges[n - 1];
      ScanPushes(edges, n - 1, hot, seen + {e}, stack + [e]);
      OnePushed(stack, e, r.stack);
      var later := r.stack[|stack| + 1..];
      assert edges[..n] == edges[..n - 1] + [e];
      assert Elems([e] + later) == {e} + Elems(later);
    }
  }

  lemma OnePushed(stack: seq<string>, e: string, r: seq<string>)
    requires |stack| + 1 <= |r| && r[..|stack| + 1] == stack + [e]
    ensures r[..|stack|] == stack && r[|stack|..] == [e] + r[|stack| + 1..]
  {
    assert r[|stack|] == r[..|stack| + 1][|stack|];
    assert r[..|stack|] == r[..|stack| + 1][..|stack|];
  }

  lemma {:induction false} ScanOutcome(edges: seq<string>, n: nat, hot: set<string>, seen: set<string>, stack: seq<string>)
    requires n <= |edges|
    ensures var r := Scan(edges, n, hot, seen, stack);
            if r.loop.Some? then r.loop.value in hot && r.loop.value in edges
            else forall i :: 0 <= i < n ==> edges[i] !in hot && edges[i] in r.seen
  {
    if n > 0 && edges[n - 1] !in hot {
      var e := edges[n - 1];
      if e in seen {
        ScanOutcome(edges, n - 1, hot, seen, stack);
        ScanPushes(edges, n - 1, hot, seen, stack);
      } else {
        ScanOutcome(edges, n - 1, hot, seen + {e}, stack + [e]);
        ScanPushes(edges, n - 1, hot, seen + {e}, stack + [e]);
      }
    }
  }

  /** Pushed names end up in reverse order of their last occurrence: the earliest is on top. */
  lemma {:induction false} ScanOrder(edges: seq<string>, n: nat, hot: set<string>, seen: set<string>, stack: seq<string>)
    requires n <= |edges|
    requires forall j :: n <= j < |edges| ==> edges[j] in seen
    ensures var r := Scan(edges, n, hot, seen, stack).stack;
            && |stack| <= |r|
            && (forall k :: |stack| <= k < |r| ==> LastIndex(edges, r[k]) < n)
            && (forall k, l :: |stack| <= k < l < |r| ==> LastIndex(edges, r[l]) < LastIndex(edges, r[k]))
  {
    if n > 0 && edges[n - 1] !in hot {
      var e := edges[n - 1];
      if e in seen {
        ScanOrder(edges, n - 1, hot, seen, stack);
      } else {
        ScanOrder(edges, n - 1, hot, seen + {e}, stack + [e]);
        ScanPushes(edges, n - 1, hot, seen + {e}, stack + [e]);
        var r := Scan(edges, n, hot, seen, stack).stack;
        assert r[|stack|] == r[..|stack| + 1][|stack|] == e;
        assert LastIndex(edges, e) == n - 1;
      }
    }
  }

  lemma StepShrinks(g: Graph, ign: set<string>, s: State)
    requires |s.stack| > 0 && Step(g, ign, s).err.None?
    ensures var t := Step(g, ign, s).state;
            || |Names(g) - t.seen| < |Names(g) - s.seen|
            || (t.seen == s.seen && |t.stack| < |s.stack|)
  {
    var v := Last(s.stack);
    if v !in ign {
      var edges := Includes(g, v);
      ScanPushes(edges, |edges|, s.hot + {v}, s.seen, s.stack);
      var r := TopScan(g, s);
      var pushed := r.stack[|s.stack|..];
      assert r.stack == r.stack[..|s.stack|] + pushed;
      if pushed == [] {
        assert r.seen == s.seen;
      } else {
        var x := pushed[0];
        assert x in pushed && x in edges;
        assert x in Names(g) - s.seen && x !in Names(g) - r.seen;
        StrictSubsetSize(Names(g) - r.seen, Names(g) - s.seen);
      }
    }
  }

  lemma StrictSubsetSize<T>(a: set<T>, b: set<T>)
    requires a < b
    ensures |a| < |b|
  {
    assert b == a + (b - a);
    assert |b| == |a| + |b - a|;
  }

  // ---- what every step keeps ----

  /** Seen names are the old ones and, without overlap, those waiting, processed or refused. */
  ghost predicate Partition(ign: set<string>, seen0: set<string>, s: State) {
    && NoDup(s.stack) && NoDup(s.emitted)
    && s.seen == seen0 + Elems(s.stack) + Elems(s.emitted) + s.refused
    && (forall x :: x in s.stack ==> x !in seen0 && x !in s.emitted && x !in s.refused)
    && (forall x :: x in s.emitted ==> x !in seen0 && x !in ign)
    && s.refused <= ign && s.refused !! seen0
    && s.hot <= Elems(s.stack) && s.hot !! ign
  }

  /** The nearest hot entry below position `k`. */
  ghost function Owner(stack: seq<string>, hot: set<string>, k: nat): (i: nat)
    requires 0 < k <= |stack| && stack[0] in hot
    ensures i < k && stack[i] in hot
    ensures forall j :: i < j < k ==> stack[j] !in hot
  {
    if stack[k - 1] in hot then k - 1 else Owner(stack, hot, k - 1)
  }

  lemma {:induction false} OwnerUnique(stack: seq<string>, hot: set<string>, k: nat, i: nat)
    requires 0 < k <= |stack| && stack[0] in hot
    requires i < k && stack[i] in hot && forall j :: i < j < k ==> stack[j] !in hot
    ensures Owner(stack, hot, k) == i
  {
  }

  /** Every entry was pushed by its owner, and entries with one owner lie in list order, first on top. */
  ghost predicate Ancestry(g: Graph, origin: string, s: State) {
    && (s.stack != [] ==> s.stack[0] == origin)
    && (|s.stack| > 1 ==> origin in s.hot)
    && (forall k :: 0 < k < |s.stack| ==> s.stack[k] in Includes(g, s.stack[Owner(s.stack, s.hot, k)]))
    && (forall k, l :: 0 < k < l < |s.stack| && Owner(s.stack, s.hot, k) == Owner(s.stack, s.hot, l) ==>
          LaterSibling(g, s, k, l))
  }

  ghost predicate LaterSibling(g: Graph, s: State, k: nat, l: nat)
    requires 0 < k < l < |s.stack| && s.stack[0] in s.hot
  {
    var list := Includes(g, s.stack[Owner(s.stack, s.hot, k)]);
    LastIndex(list, s.stack[l]) < LastIndex(list, s.stack[k])
  }

  /** A scanned vertex has all its includes marked and does not include the origin. */
  ghost predicate Explored(g: Graph, origin: string, s: State) {
    forall v :: v in s.hot || v in s.emitted ==>
      origin !in Includes(g, v) && forall w :: w in Includes(g, v) ==> w in s.seen
  }

  /** Nothing is processed or refused that the origin does not lead to. */
  ghost predicate Sound(g: Graph, ign: set<string>, origin: string, s: State) {
    && (forall v :: v in s.hot || v in s.emitted ==> Reach(g, ign, origin, v))
    && (forall r :: r in s.refused ==> r == origin || IncludedFrom(g, ign, origin, r))
  }

  ghost predicate IncludedFrom(g: Graph, ign: set<string>, origin: string, r: string) {
    exists u :: Reach(g, ign, origin, u) && r in Includes(g, u)
  }

  ghost predicate Inv(g: Graph, ign: set<string>, seen0: set<string>, origin: string, s: State) {
    && Partition(ign, seen0, s) && Ancestry(g, origin, s)
    && Explored(g, origin, s) && Sound(g, ign, origin, s)
  }

  // ---- preservation, one kind of step at a time ----

  lemma {:induction false} OwnerSame(a: seq<string>, hotA: set<string>, b: seq<string>, hotB: set<string>, k: nat)
    requires 0 < k <= |a| && k <= |b| && a[0] in hotA && b[0] in hotB
    requires forall j :: 0 <= j < k ==> a[j] == b[j] && (a[j] in hotA <==> b[j] in hotB)
    ensures Owner(a, hotA, k) == Owner(b, hotB, k)
  {
    OwnerUnique(b, hotB, k, Owner(a, hotA, k));
  }

  /** Removing the top entry, which may have been hot, leaves the rest of the stack as it was. */
  lemma PopAncestry(g: Graph, origin: string, s: State, t: State)
    requires |s.stack| > 0 && NoDup(s.stack) && Ancestry(g, origin, s)
    requires t.stack == DropLast(s.stack)
    requires t.hot == s.hot || t.hot == s.hot - {Last(s.stack)}
    ensures Ancestry(g, origin, t)
  {
    if |t.stack| > 1 {
      forall k | 0 < k < |t.stack|
        ensures Owner(t.stack, t.hot, k) == Owner(s.stack, s.hot, k)
      {
        OwnerSame(t.stack, t.hot, s.stack, s.hot, k);
      }
      forall k, l | 0 < k < l < |t.stack| && Owner(t.stack, t.hot, k) == Owner(t.stack, t.hot, l)
        ensures LaterSibling(g, t, k, l)
      {
        assert LaterSibling(g, s, k, l);
      }
    }
  }

  lemma PopPartition(s: State)
    requires |s.stack| > 0
    ensures Elems(s.stack) == Elems(DropLast(s.stack)) + {Last(s.stack)}
    ensures NoDup(s.stack) ==> Last(s.stack) !in DropLast(s.stack)
  {
    assert s.stack == DropLast(s.stack) + [Last(s.stack)];
  }

  lemma RefuseKeeps(g: Graph, ign: set<string>, seen0: set<string>, origin: string, s: State)
    requires |s.stack| > 0 && Inv(g, ign, seen0, origin, s) && Last(s.stack) in ign
    ensures Inv(g, ign, seen0, origin, Refuse(s))
  {
    var t := Refuse(s);
    PopPartition(s);
    PopAncestry(g, origin, s, t);
    var v := Last(s.stack);
    if |s.stack| > 1 {
      var i := Owner(s.stack, s.hot, |s.stack| - 1);
      assert Reach(g, ign, origin, s.stack[i]) && v in Includes(g, s.stack[i]);
      assert IncludedFrom(g, ign, origin, v);
    }
  }

  lemma FinishKeeps(g: Graph, ign: set<string>, seen0: set<string>, origin: string, s: State)
    requires |s.stack| > 0 && Inv(g, ign, seen0, origin, s) && Last(s.stack) in s.hot
    ensures Inv(g, ign, seen0, origin, Finish(s))
  {
    var t := Finish(s);
    PopPartition(s);
    PopAncestry(g, origin, s, t);
    NoDupSnoc(s.emitted, Last(s.stack));
  }

  lemma AdvancePartition(g: Graph, ign: set<string>, seen0: set<string>, s: State)
    requires |s.stack| > 0 && Partition(ign, seen0, s) && Last(s.stack) !in ign
    ensures Partition(ign, seen0, Advance(g, s))
  {
    var v := Last(s.stack);
    var edges := Includes(g, v);
    ScanPushes(edges, |edges|, s.hot + {v}, s.seen, s.stack);
    var t := Advance(g, s);
    var pushed := t.stack[|s.stack|..];
    assert t.stack == s.stack + pushed;
    assert Elems(t.stack) == Elems(s.stack) + Elems(pushed);
    NoDupConcat(s.stack, pushed);
  }

  lemma AdvanceAncestry(g: Graph, origin: string, s: State)
    requires |s.stack| > 0 && NoDup(s.stack) && s.hot <= Elems(s.stack) <= s.seen
    requires Ancestry(g, origin, s)
    ensures Ancestry(g, origin, Advance(g, s))
  {
    var t := Advance(g, s);
    AdvanceOwners(g, s);
    AdvanceStack(g, s);
    forall k | 0 < k < |t.stack| ensures t.stack[k] in Includes(g, t.stack[Owner(t.stack, t.hot, k)]) {
    }
    forall k, l | 0 < k < l < |t.stack| && Owner(t.stack, t.hot, k) == Owner(t.stack, t.hot, l)
      ensures LaterSibling(g, t, k, l)
    {
      AdvanceSiblings(g, origin, s, k, l);
    }
  }

  lemma AdvanceSiblings(g: Graph, origin: string, s: State, k: nat, l: nat)
    requires |s.stack| > 0 && NoDup(s.stack) && s.hot <= Elems(s.stack) <= s.seen
    requires Ancestry(g, origin, s)
    requires 0 < k < l < |Advance(g, s).stack| && Advance(g, s).stack[0] in Advance(g, s).hot
    requires Owner(Advance(g, s).stack, Advance(g, s).hot, k) == Owner(Advance(g, s).stack, Advance(g, s).hot, l)
    ensures LaterSibling(g, Advance(g, s), k, l)
  {
    AdvanceKeepsEntry(g, s, 0);
    if l < |s.stack| {
      OldSiblings(g, origin, s, k, l);
    } else if |s.stack| <= k {
      NewSiblings(g, s, k, l);
    } else {
      OwnerAbove(g, s, l);
      assert false;
    }
  }

  lemma OldSiblings(g: Graph, origin: string, s: State, k: nat, l: nat)
    requires |s.stack| > 0 && NoDup(s.stack) && s.hot <= Elems(s.stack) <= s.seen
    requires Ancestry(g, origin, s)
    requires 0 < k < l < |s.stack| <= |Advance(g, s).stack| && Advance(g, s).stack[0] in Advance(g, s).hot
    requires Owner(Advance(g, s).stack, Advance(g, s).hot, k) == Owner(Advance(g, s).stack, Advance(g, s).hot, l)
    ensures LaterSibling(g, Advance(g, s), k, l)
  {
    OwnerBelow(g, s, k);
    OwnerBelow(g, s, l);
    AdvanceKeepsEntry(g, s, k);
    AdvanceKeepsEntry(g, s, l);
    AdvanceKeepsEntry(g, s, Owner(s.stack, s.hot, k));
    assert LaterSibling(g, s, k, l);
  }

  lemma NewSiblings(g: Graph, s: State, k: nat, l: nat)
    requires |s.stack| > 0 && NoDup(s.stack) && s.hot <= Elems(s.stack) <= s.seen
    requires |s.stack| > 1 ==> s.stack[0] in s.hot
    requires 0 < |s.stack| <= k < l < |Advance(g, s).stack| && Advance(g, s).stack[0] in Advance(g, s).hot
    ensures LaterSibling(g, Advance(g, s), k, l)
  {
    OwnerAbove(g, s, k);
    AdvanceKeepsEntry(g, s, |s.stack| - 1);
    var edges := Includes(g, Last(s.stack));
    ScanOrder(edges, |edges|, s.hot + {Last(s.stack)}, s.seen, s.stack);
  }

  lemma AdvanceKeepsEntry(g: Graph, s: State, k: nat)
    requires k < |s.stack|
    ensures |s.stack| <= |Advance(g, s).stack| && Advance(g, s).stack[k] == s.stack[k]
  {
    var edges := Includes(g, Last(s.stack));
    ScanPushes(edges, |edges|, s.hot + {Last(s.stack)}, s.seen, s.stack);
    assert Advance(g, s).stack[..|s.stack|][k] == s.stack[k];
  }

  lemma AdvanceStack(g: Graph, s: State)
    requires |s.stack| > 0
    ensures var n, t, edges := |s.stack|, Advance(g, s).stack, Includes(g, Last(s.stack));
            && n <= |t| && t[..n] == s.stack && (forall k :: 0 <= k < n ==> t[k] == s.stack[k])
            && (forall k :: n <= k < |t| ==> t[k] in edges && t[k] !in s.seen)
            && (forall k, l :: n <= k < l < |t| ==> LastIndex(edges, t[l]) < LastIndex(edges, t[k]))
  {
    var v, n := Last(s.stack), |s.stack|;
    var edges := Includes(g, v);
    ScanPushes(edges, |edges|, s.hot + {v}, s.seen, s.stack);
    ScanOrder(edges, |edges|, s.hot + {v}, s.seen, s.stack);
    var t := Advance(g, s).stack;
    forall k | 0 <= k < n ensures t[k] == s.stack[k] {
      assert t[..n][k] == s.stack[k];
    }
    forall k | n <= k < |t| ensures t[k] in edges && t[k] !in s.seen {
      assert t[n..][k - n] in t[n..];
    }
  }

  lemma OwnerBelow(g: Graph, s: State, k: nat)
    requires NoDup(s.stack) && s.hot <= Elems(s.stack) <= s.seen && 0 < k < |s.stack| && s.stack[0] in s.hot
    requires |s.stack| <= |Advance(g, s).stack| && Advance(g, s).stack[0] in Advance(g, s).hot
    ensures Owner(Advance(g, s).stack, Advance(g, s).hot, k) == Owner(s.stack, s.hot, k)
  {
    AdvanceStack(g, s);
    OwnerSame(Advance(g, s).stack, Advance(g, s).hot, s.stack, s.hot, k);
  }

  lemma OwnerAbove(g: Graph, s: State, k: nat)
    requires NoDup(s.stack) && s.hot <= Elems(s.stack) <= s.seen && 0 < |s.stack| <= k < |Advance(g, s).stack|
    requires Advance(g, s).stack[0] in Advance(g, s).hot
    ensures Owner(Advance(g, s).stack, Advance(g, s).hot, k) == |s.stack| - 1
  {
    AdvanceStack(g, s);
    OwnerUnique(Advance(g, s).stack, Advance(g, s).hot, k, |s.stack| - 1);
  }

  lemma AdvanceOwners(g: Graph, s: State)
    requires |s.stack| > 0 && NoDup(s.stack) && s.hot <= Elems(s.stack) <= s.seen
    requires |s.stack| > 1 ==> s.stack[0] in s.hot
    ensures var t := Advance(g, s);
            && |s.stack| <= |t.stack| && t.stack[0] in t.hot
            && (forall k :: 0 < k < |s.stack| ==> Owner(t.stack, t.hot, k) == Owner(s.stack, s.hot, k))
            && (forall k :: |s.stack| <= k < |t.stack| ==> Owner(t.stack, t.hot, k) == |s.stack| - 1)
  {
    var n, t := |s.stack|, Advance(g, s);
    AdvanceKeepsEntry(g, s, 0);
    assert t.stack[0] in t.hot;
    forall k | 0 < k < n ensures Owner(t.stack, t.hot, k) == Owner(s.stack, s.hot, k) {
      OwnerBelow(g, s, k);
    }
    forall k | n <= k < |t.stack| ensures Owner(t.stack, t.hot, k) == n - 1 {
      OwnerAbove(g, s, k);
    }
  }

  lemma AdvanceKeeps(g: Graph, ign: set<string>, seen0: set<string>, origin: string, s: State)
    requires |s.stack| > 0 && Inv(g, ign, seen0, origin, s)
    requires Last(s.stack) !in ign && TopScan(g, s).loop.None?
    ensures Inv(g, ign, seen0, origin, Advance(g, s))
  {
    var v := Last(s.stack);
    var edges := Includes(g, v);
    AdvancePartition(g, ign, seen0, s);
    AdvanceAncestry(g, origin, s);
    ScanPushes(edges, |edges|, s.hot + {v}, s.seen, s.stack);
    ScanOutcome(edges, |edges|, s.hot + {v}, s.seen, s.stack);
    HotTopReached(g, ign, seen0, origin, s);
  }

  lemma HotTopReached(g: Graph, ign: set<string>, seen0: set<string>, origin: string, s: State)
    requires |s.stack| > 0 && Inv(g, ign, seen0, origin, s) && Last(s.stack) !in ign
    ensures Reach(g, ign, origin, Last(s.stack))
  {
    if |s.stack| == 1 {
      ReachRefl(g, ign, origin);
    } else {
      var i := Owner(s.stack, s.hot, |s.stack| - 1);
      ReachSnoc(g, ign, origin, s.stack[i], Last(s.stack));
    }
  }

  lemma StepKeeps(g: Graph, ign: set<string>, seen0: set<string>, origin: string, s: State)
    requires |s.stack| > 0 && Inv(g, ign, seen0, origin, s) && Step(g, ign, s).err.None?
    ensures Inv(g, ign, seen0, origin, Step(g, ign, s).state)
  {
    if Last(s.stack) in ign {
      RefuseKeeps(g, ign, seen0, origin, s);
    } else {
      AdvanceKeeps(g, ign, seen0, origin, s);
      if TopScan(g, s).stack == s.stack {
        FinishKeeps(g, ign, seen0, origin, Advance(g, s));
      }
    }
  }

  lemma {:induction false} RunKeeps(g: Graph, ign: set<string>, seen0: set<string>, origin: string, s: State)
    requires Inv(g, ign, seen0, origin, s) && Run(g, ign, s).err.None?
    ensures Inv(g, ign, seen0, origin, Run(g, ign, s).state)
    ensures Run(g, ign, s).state.stack == []
    decreases |Names(g) - s.seen|, |s.stack|
  {
    if s.stack != [] {
      StepKeeps(g, ign, seen0, origin, s);
      StepShrinks(g, ign, s);
      RunKeeps(g, ign, seen0, origin, Step(g, ign, s).state);
    }
  }

  lemma StartInv(g: Graph, ign: set<string>, seen0: set<string>, origin: string)
    requires origin !in seen0
    ensures Inv(g, ign, seen0, origin, Start(seen0, origin))
  {
  }
}
