/**
 What the walk visits, in which order, and which cycles it reports.
 */
module WalkTheorems {
  import opened Lists
  import opened IncludeGraph
  import opened Traversal

  // ---- which names are visited ----

  /** A seen set left behind by finished walks. */
  ghost predicate Closed(g: Graph, ign: set<string>, seen: set<string>) {
    forall u, w :: u in seen && u !in ign && w in Includes(g, u) ==> w in seen
  }

  lemma DfsInv(g: Graph, ign: set<string>, seen0: set<string>, origin: string)
    requires Dfs(g, ign, seen0, origin).err.None?
    ensures var s := Dfs(g, ign, seen0, origin).state;
            && Inv(g, ign, seen0, origin, s) && s.stack == []
            && origin in s.seen && (origin in seen0 ==> s.emitted == [] && s.refused == {})
  {
    if origin !in seen0 {
      StartInv(g, ign, seen0, origin);
      RunKeeps(g, ign, seen0, origin, Start(seen0, origin));
      RunGrows(g, ign, Start(seen0, origin));
    }
  }

  lemma StepGrows(g: Graph, ign: set<string>, s: State)
    requires |s.stack| > 0
    ensures s.seen <= Step(g, ign, s).state.seen
  {
    var edges := Includes(g, Last(s.stack));
    ScanPushes(edges, |edges|, s.hot + {Last(s.stack)}, s.seen, s.stack);
  }

  lemma {:induction false} RunGrows(g: Graph, ign: set<string>, s: State)
    ensures s.seen <= Run(g, ign, s).state.seen
    decreases |Names(g) - s.seen|, |s.stack|
  {
    if s.stack != [] {
      StepGrows(g, ign, s);
      if Step(g, ign, s).err.None? {
        StepShrinks(g, ign, s);
        RunGrows(g, ign, Step(g, ign, s).state);
      }
    }
  }

  /**
   With nothing but finished walks behind it, a walk that succeeds processes exactly the new
   names its origin reaches, each once, and turns down exactly the new ignored names it meets.
   */
  lemma DfsVisits(g: Graph, ign: set<string>, seen0: set<string>, origin: string)
    requires Closed(g, ign, seen0) && Dfs(g, ign, seen0, origin).err.None?
    ensures var s := Dfs(g, ign, seen0, origin).state;
            && Closed(g, ign, s.seen) && origin in s.seen
            && s.seen == seen0 + Elems(s.emitted) + s.refused
            && NoDup(s.emitted)
            && (forall v :: v in s.emitted <==> v !in seen0 && Reach(g, ign, origin, v))
            && (forall r :: r in s.refused <==>
                  r in ign && r !in seen0 && (r == origin || IncludedFrom(g, ign, origin, r)))
  {
    DfsInv(g, ign, seen0, origin);
    var s := Dfs(g, ign, seen0, origin).state;
    assert Elems(s.stack) == {};
    forall v | Reach(g, ign, origin, v) ensures v in s.seen && v !in ign {
      ReachEnds(g, ign, origin, v);
      ClosedUnderReach(g, ign, s.seen, origin, v);
    }
    forall v | v in s.emitted ensures Reach(g, ign, origin, v) {
    }
    forall r | r in ign && r !in seen0 && IncludedFrom(g, ign, origin, r) ensures r in s.refused {
      var u :| Reach(g, ign, origin, u) && r in Includes(g, u);
      assert u in s.seen && u !in ign;
    }
  }

  // ---- the loop check ----

  /** Hot entries of the stack form a path of includes. */
  lemma {:induction false} HotPath(g: Graph, ign: set<string>, seen0: set<string>, origin: string, s: State, i: nat, j: nat)
    requires Inv(g, ign, seen0, origin, s)
    requires i <= j < |s.stack| && s.stack[i] in s.hot && s.stack[j] in s.hot
    ensures Reach(g, ign, s.stack[i], s.stack[j])
  {
    if i == j {
      ReachRefl(g, ign, s.stack[i]);
    } else {
      var k := Owner(s.stack, s.hot, j);
      HotPath(g, ign, seen0, origin, s, i, k);
      ReachSnoc(g, ign, s.stack[i], s.stack[k], s.stack[j]);
    }
  }

  lemma HeatKeeps(g: Graph, ign: set<string>, seen0: set<string>, origin: string, s: State, e: string)
    requires |s.stack| > 0 && Inv(g, ign, seen0, origin, s) && Last(s.stack) !in ign
    requires e in s.hot + {Last(s.stack)}
    ensures Reach(g, ign, e, Last(s.stack)) && Reach(g, ign, origin, e)
  {
    HotTopReached(g, ign, seen0, origin, s);
    var v, n := Last(s.stack), |s.stack|;
    if e == v {
      ReachRefl(g, ign, v);
    } else {
      var i :| 0 <= i < n && s.stack[i] == e;
      var k := Owner(s.stack, s.hot, n - 1);
      HotPath(g, ign, seen0, origin, s, i, k);
      ReachSnoc(g, ign, e, s.stack[k], v);
    }
  }

  lemma {:induction false} RunLoopSound(g: Graph, ign: set<string>, seen0: set<string>, origin: string, s: State)
    requires Inv(g, ign, seen0, origin, s) && Run(g, ign, s).err.Some?
    ensures Run(g, ign, s).err.value.PartOfLoop?
    ensures var x := Run(g, ign, s).err.value.name;
            OnCycle(g, ign, x) && Reach(g, ign, origin, x)
    decreases |Names(g) - s.seen|, |s.stack|
  {
    var w := Step(g, ign, s);
    if w.err.None? {
      StepKeeps(g, ign, seen0, origin, s);
      StepShrinks(g, ign, s);
      RunLoopSound(g, ign, seen0, origin, w.state);
    } else {
      var v, e := Last(s.stack), TopScan(g, s).loop.value;
      var edges := Includes(g, v);
      ScanOutcome(edges, |edges|, s.hot + {v}, s.seen, s.stack);
      HeatKeeps(g, ign, seen0, origin, s, e);
      ReachEnds(g, ign, e, v);
      if e == v {
        assert Edge(g, ign, v, v);
      } else {
        ReachEdge(g, ign, v, e);
        CycleIffMutual(g, ign, e, v);
      }
    }
  }

  /** An error names a feature on a real cycle of non-ignored includes below the origin. */
  lemma LoopCheckSound(g: Graph, ign: set<string>, seen0: set<string>, origin: string)
    requires Dfs(g, ign, seen0, origin).err.Some? && origin in g
    ensures Dfs(g, ign, seen0, origin).err.value.PartOfLoop?
    ensures var x := Dfs(g, ign, seen0, origin).err.value.name;
            OnCycle(g, ign, x) && Reach(g, ign, origin, x)
  {
    StartInv(g, ign, seen0, origin);
    RunLoopSound(g, ign, seen0, origin, Start(seen0, origin));
  }

  /** Success from a fresh seen set means that the origin lies on no cycle. */
  lemma LoopCheckCompleteForOrigin(g: Graph, ign: set<string>, origin: string)
    requires Dfs(g, ign, {}, origin).err.None?
    ensures !OnCycle(g, ign, origin)
  {
    DfsInv(g, ign, {}, origin);
    DfsVisits(g, ign, {}, origin);
    assert forall u :: Reach(g, ign, origin, u) ==> !Edge(g, ign, u, origin);
    if OnCycle(g, ign, origin) {
      var w :| Edge(g, ign, origin, w) && Reach(g, ign, w, origin);
      ReachEdge(g, ign, origin, w);
      var u := w;
      if w != origin {
        u := ReachLast(g, ign, w, origin);
        ReachTrans(g, ign, origin, w, u);
      }
      assert false;
    }
  }

  /** Walking from every feature in turn, each time afresh, is an exact test for cycles. */
  lemma LoopCheckExactOverAllOrigins(g: Graph, ign: set<string>)
    ensures (forall o :: o in g ==> Dfs(g, ign, {}, o).err.None?) <==> Acyclic(g, ign)
  {
    if Acyclic(g, ign) {
      forall o | o in g ensures Dfs(g, ign, {}, o).err.None? {
        AcyclicSucceeds(g, ign, {}, o);
      }
    } else {
      var v :| OnCycle(g, ign, v);
      if Dfs(g, ign, {}, v).err.None? {
        LoopCheckCompleteForOrigin(g, ign, v);
      }
    }
  }

  lemma AcyclicSucceeds(g: Graph, ign: set<string>, seen0: set<string>, origin: string)
    requires Acyclic(g, ign) && origin in g
    ensures Dfs(g, ign, seen0, origin).err.None?
  {
    if Dfs(g, ign, seen0, origin).err.Some? {
      LoopCheckSound(g, ign, seen0, origin);
    }
  }

  // ---- the order of processing ----

  /**
   In the include list of `v`, no entry is reachable from a different entry whose last
   occurrence comes earlier.
   */
  ghost predicate OrderedAt(g: Graph, ign: set<string>, v: string) {
    forall x, y :: x in Includes(g, v) && y in Includes(g, v) && x != y && Reach(g, ign, x, y) ==>
      LastIndex(Includes(g, v), y) < LastIndex(Includes(g, v), x)
  }

  ghost predicate OrderedBelow(g: Graph, ign: set<string>, origin: string) {
    forall v :: Reach(g, ign, origin, v) ==> OrderedAt(g, ign, v)
  }

  /** Every processed name comes after all non-ignored names it includes. */
  ghost predicate IncludesFirst(g: Graph, ign: set<string>, before: set<string>, order: seq<string>) {
    forall j, w :: 0 <= j < |order| && w in Includes(g, order[j]) && w !in ign ==>
      w in before || w in order[..j]
  }

  lemma FirstHotAbove(s: State, k: nat) returns (l: nat)
    requires NoDup(s.stack) && 0 < k < |s.stack| - 1
    requires s.stack[0] in s.hot && s.stack[k] !in s.hot && Last(s.stack) in s.hot
    ensures k < l < |s.stack| && s.stack[l] in s.hot
    ensures Owner(s.stack, s.hot, l) == Owner(s.stack, s.hot, k)
  {
    l := k + 1;
    while s.stack[l] !in s.hot
      invariant k < l < |s.stack|
      invariant forall j :: k <= j < l ==> s.stack[j] !in s.hot
      decreases |s.stack| - l
    {
      l := l + 1;
    }
    OwnerUnique(s.stack, s.hot, l, Owner(s.stack, s.hot, k));
  }

  /** An entry that still waits under a hot top has a sibling that comes first and leads to the top. */
  lemma WaitingSibling(g: Graph, ign: set<string>, seen0: set<string>, origin: string, s: State, k: nat)
    returns (u: string, x: string)
    requires Inv(g, ign, seen0, origin, s) && k < |s.stack|
    requires s.stack[k] !in s.hot && Last(s.stack) in s.hot
    ensures Reach(g, ign, origin, u)
    ensures x in Includes(g, u) && s.stack[k] in Includes(g, u) && x != s.stack[k]
    ensures LastIndex(Includes(g, u), x) < LastIndex(Includes(g, u), s.stack[k])
    ensures Reach(g, ign, x, Last(s.stack))
  {
    assert k > 0 && k < |s.stack| - 1;
    var l := FirstHotAbove(s, k);
    u, x := s.stack[Owner(s.stack, s.hot, k)], s.stack[l];
    SiblingsInOrder(g, origin, s, k, l);
    HotPath(g, ign, seen0, origin, s, l, |s.stack| - 1);
  }

  lemma SiblingsInOrder(g: Graph, origin: string, s: State, k: nat, l: nat)
    requires Ancestry(g, origin, s) && NoDup(s.stack) && 0 < k < l < |s.stack|
    requires s.stack[0] in s.hot && Owner(s.stack, s.hot, k) == Owner(s.stack, s.hot, l)
    ensures var list := Includes(g, s.stack[Owner(s.stack, s.hot, k)]);
            && s.stack[k] in list && s.stack[l] in list && s.stack[l] != s.stack[k]
            && LastIndex(list, s.stack[l]) < LastIndex(list, s.stack[k])
  {
    assert LaterSibling(g, s, k, l);
  }

  /** When a vertex is finished, nothing it includes still waits on an ordered stack. */
  lemma FinishedIncludesDone(g: Graph, ign: set<string>, seen0: set<string>, origin: string, s: State, w: string)
    requires |s.stack| > 0 && Inv(g, ign, seen0, origin, s) && Last(s.stack) in s.hot
    requires OrderedBelow(g, ign, origin)
    requires w in Includes(g, Last(s.stack)) && w !in ign && w !in s.hot
    ensures w in seen0 || w in s.emitted
  {
    if w in s.stack {
      var k :| 0 <= k < |s.stack| && s.stack[k] == w;
      var u, x := WaitingSibling(g, ign, seen0, origin, s, k);
      assert OrderedAt(g, ign, u);
      ReachSnoc(g, ign, x, Last(s.stack), w);
      assert false;
    }
  }

  lemma StepOrdered(g: Graph, ign: set<string>, seen0: set<string>, origin: string, s: State)
    requires |s.stack| > 0 && Inv(g, ign, seen0, origin, s) && Step(g, ign, s).err.None?
    requires OrderedBelow(g, ign, origin) && IncludesFirst(g, ign, seen0, s.emitted)
    ensures IncludesFirst(g, ign, seen0, Step(g, ign, s).state.emitted)
  {
    if Last(s.stack) !in ign && TopScan(g, s).stack == s.stack {
      FinishOrdered(g, ign, seen0, origin, s);
    }
  }

  lemma {:induction false} RunOrdered(g: Graph, ign: set<string>, seen0: set<string>, origin: string, s: State)
    requires Inv(g, ign, seen0, origin, s) && Run(g, ign, s).err.None?
    requires OrderedBelow(g, ign, origin) && IncludesFirst(g, ign, seen0, s.emitted)
    ensures IncludesFirst(g, ign, seen0, Run(g, ign, s).state.emitted)
    decreases |Names(g) - s.seen|, |s.stack|
  {
    if s.stack != [] {
      StepKeeps(g, ign, seen0, origin, s);
      StepShrinks(g, ign, s);
      StepOrdered(g, ign, seen0, origin, s);
      RunOrdered(g, ign, seen0, origin, Step(g, ign, s).state);
    }
  }

  lemma FinishOrdered(g: Graph, ign: set<string>, seen0: set<string>, origin: string, s: State)
    requires |s.stack| > 0 && Inv(g, ign, seen0, origin, s) && Last(s.stack) !in ign
    requires TopScan(g, s).loop.None? && TopScan(g, s).stack == s.stack
    requires OrderedBelow(g, ign, origin) && IncludesFirst(g, ign, seen0, s.emitted)
    ensures IncludesFirst(g, ign, seen0, s.emitted + [Last(s.stack)])
  {
    var v, a := Last(s.stack), Advance(g, s);
    var edges := Includes(g, v);
    AdvanceKeeps(g, ign, seen0, origin, s);
    ScanOutcome(edges, |edges|, s.hot + {v}, s.seen, s.stack);
    forall w | w in edges && w !in ign ensures w in seen0 || w in s.emitted {
      FinishedIncludesDone(g, ign, seen0, origin, a, w);
    }
    SnocOrdered(g, ign, seen0, s.emitted, v);
  }

  lemma SnocOrdered(g: Graph, ign: set<string>, before: set<string>, order: seq<string>, v: string)
    requires IncludesFirst(g, ign, before, order)
    requires forall w :: w in Includes(g, v) && w !in ign ==> w in before || w in order
    ensures IncludesFirst(g, ign, before, order + [v])
  {
    var o := order + [v];
    forall j, w | 0 <= j < |o| && w in Includes(g, o[j]) && w !in ign
      ensures w in before || w in o[..j]
    {
      assert j < |order| ==> o[..j] == order[..j];
      assert j == |order| ==> o[..j] == order;
    }
  }

  /** The conditional order guarantee of one walk, after any finished walks. */
  lemma DfsOrdered(g: Graph, ign: set<string>, seen0: set<string>, origin: string)
    requires Dfs(g, ign, seen0, origin).err.None? && OrderedBelow(g, ign, origin)
    ensures IncludesFirst(g, ign, seen0, Dfs(g, ign, seen0, origin).state.emitted)
  {
    if origin in g && origin !in seen0 {
      StartInv(g, ign, seen0, origin);
      RunOrdered(g, ign, seen0, origin, Start(seen0, origin));
    }
  }

  /** A list in which everything comes after its includes has no cycle through its members. */
  lemma IncludesFirstAcyclic(g: Graph, ign: set<string>, order: seq<string>, v: string)
    requires NoDup(order) && IncludesFirst(g, ign, {}, order) && v in order
    ensures !OnCycle(g, ign, v)
  {
    if OnCycle(g, ign, v) {
      var w :| Edge(g, ign, v, w) && Reach(g, ign, w, v);
      var j :| 0 <= j < |order| && order[j] == v;
      assert w in order[..j];
      BelowStays(g, ign, order, j, w, v);
      assert false;
    }
  }

  lemma BelowStays(g: Graph, ign: set<string>, order: seq<string>, j: nat, w: string, v: string)
    requires IncludesFirst(g, ign, {}, order) && j <= |order| && w in order[..j] && Reach(g, ign, w, v)
    ensures v in order[..j]
  {
    var s := Elems(order[..j]);
    forall a, b | a in s && Edge(g, ign, a, b) ensures b in s {
      var i :| 0 <= i < j && order[i] == a;
      assert b in order[..i];
      assert order[..i] <= order[..j];
    }
    ClosedUnderReach(g, ign, s, w, v);
  }

  /** Where include lists are ordered, the loop check misses nothing the origin reaches. */
  lemma LoopCheckExactWhenOrdered(g: Graph, ign: set<string>, origin: string)
    requires origin in g && OrderedBelow(g, ign, origin)
    ensures Dfs(g, ign, {}, origin).err.None? <==>
            forall v :: Reach(g, ign, origin, v) ==> !OnCycle(g, ign, v)
  {
    if Dfs(g, ign, {}, origin).err.Some? {
      LoopCheckSound(g, ign, {}, origin);
    } else {
      DfsOrdered(g, ign, {}, origin);
      DfsVisits(g, ign, {}, origin);
      forall v | Reach(g, ign, origin, v) ensures !OnCycle(g, ign, v) {
        IncludesFirstAcyclic(g, ign, Dfs(g, ign, {}, origin).state.emitted, v);
      }
    }
  }

  // ---- the order condition is exact ----

  /** The origin's own includes are processed by last occurrence, and until then wait in that order. */
  ghost predicate ChildOrder(g: Graph, ign: set<string>, origin: string, s: State) {
    && (origin !in s.hot && origin !in s.emitted ==> s.emitted == [])
    && forall x, y :: Rival(g, ign, origin, x, y) && (origin in s.hot || origin in s.emitted) ==>
         && (forall j :: 0 <= j < |s.emitted| && s.emitted[j] == y ==> x in s.emitted[..j])
         && (forall k, l :: 0 <= k < |s.stack| && 0 <= l < |s.stack| && s.stack[k] == x && s.stack[l] == y ==> l < k)
  }

  ghost predicate Rival(g: Graph, ign: set<string>, v: string, x: string, y: string) {
    var list := Includes(g, v);
    x in list && y in list && x !in ign && y !in ign && LastIndex(list, x) < LastIndex(list, y)
  }

  lemma AdvanceChildOrder(g: Graph, ign: set<string>, origin: string, s: State)
    requires |s.stack| > 0 && Inv(g, ign, {}, origin, s) && ChildOrder(g, ign, origin, s)
    requires Last(s.stack) !in ign && TopScan(g, s).loop.None?
    ensures ChildOrder(g, ign, origin, Advance(g, s))
  {
    var t := Advance(g, s);
    AdvanceStack(g, s);
    forall x, y | Rival(g, ign, origin, x, y) && (origin in t.hot || origin in t.emitted)
      ensures forall j :: 0 <= j < |t.emitted| && t.emitted[j] == y ==> x in t.emitted[..j]
      ensures forall k, l :: 0 <= k < |t.stack| && 0 <= l < |t.stack| && t.stack[k] == x && t.stack[l] == y ==> l < k
    {
      if origin in s.hot || origin in s.emitted {
        assert x in s.seen && y in s.seen;
      } else {
        assert |s.stack| == 1 && s.emitted == [];
        OriginNotOwnInclude(g, ign, origin, s);
      }
    }
  }

  lemma OriginNotOwnInclude(g: Graph, ign: set<string>, origin: string, s: State)
    requires |s.stack| == 1 && s.stack[0] == origin && TopScan(g, s).loop.None?
    ensures origin !in Includes(g, origin)
  {
    var edges := Includes(g, origin);
    ScanOutcome(edges, |edges|, s.hot + {origin}, s.seen, s.stack);
  }

  lemma FinishChildOrder(g: Graph, ign: set<string>, origin: string, s: State)
    requires |s.stack| > 0 && Inv(g, ign, {}, origin, s) && ChildOrder(g, ign, origin, s)
    requires Last(s.stack) in s.hot
    ensures ChildOrder(g, ign, origin, Finish(s))
  {
    var t := Finish(s);
    forall x, y, j | Rival(g, ign, origin, x, y) && 0 <= j < |t.emitted| && t.emitted[j] == y
                  && (origin in t.hot || origin in t.emitted)
      ensures x in t.emitted[..j]
    {
      RivalFirst(g, ign, origin, s, x, y, j);
    }
  }

  lemma RivalFirst(g: Graph, ign: set<string>, origin: string, s: State, x: string, y: string, j: nat)
    requires |s.stack| > 0 && Partition(ign, {}, s) && Explored(g, origin, s) && ChildOrder(g, ign, origin, s)
    requires Rival(g, ign, origin, x, y) && (origin in s.hot || origin in s.emitted)
    requires j < |Finish(s).emitted| && Finish(s).emitted[j] == y
    ensures x in Finish(s).emitted[..j]
  {
    if j < |s.emitted| {
      assert Finish(s).emitted[..j] == s.emitted[..j];
    } else {
      assert s.stack[|s.stack| - 1] == y;
      assert x in s.seen && x !in s.stack;
      assert Finish(s).emitted[..j] == s.emitted;
    }
  }

  lemma StepChildOrder(g: Graph, ign: set<string>, origin: string, s: State)
    requires |s.stack| > 0 && Inv(g, ign, {}, origin, s) && Step(g, ign, s).err.None?
    requires ChildOrder(g, ign, origin, s)
    ensures ChildOrder(g, ign, origin, Step(g, ign, s).state)
  {
    if Last(s.stack) in ign {
      RefuseChildOrder(g, ign, origin, s);
    } else {
      AdvanceChildOrder(g, ign, origin, s);
      if TopScan(g, s).stack == s.stack {
        AdvanceKeeps(g, ign, {}, origin, s);
        FinishChildOrder(g, ign, origin, Advance(g, s));
      }
    }
  }

  lemma RefuseChildOrder(g: Graph, ign: set<string>, origin: string, s: State)
    requires |s.stack| > 0 && ChildOrder(g, ign, origin, s)
    ensures ChildOrder(g, ign, origin, Refuse(s))
  {
  }

  lemma {:induction false} RunChildOrder(g: Graph, ign: set<string>, origin: string, s: State)
    requires Inv(g, ign, {}, origin, s) && Run(g, ign, s).err.None? && ChildOrder(g, ign, origin, s)
    ensures ChildOrder(g, ign, origin, Run(g, ign, s).state)
    decreases |Names(g) - s.seen|, |s.stack|
  {
    if s.stack != [] {
      StepKeeps(g, ign, {}, origin, s);
      StepShrinks(g, ign, s);
      StepChildOrder(g, ign, origin, s);
      RunChildOrder(g, ign, origin, Step(g, ign, s).state);
    }
  }

  lemma DfsChildOrder(g: Graph, ign: set<string>, origin: string, x: string, y: string)
    requires Dfs(g, ign, {}, origin).err.None? && origin !in ign && Rival(g, ign, origin, x, y)
    ensures var e := Dfs(g, ign, {}, origin).state.emitted;
            y in e && forall j :: 0 <= j < |e| && e[j] == y ==> x in e[..j]
  {
    StartInv(g, ign, {}, origin);
    RunChildOrder(g, ign, origin, Start({}, origin));
    DfsVisits(g, ign, {}, origin);
    ReachRefl(g, ign, origin);
    ReachEdge(g, ign, origin, y);
  }

  /**
   On a graph without cycles every walk of a single origin processes includes first
   if and only if every include list is ordered.
   */
  lemma OrderExactOverAllOrigins(g: Graph, ign: set<string>)
    requires Acyclic(g, ign)
    ensures (forall o :: o in g && o !in ign ==>
               IncludesFirst(g, ign, {}, Dfs(g, ign, {}, o).state.emitted))
       <==> (forall v :: v in g && v !in ign ==> OrderedAt(g, ign, v))
  {
    if forall v :: v in g && v !in ign ==> OrderedAt(g, ign, v) {
      forall o | o in g && o !in ign ensures IncludesFirst(g, ign, {}, Dfs(g, ign, {}, o).state.emitted) {
        AcyclicSucceeds(g, ign, {}, o);
        forall v | Reach(g, ign, o, v) ensures OrderedAt(g, ign, v) {
          ReachEnds(g, ign, o, v);
        }
        DfsOrdered(g, ign, {}, o);
      }
    }
    forall v | v in g && v !in ign && !OrderedAt(g, ign, v)
      ensures !IncludesFirst(g, ign, {}, Dfs(g, ign, {}, v).state.emitted)
    {
      UnorderedFails(g, ign, v);
    }
  }

  lemma UnorderedFails(g: Graph, ign: set<string>, v: string)
    requires Acyclic(g, ign) && v in g && v !in ign && !OrderedAt(g, ign, v)
    ensures !IncludesFirst(g, ign, {}, Dfs(g, ign, {}, v).state.emitted)
  {
    var list := Includes(g, v);
    var x, y :| x in list && y in list && x != y && Reach(g, ign, x, y) && LastIndex(list, y) >= LastIndex(list, x);
    ReachEnds(g, ign, x, y);
    AcyclicSucceeds(g, ign, {}, v);
    var e := Dfs(g, ign, {}, v).state.emitted;
    DfsVisits(g, ign, {}, v);
    DfsChildOrder(g, ign, v, x, y);
    var j :| 0 <= j < |e| && e[j] == y;
    var i :| 0 <= i < j && e[i] == x;
    if IncludesFirst(g, ign, {}, e) {
      ReachedEarlier(g, ign, e, i, y);
      assert false;
    }
  }

  lemma ReachedEarlier(g: Graph, ign: set<string>, order: seq<string>, i: nat, y: string)
    requires IncludesFirst(g, ign, {}, order) && i < |order|
    requires Reach(g, ign, order[i], y) && order[i] != y
    ensures y in order[..i]
  {
    var w := ReachFirst(g, ign, order[i], y);
    BelowStays(g, ign, order, i, w, y);
  }
}
