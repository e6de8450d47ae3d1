/**
 A walk that shares its seen set with earlier walks is the fresh walk, less what those have seen.

 Marking on push makes the loop check depend on what was seen before: a fresh walk may fail where
 a sharing one succeeds. Never the other way round, which is why a request whose features can each
 be walked afresh can be expanded in any order, cycles elsewhere or not.
 */
module SharedWalk {
  import opened Lists
  import opened FeatureErrors
  import opened IncludeGraph
  import opened Traversal
  import opened WalkTheorems
  import opened PostorderWalk
  import opened Expand
  import TextOrder

  /** The entries not in `seen`, in their order. */
  function Outside(s: seq<string>, seen: set<string>): seq<string> {
    if s == [] then []
    else Outside(DropLast(s), seen) + if Last(s) in seen then [] else [Last(s)]
  }

  lemma OutsideSnoc(s: seq<string>, x: string, seen: set<string>)
    ensures Outside(s + [x], seen) == Outside(s, seen) + if x in seen then [] else [x]
  {
    assert DropLast(s + [x]) == s;
  }

  lemma {:induction false} OutsideMember(s: seq<string>, seen: set<string>, x: string)
    ensures x in Outside(s, seen) <==> x in s && x !in seen
  {
    if s != [] {
      OutsideMember(DropLast(s), seen, x);
      assert s == DropLast(s) + [Last(s)];
    }
  }

  /** Entries that were seen before leave no trace. */
  lemma {:induction false} OutsideUnchanged(s: seq<string>, pushed: seq<string>, seen: set<string>)
    requires Elems(pushed) <= seen
    ensures Outside(s + pushed, seen) == Outside(s, seen)
  {
    if pushed == [] {
      assert s + pushed == s;
    } else {
      OutsideUnchanged(s, DropLast(pushed), seen);
      assert Last(pushed) in Elems(pushed);
      assert s + pushed == s + DropLast(pushed) + [Last(pushed)];
      OutsideSnoc(s + DropLast(pushed), Last(pushed), seen);
    }
  }

  // ---- the sharing walk follows the fresh one ----

  /** `t` is `s` without the names of `seen0`; its top vertex may still be cold. */
  ghost predicate Follows(seen0: set<string>, s: State, t: State) {
    && t.stack == Outside(s.stack, seen0) && t.emitted == Outside(s.emitted, seen0)
    && t.refused == s.refused - seen0 && t.seen == s.seen + seen0
    && t.hot <= s.hot && t.hot !! seen0
    && (forall v :: v in s.hot && v !in seen0 && v !in t.hot ==> t.stack != [] && v == Last(t.stack))
  }

  lemma {:induction false} ScanFollows(
    edges: seq<string>, n: nat, seen0: set<string>,
    hotS: set<string>, seenS: set<string>, stackS: seq<string>, hotT: set<string>, seenT: set<string>, stackT: seq<string>)
    requires n <= |edges| && Scan(edges, n, hotS, seenS, stackS).loop.None?
    requires hotT <= hotS && seenT == seenS + seen0 && stackT == Outside(stackS, seen0)
    ensures ScanAlike(seen0, Scan(edges, n, hotS, seenS, stackS), Scan(edges, n, hotT, seenT, stackT))
  {
    if n > 0 {
      var e := edges[n - 1];
      assert e !in hotS;
      if e in seenS {
        ScanFollows(edges, n - 1, seen0, hotS, seenS, stackS, hotT, seenT, stackT);
      } else {
        OutsideSnoc(stackS, e, seen0);
        if e in seen0 {
          ScanFollows(edges, n - 1, seen0, hotS, seenS + {e}, stackS + [e], hotT, seenT, stackT);
        } else {
          ScanFollows(edges, n - 1, seen0, hotS, seenS + {e}, stackS + [e], hotT, seenT + {e}, stackT + [e]);
        }
      }
    }
  }

  ghost predicate ScanAlike(seen0: set<string>, r: ScanResult, q: ScanResult) {
    q.loop.None? && q.seen == r.seen + seen0 && q.stack == Outside(r.stack, seen0)
  }

  /** Above a vertex seen before, the fresh walk finds only what was seen before. */
  lemma StepStutters(g: Graph, ign: set<string>, seen0: set<string>, s: State, t: State)
    requires |s.stack| > 0 && Last(s.stack) in seen0 && Closed(g, ign, seen0)
    requires Follows(seen0, s, t) && Step(g, ign, s).err.None?
    ensures Follows(seen0, Step(g, ign, s).state, t)
  {
    if Last(s.stack) in ign {
      assert Outside(DropLast(s.stack), seen0) == Outside(s.stack, seen0);
      assert Follows(seen0, Refuse(s), t);
    } else {
      AdvanceStutters(g, ign, seen0, s, t);
      if TopScan(g, s).stack == s.stack {
        FinishStutters(seen0, Advance(g, s), t);
      }
    }
  }

  lemma AdvanceStutters(g: Graph, ign: set<string>, seen0: set<string>, s: State, t: State)
    requires |s.stack| > 0 && Last(s.stack) in seen0 && Last(s.stack) !in ign && Closed(g, ign, seen0)
    requires Follows(seen0, s, t)
    ensures Follows(seen0, Advance(g, s), t)
  {
    var v, r := Last(s.stack), TopScan(g, s);
    var edges := Includes(g, v);
    ScanPushes(edges, |edges|, s.hot + {v}, s.seen, s.stack);
    var pushed := r.stack[|s.stack|..];
    assert r.stack == s.stack + pushed;
    assert Elems(pushed) <= seen0;
    OutsideUnchanged(s.stack, pushed, seen0);
    assert r.seen + seen0 == s.seen + seen0;
  }

  lemma FinishStutters(seen0: set<string>, s: State, t: State)
    requires |s.stack| > 0 && Last(s.stack) in seen0 && Follows(seen0, s, t)
    ensures Follows(seen0, Finish(s), t)
  {
    assert Outside(DropLast(s.stack), seen0) == Outside(s.stack, seen0);
    OutsideSnoc(s.emitted, Last(s.stack), seen0);
  }

  lemma TopScanFollows(g: Graph, ign: set<string>, seen0: set<string>, s: State, t: State)
    requires |s.stack| > 0 && Last(s.stack) !in seen0 && Last(s.stack) !in ign
    requires Follows(seen0, s, t) && TopScan(g, s).loop.None?
    ensures |t.stack| > 0 && Last(t.stack) == Last(s.stack)
    ensures ScanAlike(seen0, TopScan(g, s), TopScan(g, t))
    ensures TopScan(g, s).stack == s.stack ==> TopScan(g, t).stack == t.stack
    ensures TopScan(g, t).stack == t.stack ==> TopScan(g, t).seen == t.seen
  {
    var v := Last(s.stack);
    var edges := Includes(g, v);
    ScanFollows(edges, |edges|, seen0, s.hot + {v}, s.seen, s.stack, t.hot + {v}, t.seen, t.stack);
    ScanPushes(edges, |edges|, t.hot + {v}, t.seen, t.stack);
    if TopScan(g, t).stack == t.stack {
      assert TopScan(g, t).stack[|t.stack|..] == [];
    }
  }

  /** On a new vertex the sharing walk does the same, or waits if everything pushed was seen before. */
  lemma StepFollows(g: Graph, ign: set<string>, seen0: set<string>, origin: string, s: State, t: State)
    requires |s.stack| > 0 && Last(s.stack) !in seen0 && Inv(g, ign, {}, origin, s)
    requires Follows(seen0, s, t) && Step(g, ign, s).err.None?
    ensures |t.stack| > 0
    ensures || Follows(seen0, Step(g, ign, s).state, t)
            || (Step(g, ign, t).err.None? && Follows(seen0, Step(g, ign, s).state, Step(g, ign, t).state))
  {
    assert t.stack == Outside(DropLast(s.stack), seen0) + [Last(s.stack)];
    if Last(s.stack) in ign {
      assert Follows(seen0, Refuse(s), Refuse(t));
    } else {
      TopScanFollows(g, ign, seen0, s, t);
      if TopScan(g, s).stack == s.stack {
        FinishFollows(g, seen0, s, t);
      } else if TopScan(g, t).stack == t.stack {
        assert Follows(seen0, Advance(g, s), t);
      } else {
        assert Follows(seen0, Advance(g, s), Advance(g, t));
      }
    }
  }

  lemma FinishFollows(g: Graph, seen0: set<string>, s: State, t: State)
    requires |s.stack| > 0 && |t.stack| > 0 && Last(s.stack) !in seen0 && Last(t.stack) == Last(s.stack)
    requires Follows(seen0, s, t) && ScanAlike(seen0, TopScan(g, s), TopScan(g, t))
    requires TopScan(g, s).stack == s.stack && TopScan(g, t).stack == t.stack
    ensures Follows(seen0, Finish(Advance(g, s)), Finish(Advance(g, t)))
  {
    assert t.stack == Outside(DropLast(s.stack), seen0) + [Last(s.stack)];
    assert DropLast(t.stack) == Outside(DropLast(s.stack), seen0);
    OutsideSnoc(s.emitted, Last(s.stack), seen0);
  }

  ghost predicate EndsAlike(seen0: set<string>, alone: Walk, sharing: Walk) {
    && sharing.err.None?
    && sharing.state.emitted == Outside(alone.state.emitted, seen0)
    && sharing.state.refused == alone.state.refused - seen0
    && sharing.state.seen == alone.state.seen + seen0
  }

  lemma {:induction false} RunFollows(g: Graph, ign: set<string>, seen0: set<string>, origin: string, s: State, t: State)
    requires Closed(g, ign, seen0) && Inv(g, ign, {}, origin, s) && Follows(seen0, s, t)
    requires Run(g, ign, s).err.None?
    ensures EndsAlike(seen0, Run(g, ign, s), Run(g, ign, t))
    decreases |Names(g) - s.seen|, |s.stack|
  {
    if s.stack != [] {
      var next := Step(g, ign, s).state;
      StepKeeps(g, ign, {}, origin, s);
      StepShrinks(g, ign, s);
      if Last(s.stack) in seen0 {
        StepStutters(g, ign, seen0, s, t);
        RunFollows(g, ign, seen0, origin, next, t);
      } else {
        StepFollows(g, ign, seen0, origin, s, t);
        if Follows(seen0, next, t) {
          RunFollows(g, ign, seen0, origin, next, t);
        } else {
          RunFollows(g, ign, seen0, origin, next, Step(g, ign, t).state);
        }
      }
    }
  }

  /**
   After finished walks, a walk succeeds whenever it would succeed afresh, and then processes
   what the fresh walk processes, in the same order, except for what was seen before.
   */
  lemma SharedWalkIsFreshRest(g: Graph, ign: set<string>, seen0: set<string>, origin: string)
    requires Closed(g, ign, seen0) && Dfs(g, ign, {}, origin).err.None?
    ensures var alone, sharing := Dfs(g, ign, {}, origin), Dfs(g, ign, seen0, origin);
            && sharing.err.None?
            && sharing.state.emitted == Outside(alone.state.emitted, seen0)
            && sharing.state.refused == alone.state.refused - seen0
  {
    if origin in seen0 {
      SeenOriginSeesNothing(g, ign, seen0, origin);
    } else {
      StartInv(g, ign, {}, origin);
      assert Outside([origin], seen0) == [origin] by {
        OutsideSnoc([], origin, seen0);
        assert [] + [origin] == [origin];
      }
      RunFollows(g, ign, seen0, origin, Start({}, origin), Start(seen0, origin));
    }
  }

  lemma SeenOriginSeesNothing(g: Graph, ign: set<string>, seen0: set<string>, origin: string)
    requires Closed(g, ign, seen0) && Dfs(g, ign, {}, origin).err.None? && origin in seen0
    ensures Outside(Dfs(g, ign, {}, origin).state.emitted, seen0) == []
    ensures Dfs(g, ign, {}, origin).state.refused <= seen0
  {
    var s := Dfs(g, ign, {}, origin).state;
    DfsVisits(g, ign, {}, origin);
    forall v | Reach(g, ign, origin, v) ensures v in seen0 {
      ReachEnds(g, ign, origin, v);
      ClosedUnderReach(g, ign, seen0, origin, v);
    }
    forall r | r in s.refused ensures r in seen0 {
      if r != origin {
        var u :| Reach(g, ign, origin, u) && r in Includes(g, u);
        ReachEnds(g, ign, origin, u);
      }
    }
    var rest := Outside(s.emitted, seen0);
    if rest != [] {
      OutsideMember(s.emitted, seen0, rest[0]);
      assert false;
    }
  }

  // ---- expansion ----

  /** If every root can be walked afresh, the walks that share a seen set succeed in any order. */
  lemma {:induction false} FreshWalksSuffice(g: Graph, ign: set<string>, roots: seq<string>)
    requires forall f :: f in roots ==> Dfs(g, ign, {}, f).err.None?
    ensures WalkAll(g, ign, roots).err.None?
  {
    if roots != [] {
      var front, f := DropLast(roots), Last(roots);
      assert roots == front + [f];
      FreshWalksSuffice(g, ign, front);
      WalkAllVisits(g, ign, front);
      SharedWalkIsFreshRest(g, ign, WalkAll(g, ign, front).seen, f);
    }
  }

  /** The order of the roots is irrelevant to success if and only if each of them can be walked afresh. */
  lemma AnyOrderExactly(g: Graph, ign: set<string>, roots: set<string>)
    ensures (forall order :: Elems(order) == roots ==> WalkAll(g, ign, order).err.None?)
       <==> (forall f :: f in roots ==> Dfs(g, ign, {}, f).err.None?)
  {
    if forall f :: f in roots ==> Dfs(g, ign, {}, f).err.None? {
      forall order | Elems(order) == roots ensures WalkAll(g, ign, order).err.None? {
        FreshWalksSuffice(g, ign, order);
      }
    }
    forall f | f in roots && Dfs(g, ign, {}, f).err.Some?
      ensures exists order :: Elems(order) == roots && WalkAll(g, ign, order).err.Some?
    {
      var order := [f] + TextOrder.SortedListing(TextOrder.Itself, roots);
      assert Elems(order) == roots;
      FirstWalkFails(g, ign, order);
    }
  }

  lemma FirstWalkFails(g: Graph, ign: set<string>, order: seq<string>)
    requires order != [] && Dfs(g, ign, {}, order[0]).err.Some?
    ensures WalkAll(g, ign, order).err.Some?
  {
    assert order[..1] == [order[0]];
    assert WalkAll(g, ign, []) == Collected(None, {}, [], {});
    assert WalkAll(g, ign, [order[0]]).err.Some?;
    WalkAllStops(g, ign, order, 1);
  }

  /** The same two features, in one order and in the other: expanded, or refused as a loop. */
  lemma OrderMatters()
    ensures WalkAll(TWO_LOOP, {}, ["A", "B"]).err.None?
    ensures WalkAll(TWO_LOOP, {}, ["B", "A"]).err.Some?
  {
    CycleUnreported();
    if Dfs(TWO_LOOP, {}, {}, "B").err.None? {
      LoopCheckCompleteForOrigin(TWO_LOOP, {}, "B");
    }
    FirstWalkFails(TWO_LOOP, {}, ["B", "A"]);
    WalkOfTwo(TWO_LOOP, "A", "B", "C");
    var c := WalkAll(TWO_LOOP, {}, ["A"]);
    assert DropLast(["A"]) == [] && DropLast(["A", "B"]) == ["A"];
    assert c.err.None? && c.seen == {"A", "B", "C"};
  }

  /** The next root adds what its fresh walk processes and the roots before it have not pulled in. */
  lemma ExpandedAppends(g: Graph, ign: set<string>, front: seq<string>, f: string)
    requires WalkAll(g, ign, front).err.None? && Dfs(g, ign, {}, f).err.None?
    ensures WalkAll(g, ign, front + [f]).err.None?
    ensures WalkAll(g, ign, front + [f]).expanded
         == WalkAll(g, ign, front).expanded
            + Outside(Dfs(g, ign, {}, f).state.emitted, Closure(g, ign, Elems(front)))
  {
    var b, alone := WalkAll(g, ign, front), Dfs(g, ign, {}, f).state;
    assert DropLast(front + [f]) == front && Last(front + [f]) == f;
    WalkAllVisits(g, ign, front);
    SharedWalkIsFreshRest(g, ign, b.seen, f);
    DfsVisits(g, ign, {}, f);
    forall v | v in alone.emitted ensures v in b.seen <==> v in Closure(g, ign, Elems(front)) {
      ReachEnds(g, ign, f, v);
    }
    OutsideAlike(alone.emitted, b.seen, Closure(g, ign, Elems(front)));
  }

  lemma {:induction false} OutsideAlike(s: seq<string>, a: set<string>, b: set<string>)
    requires forall x :: x in s ==> (x in a <==> x in b)
    ensures Outside(s, a) == Outside(s, b)
  {
    if s != [] {
      OutsideAlike(DropLast(s), a, b);
      assert Last(s) in s;
    }
  }
}
