/** Reduction finds the least list with the same expansion. */
module ReduceTheorems {
  import opened Lists
  import opened IncludeGraph
  import opened FeatureCatalog
  import opened Traversal
  import opened WalkTheorems
  import opened Expand
  import opened SharedWalk
  import opened Reduce
  import opened TextOrder

  /** The requested features that count: blank and ignored entries do not. */
  ghost function Listed(features: seq<string>, ign: set<string>): set<string> {
    set f | f in features && f != "" && f !in ign
  }

  ghost predicate Implied(g: Graph, ign: set<string>, among: set<string>, f: string) {
    exists h :: h in among && h != f && Reach(g, ign, h, f)
  }

  /** The members no different member reaches. */
  ghost function Minimal(g: Graph, ign: set<string>, listed: set<string>): set<string> {
    set f | f in listed && !Implied(g, ign, listed, f)
  }

  // ---- what the scan keeps ----

  /** `walked` are the features that got a walk of their own so far. */
  ghost predicate ScanInv(g: Graph, ign: set<string>, feats0: seq<string>, i: nat, p: Progress, walked: set<string>) {
    && |p.feats| == |feats0| && i <= |feats0|
    && walked <= Listed(feats0, ign)
    && (forall s :: s in walked ==> !OnCycle(g, ign, s) && Dfs(g, ign, {}, s).err.None?)
    && p.minimal == Minimal(g, ign, walked)
    && (forall v :: v in p.visited <==> Implied(g, ign, walked, v))
    && (forall k :: 0 <= k < i && feats0[k] in Listed(feats0, ign) ==>
          feats0[k] in walked || Implied(g, ign, walked, feats0[k]))
    && (forall k :: i <= k < |feats0| ==> EntryOk(g, ign, feats0[k], p.feats[k], walked))
  }

  /** An entry still ahead is blanked exactly when a different walked feature implies it. */
  ghost predicate EntryOk(g: Graph, ign: set<string>, before: string, now: string, walked: set<string>) {
    if Implied(g, ign, walked, before) then now == "" else now == before
  }

  lemma ImpliedGrows(g: Graph, ign: set<string>, walked: set<string>, f: string, v: string)
    ensures Implied(g, ign, walked + {f}, v) <==> Implied(g, ign, walked, v) || (f != v && Reach(g, ign, f, v))
  {
  }

  /** What one walk of `f` adds to the features implied by walked ones. */
  lemma WalkImplies(g: Graph, ign: set<string>, walked: set<string>, f: string, v: string)
    requires Dfs(g, ign, {}, f).err.None?
    ensures Implied(g, ign, walked + {f}, v) <==>
            Implied(g, ign, walked, v) || v in Elems(Dfs(g, ign, {}, f).state.emitted) - {f}
  {
    DfsVisits(g, ign, {}, f);
    ImpliedGrows(g, ign, walked, f, v);
  }

  /** `f` itself was not implied when its turn came, so it joins the minimal ones. */
  lemma WalkMinimal(g: Graph, ign: set<string>, walked: set<string>, f: string)
    requires Dfs(g, ign, {}, f).err.None? && !Implied(g, ign, walked, f)
    ensures Minimal(g, ign, walked + {f})
         == Minimal(g, ign, walked) + {f} - (Elems(Dfs(g, ign, {}, f).state.emitted) - {f})
  {
    forall v | v in walked + {f} ensures v in Minimal(g, ign, walked + {f}) <==>
      v in Minimal(g, ign, walked) + {f} - (Elems(Dfs(g, ign, {}, f).state.emitted) - {f})
    {
      WalkImplies(g, ign, walked, f, v);
    }
  }

  lemma WalkKeeps(all: Catalog, ign: set<string>, feats0: seq<string>, i: nat, p: Progress, walked: set<string>)
    requires i < |feats0| && ScanInv(InclusionGraph(all), ign, feats0, i, p, walked)
    requires p.feats[i] != "" && p.feats[i] !in ign
    requires Dfs(InclusionGraph(all), ign, {}, p.feats[i]).err.None?
    ensures var f := p.feats[i];
            var order := Dfs(InclusionGraph(all), ign, {}, f).state.emitted;
            ScanInv(InclusionGraph(all), ign, feats0, i + 1,
                    Drop(all, p.(minimal := p.minimal + {f}), i + 1, f, order), walked + {f})
  {
    var g, f := InclusionGraph(all), p.feats[i];
    var order := Dfs(g, ign, {}, f).state.emitted;
    var q := Drop(all, p.(minimal := p.minimal + {f}), i + 1, f, order);
    WalkKeepsScan(g, ign, feats0, i, p, walked, f, Elems(order) - {f}, q);
  }

  lemma WalkKeepsScan(g: Graph, ign: set<string>, feats0: seq<string>, i: nat, p: Progress, walked: set<string>,
                      f: string, implied: set<string>, q: Progress)
    requires i < |feats0| && ScanInv(g, ign, feats0, i, p, walked) && p.feats[i] == f != "" && f !in ign
    requires Dfs(g, ign, {}, f).err.None? && implied == Elems(Dfs(g, ign, {}, f).state.emitted) - {f}
    requires q.feats == Blanked(p.feats, i + 1, implied)
    requires q.minimal == p.minimal + {f} - implied && q.visited == p.visited + implied
    ensures ScanInv(g, ign, feats0, i + 1, q, walked + {f})
  {
    LoopCheckCompleteForOrigin(g, ign, f);
    assert EntryOk(g, ign, feats0[i], p.feats[i], walked);
    assert f == feats0[i] && f in Listed(feats0, ign);
    WalkMinimal(g, ign, walked, f);
    forall v ensures v in q.visited <==> Implied(g, ign, walked + {f}, v) {
      WalkImplies(g, ign, walked, f, v);
    }
    forall k | 0 <= k < i + 1 && feats0[k] in Listed(feats0, ign)
      ensures feats0[k] in walked + {f} || Implied(g, ign, walked + {f}, feats0[k])
    {
      ImpliedGrows(g, ign, walked, f, feats0[k]);
    }
    forall k | i + 1 <= k < |feats0| ensures EntryOk(g, ign, feats0[k], q.feats[k], walked + {f}) {
      WalkKeepsEntry(g, ign, walked, f, feats0[k], p.feats[k]);
    }
  }

  lemma WalkKeepsEntry(g: Graph, ign: set<string>, walked: set<string>, f: string, before: string, now: string)
    requires Dfs(g, ign, {}, f).err.None? && EntryOk(g, ign, before, now, walked)
    ensures EntryOk(g, ign, before, if now in Elems(Dfs(g, ign, {}, f).state.emitted) - {f} then "" else now, walked + {f})
  {
    WalkImplies(g, ign, walked, f, before);
  }

  lemma SkipKeeps(g: Graph, ign: set<string>, feats0: seq<string>, i: nat, p: Progress, walked: set<string>)
    requires i < |feats0| && ScanInv(g, ign, feats0, i, p, walked)
    requires p.feats[i] == "" || p.feats[i] in ign
    ensures ScanInv(g, ign, feats0, i + 1, p, walked)
  {
    assert EntryOk(g, ign, feats0[i], p.feats[i], walked);
  }

  /** One entry of the scan, walked or skipped. */
  lemma ScanStep(all: Catalog, ign: set<string>, feats0: seq<string>, i: nat, p: Progress, walked0: set<string>)
    returns (q: Progress, walked: set<string>)
    requires i < |feats0| && ScanInv(InclusionGraph(all), ign, feats0, i, p, walked0)
    requires ScanFrom(all, ign, p, i).err.None?
    ensures ScanInv(InclusionGraph(all), ign, feats0, i + 1, q, walked)
    ensures i + 1 <= |q.feats| && ScanFrom(all, ign, q, i + 1) == ScanFrom(all, ign, p, i)
  {
    var g, f := InclusionGraph(all), p.feats[i];
    if f == "" || f in ign {
      q, walked := p, walked0;
      SkipKeeps(g, ign, feats0, i, p, walked0);
    } else {
      q, walked := Drop(all, p.(minimal := p.minimal + {f}), i + 1, f, Dfs(g, ign, {}, f).state.emitted), walked0 + {f};
      WalkKeeps(all, ign, feats0, i, p, walked0);
    }
  }

  lemma {:induction false} ScanKeeps(
    all: Catalog, ign: set<string>, feats0: seq<string>, i: nat, p: Progress, walked0: set<string>)
    returns (walked: set<string>)
    requires ScanInv(InclusionGraph(all), ign, feats0, i, p, walked0)
    requires ScanFrom(all, ign, p, i).err.None?
    ensures ScanInv(InclusionGraph(all), ign, feats0, |feats0|, ScanFrom(all, ign, p, i).progress, walked)
    decreases |feats0| - i
  {
    if i == |feats0| {
      walked := walked0;
    } else {
      var q, next := ScanStep(all, ign, feats0, i, p, walked0);
      walked := ScanKeeps(all, ign, feats0, i + 1, q, next);
    }
  }

  // ---- from the walked features to all listed ones ----

  ghost predicate Covered(g: Graph, ign: set<string>, among: set<string>, f: string) {
    exists s :: s in among && Reach(g, ign, s, f)
  }

  ghost predicate Covers(g: Graph, ign: set<string>, among: set<string>, listed: set<string>) {
    forall f {:trigger Covered(g, ign, among, f)} :: f in listed ==> Covered(g, ign, among, f)
  }

  lemma WalkedCover(g: Graph, ign: set<string>, feats0: seq<string>, p: Progress, walked: set<string>)
    requires ScanInv(g, ign, feats0, |feats0|, p, walked)
    ensures Covers(g, ign, walked, Listed(feats0, ign))
  {
    forall f | f in Listed(feats0, ign) ensures Covered(g, ign, walked, f) {
      var k :| 0 <= k < |feats0| && feats0[k] == f;
      if f in walked {
        ReachRefl(g, ign, f);
      }
    }
  }

  /** Features walked without error are minimal among themselves iff minimal in the whole list. */
  lemma MinimalOfCover(g: Graph, ign: set<string>, walked: set<string>, listed: set<string>)
    requires walked <= listed && Covers(g, ign, walked, listed)
    requires forall s :: s in walked ==> !OnCycle(g, ign, s)
    ensures Minimal(g, ign, walked) == Minimal(g, ign, listed)
  {
    forall f | f in walked && Implied(g, ign, listed, f) ensures Implied(g, ign, walked, f) {
      ImpliedByCover(g, ign, walked, listed, f);
    }
    forall f | f in listed && f !in walked ensures Implied(g, ign, listed, f) {
      assert Covered(g, ign, walked, f);
      var s :| s in walked && Reach(g, ign, s, f);
    }
  }

  ghost function Above(g: Graph, ign: set<string>, s: set<string>, f: string): set<string> {
    set h | h in s && Reach(g, ign, h, f)
  }

  /** Off all cycles, every member is reached from a minimal one. */
  lemma {:induction false} MinimalCovers(g: Graph, ign: set<string>, s: set<string>, f: string) returns (m: string)
    requires f in s && f !in ign && forall x :: x in s ==> !OnCycle(g, ign, x)
    ensures m in Minimal(g, ign, s) && Reach(g, ign, m, f)
    decreases Above(g, ign, s, f)
  {
    if Implied(g, ign, s, f) {
      var h :| h in s && h != f && Reach(g, ign, h, f);
      ReachEnds(g, ign, h, f);
      ReachRefl(g, ign, f);
      assert !Reach(g, ign, f, h) by {
        if Reach(g, ign, f, h) { CycleIffMutual(g, ign, f, h); }
      }
      forall x | x in Above(g, ign, s, h) ensures x in Above(g, ign, s, f) {
        ReachTrans(g, ign, x, h, f);
      }
      assert f in Above(g, ign, s, f) && f !in Above(g, ign, s, h);
      m := MinimalCovers(g, ign, s, h);
      ReachTrans(g, ign, m, h, f);
    } else {
      m := f;
      ReachRefl(g, ign, f);
    }
  }

  // ---- the theorems ----

  /** A reduced set in good shape: minimal, covering, and off all cycles. */
  ghost predicate WellReduced(g: Graph, ign: set<string>, listed: set<string>, m: set<string>) {
    && m == Minimal(g, ign, listed)
    && Covers(g, ign, m, listed)
    && (forall f :: f in m ==> !OnCycle(g, ign, f))
  }

  /**
   Whenever the scan succeeds, whatever the order, the duplicates, the blanking and the cycles
   elsewhere in the graph, it leaves exactly the listed features that no different one reaches.
   */
  lemma ReducedExactly(all: Catalog, features: seq<string>, ign: set<string>)
    requires Reduced(all, features, ign).err.None?
    ensures var g, p := InclusionGraph(all), Reduced(all, features, ign).progress;
            && WellReduced(g, ign, Listed(features, ign), p.minimal)
            && (forall v :: v in p.visited <==> Implied(g, ign, Listed(features, ign), v))
            && (forall f :: f in p.minimal ==> Dfs(g, ign, {}, f).err.None?)
  {
    var g := InclusionGraph(all);
    var p := Reduced(all, features, ign).progress;
    var walked := ScanKeeps(all, ign, features, 0, Progress(features, {}, {}, {}), {});
    var listed := Listed(features, ign);
    WalkedCover(g, ign, features, p, walked);
    MinimalOfCover(g, ign, walked, listed);
    forall f | f in listed ensures Covered(g, ign, p.minimal, f) {
      assert Covered(g, ign, walked, f);
      var s :| s in walked && Reach(g, ign, s, f);
      ReachEnds(g, ign, s, f);
      var m := MinimalCovers(g, ign, walked, s);
      ReachTrans(g, ign, m, s, f);
    }
    forall v | Implied(g, ign, listed, v) ensures Implied(g, ign, walked, v) {
      ImpliedByCover(g, ign, walked, listed, v);
    }
  }

  lemma ImpliedByCover(g: Graph, ign: set<string>, walked: set<string>, listed: set<string>, v: string)
    requires walked <= listed && Covers(g, ign, walked, listed)
    requires forall s :: s in walked ==> !OnCycle(g, ign, s)
    requires Implied(g, ign, listed, v)
    ensures Implied(g, ign, walked, v)
  {
    var h :| h in listed && h != v && Reach(g, ign, h, v);
    assert Covered(g, ign, walked, h);
    var s :| s in walked && Reach(g, ign, s, h);
    ReachTrans(g, ign, s, h, v);
    if s == v {
      CycleIffMutual(g, ign, v, h);
    }
  }

  /** Reduction preserves the expansion. */
  lemma ReductionPreservesMeaning(g: Graph, ign: set<string>, listed: set<string>, m: set<string>)
    requires WellReduced(g, ign, listed, m)
    ensures Closure(g, ign, m) == Closure(g, ign, listed)
  {
    forall v | v in Closure(g, ign, listed) ensures v in Closure(g, ign, m) {
      var f :| f in listed && Reach(g, ign, f, v);
      assert Covered(g, ign, m, f);
      var x :| x in m && Reach(g, ign, x, f);
      ReachTrans(g, ign, x, f, v);
    }
  }

  /** Nothing smaller, and nothing else, has that expansion: the reduced set is inside every such set. */
  lemma ReductionIsLeast(g: Graph, ign: set<string>, listed: set<string>, m: set<string>, other: set<string>)
    requires WellReduced(g, ign, listed, m)
    requires Closure(g, ign, other) == Closure(g, ign, listed)
    ensures m <= other
  {
    ReductionPreservesMeaning(g, ign, listed, m);
    forall f | f in m ensures f in other {
      assert Covered(g, ign, m, f);
      var s :| s in m && Reach(g, ign, s, f);
      ReachEnds(g, ign, s, f);
      ReachRefl(g, ign, f);
      assert f in Closure(g, ign, m);
      var x :| x in other && Reach(g, ign, x, f);
      ReachEnds(g, ign, x, f);
      ReachRefl(g, ign, x);
      assert x in Closure(g, ign, other);
      var y :| y in m && Reach(g, ign, y, x);
      ReachTrans(g, ign, y, x, f);
      assert y == f;
      if x != f {
        CycleIffMutual(g, ign, f, x);
      }
    }
  }

  /** Two lists reduce to the same set if and only if they expand to the same set. */
  lemma ReductionIsCanonical(g: Graph, ign: set<string>, l1: set<string>, m1: set<string>, l2: set<string>, m2: set<string>)
    requires WellReduced(g, ign, l1, m1) && WellReduced(g, ign, l2, m2)
    ensures m1 == m2 <==> Closure(g, ign, l1) == Closure(g, ign, l2)
  {
    ReductionPreservesMeaning(g, ign, l1, m1);
    ReductionPreservesMeaning(g, ign, l2, m2);
    if Closure(g, ign, l1) == Closure(g, ign, l2) {
      ReductionIsLeast(g, ign, l1, m1, m2);
      ReductionIsLeast(g, ign, l2, m2, m1);
    }
  }

  /** Without the blank name, which no feature has, the listed features are all that counts. */
  lemma ListedClosure(all: Catalog, features: seq<string>, ign: set<string>)
    requires "" !in features
    ensures Closure(InclusionGraph(all), ign, Listed(features, ign))
         == Closure(InclusionGraph(all), ign, Elems(features))
  {
    var g := InclusionGraph(all);
    forall f, v | f in features && Reach(g, ign, f, v) ensures f in Listed(features, ign) {
      ReachEnds(g, ign, f, v);
    }
  }

  /**
   What was expanded and reduced can be expanded again from the reduced features, in any order
   and with any repetitions: that succeeds, with the same features, on cyclic graphs as well.
   */
  lemma ReducedExpandsAlike(all: Catalog, features: seq<string>, ign: set<string>, reduced: seq<string>)
    requires "" !in features && Expanded(all, features, ign).Ok? && Reduced(all, features, ign).err.None?
    requires Elems(reduced) == Reduced(all, features, ign).progress.minimal
    ensures Expanded(all, reduced, ign).Ok?
    ensures Elems(Expanded(all, reduced, ign).value.0) == Elems(Expanded(all, features, ign).value.0)
  {
    var g, listed := InclusionGraph(all), Listed(features, ign);
    ReducedExactly(all, features, ign);
    ReductionPreservesMeaning(g, ign, listed, Elems(reduced));
    ListedClosure(all, features, ign);
    FreshWalksSuffice(g, ign, reduced);
    ExclusionDependsOnSet(all, features, ign);
    ExclusionDependsOnSet(all, reduced, ign);
    ExpandedExactly(all, features, ign);
    ExpandedExactly(all, reduced, ign);
  }

  /** A list whose features can all be walked afresh is reduced without error. */
  lemma {:induction false} FreshScanSucceeds(all: Catalog, ign: set<string>, feats0: seq<string>, i: nat, p: Progress)
    requires |p.feats| == |feats0| && i <= |feats0|
    requires forall k :: 0 <= k < |feats0| ==> p.feats[k] == feats0[k] || p.feats[k] == ""
    requires forall f :: f in Listed(feats0, ign) ==> Dfs(InclusionGraph(all), ign, {}, f).err.None?
    ensures ScanFrom(all, ign, p, i).err.None?
    decreases |feats0| - i
  {
    if i < |feats0| {
      var f := p.feats[i];
      if f == "" || f in ign {
        FreshScanSucceeds(all, ign, feats0, i + 1, p);
      } else {
        assert f == feats0[i] && f in Listed(feats0, ign);
        var w := Dfs(InclusionGraph(all), ign, {}, f);
        var q := Drop(all, p.(minimal := p.minimal + {f}), i + 1, f, w.state.emitted);
        FreshScanSucceeds(all, ign, feats0, i + 1, q);
      }
    }
  }

  /** Reducing once more changes nothing. */
  lemma ReducedTwice(all: Catalog, features: seq<string>, ign: set<string>, reduced: seq<string>)
    requires Reduced(all, features, ign).err.None?
    requires Elems(reduced) == Reduced(all, features, ign).progress.minimal
    ensures Reduced(all, reduced, ign).err.None?
    ensures Reduced(all, reduced, ign).progress.minimal == Elems(reduced)
    ensures Listed(reduced, ign) == Elems(reduced)
  {
    ReducedExactly(all, features, ign);
    FreshScanSucceeds(all, ign, reduced, 0, Progress(reduced, {}, {}, {}));
    ReducedExactly(all, reduced, ign);
  }

  /** The order of the features is irrelevant to the scan if and only if each that counts can be walked afresh. */
  lemma AnyOrderReducesExactly(all: Catalog, ign: set<string>, roots: set<string>)
    ensures (forall order :: Elems(order) == roots ==> Reduced(all, order, ign).err.None?)
       <==> (forall f :: f in roots && f != "" && f !in ign ==> Dfs(InclusionGraph(all), ign, {}, f).err.None?)
  {
    if forall f :: f in roots && f != "" && f !in ign ==> Dfs(InclusionGraph(all), ign, {}, f).err.None? {
      forall order | Elems(order) == roots ensures Reduced(all, order, ign).err.None? {
        FreshScanSucceeds(all, ign, order, 0, Progress(order, {}, {}, {}));
      }
    }
    forall f | f in roots && f != "" && f !in ign && Dfs(InclusionGraph(all), ign, {}, f).err.Some?
      ensures exists order :: Elems(order) == roots && Reduced(all, order, ign).err.Some?
    {
      var order := [f] + SortedListing(Itself, roots);
      assert Elems(order) == roots && order[0] == f;
      assert Reduced(all, order, ign).err.Some?;
    }
  }

  // ---- when it fails ----

  /** A traversal error names a listed feature that does not exist or one on a real cycle below a listed feature. */
  lemma {:induction false} ScanErrors(all: Catalog, ign: set<string>, feats0: seq<string>, i: nat, p: Progress)
    requires |p.feats| == |feats0| && i <= |feats0|
    requires forall k :: 0 <= k < |feats0| ==> p.feats[k] == feats0[k] || p.feats[k] == ""
    requires ScanFrom(all, ign, p, i).err.Some?
    ensures match ScanFrom(all, ign, p, i).err.value
            case NotInGraph(x) => x in Listed(feats0, ign) && x !in all
            case PartOfLoop(x) => OnCycle(InclusionGraph(all), ign, x)
                               && x in Closure(InclusionGraph(all), ign, Listed(feats0, ign))
            case _ => false
    decreases |feats0| - i
  {
    var f := p.feats[i];
    if f == "" || f in ign {
      ScanErrors(all, ign, feats0, i + 1, p);
    } else {
      var w := Dfs(InclusionGraph(all), ign, {}, f);
      if w.err.None? {
        var q := Drop(all, p.(minimal := p.minimal + {f}), i + 1, f, w.state.emitted);
        ScanErrors(all, ign, feats0, i + 1, q);
      } else {
        assert feats0[i] == f;
        WalkErrors(InclusionGraph(all), ign, Listed(feats0, ign), f);
      }
    }
  }

  lemma WalkErrors(g: Graph, ign: set<string>, listed: set<string>, f: string)
    requires f in listed && Dfs(g, ign, {}, f).err.Some?
    ensures match Dfs(g, ign, {}, f).err.value
            case NotInGraph(x) => x in listed && x !in g
            case PartOfLoop(x) => OnCycle(g, ign, x) && x in Closure(g, ign, listed)
            case _ => false
  {
    if f in g {
      LoopCheckSound(g, ign, {}, f);
    }
  }

  /** On a graph without cycles reduction fails to traverse only for want of a feature. */
  lemma ReducedOnAcyclic(all: Catalog, features: seq<string>, ign: set<string>)
    requires Acyclic(InclusionGraph(all), ign)
    requires forall f :: f in Listed(features, ign) ==> f in all
    ensures Reduced(all, features, ign).err.None?
  {
    if Reduced(all, features, ign).err.Some? {
      ScanErrors(all, ign, features, 0, Progress(features, {}, {}, {}));
    }
  }

  lemma DropExcludes(all: Catalog, p: Progress, from: nat, f: string, order: seq<string>)
    requires p.excluded == ExcludedBy(all, p.visited)
    ensures Drop(all, p, from, f, order).excluded == ExcludedBy(all, Drop(all, p, from, f, order).visited)
  {
  }

  lemma {:induction false} ScanExcludes(all: Catalog, ign: set<string>, p: Progress, i: nat)
    requires i <= |p.feats| && p.excluded == ExcludedBy(all, p.visited)
    ensures ScanFrom(all, ign, p, i).progress.excluded == ExcludedBy(all, ScanFrom(all, ign, p, i).progress.visited)
    decreases |p.feats| - i
  {
    if i < |p.feats| {
      var f := p.feats[i];
      if f == "" || f in ign {
        ScanExcludes(all, ign, p, i + 1);
      } else {
        var w := Dfs(InclusionGraph(all), ign, {}, f);
        DropExcludes(all, p.(minimal := p.minimal + {f}), i + 1, f, w.state.emitted);
        ScanExcludes(all, ign, Drop(all, p.(minimal := p.minimal + {f}), i + 1, f, w.state.emitted), i + 1);
      }
    }
  }

  /** After a successful expansion the weaker exclusion check of the reduction cannot fail. */
  lemma ExclusionCheckRedundant(all: Catalog, features: seq<string>, ign: set<string>)
    requires Expanded(all, features, ign).Ok? && Reduced(all, features, ign).err.None?
    ensures Reduced(all, features, ign).progress.visited !! Reduced(all, features, ign).progress.excluded
  {
    var g, p := InclusionGraph(all), Reduced(all, features, ign).progress;
    ReducedExactly(all, features, ign);
    ScanExcludes(all, ign, Progress(features, {}, {}, {}), 0);
    ExclusionDependsOnSet(all, features, ign);
    assert p.visited <= Closure(g, ign, Elems(features));
  }
}
