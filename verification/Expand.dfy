/** The maximal feature list: everything the requested features pull in. */
module Expand {
  import opened Lists
  import opened FeatureErrors
  import opened IncludeGraph
  import opened FeatureCatalog
  import opened Traversal
  import opened WalkTheorems
  import opened PostorderWalk

  // ---- the walks of all roots, sharing one seen set ----

  datatype Collected = Collected(err: Option<Error>, seen: set<string>, expanded: seq<string>, ignored: set<string>)

  function WalkAll(g: Graph, ign: set<string>, roots: seq<string>): Collected {
    if roots == [] then Collected(None, {}, [], {})
    else
      var c := WalkAll(g, ign, DropLast(roots));
      if c.err.Some? then c
      else
        var w := Dfs(g, ign, c.seen, Last(roots));
        Collected(w.err, w.state.seen, c.expanded + w.state.emitted, c.ignored + w.state.refused)
  }

  function FirstIn(order: seq<string>, s: set<string>): Option<string> {
    if order == [] then None
    else if order[0] in s then Some(order[0])
    else FirstIn(order[1..], s)
  }

  /** The meaning of expandFeatures: the expanded list and the ignored names met. */
  function Expanded(all: Catalog, features: seq<string>, ign: set<string>): Result<(seq<string>, set<string>)> {
    var c := WalkAll(InclusionGraph(all), ign, features);
    if c.err.Some? then Err(c.err.value)
    else
      match FirstIn(c.expanded, ExcludedBy(all, Elems(c.expanded)))
      case Some(x) => Err(Excluded(x))
      case None => Ok((c.expanded, c.ignored))
  }

  method ExpandFeatures(all: Catalog, features: seq<string>, ignored: set<string>)
    returns (r: Result<(seq<string>, set<string>)>)
    ensures r == Expanded(all, features, ignored)
  {
    var g := InclusionGraph(all);
    var collectedIgn, collectedExcl := {}, {};
    var expanded := [];
    var seen := new NameSet();
    var i := 0;
    while i < |features|
      invariant 0 <= i <= |features| && fresh(seen)
      invariant WalkAll(g, ignored, features[..i]) == Collected(None, seen.names, expanded, collectedIgn)
      invariant collectedExcl == ExcludedBy(all, Elems(expanded))
    {
      var err, emitted, refused := PostorderDFS(g, seen, features[i], ignored);
      assert DropLast(features[..i + 1]) == features[..i] && Last(features[..i + 1]) == features[i];
      if err.Some? {
        WalkAllStops(g, ignored, features, i + 1);
        return Err(err.value);
      }
      ExcludedByBoth(all, expanded, emitted);
      expanded := expanded + emitted;
      collectedIgn := collectedIgn + refused;
      collectedExcl := collectedExcl + ExcludedBy(all, Elems(emitted));
      i := i + 1;
    }
    assert features[..i] == features;
    var excluded := FindExcluded(expanded, collectedExcl);
    return match excluded case Some(x) => Err(Excluded(x)) case None => Ok((expanded, collectedIgn));
  }

  lemma ExcludedByBoth(all: Catalog, a: seq<string>, b: seq<string>)
    ensures ExcludedBy(all, Elems(a + b)) == ExcludedBy(all, Elems(a)) + ExcludedBy(all, Elems(b))
  {
    assert Elems(a + b) == Elems(a) + Elems(b);
  }

  method FindExcluded(expanded: seq<string>, excluded: set<string>) returns (r: Option<string>)
    ensures r == FirstIn(expanded, excluded)
  {
    var j := 0;
    while j < |expanded|
      invariant 0 <= j <= |expanded|
      invariant FirstIn(expanded[j..], excluded) == FirstIn(expanded, excluded)
    {
      if expanded[j] in excluded {
        return Some(expanded[j]);
      }
      assert expanded[j..][1..] == expanded[j + 1..];
      j := j + 1;
    }
    return None;
  }

  lemma {:induction false} WalkAllStops(g: Graph, ign: set<string>, roots: seq<string>, i: nat)
    requires i <= |roots| && WalkAll(g, ign, roots[..i]).err.Some?
    ensures WalkAll(g, ign, roots) == WalkAll(g, ign, roots[..i])
    decreases |roots|
  {
    if i == |roots| {
      assert roots[..i] == roots;
    } else {
      assert DropLast(roots)[..i] == roots[..i];
      WalkAllStops(g, ign, DropLast(roots), i);
    }
  }

  // ---- what is expanded ----

  /** Ignored names that were asked for or are included by something expanded. */
  ghost predicate IgnoredMet(g: Graph, ign: set<string>, roots: seq<string>, r: string) {
    r in ign && (r in roots || exists u :: u in Closure(g, ign, Elems(roots)) && r in Includes(g, u))
  }

  ghost predicate Visited(g: Graph, ign: set<string>, roots: seq<string>, c: Collected) {
    && Closed(g, ign, c.seen) && c.seen == Elems(c.expanded) + c.ignored
    && NoDup(c.expanded)
    && Elems(c.expanded) == Closure(g, ign, Elems(roots))
    && (forall r :: r in c.ignored <==> IgnoredMet(g, ign, roots, r))
  }

  /**
   Although the walks share one seen set: on success every feature reachable from some root
   is listed exactly once, nothing else is, and the ignored names are exactly those met.
   */
  lemma {:induction false} WalkAllVisits(g: Graph, ign: set<string>, roots: seq<string>)
    requires WalkAll(g, ign, roots).err.None?
    ensures Visited(g, ign, roots, WalkAll(g, ign, roots))
  {
    if roots != [] {
      var front, f := DropLast(roots), Last(roots);
      assert roots == front + [f];
      WalkAllVisits(g, ign, front);
      var b := WalkAll(g, ign, front);
      DfsVisits(g, ign, b.seen, f);
      SharedSeenMisses(g, ign, b, front, f);
      JoinExpanded(g, ign, front, f, b);
      JoinIgnored(g, ign, front, f, b);
    }
  }

  lemma JoinExpanded(g: Graph, ign: set<string>, front: seq<string>, f: string, b: Collected)
    requires Visited(g, ign, front, b) && Dfs(g, ign, b.seen, f).err.None?
    ensures var s := Dfs(g, ign, b.seen, f).state;
            && NoDup(b.expanded + s.emitted)
            && Elems(b.expanded + s.emitted) == Elems(b.expanded) + Elems(s.emitted)
            && Elems(b.expanded + s.emitted) == Closure(g, ign, Elems(front + [f]))
  {
    var s := Dfs(g, ign, b.seen, f).state;
    DfsVisits(g, ign, b.seen, f);
    SharedSeenMisses(g, ign, b, front, f);
    ClosureSplit(g, ign, front, f);
    NoDupConcat(b.expanded, s.emitted);
    assert Elems(b.expanded + s.emitted) == Elems(b.expanded) + Elems(s.emitted);
  }

  lemma JoinIgnored(g: Graph, ign: set<string>, front: seq<string>, f: string, b: Collected)
    requires Visited(g, ign, front, b) && Dfs(g, ign, b.seen, f).err.None?
    ensures var s := Dfs(g, ign, b.seen, f).state;
            forall r :: r in b.ignored + s.refused <==> IgnoredMet(g, ign, front + [f], r)
  {
    DfsVisits(g, ign, b.seen, f);
    SharedSeenMisses(g, ign, b, front, f);
    IgnoredSplit(g, ign, front, f);
  }

  lemma ClosureSplit(g: Graph, ign: set<string>, front: seq<string>, f: string)
    ensures Closure(g, ign, Elems(front + [f])) == Closure(g, ign, Elems(front)) + Closure(g, ign, {f})
    ensures forall v :: v in Closure(g, ign, {f}) <==> Reach(g, ign, f, v)
  {
    assert Elems(front + [f]) == Elems(front) + {f};
  }

  lemma IgnoredSplit(g: Graph, ign: set<string>, front: seq<string>, f: string)
    ensures forall r :: IgnoredMet(g, ign, front + [f], r) <==>
              IgnoredMet(g, ign, front, r) || (r in ign && (r == f || IncludedFrom(g, ign, f, r)))
  {
    ClosureSplit(g, ign, front, f);
  }

  /** What an earlier walk has seen, a later root need not report again. */
  lemma SharedSeenMisses(g: Graph, ign: set<string>, b: Collected, front: seq<string>, f: string)
    requires Visited(g, ign, front, b)
    ensures forall v :: v in b.seen && Reach(g, ign, f, v) ==> v in b.expanded
    ensures forall r :: r in b.seen && r in ign ==> r in b.ignored
  {
    forall v | v in b.seen && Reach(g, ign, f, v) ensures v in b.expanded {
      ReachEnds(g, ign, f, v);
    }
    forall r | r in b.seen && r in ign ensures r in b.ignored {
      if r in b.expanded {
        var u :| u in Elems(front) && Reach(g, ign, u, r);
        ReachEnds(g, ign, u, r);
      }
    }
  }

  /** The contract of expandFeatures on success. */
  lemma ExpandedExactly(all: Catalog, features: seq<string>, ign: set<string>)
    requires Expanded(all, features, ign).Ok?
    ensures var g, (order, met) := InclusionGraph(all), Expanded(all, features, ign).value;
            && NoDup(order) && Elems(order) == Closure(g, ign, Elems(features))
            && (forall r :: r in met <==> IgnoredMet(g, ign, features, r))
            && (forall f :: f in features ==> f in all)
  {
    WalkAllVisits(InclusionGraph(all), ign, features);
    WalkAllRootsKnown(InclusionGraph(all), ign, features);
  }

  lemma {:induction false} WalkAllRootsKnown(g: Graph, ign: set<string>, roots: seq<string>)
    requires WalkAll(g, ign, roots).err.None?
    ensures forall f :: f in roots ==> f in g
  {
    if roots != [] {
      WalkAllRootsKnown(g, ign, DropLast(roots));
      assert roots == DropLast(roots) + [Last(roots)];
    }
  }

  // ---- when it fails ----

  /** A traversal error names a root without a feature, or a feature on a real cycle below some root. */
  lemma {:induction false} WalkAllErrors(g: Graph, ign: set<string>, roots: seq<string>)
    requires WalkAll(g, ign, roots).err.Some?
    ensures match WalkAll(g, ign, roots).err.value
            case NotInGraph(x) => x in roots && x !in g
            case PartOfLoop(x) => OnCycle(g, ign, x) && x in Closure(g, ign, Elems(roots))
            case _ => false
  {
    var front, f := DropLast(roots), Last(roots);
    assert roots == front + [f];
    ClosureSplit(g, ign, front, f);
    if WalkAll(g, ign, front).err.Some? {
      WalkAllErrors(g, ign, front);
    } else if f in g {
      LoopCheckSound(g, ign, WalkAll(g, ign, front).seen, f);
    }
  }

  lemma AcyclicWalkAll(g: Graph, ign: set<string>, roots: seq<string>)
    requires Acyclic(g, ign) && forall f :: f in roots ==> f in g
    ensures WalkAll(g, ign, roots).err.None?
  {
    if WalkAll(g, ign, roots).err.Some? {
      WalkAllErrors(g, ign, roots);
    }
  }

  /** Some member of `s` excludes some member of `s`. */
  ghost predicate SelfExcluding(all: Catalog, s: set<string>) {
    exists a, b :: a in s && b in s && a in all && b in all[a].excludes
  }

  lemma {:induction false} FirstInFinds(order: seq<string>, s: set<string>)
    ensures match FirstIn(order, s)
            case Some(x) => x in order && x in s
            case None => forall x :: x in order ==> x !in s
  {
    if order != [] && order[0] !in s {
      FirstInFinds(order[1..], s);
    }
  }

  /** Once the walks succeed, failure depends on the expanded set alone, whatever the order. */
  lemma ExclusionDependsOnSet(all: Catalog, features: seq<string>, ign: set<string>)
    requires WalkAll(InclusionGraph(all), ign, features).err.None?
    ensures Expanded(all, features, ign).Err? <==>
            SelfExcluding(all, Closure(InclusionGraph(all), ign, Elems(features)))
    ensures Expanded(all, features, ign).Err? ==> Expanded(all, features, ign).error.Excluded?
  {
    var c := WalkAll(InclusionGraph(all), ign, features);
    WalkAllVisits(InclusionGraph(all), ign, features);
    FirstInFinds(c.expanded, ExcludedBy(all, Elems(c.expanded)));
    forall x | x in c.expanded ensures x in ExcludedBy(all, Elems(c.expanded)) <==>
      exists v :: v in c.expanded && v in all && x in all[v].excludes
    {
      ExcludedByExactly(all, Elems(c.expanded), x);
    }
  }

  /** `x` is excluded by an entry of the list. */
  ghost predicate ExcludedWithin(all: Catalog, order: seq<string>, x: string) {
    exists v :: v in order && v in all && x in all[v].excludes
  }

  /** The error names the first entry, in the order of expansion, that another entry excludes. */
  lemma FirstExcludedNamed(all: Catalog, features: seq<string>, ign: set<string>) returns (j: nat)
    requires WalkAll(InclusionGraph(all), ign, features).err.None? && Expanded(all, features, ign).Err?
    ensures var order := WalkAll(InclusionGraph(all), ign, features).expanded;
            && j < |order| && Expanded(all, features, ign) == Err(Excluded(order[j]))
            && ExcludedWithin(all, order, order[j])
            && forall i :: 0 <= i < j ==> !ExcludedWithin(all, order, order[i])
  {
    var order := WalkAll(InclusionGraph(all), ign, features).expanded;
    var excluded := ExcludedBy(all, Elems(order));
    j := FirstInAt(order, excluded);
    forall i | 0 <= i < |order| ensures order[i] in excluded <==> ExcludedWithin(all, order, order[i]) {
      ExcludedByExactly(all, Elems(order), order[i]);
    }
  }

  /** What an error of the expansion says is so. */
  lemma ExpandErrors(all: Catalog, features: seq<string>, ign: set<string>)
    requires Expanded(all, features, ign).Err?
    ensures var g, reached := InclusionGraph(all), Closure(InclusionGraph(all), ign, Elems(features));
            match Expanded(all, features, ign).error
            case NotInGraph(x) => x in features && x !in all
            case PartOfLoop(x) => OnCycle(g, ign, x) && x in reached
            case Excluded(x) => x in reached && exists v :: v in reached && v in all && x in all[v].excludes
            case _ => false
  {
    if WalkAll(InclusionGraph(all), ign, features).err.Some? {
      WalkAllErrors(InclusionGraph(all), ign, features);
    } else {
      WalkAllVisits(InclusionGraph(all), ign, features);
      var j := FirstExcludedNamed(all, features, ign);
    }
  }

  lemma {:induction false} FirstInAt(order: seq<string>, s: set<string>) returns (j: nat)
    requires FirstIn(order, s).Some?
    ensures j < |order| && FirstIn(order, s) == Some(order[j]) && order[j] in s
    ensures forall i :: 0 <= i < j ==> order[i] !in s
  {
    if order[0] in s {
      j := 0;
    } else {
      j := FirstInAt(order[1..], s);
      j := j + 1;
    }
  }

  /** On a graph without cycles: the whole outcome, for any order and repetition of the requested list. */
  lemma ExpandedOnAcyclic(all: Catalog, features: seq<string>, ign: set<string>)
    requires Acyclic(InclusionGraph(all), ign)
    ensures Expanded(all, features, ign).Ok? <==>
            && (forall f :: f in features ==> f in all)
            && !SelfExcluding(all, Closure(InclusionGraph(all), ign, Elems(features)))
  {
    var g := InclusionGraph(all);
    if forall f :: f in features ==> f in all {
      AcyclicWalkAll(g, ign, features);
      ExclusionDependsOnSet(all, features, ign);
    } else if WalkAll(g, ign, features).err.None? {
      WalkAllRootsKnown(g, ign, features);
    }
  }

  // ---- in which order ----

  /** With ordered include lists below the roots, everything expanded comes after all it includes. */
  lemma {:induction false} WalkAllOrdered(g: Graph, ign: set<string>, roots: seq<string>)
    requires WalkAll(g, ign, roots).err.None?
    requires forall f :: f in roots ==> OrderedBelow(g, ign, f)
    ensures IncludesFirst(g, ign, {}, WalkAll(g, ign, roots).expanded)
  {
    if roots != [] {
      var front, f := DropLast(roots), Last(roots);
      assert roots == front + [f];
      WalkAllOrdered(g, ign, front);
      WalkAllVisits(g, ign, front);
      var b := WalkAll(g, ign, front);
      DfsOrdered(g, ign, b.seen, f);
      OrderConcat(g, ign, b.seen, b.expanded, Dfs(g, ign, b.seen, f).state.emitted);
    }
  }

  lemma OrderConcat(g: Graph, ign: set<string>, seen: set<string>, a: seq<string>, b: seq<string>)
    requires IncludesFirst(g, ign, {}, a) && IncludesFirst(g, ign, seen, b)
    requires seen - ign <= Elems(a)
    ensures IncludesFirst(g, ign, {}, a + b)
  {
    var o := a + b;
    forall j, w | 0 <= j < |o| && w in Includes(g, o[j]) && w !in ign ensures w in o[..j] {
      if j < |a| {
        assert o[..j] == a[..j];
      } else {
        assert o[j] == b[j - |a|];
        assert o[..j] == a + b[..j - |a|];
      }
    }
  }

  /** The conditional order guarantee of expandFeatures; the part it visits then has no cycle. */
  lemma ExpandedInOrder(all: Catalog, features: seq<string>, ign: set<string>)
    requires Expanded(all, features, ign).Ok?
    requires forall f :: f in features ==> OrderedBelow(InclusionGraph(all), ign, f)
    ensures var g, order := InclusionGraph(all), Expanded(all, features, ign).value.0;
            && IncludesFirst(g, ign, {}, order)
            && (forall v :: v in order ==> !OnCycle(g, ign, v))
  {
    var g, order := InclusionGraph(all), Expanded(all, features, ign).value.0;
    WalkAllOrdered(g, ign, features);
    WalkAllVisits(g, ign, features);
    forall v | v in order ensures !OnCycle(g, ign, v) {
      IncludesFirstAcyclic(g, ign, order, v);
    }
  }
}
