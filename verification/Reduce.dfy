/** The minimal feature list: what is left when everything implied is dropped. */
module Reduce {
  import opened Lists
  import opened FeatureErrors
  import opened IncludeGraph
  import opened FeatureCatalog
  import opened Traversal
  import opened WalkTheorems
  import opened PostorderWalk

  // ---- the scan over the list, blanking what is implied ----

  datatype Progress = Progress(feats: seq<string>, minimal: set<string>, visited: set<string>, excluded: set<string>)

  datatype Reduction = Reduction(err: Option<Error>, progress: Progress)

  function Blanked(feats: seq<string>, from: nat, names: set<string>): (r: seq<string>)
    ensures |r| == |feats|
    ensures forall k :: 0 <= k < |r| ==> r[k] == if k >= from && feats[k] in names then "" else feats[k]
  {
    seq(|feats|, k requires 0 <= k < |feats| => if k >= from && feats[k] in names then "" else feats[k])
  }

  /** The effect of the callbacks of one walk from `f`, the entry before position `from`. */
  function Drop(all: Catalog, p: Progress, from: nat, f: string, order: seq<string>): Progress {
    var implied := Elems(order) - {f};
    Progress(Blanked(p.feats, from, implied), p.minimal - implied,
             p.visited + implied, p.excluded + ExcludedBy(all, implied))
  }

  /** Each listed feature gets a walk of its own, with a fresh seen set. */
  function ScanFrom(all: Catalog, ign: set<string>, p: Progress, i: nat): Reduction
    requires i <= |p.feats|
    decreases |p.feats| - i
  {
    if i == |p.feats| then Reduction(None, p)
    else
      var f := p.feats[i];
      if f == "" || f in ign then ScanFrom(all, ign, p, i + 1)
      else
        var w := Dfs(InclusionGraph(all), ign, {}, f);
        var q := Drop(all, p.(minimal := p.minimal + {f}), i + 1, f, w.state.emitted);
        if w.err.Some? then Reduction(w.err, q) else ScanFrom(all, ign, q, i + 1)
  }

  function Reduced(all: Catalog, features: seq<string>, ign: set<string>): Reduction {
    ScanFrom(all, ign, Progress(features, {}, {}, {}), 0)
  }

  /** `features` is blanked in place; the result lists the minimal set in an arbitrary order. */
  method ReduceFeatures(all: Catalog, features: array<string>, ignored: set<string>)
    returns (r: Result<seq<string>>)
    modifies features
    ensures var red := Reduced(all, old(features[..]), ignored);
            && features[..] == red.progress.feats
            && match r
               case Ok(reduced) =>
                 && red.err.None? && red.progress.visited !! red.progress.excluded
                 && NoDup(reduced) && Elems(reduced) == red.progress.minimal
               case Err(Excluded(x)) =>
                 red.err.None? && x in red.progress.visited && x in red.progress.excluded
               case Err(e) => red.err == Some(e)
  {
    var g := InclusionGraph(all);
    var minimal, visited, excluded := {}, {}, {};
    ghost var red := Reduced(all, features[..], ignored);
    var i := 0;
    while i < features.Length
      invariant 0 <= i <= features.Length
      invariant ScanFrom(all, ignored, Progress(features[..], minimal, visited, excluded), i) == red
    {
      var f := features[i];
      i := i + 1;
      if f == "" || f in ignored {
        continue;
      }
      minimal := minimal + {f};
      var err, emitted, _ := PostorderDFS(g, null, f, ignored);
      DfsErrorKinds(g, ignored, f);
      minimal, visited, excluded := DropImplied(all, features, i, f, emitted, minimal, visited, excluded);
      if err.Some? {
        return Err(err.value);
      }
    }
    assert features[..] == red.progress.feats;

    var unchecked := visited;
    while unchecked != {}
      invariant unchecked <= visited
      invariant forall x :: x in visited && x in excluded ==> x in unchecked
      decreases unchecked
    {
      var x :| x in unchecked;
      unchecked := unchecked - {x};
      if x in excluded {
        return Err(Excluded(x));
      }
    }

    var reduced := [];
    var rest := minimal;
    while rest != {}
      invariant rest <= minimal
      invariant NoDup(reduced) && Elems(reduced) == minimal - rest
      decreases rest
    {
      var f :| f in rest;
      assert Elems(reduced + [f]) == Elems(reduced) + {f};
      rest := rest - {f};
      reduced := reduced + [f];
    }
    return Ok(reduced);
  }

  method DropImplied(all: Catalog, features: array<string>, from: nat, f: string, order: seq<string>,
                     minimal0: set<string>, visited0: set<string>, excluded0: set<string>)
    returns (minimal: set<string>, visited: set<string>, excluded: set<string>)
    requires from <= features.Length
    modifies features
    ensures Progress(features[..], minimal, visited, excluded)
         == Drop(all, Progress(old(features[..]), minimal0, visited0, excluded0), from, f, order)
  {
    minimal, visited, excluded := minimal0, visited0, excluded0;
    ghost var feats0 := features[..];
    var k := 0;
    ghost var implied := {};
    while k < |order|
      invariant 0 <= k <= |order| && implied == Elems(order[..k]) - {f}
      invariant features[..] == Blanked(feats0, from, implied)
      invariant minimal == minimal0 - implied && visited == visited0 + implied
      invariant excluded == excluded0 + ExcludedBy(all, implied)
    {
      var v := order[k];
      assert Elems(order[..k + 1]) == Elems(order[..k]) + {v};
      if v != f {
        BlankOne(features, from, v);
        minimal, visited := minimal - {v}, visited + {v};
        excluded := excluded + ExcludedBy(all, {v});
        BlankedTwice(feats0, from, implied, v);
        implied := implied + {v};
      }
      k := k + 1;
    }
    assert order[..k] == order;
  }

  lemma BlankedTwice(feats: seq<string>, from: nat, names: set<string>, v: string)
    ensures Blanked(Blanked(feats, from, names), from, {v}) == Blanked(feats, from, names + {v})
  {
  }

  method BlankOne(features: array<string>, from: nat, v: string)
    requires from <= features.Length
    modifies features
    ensures features[..] == Blanked(old(features[..]), from, {v})
  {
    var j := from;
    while j < features.Length
      invariant from <= j <= features.Length
      invariant forall k :: 0 <= k < features.Length ==>
        features[k] == if from <= k < j && old(features[k]) == v then "" else old(features[k])
    {
      if features[j] == v {
        features[j] := "";
      }
      j := j + 1;
    }
  }

  lemma DfsErrorKinds(g: Graph, ign: set<string>, f: string)
    ensures Dfs(g, ign, {}, f).err.Some? ==> !Dfs(g, ign, {}, f).err.value.Excluded?
  {
    if Dfs(g, ign, {}, f).err.Some? && f in g {
      LoopCheckSound(g, ign, {}, f);
    }
  }
}
