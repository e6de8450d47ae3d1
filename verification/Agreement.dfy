/** The Go tool and the Python pipeline describe the same images. */
module Agreement {
  import opened Lists
  import opened IncludeGraph
  import opened FeatureCatalog
  import opened Expand
  import FeatureOrder
  import TextOrder
  import opened ReduceTheorems
  import opened FeatureModel

  /** The same info.yaml files, read by the pipeline: elements and flags become modifiers, excludes are dropped. */
  function AsDescriptors(all: Catalog): Descriptors {
    map n | n in all :: Descriptor(if all[n].ftype == "platform" then PLATFORM else MODIFIER, all[n].includes)
  }

  lemma SameGraph(all: Catalog)
    ensures IncludeLists(AsDescriptors(all)) == InclusionGraph(all)
  {
  }

  lemma ClosureIsNormal(g: Graph, platform: string, modifiers: set<string>)
    ensures Closure(g, {}, {platform} + modifiers) == NormalSet(g, platform, modifiers) + {platform}
  {
    forall v, w | v in {platform} + modifiers && Reach(g, {}, v, w)
      ensures w in NormalSet(g, platform, modifiers) + {platform}
    {
      ReachIsBelow(g, v, w);
    }
    forall w | w in NormalSet(g, platform, modifiers) + {platform}
      ensures w in Closure(g, {}, {platform} + modifiers)
    {
      ReachRefl(g, {}, w);
      if w in AllBelow(g, modifiers) {
        var v :| v in modifiers && Below(g, v, w);
        BelowIsReach(g, v, w);
      } else if w in AllBelow(g, {platform}) {
        BelowIsReach(g, platform, w);
      }
    }
  }

  /** What the pipeline can work with, read off the closure of the request. */
  lemma UsableExactly(g: Graph, names: set<string>)
    ensures Usable(g, names) <==> forall u :: u in Closure(g, {}, names) ==> u in g && !OnCycle(g, {}, u)
  {
    if Usable(g, names) {
      forall u | u in Closure(g, {}, names) ensures u in g && !OnCycle(g, {}, u) {
        var v :| v in names && Reach(g, {}, v, u);
        assert Resolvable(g, v);
      }
    }
    if forall u :: u in Closure(g, {}, names) ==> u in g && !OnCycle(g, {}, u) {
      forall v | v in names ensures v in g && Resolvable(g, v) {
        ReachRefl(g, {}, v);
        forall u | Reach(g, {}, v, u) ensures u in Closure(g, {}, names) {
        }
      }
    }
  }

  /** The Go tool expands the request, and finds every feature of the result. */
  ghost predicate GoAccepts(all: Catalog, request: seq<string>) {
    Expanded(all, request, {}).Ok? && FeatureOrder.Sorted(all, Expanded(all, request, {}).value.0, false, false).Ok?
  }

  /**
   On every catalog: the pipeline accepts a request whose features do not exclude each other
   if and only if the Go tool accepts it and none of its features is on a cycle, which the walks
   may have passed over. Whatever is expanded is the normalised modifiers and the platform.
   */
  lemma LanguagesAgree(all: Catalog, platform: string, modifiers: seq<string>)
    ensures var g, request := IncludeLists(AsDescriptors(all)), [platform] + modifiers;
            var image := NormalSet(g, platform, Elems(modifiers)) + {platform};
            && (Usable(g, Elems(modifiers) + {platform}) && !SelfExcluding(all, image)
                <==> GoAccepts(all, request) && forall v :: v in image ==> !OnCycle(g, {}, v))
            && (Expanded(all, request, {}).Ok? ==> Elems(Expanded(all, request, {}).value.0) == image)
  {
    var g, request := InclusionGraph(all), [platform] + modifiers;
    SameGraph(all);
    assert Elems(request) == Elems(modifiers) + {platform} == {platform} + Elems(modifiers);
    ClosureIsNormal(g, platform, Elems(modifiers));
    UsableExactly(g, Elems(request));
    if Usable(g, Elems(request)) {
      UsableWalks(g, request);
    }
    if WalkAll(g, {}, request).err.None? {
      ExclusionDependsOnSet(all, request, {});
    }
    if Expanded(all, request, {}).Ok? {
      ExpandedExactly(all, request, {});
      FeatureOrder.SortedExactly(all, Expanded(all, request, {}).value.0, false, false);
    }
  }

  lemma UsableWalks(g: Graph, request: seq<string>)
    requires Usable(g, Elems(request))
    ensures WalkAll(g, {}, request).err.None?
  {
    UsableExactly(g, Elems(request));
    forall f | f in request ensures f in g {
      assert f in Elems(request);
    }
    if WalkAll(g, {}, request).err.Some? {
      WalkAllErrors(g, {}, request);
    }
  }

  /** Without cycles, then, the two tools accept the same requests, but for mutual exclusion. */
  lemma LanguagesAgreeOnAcyclic(all: Catalog, platform: string, modifiers: seq<string>)
    requires Acyclic(InclusionGraph(all), {})
    ensures var g, request := IncludeLists(AsDescriptors(all)), [platform] + modifiers;
            GoAccepts(all, request) <==>
            && Usable(g, Elems(modifiers) + {platform})
            && !SelfExcluding(all, NormalSet(g, platform, Elems(modifiers)) + {platform})
  {
    SameGraph(all);
    LanguagesAgree(all, platform, modifiers);
  }

  /**
   The two canonical names differ by the subtraction that removes nothing: the Go name also
   drops what the platform includes, and the platform itself if a modifier includes it.
   */
  lemma CanonicalNamesRelate(g: Graph, platform: string, modifiers: set<string>)
    requires Usable(g, modifiers + {platform})
    ensures Minimal(g, {}, {platform} + modifiers)
         == ({platform} + CanonicalSet(g, modifiers)) - AllBelow(g, {platform} + modifiers)
  {
    CanonicalIsMinimal(g, {platform} + modifiers);
    AllBelowUnion(g, {platform}, modifiers);
    assert {platform} + modifiers == modifiers + {platform};
  }

  /** With names that differ in more than case, normalised tuples are unique, idempotent and blind to input order. */
  lemma NormalTupleUnique(g: Graph, platform: string, a: seq<string>, b: seq<string>, r: seq<string>, s: seq<string>)
    requires TextOrder.Distinguishes(Upper, g.Keys + Names(g))
    requires Usable(g, Elems(a) + {platform})
    requires TextOrder.IsListing(Upper, NormalSet(g, platform, Elems(a)), r)
    requires TextOrder.IsListing(Upper, NormalSet(g, platform, Elems(b)), s)
    requires Elems(b) == Elems(a) || b == r
    ensures s == r
  {
    if b == r {
      NormalIdempotent(g, platform, Elems(a));
    }
    forall v | v in NormalSet(g, platform, Elems(a)) ensures v in g.Keys + Names(g) {
      if v !in Elems(a) {
        var x :| x in Elems(a) + {platform} && Below(g, x, v);
        BelowIsReach(g, x, v);
        ReachEnds(g, {}, x, v);
      }
    }
    TextOrder.ListingUnique(Upper, NormalSet(g, platform, Elems(a)), r, s);
  }
}
