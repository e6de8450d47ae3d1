/** The pipeline's own view of features: transitive includes, normalised and canonical modifiers. */
module FeatureModel {
  import opened Lists
  import opened TextOrder
  import opened IncludeGraph
  import opened ReduceTheorems

  datatype FeatureType = PLATFORM | MODIFIER
  datatype Descriptor = Descriptor(ftype: FeatureType, includes: seq<string>)
  type Descriptors = map<string, Descriptor>

  /** ValueError from feature_by_name, or the recursion limit on a cyclic include. */
  datatype Failure = UnknownFeature(name: string) | EndlessRecursion(name: string)
  datatype Outcome<+T> = Success(value: T) | Raised(error: Failure)

  function IncludeLists(fs: Descriptors): Graph {
    map n | n in fs :: fs[n].includes
  }

  predicate IsPlatformName(fs: Descriptors, name: string) {
    name in fs && fs[name].ftype == PLATFORM
  }

  // ---- transitive includes ----

  /** `active` are the features whose generators are running: entering one again never ends. */
  function IncludedFeatures(g: Graph, active: set<string>, v: string): Outcome<seq<string>>
    decreases |g.Keys - active|, 0, 0
  {
    if v !in g then Raised(UnknownFeature(v))
    else if v in active then Raised(EndlessRecursion(v))
    else
      assert g.Keys - (active + {v}) < g.Keys - active;
      Shrinks(g.Keys, active, v);
      IncludedByList(g, active + {v}, g[v])
  }

  function IncludedByList(g: Graph, active: set<string>, names: seq<string>): Outcome<seq<string>>
    decreases |g.Keys - active|, 1, |names|
  {
    if names == [] then Success([])
    else
      var head := IncludedFeatures(g, active, names[0]);
      if head.Raised? then head
      else
        var tail := IncludedByList(g, active, names[1..]);
        if tail.Raised? then tail else Success(head.value + [names[0]] + tail.value)
  }

  lemma Shrinks(keys: set<string>, active: set<string>, v: string)
    requires v in keys && v !in active
    ensures |keys - (active + {v})| < |keys - active|
  {
    assert keys - active == (keys - (active + {v})) + {v};
  }

  /** `w` is a proper, transitive include of `v`. */
  ghost predicate Below(g: Graph, v: string, w: string) {
    exists u :: Edge(g, {}, v, u) && Reach(g, {}, u, w)
  }

  ghost function AllBelow(g: Graph, s: set<string>): (r: set<string>)
    ensures forall w :: w in r <==> exists v :: v in s && Below(g, v, w)
  {
    var r := set w | w in Names(g) && exists v :: v in s && Below(g, v, w);
    forall v, w | v in s && Below(g, v, w) ensures w in r {
      var u :| Edge(g, {}, v, u) && Reach(g, {}, u, w);
      ReachEnds(g, {}, u, w);
    }
    r
  }

  /** Every include below `v` exists, and none of them, nor `v`, lies on a cycle. */
  ghost predicate Resolvable(g: Graph, v: string) {
    forall u :: Reach(g, {}, v, u) ==> u in g && !OnCycle(g, {}, u)
  }

  ghost predicate Avoids(g: Graph, active: set<string>, v: string) {
    forall u :: Reach(g, {}, v, u) ==> u !in active
  }

  lemma BelowIsReach(g: Graph, v: string, w: string)
    requires Below(g, v, w)
    ensures Reach(g, {}, v, w)
  {
    var u :| Edge(g, {}, v, u) && Reach(g, {}, u, w);
    ReachEdge(g, {}, v, u);
    ReachTrans(g, {}, v, u, w);
  }

  lemma ReachIsBelow(g: Graph, v: string, w: string)
    requires Reach(g, {}, v, w)
    ensures v == w || Below(g, v, w)
  {
    if v != w {
      var u := ReachFirst(g, {}, v, w);
    }
  }

  ghost predicate ResolvesTo(g: Graph, active: set<string>, v: string, r: Outcome<seq<string>>) {
    && (r.Success? <==> Resolvable(g, v) && Avoids(g, active, v))
    && (r.Success? ==> forall w :: w in r.value <==> Below(g, v, w))
  }

  ghost predicate ListResolvesTo(g: Graph, active: set<string>, names: seq<string>, r: Outcome<seq<string>>) {
    && (r.Success? <==> forall n :: n in names ==> Resolvable(g, n) && Avoids(g, active, n))
    && (r.Success? ==> forall w :: w in r.value <==> exists n :: n in names && Reach(g, {}, n, w))
  }

  /** The recursion ends normally exactly when nothing below is missing or cyclic, and yields what is below. */
  lemma {:induction false} IncludedExactly(g: Graph, active: set<string>, v: string)
    ensures ResolvesTo(g, active, v, IncludedFeatures(g, active, v))
    decreases |g.Keys - active|, 0, 0
  {
    ReachRefl(g, {}, v);
    if v in g && v !in active {
      Shrinks(g.Keys, active, v);
      IncludedListExactly(g, active + {v}, g[v]);
      ResolveStep(g, active, v);
    }
  }

  lemma {:induction false} IncludedListExactly(g: Graph, active: set<string>, names: seq<string>)
    ensures ListResolvesTo(g, active, names, IncludedByList(g, active, names))
    decreases |g.Keys - active|, 1, |names|
  {
    if names != [] {
      var n := names[0];
      IncludedExactly(g, active, n);
      IncludedListExactly(g, active, names[1..]);
      assert names == [n] + names[1..];
      var head, tail := IncludedFeatures(g, active, n), IncludedByList(g, active, names[1..]);
      if head.Success? && tail.Success? {
        forall w ensures w in head.value + [n] + tail.value <==> exists m :: m in names && Reach(g, {}, m, w) {
          ListMember(g, n, names[1..], w);
        }
      }
    }
  }

  lemma ListMember(g: Graph, n: string, rest: seq<string>, w: string)
    ensures (exists m :: m in [n] + rest && Reach(g, {}, m, w)) <==>
            Below(g, n, w) || w == n || exists m :: m in rest && Reach(g, {}, m, w)
  {
    ReachRefl(g, {}, n);
    if Below(g, n, w) {
      BelowIsReach(g, n, w);
    }
    if Reach(g, {}, n, w) {
      ReachIsBelow(g, n, w);
    }
    assert n in [n] + rest && forall m :: m in rest ==> m in [n] + rest;
  }

  lemma ResolveStep(g: Graph, active: set<string>, v: string)
    requires v in g && v !in active
    ensures (Resolvable(g, v) && Avoids(g, active, v)) <==>
            forall n :: n in g[v] ==> Resolvable(g, n) && Avoids(g, active + {v}, n)
    ensures forall w :: Below(g, v, w) <==> exists n :: n in g[v] && Reach(g, {}, n, w)
  {
    forall n | n in g[v] ensures Edge(g, {}, v, n) {
    }
    forall w | Below(g, v, w) ensures exists n :: n in g[v] && Reach(g, {}, n, w) {
      var u :| Edge(g, {}, v, u) && Reach(g, {}, u, w);
    }
    if Resolvable(g, v) && Avoids(g, active, v) {
      ReachRefl(g, {}, v);
      forall n, u | n in g[v] && Reach(g, {}, n, u) ensures u in g && !OnCycle(g, {}, u) && u !in active && u != v {
        assert Below(g, v, u);
        BelowIsReach(g, v, u);
      }
    }
    if forall n :: n in g[v] ==> Resolvable(g, n) && Avoids(g, active + {v}, n) {
      forall u | Reach(g, {}, v, u) ensures u in g && !OnCycle(g, {}, u) && u !in active {
        ReachIsBelow(g, v, u);
      }
    }
  }

  // ---- normalised modifiers ----

  /** Python's str.upper on the ASCII letters. */
  function UpperChar(c: char): char {
    if 'a' <= c <= 'z' then c - 'a' + 'A' else c
  }

  function Upper(s: string): (r: string)
    ensures |r| == |s|
  {
    if s == [] then [] else [UpperChar(s[0])] + Upper(s[1..])
  }

  lemma {:induction false} UpperAt(s: string, k: nat)
    requires k < |s|
    ensures if 'a' <= s[k] <= 'z' then Upper(s)[k] as int == s[k] as int - 32 else Upper(s)[k] == s[k]
  {
    assert Upper(s)[0] == UpperChar(s[0]);
    if k > 0 {
      UpperAt(s[1..], k - 1);
    }
  }

  /** The two names differ at most in the case of ASCII letters. */
  ghost predicate SameButCase(a: string, b: string) {
    && |a| == |b|
    && forall k :: 0 <= k < |a| ==>
         a[k] == b[k] || ('a' <= a[k] <= 'z' && a[k] as int == b[k] as int + 32)
         || ('a' <= b[k] <= 'z' && b[k] as int == a[k] as int + 32)
  }

  lemma {:induction false} CaseIgnored(a: string, b: string)
    requires SameButCase(a, b)
    ensures Upper(a) == Upper(b)
  {
    if a != [] {
      CaseIgnored(a[1..], b[1..]);
      assert UpperChar(a[0]) == UpperChar(b[0]);
    }
  }

  /** Names that start with an underscore, as flags do, come after those that start with a small letter. */
  ghost predicate FlagsLast(names: seq<string>) {
    forall i, j :: 0 <= i < j < |names| && names[i] != "" && names[i][0] == '_' ==>
      names[j] != "" && !('a' <= names[j][0] <= 'z')
  }

  lemma SortedFlagsLast(s: set<string>)
    ensures NoDup(SortedListing(Upper, s)) && FlagsLast(SortedListing(Upper, s))
  {
    SortedListingSorted(Upper, s);
    var r := SortedListing(Upper, s);
    forall i, j | 0 <= i < j < |r| && r[i] != "" && r[i][0] == '_' ensures r[j] != "" && !('a' <= r[j][0] <= 'z') {
      assert Le(Upper(r[i]), Upper(r[j]));
      UpperAt(r[i], 0);
      if r[j] != "" {
        UpperAt(r[j], 0);
      }
    }
  }

  /** Everything a platform and its modifiers pull in, except the platform as such. */
  ghost function NormalSet(g: Graph, platform: string, modifiers: set<string>): set<string> {
    modifiers + AllBelow(g, modifiers) + AllBelow(g, {platform})
  }

  /** What the pipeline can work with: known features whose includes resolve. */
  ghost predicate Usable(g: Graph, names: set<string>) {
    names <= g.Keys && forall v {:trigger Resolvable(g, v)} :: v in names ==> Resolvable(g, v)
  }

  /** The normalised tuple; names that differ in case only would come in an order of Python's choosing. */
  ghost function NormalTuple(g: Graph, platform: string, modifiers: seq<string>): seq<string> {
    SortedListing(Upper, NormalSet(g, platform, Elems(modifiers)))
  }

  method IncludedSet(g: Graph, v: string) returns (r: Outcome<set<string>>)
    ensures r.Success? <==> Resolvable(g, v)
    ensures r.Success? ==> r.value == AllBelow(g, {v})
  {
    IncludedExactly(g, {}, v);
    var listed := IncludedFeatures(g, {}, v);
    match listed {
      case Raised(e) => return Raised(e);
      case Success(names) => return Success(set n | n in names);
    }
  }

  method NormalisedModifiers(fs: Descriptors, platform: string, modifiers: seq<string>)
    returns (r: Outcome<seq<string>>)
    ensures r.Success? <==> Usable(IncludeLists(fs), Elems(modifiers) + {platform})
    ensures r.Success? ==> r.value == NormalTuple(IncludeLists(fs), platform, modifiers)
    ensures r.Success? ==> NoDup(r.value) && FlagsLast(r.value)
    ensures r.Success? ==> var g, named := IncludeLists(fs), Elems(modifiers);
                           Elems(r.value) == named + AllBelow(g, named) + AllBelow(g, {platform})
  {
    var g := IncludeLists(fs);
    if platform !in g {
      return Raised(UnknownFeature(platform));
    }
    var known := CheckKnown(g, modifiers);
    if known.Raised? {
      return Raised(known.error);
    }
    var named := set m | m in modifiers;
    assert named == Elems(modifiers);
    UsableWith(g, named, platform);
    var collected := WithIncludes(g, named);
    if collected.Raised? {
      return Raised(collected.error);
    }
    var included := IncludedSet(g, platform);
    if included.Raised? {
      return Raised(included.error);
    }
    var everything := collected.value + included.value;
    SortedFlagsLast(everything);
    return Success(SortedListing(Upper, everything));
  }

  lemma UsableWith(g: Graph, names: set<string>, platform: string)
    requires names <= g.Keys && platform in g
    ensures Usable(g, names + {platform}) <==> Usable(g, names) && Resolvable(g, platform)
  {
  }

  method WithIncludes(g: Graph, named: set<string>) returns (r: Outcome<set<string>>)
    requires named <= g.Keys
    ensures r.Success? <==> Usable(g, named)
    ensures r.Success? ==> r.value == named + AllBelow(g, named)
  {
    var everything, rest := named, named;
    while rest != {}
      invariant rest <= named
      invariant Usable(g, named - rest)
      invariant everything == named + AllBelow(g, named - rest)
      decreases rest
    {
      var m :| m in rest;
      rest := rest - {m};
      assert named - rest == (named - rest - {m}) + {m};
      var included := IncludedSet(g, m);
      if included.Raised? {
        return included;
      }
      everything := everything + included.value;
    }
    assert named - rest == named;
    return Success(everything);
  }

  method CheckKnown(g: Graph, names: seq<string>) returns (r: Outcome<()>)
    ensures r.Success? <==> forall n :: n in names ==> n in g
  {
    var i := 0;
    while i < |names|
      invariant 0 <= i <= |names| && forall k :: 0 <= k < i ==> names[k] in g
    {
      if names[i] !in g {
        return Raised(UnknownFeature(names[i]));
      }
      i := i + 1;
    }
    return Success(());
  }

  lemma AllBelowClosed(g: Graph, s: set<string>)
    ensures AllBelow(g, AllBelow(g, s)) <= AllBelow(g, s)
  {
    forall v, w | v in AllBelow(g, s) && Below(g, v, w) ensures w in AllBelow(g, s) {
      var x :| x in s && Below(g, x, v);
      BelowTrans(g, x, v, w);
    }
  }

  lemma BelowTrans(g: Graph, x: string, v: string, w: string)
    requires Below(g, x, v) && Below(g, v, w)
    ensures Below(g, x, w)
  {
    var u :| Edge(g, {}, x, u) && Reach(g, {}, u, v);
    BelowIsReach(g, v, w);
    ReachTrans(g, {}, u, v, w);
  }

  lemma AllBelowUnion(g: Graph, s: set<string>, t: set<string>)
    ensures AllBelow(g, s + t) == AllBelow(g, s) + AllBelow(g, t)
  {
  }

  /** Normalising twice changes nothing. */
  lemma NormalIdempotent(g: Graph, platform: string, modifiers: set<string>)
    ensures NormalSet(g, platform, NormalSet(g, platform, modifiers)) == NormalSet(g, platform, modifiers)
  {
    var b, p := AllBelow(g, modifiers), AllBelow(g, {platform});
    AllBelowUnion(g, modifiers + b, p);
    AllBelowUnion(g, modifiers, b);
    AllBelowClosed(g, modifiers);
    AllBelowClosed(g, {platform});
  }

  // ---- the canonical tuple ----

  /** The modifiers no listed modifier includes. What the platform includes stays. */
  ghost function CanonicalSet(g: Graph, modifiers: set<string>): set<string> {
    modifiers - AllBelow(g, modifiers)
  }

  ghost function CanonicalTuple(g: Graph, platform: string, modifiers: seq<string>): seq<string> {
    [platform] + SortedListing(Upper, CanonicalSet(g, Elems(modifiers)))
  }

  method CanonicalisedFeatures(fs: Descriptors, platform: string, modifiers: seq<string>)
    returns (r: Outcome<seq<string>>)
    ensures r.Success? <==> platform in fs && Usable(IncludeLists(fs), Elems(modifiers))
    ensures r.Success? ==> r.value == CanonicalTuple(IncludeLists(fs), platform, modifiers)
    ensures r.Success? ==> r.value != [] && r.value[0] == platform
                           && NoDup(r.value[1..]) && FlagsLast(r.value[1..])
                           && Elems(r.value[1..]) == Elems(modifiers) - AllBelow(IncludeLists(fs), Elems(modifiers))
  {
    var g := IncludeLists(fs);
    if platform !in g {
      return Raised(UnknownFeature(platform));
    }
    var known := CheckKnown(g, modifiers);
    if known.Raised? {
      return Raised(known.error);
    }
    var minimal := set m | m in modifiers;
    // a set of one generator and some strings is subtracted here, which removes no descriptor
    var i := 0;
    while i < |modifiers|
      invariant 0 <= i <= |modifiers|
      invariant Usable(g, Elems(modifiers[..i]))
      invariant minimal == Elems(modifiers) - AllBelow(g, Elems(modifiers[..i]))
    {
      assert Elems(modifiers[..i + 1]) == Elems(modifiers[..i]) + {modifiers[i]};
      var included := IncludedSet(g, modifiers[i]);
      if included.Raised? {
        return Raised(included.error);
      }
      minimal := minimal - included.value;
      i := i + 1;
    }
    assert modifiers[..i] == modifiers;
    SortedFlagsLast(minimal);
    var names := [platform] + SortedListing(Upper, minimal);
    assert names[1..] == SortedListing(Upper, minimal);
    return Success(names);
  }

  /** Off all cycles, a modifier includes another one exactly when a different one reaches it. */
  lemma CanonicalIsMinimal(g: Graph, modifiers: set<string>)
    requires Usable(g, modifiers)
    ensures CanonicalSet(g, modifiers) == Minimal(g, {}, modifiers)
    ensures forall v :: v in modifiers ==> !OnCycle(g, {}, v)
  {
    forall v | v in modifiers ensures !OnCycle(g, {}, v) {
      assert Resolvable(g, v);
      ReachRefl(g, {}, v);
    }
    forall w | w in modifiers ensures w in AllBelow(g, modifiers) <==> Implied(g, {}, modifiers, w) {
      if Implied(g, {}, modifiers, w) {
        var h :| h in modifiers && h != w && Reach(g, {}, h, w);
        ReachIsBelow(g, h, w);
      }
      if w in AllBelow(g, modifiers) {
        var v :| v in modifiers && Below(g, v, w);
        BelowIsReach(g, v, w);
        assert v != w;
      }
    }
  }

  /** The canonical set pulls in every listed modifier, and exactly what the list pulls in. */
  lemma CanonicalGenerates(g: Graph, modifiers: set<string>)
    requires Usable(g, modifiers)
    ensures modifiers + AllBelow(g, modifiers)
         == CanonicalSet(g, modifiers) + AllBelow(g, CanonicalSet(g, modifiers))
  {
    var c := CanonicalSet(g, modifiers);
    CanonicalIsMinimal(g, modifiers);
    forall v | v in modifiers ensures v in c + AllBelow(g, c) {
      var m := MinimalCovers(g, {}, modifiers, v);
      ReachIsBelow(g, m, v);
    }
    forall v, w | v in modifiers && Below(g, v, w) ensures w in AllBelow(g, c) {
      if v !in c {
        assert v in AllBelow(g, c);
        AllBelowClosed(g, c);
      }
    }
  }

  lemma CanonicalSetsIdentify(g: Graph, platform: string, a: set<string>, b: set<string>)
    requires Usable(g, a) && Usable(g, b) && CanonicalSet(g, a) == CanonicalSet(g, b)
    ensures NormalSet(g, platform, a) == NormalSet(g, platform, b)
  {
    CanonicalGenerates(g, a);
    CanonicalGenerates(g, b);
  }

  /** Equal canonical tuples mean equal normalised modifiers: the tuple identifies a flavour. */
  lemma CanonicalIdentifies(g: Graph, platform: string, a: seq<string>, b: seq<string>)
    requires Usable(g, Elems(a)) && Usable(g, Elems(b))
    requires CanonicalTuple(g, platform, a) == CanonicalTuple(g, platform, b)
    ensures NormalTuple(g, platform, a) == NormalTuple(g, platform, b)
  {
    assert CanonicalTuple(g, platform, a)[1..] == SortedListing(Upper, CanonicalSet(g, Elems(a)));
    assert CanonicalTuple(g, platform, b)[1..] == SortedListing(Upper, CanonicalSet(g, Elems(b)));
    CanonicalSetsIdentify(g, platform, Elems(a), Elems(b));
  }

  /** Every way of asking for the same image yields the same canonical set. */
  ghost predicate CanonicalForImage(g: Graph, platform: string, modifiers: set<string>) {
    forall other :: Usable(g, other) && NormalSet(g, platform, other) == NormalSet(g, platform, modifiers) ==>
      CanonicalSet(g, other) == CanonicalSet(g, modifiers)
  }

  /**
   Because the platform's includes are never removed, the canonical tuple depends on the image
   alone if and only if the listed modifiers themselves include all that the platform includes.
   */
  lemma CanonicalExactlyWhen(g: Graph, platform: string, modifiers: set<string>)
    requires Usable(g, modifiers + {platform})
    ensures CanonicalForImage(g, platform, modifiers) <==> AllBelow(g, {platform}) <= AllBelow(g, modifiers)
  {
    if AllBelow(g, {platform}) <= AllBelow(g, modifiers) {
      forall other | Usable(g, other) && NormalSet(g, platform, other) == NormalSet(g, platform, modifiers)
        ensures CanonicalSet(g, other) == CanonicalSet(g, modifiers)
      {
        CanonicalAgrees(g, platform, modifiers, other);
      }
    }
    if d :| d in AllBelow(g, {platform}) && d !in AllBelow(g, modifiers) {
      CanonicalDiffers(g, platform, modifiers, d);
    }
  }

  lemma CanonicalAgrees(g: Graph, platform: string, m: set<string>, other: set<string>)
    requires Usable(g, m) && Usable(g, other) && AllBelow(g, {platform}) <= AllBelow(g, m)
    requires NormalSet(g, platform, other) == NormalSet(g, platform, m)
    ensures CanonicalSet(g, other) == CanonicalSet(g, m)
  {
    OthersBelow(g, m, other);
    assert CanonicalSet(g, m) <= other;
    forall v | v in CanonicalSet(g, other) ensures v in CanonicalSet(g, m) {
      CanonicalKept(g, m, other, v);
    }
  }

  lemma OthersBelow(g: Graph, m: set<string>, other: set<string>)
    requires other <= m + AllBelow(g, m)
    ensures AllBelow(g, other) <= AllBelow(g, m)
  {
    forall v, w | v in other && Below(g, v, w) ensures w in AllBelow(g, m) {
      if v !in m {
        AllBelowClosed(g, m);
        assert w in AllBelow(g, AllBelow(g, m));
      }
    }
  }

  lemma CanonicalKept(g: Graph, m: set<string>, other: set<string>, v: string)
    requires Usable(g, m) && other <= m + AllBelow(g, m) && CanonicalSet(g, m) <= other
    requires v in CanonicalSet(g, other)
    ensures v in CanonicalSet(g, m)
  {
    CanonicalGenerates(g, m);
    assert v !in AllBelow(g, CanonicalSet(g, m)) by {
      assert AllBelow(g, CanonicalSet(g, m)) <= AllBelow(g, other);
    }
  }

  /** A feature the platform brings along brings nothing that the platform does not. */
  lemma PlatformCovers(g: Graph, platform: string, d: string)
    requires d in AllBelow(g, {platform}) && Usable(g, {platform})
    ensures d in g && Resolvable(g, d) && !Below(g, d, d)
    ensures AllBelow(g, {d}) <= AllBelow(g, {platform})
  {
    assert Resolvable(g, platform);
    BelowIsReach(g, platform, d);
    ReachRefl(g, {}, d);
    forall u | Reach(g, {}, d, u) ensures u in g && !OnCycle(g, {}, u) {
      ReachTrans(g, {}, platform, d, u);
    }
    forall w | Below(g, d, w) ensures w in AllBelow(g, {platform}) {
      BelowTrans(g, platform, d, w);
    }
  }

  /** Listing such a feature or not: the same image, different canonical sets. */
  lemma ListingMatters(g: Graph, platform: string, small: set<string>, d: string)
    requires Usable(g, small + {platform})
    requires d in AllBelow(g, {platform}) && d !in small && d !in AllBelow(g, small)
    ensures Usable(g, small + {d})
    ensures NormalSet(g, platform, small + {d}) == NormalSet(g, platform, small)
    ensures d in CanonicalSet(g, small + {d}) && d !in CanonicalSet(g, small)
  {
    PlatformCovers(g, platform, d);
    AllBelowUnion(g, small, {d});
  }

  /** Listing or unlisting a feature the platform brings along changes the tuple but not the image. */
  lemma CanonicalDiffers(g: Graph, platform: string, m: set<string>, d: string)
    requires Usable(g, m + {platform})
    requires d in AllBelow(g, {platform}) && d !in AllBelow(g, m)
    ensures var other := if d in m then m - {d} else m + {d};
            && Usable(g, other)
            && NormalSet(g, platform, other) == NormalSet(g, platform, m)
            && CanonicalSet(g, other) != CanonicalSet(g, m)
    ensures !CanonicalForImage(g, platform, m)
  {
    var small := m - {d};
    assert AllBelow(g, small) <= AllBelow(g, m);
    ListingMatters(g, platform, small, d);
    assert m == if d in m then small + {d} else small;
  }

  /** The shipped platform aws includes the element cloud; what cloud includes is cut short here. */
  const AWS: Graph := map["aws" := ["cloud"], "cloud" := ["server"], "server" := []]

  /** One image, asked for with cloud and without it, gets two canonical tuples. */
  lemma CloudListedOrNot()
    ensures NormalSet(AWS, "aws", {"cloud"}) == NormalSet(AWS, "aws", {}) == {"cloud", "server"}
    ensures CanonicalSet(AWS, {"cloud"}) == {"cloud"} && CanonicalSet(AWS, {}) == {}
    ensures CanonicalTuple(AWS, "aws", ["cloud"]) != CanonicalTuple(AWS, "aws", [])
  {
    CloudSets();
    TupleLists(AWS, "aws", ["cloud"], {"cloud"});
    TupleLists(AWS, "aws", [], {});
  }

  lemma CloudSets()
    ensures NormalSet(AWS, "aws", {"cloud"}) == NormalSet(AWS, "aws", {}) == {"cloud", "server"}
    ensures CanonicalSet(AWS, {"cloud"}) == {"cloud"} && CanonicalSet(AWS, {}) == {}
  {
    CloudIncludes();
    NothingBelowNothing(AWS);
  }

  lemma NothingBelowNothing(g: Graph)
    ensures AllBelow(g, {}) == {}
  {
  }

  /** Equal tuples list equal canonical sets. */
  lemma TupleLists(g: Graph, platform: string, modifiers: seq<string>, named: set<string>)
    requires Elems(modifiers) == named
    ensures Elems(CanonicalTuple(g, platform, modifiers)[1..]) == CanonicalSet(g, named)
  {
    assert CanonicalTuple(g, platform, modifiers)[1..] == SortedListing(Upper, CanonicalSet(g, named));
  }

  lemma CloudIncludes()
    ensures AllBelow(AWS, {"cloud"}) == {"server"} && AllBelow(AWS, {"aws"}) == {"cloud", "server"}
  {
    NoInclude(AWS, {} + {"cloud"}, "server");
    NoInclude(AWS, {"aws"} + {"cloud"}, "server");
    OneInclude(AWS, {}, "cloud", "server", []);
    OneInclude(AWS, {"aws"}, "cloud", "server", []);
    assert {} + {"aws"} == {"aws"} && [] + ["server"] == ["server"] && ["server"] + ["cloud"] == ["server", "cloud"];
    OneInclude(AWS, {}, "aws", "cloud", ["server"]);
    BelowListed(AWS, "cloud", ["server"]);
    BelowListed(AWS, "aws", ["server", "cloud"]);
  }

  lemma BelowListed(g: Graph, v: string, names: seq<string>)
    requires IncludedFeatures(g, {}, v) == Success(names)
    ensures AllBelow(g, {v}) == Elems(names)
  {
    IncludedExactly(g, {}, v);
  }

  lemma NoInclude(g: Graph, active: set<string>, v: string)
    requires v in g && v !in active && g[v] == []
    ensures IncludedFeatures(g, active, v) == Success([])
  {
  }

  lemma OneInclude(g: Graph, active: set<string>, v: string, w: string, below: seq<string>)
    requires v in g && v !in active && g[v] == [w]
    requires IncludedFeatures(g, active + {v}, w) == Success(below)
    ensures IncludedFeatures(g, active, v) == Success(below + [w])
  {
    assert IncludedByList(g, active + {v}, [w][1..]) == Success([]);
    assert below + [w] + [] == below + [w];
  }
}
