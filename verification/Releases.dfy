/** Flavours, releases and the keys they are stored under. */
module Releases {
  import opened Lists
  import opened FeatureErrors
  import opened IncludeGraph
  import opened FeatureModel
  import TextOrder

  datatype Architecture = AMD64

  datatype Flavour = Flavour(architecture: Architecture, platform: string, modifiers: seq<string>)

  datatype Combination = Combination(
    architectures: seq<Architecture>, platforms: seq<string>, modifiers: seq<seq<string>>)

  datatype Identifier = Identifier(
    committish: string, version: string, epoch: nat,
    architecture: Architecture, platform: string, modifiers: seq<string>)

  datatype ReleaseFile = ReleaseFile(name: string, suffix: string, key: string, bucket: string)

  datatype Manifest = Manifest(
    id: Identifier, timestamp: int, paths: seq<ReleaseFile>, baseImage: string,
    published: Option<string>, testResult: Option<string>, logs: Option<ReleaseFile>)

  datatype ManifestSet = ManifestSet(manifests: seq<Manifest>, flavourSet: string, logs: seq<ReleaseFile>)

  /** What a key of the bucket holds. */
  datatype Doc = Blob(data: seq<int>) | Single(manifest: Manifest) | Bundle(bundle: ManifestSet) | Directory

  type Docs = map<string, Doc>

  const SINGLES := "meta/singles/"
  const SETS := "meta/sets/"
  const OBJECTS := "objects/"

  // ---- identifiers and keys ----

  function Truncated(committish: string): (r: string)
    ensures r <= committish && |r| == if |committish| < 6 then |committish| else 6
  {
    if |committish| <= 6 then committish else committish[..6]
  }

  function Dashed(names: seq<string>): string {
    if names == [] then ""
    else if |names| == 1 then names[0]
    else Dashed(DropLast(names)) + "-" + Last(names)
  }

  /** When canonical_release_manifest_key does not raise. */
  ghost predicate HasKey(g: Graph, id: Identifier) {
    id.platform in g && Usable(g, Elems(id.modifiers))
  }

  ghost function ManifestKey(g: Graph, id: Identifier): (k: string)
    ensures SINGLES <= k
  {
    SINGLES + (Dashed(CanonicalTuple(g, id.platform, id.modifiers)) + "-" + id.version + "-" + Truncated(id.committish))
  }

  method ManifestKeyOf(fs: Descriptors, id: Identifier) returns (r: Outcome<string>)
    ensures r.Success? <==> HasKey(IncludeLists(fs), id)
    ensures r.Success? ==> r.value == ManifestKey(IncludeLists(fs), id)
  {
    var names := CanonicalisedFeatures(fs, id.platform, id.modifiers);
    match names {
      case Raised(e) => return Raised(e);
      case Success(canonical) =>
        return Success(SINGLES + (Dashed(canonical) + "-" + id.version + "-" + Truncated(id.committish)));
    }
  }

  /** A key spelled out: platform, element, flag, version, and six characters of the commit. */
  lemma KeyOfElementAndFlag(g: Graph, id: Identifier, x: string, y: string)
    requires Elems(id.modifiers) == {x, y} && x != "" && 'a' <= x[0] <= 'z' && y != "" && y[0] == '_'
    requires CanonicalSet(g, {x, y}) == {x, y} && |id.committish| >= 6
    ensures ManifestKey(g, id)
         == "meta/singles/" + (id.platform + "-" + x + "-" + y + "-" + id.version + "-" + id.committish[..6])
  {
    TupleOfElementAndFlag(g, id, x, y);
    DashedThree(id.platform, x, y);
    assert Truncated(id.committish) == id.committish[..6];
  }

  lemma TupleOfElementAndFlag(g: Graph, id: Identifier, x: string, y: string)
    requires Elems(id.modifiers) == {x, y} && x != "" && 'a' <= x[0] <= 'z' && y != "" && y[0] == '_'
    requires CanonicalSet(g, {x, y}) == {x, y}
    ensures CanonicalTuple(g, id.platform, id.modifiers) == [id.platform, x, y]
  {
    SortedFlagsLast({x, y});
    TwoInOrder(TextOrder.SortedListing(Upper, {x, y}), x, y);
  }

  lemma TwoInOrder(r: seq<string>, x: string, y: string)
    requires NoDup(r) && FlagsLast(r) && Elems(r) == {x, y}
    requires x != "" && 'a' <= x[0] <= 'z' && y != "" && y[0] == '_'
    ensures r == [x, y]
  {
    NoDupCardinality(r);
    assert x != y && |{x, y}| == 2;
    assert r[0] in Elems(r) && r[1] in Elems(r);
  }

  lemma DashedThree(a: string, b: string, c: string)
    ensures Dashed([a, b, c]) == a + "-" + b + "-" + c
  {
    assert DropLast([a, b, c]) == [a, b] && DropLast([a, b]) == [a];
    assert Dashed([a, b]) == a + "-" + b;
  }

  ghost predicate Normalises(g: Graph, id: Identifier) {
    Usable(g, Elems(id.modifiers) + {id.platform})
  }

  ghost function Normalised(g: Graph, id: Identifier): Identifier {
    id.(modifiers := NormalTuple(g, id.platform, id.modifiers))
  }

  method NormalisedIdentifier(fs: Descriptors, id: Identifier) returns (r: Outcome<Identifier>)
    ensures r.Success? <==> Normalises(IncludeLists(fs), id)
    ensures r.Success? ==> r.value == Normalised(IncludeLists(fs), id)
  {
    var modifiers := NormalisedModifiers(fs, id.platform, id.modifiers);
    match modifiers {
      case Raised(e) => return Raised(e);
      case Success(names) => return Success(id.(modifiers := names));
    }
  }

  lemma NormalTupleMembers(g: Graph, platform: string, modifiers: seq<string>)
    ensures Elems(NormalTuple(g, platform, modifiers)) == NormalSet(g, platform, Elems(modifiers))
    ensures NormalTuple(g, platform, NormalTuple(g, platform, modifiers)) == NormalTuple(g, platform, modifiers)
  {
    NormalIdempotent(g, platform, Elems(modifiers));
  }

  // ---- flavours ----

  /** itertools.product, the last factor running fastest. */
  function PairWithAll(a: Architecture, p: string, lists: seq<seq<string>>): seq<Flavour> {
    if lists == [] then [] else PairWithAll(a, p, DropLast(lists)) + [Flavour(a, p, Last(lists))]
  }

  function PlatformsWithAll(a: Architecture, platforms: seq<string>, lists: seq<seq<string>>): seq<Flavour> {
    if platforms == [] then []
    else PlatformsWithAll(a, DropLast(platforms), lists) + PairWithAll(a, Last(platforms), lists)
  }

  function Product(archs: seq<Architecture>, platforms: seq<string>, lists: seq<seq<string>>): seq<Flavour> {
    if archs == [] then []
    else Product(DropLast(archs), platforms, lists) + PlatformsWithAll(Last(archs), platforms, lists)
  }

  /** The declared combinations, before normalisation. */
  function Declared(combinations: seq<Combination>): seq<Flavour> {
    if combinations == [] then []
    else
      var c := Last(combinations);
      Declared(DropLast(combinations)) + Product(c.architectures, c.platforms, c.modifiers)
  }

  /** How many combinations the declarations amount to. */
  function DeclaredCount(combinations: seq<Combination>): nat {
    if combinations == [] then 0
    else
      var c := Last(combinations);
      DeclaredCount(DropLast(combinations)) + |c.architectures| * (|c.platforms| * |c.modifiers|)
  }

  ghost predicate Offers(c: Combination, f: Flavour) {
    f.architecture in c.architectures && f.platform in c.platforms && f.modifiers in c.modifiers
  }

  lemma {:induction false} PairMember(a: Architecture, p: string, lists: seq<seq<string>>, f: Flavour)
    ensures f in PairWithAll(a, p, lists) <==> f.architecture == a && f.platform == p && f.modifiers in lists
  {
    if lists != [] {
      PairMember(a, p, DropLast(lists), f);
      assert lists == DropLast(lists) + [Last(lists)];
    }
  }

  lemma {:induction false} PlatformsMember(a: Architecture, platforms: seq<string>, lists: seq<seq<string>>, f: Flavour)
    ensures f in PlatformsWithAll(a, platforms, lists) <==>
            f.architecture == a && f.platform in platforms && f.modifiers in lists
  {
    if platforms != [] {
      PlatformsMember(a, DropLast(platforms), lists, f);
      PairMember(a, Last(platforms), lists, f);
      assert platforms == DropLast(platforms) + [Last(platforms)];
    }
  }

  lemma {:induction false} ProductMember(archs: seq<Architecture>, platforms: seq<string>, lists: seq<seq<string>>, f: Flavour)
    ensures f in Product(archs, platforms, lists) <==>
            f.architecture in archs && f.platform in platforms && f.modifiers in lists
  {
    if archs != [] {
      ProductMember(DropLast(archs), platforms, lists, f);
      PlatformsMember(Last(archs), platforms, lists, f);
      assert archs == DropLast(archs) + [Last(archs)];
    }
  }

  ghost predicate Offered(combinations: seq<Combination>, f: Flavour) {
    exists c :: c in combinations && Offers(c, f)
  }

  lemma OfferedSnoc(combinations: seq<Combination>, f: Flavour)
    requires combinations != []
    ensures Offered(combinations, f) <==> Offered(DropLast(combinations), f) || Offers(Last(combinations), f)
  {
    assert combinations == DropLast(combinations) + [Last(combinations)];
    assert forall c :: c in combinations <==> c in DropLast(combinations) || c == Last(combinations);
  }

  /** Declared is what some combination offers. */
  lemma {:induction false} DeclaredExactly(combinations: seq<Combination>, f: Flavour)
    ensures f in Declared(combinations) <==> Offered(combinations, f)
  {
    if combinations != [] {
      var c := Last(combinations);
      OfferedSnoc(combinations, f);
      DeclaredExactly(DropLast(combinations), f);
      ProductMember(c.architectures, c.platforms, c.modifiers, f);
    }
  }

  lemma OneMore(n: nat, k: nat)
    requires n > 0
    ensures (n - 1) * k + k == n * k
  {
  }

  lemma {:induction false} PairCount(a: Architecture, p: string, lists: seq<seq<string>>)
    ensures |PairWithAll(a, p, lists)| == |lists|
  {
    if lists != [] {
      PairCount(a, p, DropLast(lists));
    }
  }

  lemma {:induction false} PlatformsCount(a: Architecture, platforms: seq<string>, lists: seq<seq<string>>)
    ensures |PlatformsWithAll(a, platforms, lists)| == |platforms| * |lists|
  {
    if platforms != [] {
      PlatformsCount(a, DropLast(platforms), lists);
      PairCount(a, Last(platforms), lists);
      OneMore(|platforms|, |lists|);
    }
  }

  lemma {:induction false} ProductCount(archs: seq<Architecture>, platforms: seq<string>, lists: seq<seq<string>>)
    ensures |Product(archs, platforms, lists)| == |archs| * (|platforms| * |lists|)
  {
    if archs != [] {
      ProductCount(DropLast(archs), platforms, lists);
      PlatformsCount(Last(archs), platforms, lists);
      OneMore(|archs|, |platforms| * |lists|);
    }
  }

  /** Each combination counts with all its choices, whatever it shares with the others. */
  lemma {:induction false} DeclaredLength(combinations: seq<Combination>)
    ensures |Declared(combinations)| == DeclaredCount(combinations)
  {
    if combinations != [] {
      var c := Last(combinations);
      DeclaredLength(DropLast(combinations));
      ProductCount(c.architectures, c.platforms, c.modifiers);
    }
  }

  ghost function NormalFlavour(g: Graph, f: Flavour): Flavour {
    f.(modifiers := NormalTuple(g, f.platform, f.modifiers))
  }

  ghost function NormalFlavours(g: Graph, declared: seq<Flavour>): (r: seq<Flavour>)
    ensures |r| == |declared|
  {
    if declared == [] then [] else NormalFlavours(g, DropLast(declared)) + [NormalFlavour(g, Last(declared))]
  }

  lemma {:induction false} NormalFlavoursAt(g: Graph, declared: seq<Flavour>, k: nat)
    requires k < |declared|
    ensures NormalFlavours(g, declared)[k] == NormalFlavour(g, declared[k])
  {
    if k < |declared| - 1 {
      NormalFlavoursAt(g, DropLast(declared), k);
    }
  }

  /** The constructor's check: a known platform, and modifiers that are no platforms. */
  predicate WellTyped(fs: Descriptors, f: Flavour) {
    && IsPlatformName(fs, f.platform)
    && forall m :: m in f.modifiers ==> m in fs && fs[m].ftype == MODIFIER
  }

  ghost predicate FlavourBuilds(fs: Descriptors, f: Flavour) {
    && Usable(IncludeLists(fs), Elems(f.modifiers) + {f.platform})
    && WellTyped(fs, NormalFlavour(IncludeLists(fs), f))
  }

  ghost predicate FlavoursBuild(fs: Descriptors, declared: seq<Flavour>) {
    declared == [] || (FlavoursBuild(fs, DropLast(declared)) && FlavourBuilds(fs, Last(declared)))
  }

  method NormaliseFlavour(fs: Descriptors, f: Flavour) returns (r: Option<Flavour>)
    ensures r.Some? <==> FlavourBuilds(fs, f)
    ensures r.Some? ==> r.value == NormalFlavour(IncludeLists(fs), f)
  {
    var modifiers := NormalisedModifiers(fs, f.platform, f.modifiers);
    match modifiers {
      case Raised(_) => return None;
      case Success(names) =>
        var flavour := f.(modifiers := names);
        return if WellTyped(fs, flavour) then Some(flavour) else None;
    }
  }

  method Flavours(fs: Descriptors, combinations: seq<Combination>) returns (r: Option<seq<Flavour>>)
    ensures r.Some? <==> FlavoursBuild(fs, Declared(combinations))
    ensures r.Some? <==> forall f :: f in Declared(combinations) ==> Buildable(fs, f)
    ensures r.Some? ==> r.value == NormalFlavours(IncludeLists(fs), Declared(combinations))
  {
    BuildsExactly(fs, Declared(combinations));
    r := NormaliseAll(fs, Declared(combinations));
  }

  method NormaliseAll(fs: Descriptors, declared: seq<Flavour>) returns (r: Option<seq<Flavour>>)
    ensures r.Some? <==> FlavoursBuild(fs, declared)
    ensures r.Some? ==> r.value == NormalFlavours(IncludeLists(fs), declared)
  {
    var flavours: seq<Flavour> := [];
    var i := 0;
    while i < |declared|
      invariant 0 <= i <= |declared|
      invariant FlavoursBuild(fs, declared[..i])
      invariant flavours == NormalFlavours(IncludeLists(fs), declared[..i])
    {
      var flavour := NormaliseFlavour(fs, declared[i]);
      BuildSnoc(fs, declared, i);
      assert flavour.Some? <==> FlavoursBuild(fs, declared[..i + 1]);
      if flavour.None? {
        BuildStops(fs, declared, i + 1);
        return None;
      }
      flavours := flavours + [flavour.value];
      i := i + 1;
    }
    assert declared[..i] == declared;
    return Some(flavours);
  }

  /** All names resolve, the platform is a platform, and whatever is pulled in besides it is none. */
  ghost predicate Buildable(fs: Descriptors, f: Flavour) {
    && Usable(IncludeLists(fs), Elems(f.modifiers) + {f.platform})
    && f.platform in fs && fs[f.platform].ftype == PLATFORM
    && forall m :: m in NormalSet(IncludeLists(fs), f.platform, Elems(f.modifiers)) ==>
         m in fs && fs[m].ftype == MODIFIER
  }

  lemma {:induction false} BuildsExactly(fs: Descriptors, declared: seq<Flavour>)
    ensures FlavoursBuild(fs, declared) <==> forall f :: f in declared ==> Buildable(fs, f)
  {
    if declared != [] {
      BuildsExactly(fs, DropLast(declared));
      BuildableExactly(fs, Last(declared));
      assert declared == DropLast(declared) + [Last(declared)];
    }
  }

  lemma BuildableExactly(fs: Descriptors, f: Flavour)
    ensures FlavourBuilds(fs, f) <==> Buildable(fs, f)
  {
    NormalTupleMembers(IncludeLists(fs), f.platform, f.modifiers);
    var names := NormalTuple(IncludeLists(fs), f.platform, f.modifiers);
    assert forall m :: m in names <==> m in NormalSet(IncludeLists(fs), f.platform, Elems(f.modifiers));
  }

  lemma BuildSnoc(fs: Descriptors, declared: seq<Flavour>, i: nat)
    requires i < |declared|
    ensures FlavoursBuild(fs, declared[..i + 1]) <==> FlavoursBuild(fs, declared[..i]) && FlavourBuilds(fs, declared[i])
    ensures NormalFlavours(IncludeLists(fs), declared[..i + 1])
         == NormalFlavours(IncludeLists(fs), declared[..i]) + [NormalFlavour(IncludeLists(fs), declared[i])]
  {
    TakeSnoc(declared, i);
  }

  lemma {:induction false} BuildStops(fs: Descriptors, declared: seq<Flavour>, i: nat)
    requires i <= |declared| && !FlavoursBuild(fs, declared[..i])
    ensures !FlavoursBuild(fs, declared)
    decreases |declared|
  {
    if i == |declared| {
      assert declared[..i] == declared;
    } else {
      assert DropLast(declared)[..i] == declared[..i];
      BuildStops(fs, DropLast(declared), i);
    }
  }

  // ---- looking releases up ----

  /** `Crashed` stands for any exception on the way. */
  datatype Lookup = Crashed | Absent | Hit(manifest: Manifest)

  ghost function FindRelease(g: Graph, docs: Docs, id: Identifier): Lookup {
    if !HasKey(g, id) then Crashed
    else
      var key := ManifestKey(g, id);
      if key !in docs then Absent
      else if !docs[key].Single? then Crashed
      else
        var m := docs[key].manifest;
        if !Normalises(g, m.id) || !Normalises(g, id) then Crashed
        else if Normalised(g, m.id) == Normalised(g, id) then Hit(m)
        else Absent
  }

  /** What a release is searched by, besides its flavour. */
  datatype Query = Query(committish: string, version: string, epoch: nat)

  function SearchedId(q: Query, f: Flavour): Identifier {
    Identifier(q.committish, q.version, q.epoch, f.architecture, f.platform, f.modifiers)
  }

  lemma HitIsStored(g: Graph, docs: Docs, id: Identifier)
    requires FindRelease(g, docs, id).Hit?
    ensures var m := FindRelease(g, docs, id).manifest;
            exists k :: k in docs && docs[k] == Single(m)
  {
    assert docs[ManifestKey(g, id)] == Single(FindRelease(g, docs, id).manifest);
  }

  /** Found, not found, or neither because something could not be resolved or read. */
  lemma LookupCases(g: Graph, docs: Docs, id: Identifier)
    ensures var key := ManifestKey(g, id);
            match FindRelease(g, docs, id)
            case Hit(m) => HasKey(g, id) && key in docs && docs[key] == Single(m) && Normalised(g, m.id) == Normalised(g, id)
            case Absent =>
              HasKey(g, id) && (key !in docs || (docs[key].Single? && Normalised(g, docs[key].manifest.id) != Normalised(g, id)))
            case Crashed =>
              !HasKey(g, id) || (key in docs && (!docs[key].Single? || !Normalises(g, id) || !Normalises(g, docs[key].manifest.id)))
  {
  }

  method FindReleaseIn(fs: Descriptors, docs: Docs, id: Identifier) returns (r: Lookup)
    ensures r == FindRelease(IncludeLists(fs), docs, id)
  {
    var key := ManifestKeyOf(fs, id);
    if key.Raised? {
      return Crashed;
    }
    if key.value !in docs {
      return Absent;
    }
    match docs[key.value] {
      case Single(m) =>
        var found := NormalisedIdentifier(fs, m.id);
        var searched := NormalisedIdentifier(fs, id);
        if found.Raised? || searched.Raised? {
          return Crashed;
        }
        return if found.value == searched.value then Hit(m) else Absent;
      case _ =>
        return Crashed;
    }
  }

  ghost function Lookups(g: Graph, docs: Docs, q: Query, order: seq<Flavour>): (r: seq<Lookup>)
    ensures |r| == |order|
    ensures forall i :: 0 <= i < |r| ==> r[i] == FindRelease(g, docs, SearchedId(q, order[i]))
  {
    seq(|order|, i requires 0 <= i < |order| => FindRelease(g, docs, SearchedId(q, order[i])))
  }

  /** The releases among the lookups, or nothing if one of them raised. */
  function Collect(ls: seq<Lookup>): Option<seq<Manifest>> {
    if ls == [] then Some([])
    else
      var front := Collect(DropLast(ls));
      if front.None? then None
      else
        match Last(ls)
        case Crashed => None
        case Absent => front
        case Hit(m) => Some(front.value + [m])
  }

  /** `order` is the order in which Python happens to visit the set of flavours. */
  method FindReleases(fs: Descriptors, docs: Docs, q: Query, flavours: seq<Flavour>)
    returns (r: Option<seq<Manifest>>, order: seq<Flavour>)
    ensures NoDup(order) && Elems(order) <= Elems(flavours)
    ensures r.Some? ==> Elems(order) == Elems(flavours)
    ensures r == Collect(Lookups(IncludeLists(fs), docs, q, order))
  {
    order := [];
    var releases := [];
    var rest := set f | f in flavours;
    assert rest == Elems(flavours);
    while rest != {}
      invariant NoDup(order) && Elems(order) !! rest && Elems(order) + rest == Elems(flavours)
      invariant Collect(Lookups(IncludeLists(fs), docs, q, order)) == Some(releases)
      decreases rest
    {
      var f :| f in rest;
      rest := rest - {f};
      var found := FindReleaseIn(fs, docs, SearchedId(q, f));
      LookupsSnoc(IncludeLists(fs), docs, q, order, f);
      ElemsSnoc(order, f);
      order := order + [f];
      match found {
        case Crashed => return None, order;
        case Absent =>
        case Hit(m) => releases := releases + [m];
      }
    }
    return Some(releases), order;
  }

  lemma ElemsSnoc(order: seq<Flavour>, f: Flavour)
    ensures Elems(order + [f]) == Elems(order) + {f}
    ensures NoDup(order) && f !in Elems(order) ==> NoDup(order + [f])
  {
  }

  lemma LookupsSnoc(g: Graph, docs: Docs, q: Query, order: seq<Flavour>, f: Flavour)
    ensures var ls := Lookups(g, docs, q, order + [f]);
            DropLast(ls) == Lookups(g, docs, q, order) && Last(ls) == FindRelease(g, docs, SearchedId(q, f))
  {
  }

  // ---- the completeness check ----

  lemma {:induction false} CollectAtMostAll(ls: seq<Lookup>)
    requires Collect(ls).Some?
    ensures |Collect(ls).value| <= |ls|
    ensures |Collect(ls).value| == |ls| ==> forall i :: 0 <= i < |ls| ==> ls[i] == Hit(Collect(ls).value[i])
    ensures (forall i :: 0 <= i < |ls| ==> ls[i].Hit?) ==> |Collect(ls).value| == |ls|
    ensures forall m :: m in Collect(ls).value ==> Hit(m) in ls
  {
    if ls != [] {
      CollectAtMostAll(DropLast(ls));
      assert ls == DropLast(ls) + [Last(ls)];
    }
  }

  lemma {:induction false} ShorterWithDuplicate(s: seq<Flavour>)
    ensures |Elems(s)| <= |s|
    ensures |Elems(s)| == |s| ==> NoDup(s)
  {
    if s != [] {
      var front := DropLast(s);
      ShorterWithDuplicate(front);
      assert s == front + [Last(s)];
      assert Elems(s) == Elems(front) + {Last(s)};
      if Last(s) in front {
        assert Elems(s) == Elems(front);
      }
    }
  }

  /** `order` visits the set of the flavours that the declared combinations normalise to. */
  ghost predicate Visits(g: Graph, declared: seq<Flavour>, order: seq<Flavour>) {
    NoDup(order) && Elems(order) == Elems(NormalFlavours(g, declared))
  }

  /** The counting argument, for any flavours and any lookups made in the order of the visit. */
  lemma CountLookups(flavours: seq<Flavour>, order: seq<Flavour>, ls: seq<Lookup>)
    requires NoDup(order) && Elems(order) == Elems(flavours) && |ls| == |order| && Collect(ls).Some?
    ensures |Collect(ls).value| == |flavours| <==>
            NoDup(flavours) && forall i :: 0 <= i < |ls| ==> ls[i].Hit?
    ensures NoDup(flavours) ==> |order| == |flavours|
  {
    CollectAtMostAll(ls);
    NoDupCardinality(order);
    ShorterWithDuplicate(flavours);
    if NoDup(flavours) {
      NoDupCardinality(flavours);
    }
  }

  /**
   As many releases as declared combinations are found exactly when no two combinations
   normalise to the same flavour and every flavour has its release.
   */
  lemma CountExactlyWhen(g: Graph, docs: Docs, q: Query, declared: seq<Flavour>, order: seq<Flavour>)
    requires Visits(g, declared, order) && Collect(Lookups(g, docs, q, order)).Some?
    ensures |Collect(Lookups(g, docs, q, order)).value| == |declared| <==>
            && NoDup(NormalFlavours(g, declared))
            && forall i :: 0 <= i < |order| ==> Lookups(g, docs, q, order)[i].Hit?
  {
    CountLookups(NormalFlavours(g, declared), order, Lookups(g, docs, q, order));
  }

  /** No two combinations normalise to one flavour, and every flavour has its release. */
  ghost predicate Complete(g: Graph, docs: Docs, q: Query, declared: seq<Flavour>) {
    && NoDup(NormalFlavours(g, declared))
    && forall f :: f in NormalFlavours(g, declared) ==> FindRelease(g, docs, SearchedId(q, f)).Hit?
  }

  lemma {:induction false} CollectRaises(ls: seq<Lookup>)
    ensures Collect(ls).None? <==> Crashed in ls
  {
    if ls != [] {
      CollectRaises(DropLast(ls));
      assert ls == DropLast(ls) + [Last(ls)];
    }
  }

  /** The count check in terms of what is stored, without the order of the visit. */
  lemma CompleteExactly(g: Graph, docs: Docs, q: Query, declared: seq<Flavour>, order: seq<Flavour>)
    requires NoDup(order) && Elems(order) <= Elems(NormalFlavours(g, declared))
    requires Collect(Lookups(g, docs, q, order)).Some? ==> Elems(order) == Elems(NormalFlavours(g, declared))
    ensures Complete(g, docs, q, declared) <==>
            && Collect(Lookups(g, docs, q, order)).Some?
            && |Collect(Lookups(g, docs, q, order)).value| == |declared|
  {
    var ls := Lookups(g, docs, q, order);
    CollectRaises(ls);
    if Collect(ls).Some? {
      CountExactlyWhen(g, docs, q, declared, order);
      forall i | 0 <= i < |order| ensures order[i] in NormalFlavours(g, declared) {
        assert order[i] in Elems(order);
      }
      if forall i :: 0 <= i < |ls| ==> ls[i].Hit? {
        forall f | f in NormalFlavours(g, declared) ensures FindRelease(g, docs, SearchedId(q, f)).Hit? {
          assert f in Elems(order);
          var i :| 0 <= i < |order| && order[i] == f;
          assert ls[i].Hit?;
        }
      }
    } else {
      var i :| 0 <= i < |ls| && ls[i] == Crashed;
      assert order[i] in Elems(order);
    }
  }

  /** The manifest is of the build that is promoted, and for the flavour's platform and architecture. */
  ghost predicate ReleaseOf(q: Query, f: Flavour, m: Manifest) {
    && m.id.committish == q.committish && m.id.version == q.version && m.id.epoch == q.epoch
    && m.id.platform == f.platform && m.id.architecture == f.architecture
  }

  /** Then the releases are one per flavour, each with exactly the identifier searched for once normalised. */
  lemma CountMeansCoverage(g: Graph, docs: Docs, q: Query, declared: seq<Flavour>, order: seq<Flavour>)
    requires Visits(g, declared, order) && Collect(Lookups(g, docs, q, order)).Some?
    requires |Collect(Lookups(g, docs, q, order)).value| == |declared|
    ensures var r := Collect(Lookups(g, docs, q, order)).value;
            && |r| == |order| == |declared|
            && (forall i :: 0 <= i < |r| ==> Normalised(g, r[i].id) == SearchedId(q, order[i]))
            && (forall i :: 0 <= i < |r| ==> ReleaseOf(q, order[i], r[i]))
            && (forall i, j :: 0 <= i < j < |r| ==> Normalised(g, r[i].id) != Normalised(g, r[j].id))
  {
    CountLookups(NormalFlavours(g, declared), order, Lookups(g, docs, q, order));
    CollectAtMostAll(Lookups(g, docs, q, order));
    var r := Collect(Lookups(g, docs, q, order)).value;
    forall i | 0 <= i < |r| ensures Normalised(g, r[i].id) == SearchedId(q, order[i]) {
      HitIsWanted(g, docs, q, declared, order[i], r[i]);
    }
    forall i | 0 <= i < |r| ensures ReleaseOf(q, order[i], r[i]) {
      assert Normalised(g, r[i].id).(modifiers := []) == r[i].id.(modifiers := []);
    }
  }

  lemma HitIsWanted(g: Graph, docs: Docs, q: Query, declared: seq<Flavour>, f: Flavour, m: Manifest)
    requires f in NormalFlavours(g, declared) && FindRelease(g, docs, SearchedId(q, f)) == Hit(m)
    ensures Normalised(g, m.id) == SearchedId(q, f)
  {
    var k :| 0 <= k < |declared| && NormalFlavours(g, declared)[k] == f;
    NormalFlavoursAt(g, declared, k);
    NormalTupleMembers(g, declared[k].platform, declared[k].modifiers);
  }
}
