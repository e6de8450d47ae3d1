/** The commands of the feature tool as compositions of expansion, reduction and sorting. */
module Commands {
  import opened Lists
  import opened FeatureErrors
  import opened IncludeGraph
  import opened FeatureCatalog
  import opened Traversal
  import opened WalkTheorems
  import opened Expand
  import opened SharedWalk
  import opened Reduce
  import opened ReduceTheorems
  import opened FeatureOrder
  import opened TextOrder

  // ---- what can be built ----

  /** All features of `s` exist, none is excluded by another, and exactly one is a platform. */
  ghost predicate ValidImage(all: Catalog, s: set<string>) {
    && (forall f :: f in s ==> f in all)
    && !SelfExcluding(all, s)
    && exists p :: IsPlatformOf(all, s, p)
  }

  ghost function Requested(all: Catalog, features: seq<string>, ign: set<string>): set<string> {
    Closure(InclusionGraph(all), ign, Elems(features))
  }

  ghost predicate Walkable(all: Catalog, features: seq<string>, ign: set<string>) {
    WalkAll(InclusionGraph(all), ign, features).err.None?
  }

  /** Past the walks, expanding and validating is a question about the set that is pulled in. */
  lemma ExpandedValid(all: Catalog, features: seq<string>, ign: set<string>)
    ensures Expanded(all, features, ign).Ok? && Sorted(all, Expanded(all, features, ign).value.0, false, true).Ok?
       <==> Walkable(all, features, ign) && ValidImage(all, Requested(all, features, ign))
  {
    if Walkable(all, features, ign) {
      ExclusionDependsOnSet(all, features, ign);
      if Expanded(all, features, ign).Ok? {
        var order := Expanded(all, features, ign).value.0;
        ExpandedExactly(all, features, ign);
        SortedExactly(all, order, false, true);
        OnePlatformExactly(all, order);
      }
    }
  }

  // ---- features, elements, flags ----

  /** What the `features` command prints. */
  function FeaturesPrinted(all: Catalog, features: seq<string>, ign: set<string>): Result<seq<string>> {
    match Sorted(all, features, false, false)
    case Err(e) => Err(e)
    case Ok(sorted) =>
      match Expanded(all, sorted, ign)
      case Err(e) => Err(e)
      case Ok((expanded, _)) =>
        match Sorted(all, expanded, false, true)
        case Err(e) => Err(e)
        case Ok(_) => Ok(expanded)
  }

  method FeaturesCmd(all: Catalog, features: seq<string>, ignore: set<string>) returns (r: Result<seq<string>>)
    ensures r == FeaturesPrinted(all, features, ignore)
    ensures r.Ok? <==>
            && (forall f :: f in features ==> f in all)
            && Walkable(all, ByKind(all, features), ignore) && ValidImage(all, Requested(all, features, ignore))
    ensures r.Ok? ==> NoDup(r.value) && Elems(r.value) == Requested(all, features, ignore)
    ensures r.Ok? ==> r.value == WalkAll(InclusionGraph(all), ignore, ByKind(all, features)).expanded
    ensures r.Ok? && (forall f :: f in features ==> OrderedBelow(InclusionGraph(all), ignore, f)) ==>
              IncludesFirst(InclusionGraph(all), ignore, {}, r.value)
  {
    FeaturesPrintedExactly(all, features, ignore);
    if FeaturesPrinted(all, features, ignore).Ok? && (forall f :: f in features ==> OrderedBelow(InclusionGraph(all), ignore, f)) {
      FeaturesPrintedInOrder(all, features, ignore);
    }
    var sorted := SortFeatures(all, features, false, false);
    if sorted.Err? {
      return Err(sorted.error);
    }
    var expanded := ExpandFeatures(all, sorted.value, ignore);
    if expanded.Err? {
      return Err(expanded.error);
    }
    var validated := SortFeatures(all, expanded.value.0, false, true);
    if validated.Err? {
      return Err(validated.error);
    }
    return Ok(expanded.value.0);
  }

  /** What `elements` and `flags` print: some types of what `features` prints. */
  function FilteredPrinted(all: Catalog, features: seq<string>, ign: set<string>, types: seq<string>): Result<seq<string>> {
    match FeaturesPrinted(all, features, ign)
    case Err(e) => Err(e)
    case Ok(printed) => Filtered(all, printed, types)
  }

  /** `elements` and `flags` run the same pipeline and then keep some types. */
  method FilteredCmd(all: Catalog, features: seq<string>, ignore: set<string>, types: seq<string>)
    returns (r: Result<seq<string>>)
    ensures r == FilteredPrinted(all, features, ignore, types)
    ensures NoDup(types) ==> (r.Ok? <==> FeaturesPrinted(all, features, ignore).Ok?)
    ensures NoDup(types) && r.Ok? ==> Selects(all, FeaturesPrinted(all, features, ignore).value, types, r.value)
  {
    var printed := FeaturesCmd(all, features, ignore);
    if printed.Ok? && NoDup(types) {
      FilteredSelects(all, printed.value, types);
    }
    if printed.Err? {
      return printed;
    }
    r := FilterByType(all, printed.value, types);
  }

  /**
   `features` prints exactly what the request pulls in, each feature once, and does so exactly if
   that is a valid image and the walks, taken by kind, find no loop.
   */
  lemma FeaturesPrintedExactly(all: Catalog, features: seq<string>, ign: set<string>)
    ensures FeaturesPrinted(all, features, ign).Ok? <==>
            && (forall f :: f in features ==> f in all)
            && Walkable(all, ByKind(all, features), ign) && ValidImage(all, Requested(all, features, ign))
    ensures FeaturesPrinted(all, features, ign).Ok? ==>
            var printed := FeaturesPrinted(all, features, ign).value;
            && NoDup(printed) && Elems(printed) == Requested(all, features, ign)
            && printed == WalkAll(InclusionGraph(all), ign, ByKind(all, features)).expanded
  {
    SortedExactly(all, features, false, false);
    if Sorted(all, features, false, false).Ok? {
      SortedIsPartition(all, features, false, false);
      var sorted := ByKind(all, features);
      assert Elems(sorted) == Elems(features) by {
        forall f ensures f in sorted <==> f in features {
          assert f in sorted <==> f in multiset(sorted);
        }
      }
      ExpandedValid(all, sorted, ign);
      if Expanded(all, sorted, ign).Ok? {
        ExpandedExactly(all, sorted, ign);
      }
    }
  }

  /** With ordered include lists, `features` prints every feature after all it includes. */
  lemma FeaturesPrintedInOrder(all: Catalog, features: seq<string>, ign: set<string>)
    requires FeaturesPrinted(all, features, ign).Ok?
    requires forall f :: f in features ==> OrderedBelow(InclusionGraph(all), ign, f)
    ensures IncludesFirst(InclusionGraph(all), ign, {}, FeaturesPrinted(all, features, ign).value)
  {
    SortedIsPartition(all, features, false, false);
    forall f | f in ByKind(all, features) ensures f in features {
      assert f in multiset(ByKind(all, features));
    }
    ExpandedInOrder(all, ByKind(all, features), ign);
  }

  /** `elements` and `flags` print the two parts of what `features` prints, in the same order. */
  lemma ElementsAndFlagsPartition(all: Catalog, features: seq<string>, ign: set<string>)
    requires Admitted(all) && FeaturesPrinted(all, features, ign).Ok?
    ensures var printed := FeaturesPrinted(all, features, ign).value;
            var elements, flags := Filtered(all, printed, ELEMENT_TYPES), Filtered(all, printed, FLAG_TYPES);
            && elements.Ok? && flags.Ok? && Shuffle(printed, elements.value, flags.value)
            && Elems(elements.value) !! Elems(flags.value)
  {
    FeaturesPrintedExactly(all, features, ign);
    ElementsAndFlagsShuffle(all, FeaturesPrinted(all, features, ign).value);
  }

  // ---- platform, ignore ----

  /** What the `platform` command prints. */
  function PlatformPrinted(all: Catalog, features: seq<string>, ign: set<string>): Result<string> {
    match Expanded(all, features, ign)
    case Err(e) => Err(e)
    case Ok((expanded, _)) =>
      match Sorted(all, expanded, false, true)
      case Err(e) => Err(e)
      case Ok(sorted) =>
        SortedIsPartition(all, expanded, false, true);
        Ok(sorted[0])
  }

  method PlatformCmd(all: Catalog, features: seq<string>, ignore: set<string>) returns (r: Result<string>)
    ensures r == PlatformPrinted(all, features, ignore)
    ensures r.Ok? <==> Walkable(all, features, ignore) && ValidImage(all, Requested(all, features, ignore))
    ensures r.Ok? ==> IsPlatformOf(all, Requested(all, features, ignore), r.value)
  {
    PlatformPrintedExactly(all, features, ignore);
    var expanded := ExpandFeatures(all, features, ignore);
    if expanded.Err? {
      return Err(expanded.error);
    }
    var sorted := SortFeatures(all, expanded.value.0, false, true);
    if sorted.Err? {
      return Err(sorted.error);
    }
    SortedIsPartition(all, expanded.value.0, false, true);
    return Ok(sorted.value[0]);
  }

  /** It is the one platform among everything the request pulls in, if that is a valid image. */
  lemma PlatformPrintedExactly(all: Catalog, features: seq<string>, ign: set<string>)
    ensures PlatformPrinted(all, features, ign).Ok? <==>
            Walkable(all, features, ign) && ValidImage(all, Requested(all, features, ign))
    ensures PlatformPrinted(all, features, ign).Ok? ==>
            IsPlatformOf(all, Requested(all, features, ign), PlatformPrinted(all, features, ign).value)
  {
    ExpandedValid(all, features, ign);
    if PlatformPrinted(all, features, ign).Ok? {
      var order := Expanded(all, features, ign).value.0;
      ExpandedExactly(all, features, ign);
      SortedIsPartition(all, order, false, true);
      OnePlatformExactly(all, order);
    }
  }

  method IgnoreCmd(all: Catalog, features: seq<string>, ignore: set<string>) returns (r: Result<seq<string>>)
    ensures r.Ok? <==> Expanded(all, features, ignore).Ok?
                       && Sorted(all, Expanded(all, features, ignore).value.0, false, true).Ok?
    ensures r.Ok? ==> NoDup(r.value) && KeySorted(Itself, r.value)
                      && forall f :: f in r.value <==> IgnoredMet(InclusionGraph(all), ignore, features, f)
  {
    var expanded := ExpandFeatures(all, features, ignore);
    if expanded.Err? {
      return Err(expanded.error);
    }
    var sorted := SortFeatures(all, expanded.value.0, false, true);
    if sorted.Err? {
      return Err(sorted.error);
    }
    ExpandedExactly(all, features, ignore);
    var listed: seq<string> := [];
    var rest := expanded.value.1;
    while rest != {}
      invariant NoDup(listed) && Elems(listed) !! rest && Elems(listed) + rest == expanded.value.1
      decreases rest
    {
      var f :| f in rest;
      assert Elems(listed + [f]) == Elems(listed) + {f};
      rest := rest - {f};
      listed := listed + [f];
    }
    SortListing(Itself, listed);
    return Ok(Sort(Itself, listed));
  }

  // ---- cname ----

  function OfKindIn(all: Catalog, k: Kind, m: set<string>): set<string> {
    set f | f in m && f in all && KindOf(all, f) == k
  }

  /** The features of `m` by kind, each kind in byte order. */
  function NameSequence(all: Catalog, m: set<string>): seq<string> {
    SortedListing(Itself, OfKindIn(all, Platform, m))
    + SortedListing(Itself, OfKindIn(all, Other, m))
    + SortedListing(Itself, OfKindIn(all, Flag, m))
  }

  /** The printed name: a dash before everything but flags and the first entry. */
  function NameText(all: Catalog, s: seq<string>): string {
    if s == [] then ""
    else
      var f := Last(s);
      NameText(all, DropLast(s))
      + (if |s| > 1 && f in all && KindOf(all, f) != Flag then "-" else "") + f
  }

  /** The list `cname` names an image by. */
  ghost function CanonicalName(all: Catalog, features: seq<string>, ign: set<string>): seq<string> {
    NameSequence(all, Minimal(InclusionGraph(all), ign, Listed(features, ign)))
  }

  /** When `cname` prints a name. */
  ghost predicate CnameSucceeds(all: Catalog, features: seq<string>, ign: set<string>) {
    && Expanded(all, features, ign).Ok?
    && Sorted(all, Expanded(all, features, ign).value.0, false, true).Ok?
    && Reduced(all, features, ign).err.None?
  }

  method CnameCmd(all: Catalog, features: array<string>, ignore: set<string>) returns (r: Result<string>)
    modifies features
    ensures r.Ok? <==> CnameSucceeds(all, old(features[..]), ignore)
    ensures r.Ok? ==> r.value == NameText(all, CanonicalName(all, old(features[..]), ignore))
  {
    ghost var feats0 := features[..];
    var expanded := ExpandFeatures(all, features[..], ignore);
    if expanded.Err? {
      return Err(expanded.error);
    }
    var validated := SortFeatures(all, expanded.value.0, false, true);
    if validated.Err? {
      return Err(validated.error);
    }
    var reduced := ReduceFeatures(all, features, ignore);
    CnameChecksPass(all, feats0, ignore);
    if reduced.Err? {
      return Err(reduced.error);
    }
    var sorted := SortFeatures(all, reduced.value, true, false);
    StrictSortIsNameSequence(all, reduced.value);
    match sorted {
      case Err(e) => return Err(e);
      case Ok(names) =>
        var text, missing := PrintCname(all, names);
        NameSequenceMembers(all, Elems(reduced.value));
        return match missing case Some(f) => Err(NoSuchFeature(f)) case None => Ok(text);
    }
  }

  /** What has been printed before a missing feature stays printed. */
  method PrintCname(all: Catalog, features: seq<string>) returns (text: string, missing: Option<string>)
    ensures missing.None? <==> forall f :: f in features ==> f in all
    ensures missing.None? ==> text == NameText(all, features)
    ensures missing.Some? ==>
              exists i :: 0 <= i < |features| && features[i] == missing.value && features[i] !in all
                          && (forall f :: f in features[..i] ==> f in all) && text == NameText(all, features[..i])
  {
    text, missing := "", None;
    var i := 0;
    while i < |features|
      invariant 0 <= i <= |features|
      invariant forall f :: f in features[..i] ==> f in all
      invariant text == NameText(all, features[..i])
    {
      var f := features[i];
      assert DropLast(features[..i + 1]) == features[..i] && Last(features[..i + 1]) == f;
      if f !in all {
        return text, Some(f);
      }
      if all[f].ftype != "flag" && i > 0 {
        text := text + "-";
      }
      text := text + f;
      i := i + 1;
    }
    assert features[..i] == features;
  }

  /** Past the validation of the expanded list, only the walks of the reduction can still fail. */
  lemma CnameChecksPass(all: Catalog, features: seq<string>, ign: set<string>)
    requires Expanded(all, features, ign).Ok? && Sorted(all, Expanded(all, features, ign).value.0, false, true).Ok?
    ensures Reduced(all, features, ign).err.None? ==>
              var p := Reduced(all, features, ign).progress;
              && p.visited !! p.excluded
              && p.minimal == Minimal(InclusionGraph(all), ign, Listed(features, ign))
              && forall f :: f in p.minimal ==> f in all
  {
    if Reduced(all, features, ign).err.None? {
      ExclusionCheckRedundant(all, features, ign);
      ReducedExactly(all, features, ign);
      ExpandedExactly(all, features, ign);
    }
  }

  /** Strict sorting forgets the order in which the map iteration delivered the features. */
  lemma StrictSortIsNameSequence(all: Catalog, reduced: seq<string>)
    requires NoDup(reduced) && forall f :: f in reduced ==> f in all
    ensures Sorted(all, reduced, true, false) == Ok(NameSequence(all, Elems(reduced)))
  {
    SplitSucceeds(all, reduced, false);
    SplitIsStable(all, reduced, false);
    KindSorted(all, Platform, reduced);
    KindSorted(all, Other, reduced);
    KindSorted(all, Flag, reduced);
  }

  lemma KindSorted(all: Catalog, k: Kind, s: seq<string>)
    requires NoDup(s)
    ensures Sort(Itself, OfKind(all, k, s)) == SortedListing(Itself, OfKindIn(all, k, Elems(s)))
  {
    var members := OfKindIn(all, k, Elems(s));
    var part := OfKind(all, k, s);
    OfKindNoDup(all, k, s);
    forall f ensures f in part <==> f in members {
      OfKindMember(all, k, s, f);
    }
    assert Elems(part) == members;
    SortListing(Itself, part);
    SortedListingSorted(Itself, members);
    ListingUnique(Itself, members, Sort(Itself, part), SortedListing(Itself, members));
  }

  // ---- the canonical name ----

  lemma NameSequenceMembers(all: Catalog, m: set<string>)
    requires forall f :: f in m ==> f in all
    ensures Elems(NameSequence(all, m)) == m
  {
    var p, o, x := OfKindIn(all, Platform, m), OfKindIn(all, Other, m), OfKindIn(all, Flag, m);
    ElemsOfThree(SortedListing(Itself, p), SortedListing(Itself, o), SortedListing(Itself, x));
    forall f | f in m ensures f in p + o + x {
      assert KindOf(all, f) == Platform || KindOf(all, f) == Other || KindOf(all, f) == Flag;
    }
    assert p + o + x == m;
  }

  lemma ElemsOfThree(a: seq<string>, b: seq<string>, c: seq<string>)
    ensures Elems(a + b + c) == Elems(a) + Elems(b) + Elems(c)
  {
  }

  /** What a successful `cname` is named by. */
  lemma NameMembers(all: Catalog, features: seq<string>, ign: set<string>)
    requires "" !in features && CnameSucceeds(all, features, ign)
    ensures var g, m := InclusionGraph(all), Reduced(all, features, ign).progress.minimal;
            && Elems(CanonicalName(all, features, ign)) == m == Minimal(g, ign, Listed(features, ign))
            && WellReduced(g, ign, Listed(features, ign), m)
            && Closure(g, ign, Listed(features, ign)) == Requested(all, features, ign)
  {
    CnameChecksPass(all, features, ign);
    ReducedExactly(all, features, ign);
    ListedClosure(all, features, ign);
    NameSequenceMembers(all, Reduced(all, features, ign).progress.minimal);
  }

  /**
   Two requests are named by the same sequence of features if and only if they pull in the same
   features, whatever the order and the repetitions of the requested lists.
   */
  lemma CnameIsCanonical(all: Catalog, ign: set<string>, a: seq<string>, b: seq<string>)
    requires "" !in a && "" !in b
    requires CnameSucceeds(all, a, ign) && CnameSucceeds(all, b, ign)
    ensures CanonicalName(all, a, ign) == CanonicalName(all, b, ign)
       <==> Requested(all, a, ign) == Requested(all, b, ign)
  {
    NameMembers(all, a, ign);
    NameMembers(all, b, ign);
    ReductionIsCanonical(InclusionGraph(all), ign,
                         Listed(a, ign), Elems(CanonicalName(all, a, ign)),
                         Listed(b, ign), Elems(CanonicalName(all, b, ign)));
  }

  /**
   Asking for an image by its canonical name asks for the same image, on cyclic graphs as well:
   it can be expanded, to the same features, and is named by the same sequence. Nothing less does.
   */
  lemma CnameRoundTrip(all: Catalog, ign: set<string>, features: seq<string>, other: seq<string>)
    requires "" !in features && CnameSucceeds(all, features, ign)
    ensures var name := CanonicalName(all, features, ign);
            && CnameSucceeds(all, name, ign) && CanonicalName(all, name, ign) == name
            && Requested(all, name, ign) == Requested(all, features, ign)
            && (Requested(all, other, ign) == Requested(all, features, ign) ==> Elems(name) <= Elems(other))
  {
    var g, listed, name := InclusionGraph(all), Listed(features, ign), CanonicalName(all, features, ign);
    NameMembers(all, features, ign);
    ReductionPreservesMeaning(g, ign, listed, Elems(name));
    ReducedExpandsAlike(all, features, ign, name);
    ReducedTwice(all, features, ign, name);
    ExpandedValid(all, features, ign);
    ExpandedValid(all, name, ign);
    WalkAllRootsKnown(g, ign, name);
    CnameChecksPass(all, name, ign);
    if Requested(all, other, ign) == Requested(all, features, ign) {
      ReductionIsLeast(g, ign, listed, Elems(name), Elems(other));
    }
  }

  /**
   `cname` succeeds on every order of the requested features if and only if they ask for a valid
   image and each of them can be walked afresh.
   */
  lemma CnameInAnyOrderExactly(all: Catalog, ign: set<string>, roots: set<string>)
    ensures (forall order :: Elems(order) == roots ==> CnameSucceeds(all, order, ign))
       <==> && ValidImage(all, Closure(InclusionGraph(all), ign, roots))
            && forall f :: f in roots ==> Dfs(InclusionGraph(all), ign, {}, f).err.None?
  {
    var g := InclusionGraph(all);
    AnyOrderExactly(g, ign, roots);
    AnyOrderReducesExactly(all, ign, roots);
    forall order | Elems(order) == roots
      ensures CnameSucceeds(all, order, ign) <==>
              && WalkAll(g, ign, order).err.None? && ValidImage(all, Closure(g, ign, roots))
              && Reduced(all, order, ign).err.None?
    {
      ExpandedValid(all, order, ign);
    }
    var order := SortedListing(Itself, roots);
    assert Elems(order) == roots;
  }

  // ---- the printed name ----

  /** As the shipped features are named: a flag starts with its only underscore, other names have none, and no name has a dash. */
  ghost predicate PlainlyNamed(all: Catalog) {
    forall f :: f in all ==>
      if all[f].ftype == "flag" then f != "" && f[0] == '_' && NoMark(f[1..]) else f != "" && NoMark(f)
  }

  predicate NoMark(s: string) {
    '-' !in s && '_' !in s
  }

  predicate IsMark(c: char) {
    c == '-' || c == '_'
  }

  lemma LastMark(p: string, x: string)
    requires x != "" && IsMark(x[0]) && NoMark(x[1..])
    ensures IsMark((p + x)[|p|]) && forall i :: |p| < i < |p + x| ==> !IsMark((p + x)[i])
  {
    forall i | |p| < i < |p + x| ensures !IsMark((p + x)[i]) {
      assert (p + x)[i] == x[1..][i - |p| - 1];
      assert x[1..][i - |p| - 1] in x[1..];
    }
  }

  lemma SplitAtLastMark(p: string, x: string, q: string, y: string)
    requires x != "" && IsMark(x[0]) && NoMark(x[1..]) && y != "" && IsMark(y[0]) && NoMark(y[1..])
    requires p + x == q + y
    ensures p == q && x == y
  {
    LastMark(p, x);
    LastMark(q, y);
    assert |p| == |q|;
    assert (p + x)[..|p|] == p && (q + y)[..|q|] == q && (p + x)[|p|..] == x && (q + y)[|q|..] == y;
  }

  /** What an entry adds to the printed name. */
  function Piece(all: Catalog, f: string, first: bool): string {
    (if !first && f in all && KindOf(all, f) != Flag then "-" else "") + f
  }

  lemma PieceMarked(all: Catalog, f: string, first: bool)
    requires PlainlyNamed(all) && f in all
    ensures var x := Piece(all, f, first);
            && x != ""
            && (if first && KindOf(all, f) != Flag then NoMark(x) else IsMark(x[0]) && NoMark(x[1..]))
            && (!first ==> (x[0] == '-' <==> KindOf(all, f) != Flag))
            && f == if !first && x[0] == '-' then x[1..] else x
  {
    var x := Piece(all, f, first);
    if !first && KindOf(all, f) != Flag {
      assert x == "-" + f;
      assert x[1..] == f;
    } else {
      assert x == f;
    }
  }

  lemma TextOfPieces(all: Catalog, s: seq<string>)
    requires s != []
    ensures NameText(all, s) == NameText(all, DropLast(s)) + Piece(all, Last(s), |s| == 1)
  {
    assert NameText(all, DropLast(s)) + ("" + Last(s)) == NameText(all, DropLast(s)) + Last(s);
  }

  /** Only the text of a single platform or element has no mark. */
  lemma TextMarked(all: Catalog, s: seq<string>)
    requires s != [] && PlainlyNamed(all) && forall f :: f in s ==> f in all
    ensures NameText(all, s) != ""
    ensures NoMark(NameText(all, s)) <==> |s| == 1 && KindOf(all, Last(s)) != Flag
  {
    var p, x := NameText(all, DropLast(s)), Piece(all, Last(s), |s| == 1);
    TextOfPieces(all, s);
    PieceMarked(all, Last(s), |s| == 1);
    assert (p + x)[|p|] == x[0];
  }

  /** The last entries of equal texts are the same. */
  lemma LastPieces(all: Catalog, s: seq<string>, t: seq<string>)
    requires s != [] && t != [] && PlainlyNamed(all)
    requires (forall f :: f in s ==> f in all) && (forall f :: f in t ==> f in all)
    requires NameText(all, s) == NameText(all, t)
    ensures Last(s) == Last(t) && NameText(all, DropLast(s)) == NameText(all, DropLast(t))
  {
    var p, x := NameText(all, DropLast(s)), Piece(all, Last(s), |s| == 1);
    var q, y := NameText(all, DropLast(t)), Piece(all, Last(t), |t| == 1);
    TextOfPieces(all, s);
    TextOfPieces(all, t);
    PieceMarked(all, Last(s), |s| == 1);
    PieceMarked(all, Last(t), |t| == 1);
    TextMarked(all, s);
    TextMarked(all, t);
    if !NoMark(NameText(all, s)) {
      SplitAtLastMark(p, x, q, y);
      assert |s| > 1 ==> p != "" by { if |s| > 1 { TextMarked(all, DropLast(s)); } }
      assert |t| > 1 ==> q != "" by { if |t| > 1 { TextMarked(all, DropLast(t)); } }
    }
  }

  /** With plain names the printed text gives back the sequence. */
  lemma {:induction false} NameTextInjective(all: Catalog, s: seq<string>, t: seq<string>)
    requires PlainlyNamed(all) && (forall f :: f in s ==> f in all) && (forall f :: f in t ==> f in all)
    requires NameText(all, s) == NameText(all, t)
    ensures s == t
  {
    if s != [] {
      TextMarked(all, s);
    }
    if t != [] {
      TextMarked(all, t);
    }
    if s != [] && t != [] {
      LastPieces(all, s, t);
      NameTextInjective(all, DropLast(s), DropLast(t));
      assert s == DropLast(s) + [Last(s)] && t == DropLast(t) + [Last(t)];
    }
  }

  /** Where features are named plainly, the printed names are equal if and only if the images are. */
  lemma PrintedNameIsCanonical(all: Catalog, ign: set<string>, a: seq<string>, b: seq<string>)
    requires PlainlyNamed(all)
    requires CnameSucceeds(all, a, ign) && CnameSucceeds(all, b, ign)
    ensures NameText(all, CanonicalName(all, a, ign)) == NameText(all, CanonicalName(all, b, ign))
       <==> Requested(all, a, ign) == Requested(all, b, ign)
  {
    PlainRequest(all, a, ign);
    PlainRequest(all, b, ign);
    CnameIsCanonical(all, ign, a, b);
    if NameText(all, CanonicalName(all, a, ign)) == NameText(all, CanonicalName(all, b, ign)) {
      NameTextInjective(all, CanonicalName(all, a, ign), CanonicalName(all, b, ign));
    }
  }

  lemma PlainRequest(all: Catalog, features: seq<string>, ign: set<string>)
    requires PlainlyNamed(all) && CnameSucceeds(all, features, ign)
    ensures "" !in features && forall f :: f in CanonicalName(all, features, ign) ==> f in all
  {
    ExpandedExactly(all, features, ign);
    NameMembers(all, features, ign);
    CnameChecksPass(all, features, ign);
  }

  const DASHED_NAMES: Catalog :=
    map["p" := Feature("platform", [], []), "a" := Feature("element", [], []),
        "b" := Feature("element", [], []), "a-b" := Feature("element", [], [])]

  /** Features without includes and excludes are named as they are asked for. */
  lemma PlainRequestSucceeds(all: Catalog, features: seq<string>)
    requires forall f :: f in all ==> all[f].includes == [] && all[f].excludes == []
    requires "" !in features && (forall f :: f in features ==> f in all)
    requires exists p :: IsPlatformOf(all, Elems(features), p)
    ensures CnameSucceeds(all, features, {}) && Requested(all, features, {}) == Elems(features)
    ensures CanonicalName(all, features, {}) == NameSequence(all, Elems(features))
  {
    NoIncludes(InclusionGraph(all));
    AcyclicWalkAll(InclusionGraph(all), {}, features);
    PlainSets(InclusionGraph(all), features);
    ExpandedValid(all, features, {});
    CnameOnAcyclic(all, features, {});
  }

  lemma PlainSets(g: Graph, features: seq<string>)
    requires "" !in features && forall u, v :: Reach(g, {}, u, v) <==> u == v
    ensures Closure(g, {}, Elems(features)) == Elems(features)
    ensures Minimal(g, {}, Listed(features, {})) == Elems(features)
  {
  }

  lemma NoIncludes(g: Graph)
    requires forall v :: v in g ==> g[v] == []
    ensures Acyclic(g, {}) && forall u, v :: Reach(g, {}, u, v) <==> u == v
  {
    forall u, v ensures Reach(g, {}, u, v) <==> u == v {
      ReachRefl(g, {}, u);
      if Reach(g, {}, u, v) && u != v {
        var w := ReachFirst(g, {}, u, v);
      }
    }
  }

  /** Sorted platforms before sorted elements are their own name sequence. */
  lemma SequenceOfList(all: Catalog, platforms: seq<string>, others: seq<string>)
    requires InOrder(platforms) && InOrder(others)
    requires forall f :: f in platforms ==> f in all && KindOf(all, f) == Platform
    requires forall f :: f in others ==> f in all && KindOf(all, f) == Other
    ensures NameSequence(all, Elems(platforms + others)) == platforms + others
  {
    var m := Elems(platforms + others);
    assert m == Elems(platforms) + Elems(others);
    assert OfKindIn(all, Platform, m) == Elems(platforms);
    assert OfKindIn(all, Other, m) == Elems(others);
    assert OfKindIn(all, Flag, m) == {};
    assert platforms + others + [] == platforms + others;
  }

  ghost predicate InOrder(s: seq<string>) {
    SortedListing(Itself, Elems(s)) == s
  }

  lemma OwnListing(s: seq<string>)
    requires IsListing(Itself, Elems(s), s)
    ensures InOrder(s)
  {
    SortedListingSorted(Itself, Elems(s));
    ListingUnique(Itself, Elems(s), s, SortedListing(Itself, Elems(s)));
  }

  ghost predicate Dashed(all: Catalog) {
    && (forall f :: f in all ==> all[f].includes == [] && all[f].excludes == [])
    && {"p", "a", "b", "a-b"} <= all.Keys
    && KindOf(all, "p") == Platform && KindOf(all, "a") == KindOf(all, "b") == KindOf(all, "a-b") == Other
  }

  lemma CollidingTexts(all: Catalog)
    requires Dashed(all)
    ensures NameText(all, ["p", "a-b"]) == NameText(all, ["p", "a", "b"]) == "p-a-b"
  {
    assert DropLast(["p"]) == [] && DropLast(["p", "a-b"]) == ["p"] && DropLast(["p", "a"]) == ["p"];
    assert DropLast(["p", "a", "b"]) == ["p", "a"];
    TextOfPieces(all, ["p"]);
    TextOfPieces(all, ["p", "a"]);
    TextOfPieces(all, ["p", "a", "b"]);
    TextOfPieces(all, ["p", "a-b"]);
    assert NameText(all, ["p"]) == "" + ("" + "p") == "p";
    assert NameText(all, ["p", "a"]) == "p" + ("-" + "a") == "p-a";
    assert NameText(all, ["p", "a", "b"]) == "p-a" + ("-" + "b") == "p-a-b";
    assert NameText(all, ["p", "a-b"]) == "p" + ("-" + "a-b") == "p-a-b";
  }

  /** `request` is a valid request for just these features, and the name `cname` has for it. */
  ghost predicate NamesItself(all: Catalog, request: seq<string>) {
    && CnameSucceeds(all, request, {}) && CanonicalName(all, request, {}) == request
    && Requested(all, request, {}) == Elems(request)
  }

  lemma ListedInOrder(all: Catalog, platform: string, others: seq<string>)
    requires forall f :: f in all ==> all[f].includes == [] && all[f].excludes == []
    requires platform in all && KindOf(all, platform) == Platform && platform != "" && "" !in others
    requires InOrder(others) && forall f :: f in others ==> f in all && KindOf(all, f) == Other
    ensures NamesItself(all, [platform] + others)
  {
    OwnListing([platform]);
    SequenceOfList(all, [platform], others);
    PlatformListed(all, platform, others);
    PlainRequestSucceeds(all, [platform] + others);
  }

  lemma PlatformListed(all: Catalog, platform: string, others: seq<string>)
    requires platform in all && KindOf(all, platform) == Platform
    requires forall f :: f in others ==> f in all && KindOf(all, f) == Other
    ensures IsPlatformOf(all, Elems([platform] + others), platform)
  {
  }

  /** Two such requests for different features are two images; they are printed alike if their texts are. */
  lemma TwoImages(all: Catalog, p: string, s: seq<string>, t: seq<string>, x: seq<string>, y: seq<string>, f: string)
    requires forall f :: f in all ==> all[f].includes == [] && all[f].excludes == []
    requires p in all && KindOf(all, p) == Platform && p != "" && "" !in s && "" !in t
    requires InOrder(s) && InOrder(t) && forall f :: f in s + t ==> f in all && KindOf(all, f) == Other
    requires x == [p] + s && y == [p] + t && f in y && f !in x
    ensures NamesItself(all, x) && NamesItself(all, y) && Requested(all, x, {}) != Requested(all, y, {})
  {
    ListedInOrder(all, p, s);
    ListedInOrder(all, p, t);
    assert f in Elems(y) && f !in Elems(x);
  }

  lemma DashedCatalog() returns (all: Catalog)
    ensures all == DASHED_NAMES && Dashed(all)
  {
    all := DASHED_NAMES;
  }

  lemma ElementsInOrder() returns (s: seq<string>, t: seq<string>)
    ensures s == ["a-b"] && t == ["a", "b"] && InOrder(s) && InOrder(t)
  {
    s, t := ["a-b"], ["a", "b"];
    assert Le("a", "b");
    OwnListing(s);
    OwnListing(t);
  }

  lemma DashedLists(all: Catalog, s: seq<string>, t: seq<string>) returns (x: seq<string>, y: seq<string>)
    requires Dashed(all) && s == ["a-b"] && t == ["a", "b"]
    ensures x == ["p"] + s == ["p", "a-b"] && y == ["p"] + t == ["p", "a", "b"] && "a" in y && "a" !in x
    ensures KindOf(all, "p") == Platform && "" !in s && "" !in t
    ensures forall f :: f in s + t ==> f in all && KindOf(all, f) == Other
  {
    x, y := ["p"] + s, ["p"] + t;
  }

  /** Without plain names two requests for different images can be printed alike. */
  lemma PrintedNamesCollide() returns (all: Catalog, x: seq<string>, y: seq<string>)
    ensures all == DASHED_NAMES && x == ["p", "a-b"] && y == ["p", "a", "b"]
    ensures CnameSucceeds(all, x, {}) && CnameSucceeds(all, y, {})
    ensures Requested(all, x, {}) != Requested(all, y, {})
    ensures NameText(all, CanonicalName(all, x, {})) == NameText(all, CanonicalName(all, y, {})) == "p-a-b"
  {
    var s, t;
    all := DashedCatalog();
    s, t := ElementsInOrder();
    x, y := DashedLists(all, s, t);
    CollidingTexts(all);
    TwoImages(all, "p", s, t, x, y, "a");
  }

  /** Without cycles `cname` fails only as `features` does: a missing feature, an exclusion, not one platform. */
  lemma CnameOnAcyclic(all: Catalog, features: seq<string>, ign: set<string>)
    requires Acyclic(InclusionGraph(all), ign)
    ensures CnameSucceeds(all, features, ign) <==>
            && Expanded(all, features, ign).Ok?
            && Sorted(all, Expanded(all, features, ign).value.0, false, true).Ok?
  {
    if Expanded(all, features, ign).Ok? {
      ExpandedExactly(all, features, ign);
      ReducedOnAcyclic(all, features, ign);
    }
  }

  /** How one more feature is printed. */
  lemma NameTextGrows(all: Catalog, s: seq<string>, f: string)
    requires f in all
    ensures NameText(all, s + [f])
         == if s == [] || all[f].ftype == "flag" then NameText(all, s) + f else NameText(all, s) + "-" + f
  {
    assert DropLast(s + [f]) == s && Last(s + [f]) == f;
    TextOfPieces(all, s + [f]);
    assert NameText(all, s) + ("-" + f) == NameText(all, s) + "-" + f;
  }

  /** A platform, an element and a flag, say gcp-gardener_prod. */
  lemma PlatformElementFlag(all: Catalog, p: string, e: string, f: string)
    requires {p, e, f} <= all.Keys
    requires all[p].ftype == "platform" && all[e].ftype == "element" && all[f].ftype == "flag"
    ensures NameText(all, [p, e, f]) == p + "-" + e + f
  {
    NameTextGrows(all, [], p);
    NameTextGrows(all, [p], e);
    NameTextGrows(all, [p, e], f);
    assert [] + [p] == [p] && [p] + [e] == [p, e] && [p, e] + [f] == [p, e, f];
    assert "" + p == p;
  }
}
