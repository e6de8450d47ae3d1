/** Sorting features by kind and filtering them by type. */
module FeatureOrder {
  import opened Lists
  import opened FeatureErrors
  import opened FeatureCatalog
  import TextOrder

  const ELEMENT_TYPES: seq<string> := ["platform", "element"]
  const FLAG_TYPES: seq<string> := ["flag"]

  datatype Kind = Platform | Other | Flag

  function KindOf(all: Catalog, f: string): Kind
    requires f in all
  {
    if all[f].ftype == "platform" then Platform
    else if all[f].ftype == "flag" then Flag
    else Other
  }

  /** The three types readFeatures lets through. */
  ghost predicate Admitted(all: Catalog) {
    forall f :: f in all ==> all[f].ftype == "platform" || all[f].ftype == "element" || all[f].ftype == "flag"
  }

  function OfKind(all: Catalog, k: Kind, s: seq<string>): seq<string> {
    if s == [] then []
    else if Last(s) in all && KindOf(all, Last(s)) == k then OfKind(all, k, DropLast(s)) + [Last(s)]
    else OfKind(all, k, DropLast(s))
  }

  datatype Kinds = Kinds(platforms: seq<string>, others: seq<string>, flags: seq<string>)

  /** One pass over the list, stopping at the first missing feature or second platform. */
  function Split(all: Catalog, s: seq<string>, onePlatform: bool): Result<Kinds> {
    if s == [] then Ok(Kinds([], [], []))
    else
      var front := Split(all, DropLast(s), onePlatform);
      if front.Err? then front
      else
        var f, k := Last(s), front.value;
        if f !in all then Err(NoSuchFeature(f))
        else
          match KindOf(all, f)
          case Platform =>
            if onePlatform && k.platforms != [] then Err(ManyPlatforms(k.platforms[0], f))
            else Ok(k.(platforms := k.platforms + [f]))
          case Flag => Ok(k.(flags := k.flags + [f]))
          case Other => Ok(k.(others := k.others + [f]))
  }

  function Arranged(k: Kinds, strict: bool): seq<string> {
    if strict then
      TextOrder.Sort(TextOrder.Itself, k.platforms) + TextOrder.Sort(TextOrder.Itself, k.others)
      + TextOrder.Sort(TextOrder.Itself, k.flags)
    else k.platforms + k.others + k.flags
  }

  function Sorted(all: Catalog, s: seq<string>, strict: bool, onePlatform: bool): Result<seq<string>> {
    match Split(all, s, onePlatform)
    case Err(e) => Err(e)
    case Ok(k) => if onePlatform && k.platforms == [] then Err(NoPlatform) else Ok(Arranged(k, strict))
  }

  method SortFeatures(all: Catalog, unsorted: seq<string>, strict: bool, validatePlatform: bool)
    returns (r: Result<seq<string>>)
    ensures r == Sorted(all, unsorted, strict, validatePlatform)
  {
    var platforms, others, flags := [], [], [];
    var i := 0;
    while i < |unsorted|
      invariant 0 <= i <= |unsorted|
      invariant Split(all, unsorted[..i], validatePlatform) == Ok(Kinds(platforms, others, flags))
    {
      var f := unsorted[i];
      assert DropLast(unsorted[..i + 1]) == unsorted[..i] && Last(unsorted[..i + 1]) == f;
      if f !in all {
        SplitStops(all, unsorted, validatePlatform, i + 1);
        return Err(NoSuchFeature(f));
      }
      if all[f].ftype == "platform" {
        if validatePlatform && |platforms| > 0 {
          SplitStops(all, unsorted, validatePlatform, i + 1);
          return Err(ManyPlatforms(platforms[0], f));
        }
        platforms := platforms + [f];
      } else if all[f].ftype == "flag" {
        flags := flags + [f];
      } else {
        others := others + [f];
      }
      i := i + 1;
    }
    assert unsorted[..i] == unsorted;
    if validatePlatform && |platforms| == 0 {
      return Err(NoPlatform);
    }
    if strict {
      platforms := TextOrder.Sort(TextOrder.Itself, platforms);
      others := TextOrder.Sort(TextOrder.Itself, others);
      flags := TextOrder.Sort(TextOrder.Itself, flags);
    }
    return Ok(platforms + others + flags);
  }

  lemma {:induction false} SplitStops(all: Catalog, s: seq<string>, onePlatform: bool, i: nat)
    requires i <= |s| && Split(all, s[..i], onePlatform).Err?
    ensures Split(all, s, onePlatform) == Split(all, s[..i], onePlatform)
    decreases |s|
  {
    if i == |s| {
      assert s[..i] == s;
    } else {
      assert DropLast(s)[..i] == s[..i];
      SplitStops(all, DropLast(s), onePlatform, i);
    }
  }

  // ---- what sorting gives ----

  lemma {:induction false} SplitIsStable(all: Catalog, s: seq<string>, onePlatform: bool)
    requires Split(all, s, onePlatform).Ok?
    ensures Split(all, s, onePlatform).value
         == Kinds(OfKind(all, Platform, s), OfKind(all, Other, s), OfKind(all, Flag, s))
    ensures forall f :: f in s ==> f in all
    ensures onePlatform ==> |OfKind(all, Platform, s)| <= 1
  {
    if s != [] {
      SplitIsStable(all, DropLast(s), onePlatform);
      assert s == DropLast(s) + [Last(s)];
    }
  }

  lemma {:induction false} SplitSucceeds(all: Catalog, s: seq<string>, onePlatform: bool)
    requires forall f :: f in s ==> f in all
    requires onePlatform ==> |OfKind(all, Platform, s)| <= 1
    ensures Split(all, s, onePlatform).Ok?
  {
    if s != [] {
      SplitSucceeds(all, DropLast(s), onePlatform);
      SplitIsStable(all, DropLast(s), onePlatform);
    }
  }

  lemma {:induction false} KindsPartition(all: Catalog, s: seq<string>)
    requires forall f :: f in s ==> f in all
    ensures multiset(OfKind(all, Platform, s)) + multiset(OfKind(all, Other, s)) + multiset(OfKind(all, Flag, s))
         == multiset(s)
  {
    if s != [] {
      var front, f := DropLast(s), Last(s);
      assert s == front + [f];
      KindsPartition(all, front);
      OfKindSnoc(all, Platform, s);
      OfKindSnoc(all, Other, s);
      OfKindSnoc(all, Flag, s);
    }
  }

  lemma OfKindSnoc(all: Catalog, k: Kind, s: seq<string>)
    requires s != [] && Last(s) in all
    ensures multiset(OfKind(all, k, s)) == multiset(OfKind(all, k, DropLast(s)))
              + if KindOf(all, Last(s)) == k then multiset{Last(s)} else multiset{}
  {
  }

  /** Sorting succeeds exactly when every feature exists and, if asked for, there is one platform. */
  lemma SortedExactly(all: Catalog, s: seq<string>, strict: bool, onePlatform: bool)
    ensures Sorted(all, s, strict, onePlatform).Ok? <==>
            (forall f :: f in s ==> f in all) && (onePlatform ==> |OfKind(all, Platform, s)| == 1)
  {
    if Split(all, s, onePlatform).Ok? {
      SplitIsStable(all, s, onePlatform);
    } else if (forall f :: f in s ==> f in all) && (onePlatform ==> |OfKind(all, Platform, s)| <= 1) {
      SplitSucceeds(all, s, onePlatform);
    }
  }

  /** The stable partition by kind. */
  function ByKind(all: Catalog, s: seq<string>): seq<string> {
    OfKind(all, Platform, s) + OfKind(all, Other, s) + OfKind(all, Flag, s)
  }

  ghost predicate InByteOrderByKind(all: Catalog, s: seq<string>, r: seq<string>) {
    exists p, o, f ::
      && r == p + o + f && InByteOrder(OfKind(all, Platform, s), p)
      && InByteOrder(OfKind(all, Other, s), o) && InByteOrder(OfKind(all, Flag, s), f)
  }

  /** `r` holds the entries of `s` in byte order. */
  ghost predicate InByteOrder(s: seq<string>, r: seq<string>) {
    multiset(r) == multiset(s) && TextOrder.KeySorted(TextOrder.Itself, r)
  }

  lemma SortedInByteOrder(s: seq<string>)
    ensures InByteOrder(s, TextOrder.Sort(TextOrder.Itself, s))
    ensures |TextOrder.Sort(TextOrder.Itself, s)| == |s|
  {
    TextOrder.SortOrdered(TextOrder.Itself, s);
    TextOrder.OrderedIsKeySorted(TextOrder.Itself, TextOrder.Sort(TextOrder.Itself, s));
    SameLength(TextOrder.Sort(TextOrder.Itself, s), s);
  }

  /** A stable partition into platforms, elements and flags; strictly, each part in byte order. */
  lemma SortedIsPartition(all: Catalog, s: seq<string>, strict: bool, onePlatform: bool)
    requires Sorted(all, s, strict, onePlatform).Ok?
    ensures var r := Sorted(all, s, strict, onePlatform).value;
            && multiset(r) == multiset(s)
            && (!strict ==> r == ByKind(all, s))
            && (strict ==> InByteOrderByKind(all, s, r))
            && (onePlatform ==> |r| > 0 && OfKind(all, Platform, s) == [r[0]])
  {
    SplitIsStable(all, s, onePlatform);
    KindsPartition(all, s);
    var k := Split(all, s, onePlatform).value;
    if strict {
      StrictlyArranged(all, s, k, onePlatform);
    }
  }

  lemma StrictlyArranged(all: Catalog, s: seq<string>, k: Kinds, onePlatform: bool)
    requires k == Kinds(OfKind(all, Platform, s), OfKind(all, Other, s), OfKind(all, Flag, s))
    requires onePlatform ==> |k.platforms| == 1
    ensures multiset(Arranged(k, true)) == multiset(k.platforms) + multiset(k.others) + multiset(k.flags)
    ensures InByteOrderByKind(all, s, Arranged(k, true))
    ensures onePlatform ==> |Arranged(k, true)| > 0 && k.platforms == [Arranged(k, true)[0]]
  {
    var p, o, f := TextOrder.Sort(TextOrder.Itself, k.platforms), TextOrder.Sort(TextOrder.Itself, k.others),
                   TextOrder.Sort(TextOrder.Itself, k.flags);
    SortedInByteOrder(k.platforms);
    SortedInByteOrder(k.others);
    SortedInByteOrder(k.flags);
    assert Arranged(k, true) == p + o + f;
    if onePlatform {
      assert k.platforms == [k.platforms[0]];
      assert p[0] in multiset(p);
    }
  }

  /** Platforms come before everything else, and flags after. */
  ghost predicate PlatformsFlagsApart(all: Catalog, r: seq<string>) {
    forall i, j :: 0 <= i < j < |r| && r[i] in all && r[j] in all ==>
      && (all[r[j]].ftype == "platform" ==> all[r[i]].ftype == "platform")
      && (all[r[i]].ftype == "flag" ==> all[r[j]].ftype == "flag")
  }

  lemma SortedApart(all: Catalog, s: seq<string>, strict: bool, onePlatform: bool)
    requires Sorted(all, s, strict, onePlatform).Ok?
    ensures PlatformsFlagsApart(all, Sorted(all, s, strict, onePlatform).value)
  {
    SplitIsStable(all, s, onePlatform);
    var k := Split(all, s, onePlatform).value;
    var p, o, f := k.platforms, k.others, k.flags;
    if strict {
      p, o, f := TextOrder.Sort(TextOrder.Itself, p), TextOrder.Sort(TextOrder.Itself, o), TextOrder.Sort(TextOrder.Itself, f);
    }
    AllOfKind(all, Platform, s, p);
    AllOfKind(all, Other, s, o);
    AllOfKind(all, Flag, s, f);
    ApartConcat(all, p, o, f);
  }

  lemma AllOfKind(all: Catalog, k: Kind, s: seq<string>, part: seq<string>)
    requires multiset(part) == multiset(OfKind(all, k, s))
    ensures forall f :: f in part ==> f in all && KindOf(all, f) == k
  {
    forall f | f in part ensures f in all && KindOf(all, f) == k {
      assert f in multiset(part);
      OfKindMember(all, k, s, f);
    }
  }

  lemma ApartConcat(all: Catalog, p: seq<string>, o: seq<string>, f: seq<string>)
    requires forall x :: x in p ==> x in all && all[x].ftype == "platform"
    requires forall x :: x in o ==> x in all && all[x].ftype != "platform" && all[x].ftype != "flag"
    requires forall x :: x in f ==> x in all && all[x].ftype == "flag"
    ensures PlatformsFlagsApart(all, p + o + f)
  {
    var r := p + o + f;
    forall i | 0 <= i < |r|
      ensures r[i] in all && (all[r[i]].ftype == "platform" <==> i < |p|) && (all[r[i]].ftype == "flag" <==> |p| + |o| <= i)
    {
      if i < |p| {
        assert r[i] == p[i];
      } else if i < |p| + |o| {
        assert r[i] == o[i - |p|];
      } else {
        assert r[i] == f[i - |p| - |o|];
      }
    }
  }

  /** Which error: the first missing feature, the first two platforms, or none. */
  lemma {:induction false} SplitErrors(all: Catalog, s: seq<string>, onePlatform: bool) returns (i: nat)
    requires Split(all, s, onePlatform).Err?
    ensures i < |s| && Split(all, s[..i], onePlatform).Ok?
    ensures s[i] !in all ==> Split(all, s, onePlatform) == Err(NoSuchFeature(s[i]))
    ensures s[i] in all ==>
              && onePlatform && all[s[i]].ftype == "platform" && OfKind(all, Platform, s[..i]) != []
              && Split(all, s, onePlatform) == Err(ManyPlatforms(OfKind(all, Platform, s[..i])[0], s[i]))
  {
    var front := DropLast(s);
    if Split(all, front, onePlatform).Err? {
      i := SplitErrors(all, front, onePlatform);
      assert front[..i] == s[..i];
    } else {
      i := |front|;
      assert s[..i] == front;
      SplitIsStable(all, front, onePlatform);
    }
  }

  /** `part` is what is left of `s`, in order, when everything of another kind is taken out. */
  ghost predicate KeepsKind(all: Catalog, k: Kind, s: seq<string>, part: seq<string>) {
    exists rest :: Shuffle(s, part, rest) && forall f :: f in rest ==> f !in all || KindOf(all, f) != k
  }

  lemma {:induction false} OfKindStable(all: Catalog, k: Kind, s: seq<string>)
    ensures KeepsKind(all, k, s, OfKind(all, k, s))
  {
    if s == [] {
      assert Shuffle(s, OfKind(all, k, s), []);
    } else {
      OfKindStable(all, k, DropLast(s));
      KeepsKindSnoc(all, k, DropLast(s), OfKind(all, k, DropLast(s)), Last(s));
      assert s == DropLast(s) + [Last(s)];
    }
  }

  lemma KeepsKindSnoc(all: Catalog, k: Kind, s: seq<string>, part: seq<string>, f: string)
    requires KeepsKind(all, k, s, part)
    ensures if f in all && KindOf(all, f) == k then KeepsKind(all, k, s + [f], part + [f]) else KeepsKind(all, k, s + [f], part)
  {
    var rest :| Shuffle(s, part, rest) && forall f :: f in rest ==> f !in all || KindOf(all, f) != k;
    ShuffleSnoc(s, part, rest, f);
  }

  /** `p` is the one platform among the features of `s`. */
  ghost predicate IsPlatformOf(all: Catalog, s: set<string>, p: string) {
    forall q :: q in s && q in all && all[q].ftype == "platform" <==> q == p
  }

  lemma {:induction false} OfKindMember(all: Catalog, k: Kind, s: seq<string>, f: string)
    ensures f in OfKind(all, k, s) <==> f in s && f in all && KindOf(all, f) == k
  {
    if s != [] {
      OfKindMember(all, k, DropLast(s), f);
      assert s == DropLast(s) + [Last(s)];
    }
  }

  lemma {:induction false} OfKindNoDup(all: Catalog, k: Kind, s: seq<string>)
    requires NoDup(s)
    ensures NoDup(OfKind(all, k, s))
  {
    if s != [] {
      OfKindNoDup(all, k, DropLast(s));
      OfKindMember(all, k, DropLast(s), Last(s));
    }
  }

  /** In a list without duplicates, counting platforms is a question about the set. */
  lemma OnePlatformExactly(all: Catalog, s: seq<string>)
    requires NoDup(s)
    ensures |OfKind(all, Platform, s)| == 1 <==> exists p :: IsPlatformOf(all, Elems(s), p)
    ensures |OfKind(all, Platform, s)| == 1 ==> IsPlatformOf(all, Elems(s), OfKind(all, Platform, s)[0])
  {
    var ps := OfKind(all, Platform, s);
    OfKindNoDup(all, Platform, s);
    forall q ensures q in ps <==> q in Elems(s) && q in all && KindOf(all, q) == Platform {
      OfKindMember(all, Platform, s, q);
    }
    if p :| IsPlatformOf(all, Elems(s), p) {
      assert p in ps;
      assert Elems(ps) == {p};
      NoDupCardinality(ps);
    }
    if |ps| == 1 {
      assert forall q :: q in ps <==> q == ps[0];
      assert IsPlatformOf(all, Elems(s), ps[0]);
    }
  }

  // ---- filtering by type ----

  function Copies(types: seq<string>, ftype: string, f: string): seq<string> {
    if types == [] then []
    else Copies(DropLast(types), ftype, f) + if Last(types) == ftype then [f] else []
  }

  function Filtered(all: Catalog, s: seq<string>, types: seq<string>): Result<seq<string>> {
    if s == [] then Ok([])
    else
      var front := Filtered(all, DropLast(s), types);
      if front.Err? then front
      else if Last(s) !in all then Err(NoSuchFeature(Last(s)))
      else Ok(front.value + Copies(types, all[Last(s)].ftype, Last(s)))
  }

  method FilterByType(all: Catalog, features: seq<string>, types: seq<string>) returns (r: Result<seq<string>>)
    ensures r == Filtered(all, features, types)
  {
    var matching := [];
    var i := 0;
    while i < |features|
      invariant 0 <= i <= |features|
      invariant Filtered(all, features[..i], types) == Ok(matching)
    {
      var f := features[i];
      assert DropLast(features[..i + 1]) == features[..i] && Last(features[..i + 1]) == f;
      if f !in all {
        FilteredStops(all, features, types, i + 1);
        return Err(NoSuchFeature(f));
      }
      ghost var before := matching;
      var j := 0;
      while j < |types|
        invariant 0 <= j <= |types|
        invariant matching == before + Copies(types[..j], all[f].ftype, f)
      {
        assert DropLast(types[..j + 1]) == types[..j];
        if all[f].ftype == types[j] {
          matching := matching + [f];
        }
        j := j + 1;
      }
      assert types[..j] == types;
      i := i + 1;
    }
    assert features[..i] == features;
    return Ok(matching);
  }

  lemma {:induction false} FilteredStops(all: Catalog, s: seq<string>, types: seq<string>, i: nat)
    requires i <= |s| && Filtered(all, s[..i], types).Err?
    ensures Filtered(all, s, types) == Filtered(all, s[..i], types)
    decreases |s|
  {
    if i == |s| {
      assert s[..i] == s;
    } else {
      assert DropLast(s)[..i] == s[..i];
      FilteredStops(all, DropLast(s), types, i);
    }
  }

  /** The error names the first missing feature. */
  lemma {:induction false} FilteredErrors(all: Catalog, s: seq<string>, types: seq<string>) returns (i: nat)
    requires Filtered(all, s, types).Err?
    ensures i < |s| && s[i] !in all && Filtered(all, s, types) == Err(NoSuchFeature(s[i]))
    ensures forall f :: f in s[..i] ==> f in all
  {
    var front := DropLast(s);
    if Filtered(all, front, types).Err? {
      i := FilteredErrors(all, front, types);
      assert front[..i] == s[..i];
    } else {
      i := |front|;
      assert s[..i] == front;
      FilteredKnown(all, front, types);
    }
  }

  lemma {:induction false} FilteredKnown(all: Catalog, s: seq<string>, types: seq<string>)
    requires Filtered(all, s, types).Ok?
    ensures forall f :: f in s ==> f in all
  {
    if s != [] {
      FilteredKnown(all, DropLast(s), types);
      assert s == DropLast(s) + [Last(s)];
    }
  }

  /** `s` can be read as `a` and `b` shuffled together, each in its own order. */
  ghost predicate Shuffle(s: seq<string>, a: seq<string>, b: seq<string>) {
    if s == [] then a == [] && b == []
    else
      || (a != [] && Last(a) == Last(s) && Shuffle(DropLast(s), DropLast(a), b))
      || (b != [] && Last(b) == Last(s) && Shuffle(DropLast(s), a, DropLast(b)))
  }

  lemma CopiesOfKind(ftype: string, f: string)
    requires ftype == "platform" || ftype == "element" || ftype == "flag"
    ensures Copies(ELEMENT_TYPES, ftype, f) == if ftype == "flag" then [] else [f]
    ensures Copies(FLAG_TYPES, ftype, f) == if ftype == "flag" then [f] else []
  {
    assert DropLast(ELEMENT_TYPES) == ["platform"] && DropLast(["platform"]) == [] && DropLast(FLAG_TYPES) == [];
    assert Copies(["platform"], ftype, f) == Copies([], ftype, f) + if "platform" == ftype then [f] else [];
    assert Last(ELEMENT_TYPES) == "element" && Last(FLAG_TYPES) == "flag";
  }

  lemma ShuffleSnoc(s: seq<string>, a: seq<string>, b: seq<string>, f: string)
    requires Shuffle(s, a, b)
    ensures Shuffle(s + [f], a + [f], b) && Shuffle(s + [f], a, b + [f])
  {
    assert DropLast(s + [f]) == s && DropLast(a + [f]) == a && DropLast(b + [f]) == b;
  }

  lemma FilteredSnoc(all: Catalog, front: seq<string>, f: string, types: seq<string>)
    requires f in all && Filtered(all, front, types).Ok?
    ensures Filtered(all, front + [f], types) == Ok(Filtered(all, front, types).value + Copies(types, all[f].ftype, f))
  {
    assert DropLast(front + [f]) == front;
  }

  /** `r` is what is left of `s`, in order, when the entries of other types are taken out. */
  ghost predicate Selects(all: Catalog, s: seq<string>, types: seq<string>, r: seq<string>) {
    && (forall f :: f in r ==> f in all && all[f].ftype in types)
    && exists rest :: Shuffle(s, r, rest) && forall f :: f in rest ==> f in all && all[f].ftype !in types
  }

  lemma {:induction false} CopiesOnce(types: seq<string>, ftype: string, f: string)
    requires NoDup(types)
    ensures Copies(types, ftype, f) == if ftype in types then [f] else []
  {
    if types != [] {
      CopiesOnce(DropLast(types), ftype, f);
      InSnoc(types, ftype);
      if Last(types) == ftype {
        assert ftype !in DropLast(types);
      }
    }
  }

  /** Filtering by different types selects the entries of these types. */
  lemma {:induction false} FilteredSelects(all: Catalog, s: seq<string>, types: seq<string>)
    requires NoDup(types) && forall f :: f in s ==> f in all
    ensures Filtered(all, s, types).Ok? && Selects(all, s, types, Filtered(all, s, types).value)
  {
    if s == [] {
      assert Shuffle(s, [], []);
    } else {
      var front, f := DropLast(s), Last(s);
      assert s == front + [f];
      FilteredSelects(all, front, types);
      CopiesOnce(types, all[f].ftype, f);
      FilteredSnoc(all, front, f, types);
      SelectsSnoc(all, front, types, Filtered(all, front, types).value, f);
    }
  }

  lemma SelectsSnoc(all: Catalog, front: seq<string>, types: seq<string>, r: seq<string>, f: string)
    requires Selects(all, front, types, r) && f in all
    ensures Selects(all, front + [f], types, r + if all[f].ftype in types then [f] else [])
  {
    var rest :| Shuffle(front, r, rest) && forall f :: f in rest ==> f in all && all[f].ftype !in types;
    ShuffleSnoc(front, r, rest, f);
    assert r + [] == r;
    if all[f].ftype !in types {
      assert Shuffle(front + [f], r, rest + [f]);
    }
  }

  /** `s` is `e` and `x` shuffled together, and `x` has all the flags. */
  ghost predicate FlagsApart(all: Catalog, s: seq<string>, e: seq<string>, x: seq<string>) {
    && Shuffle(s, e, x)
    && (forall f :: f in x ==> f in all && all[f].ftype == "flag")
    && (forall f :: f in e ==> f in all && all[f].ftype != "flag")
  }

  lemma FlagsApartSnoc(all: Catalog, s: seq<string>, e: seq<string>, x: seq<string>, f: string)
    requires FlagsApart(all, s, e, x) && f in all
    ensures if all[f].ftype == "flag" then FlagsApart(all, s + [f], e, x + [f]) else FlagsApart(all, s + [f], e + [f], x)
  {
    ShuffleSnoc(s, e, x, f);
  }

  /** With the three admitted types, elements and flags together are the whole list, orders kept. */
  lemma {:induction false} ElementsAndFlagsShuffle(all: Catalog, s: seq<string>)
    requires Admitted(all) && forall f :: f in s ==> f in all
    ensures Filtered(all, s, ELEMENT_TYPES).Ok? && Filtered(all, s, FLAG_TYPES).Ok?
    ensures FlagsApart(all, s, Filtered(all, s, ELEMENT_TYPES).value, Filtered(all, s, FLAG_TYPES).value)
  {
    if s == [] {
      assert Shuffle(s, [], []);
    } else {
      var front, f := DropLast(s), Last(s);
      assert s == front + [f];
      ElementsAndFlagsShuffle(all, front);
      CopiesOfKind(all[f].ftype, f);
      FilteredSnoc(all, front, f, ELEMENT_TYPES);
      FilteredSnoc(all, front, f, FLAG_TYPES);
      var e, x := Filtered(all, front, ELEMENT_TYPES).value, Filtered(all, front, FLAG_TYPES).value;
      FlagsApartSnoc(all, front, e, x, f);
      assert e + [] == e && x + [] == x;
    }
  }
}
