/** The clean-up jobs: purging outdated manifests and sweeping unreferenced objects. */
module Cleaning {
  import opened Lists
  import opened FeatureErrors
  import opened TextOrder
  import opened Listing
  import opened Releases
  import opened Bucket

  // ---- marking ----

  lemma AllKeysMember(docs: Docs, prefix: string)
    ensures forall k :: k in AllKeys(docs, prefix) <==> k in docs && prefix <= k
  {
    assert Elems(AllKeys(docs, prefix)) == Pending(docs.Keys, prefix, None);
  }

  /** Where reading stopped, and what was read by then. */
  lemma {:induction false} ReadStops<T(!new)>(parse: Doc -> Parsed<T>, docs: Docs, keys: seq<string>) returns (n: nat)
    requires forall k :: k in keys ==> k in docs
    ensures n <= |keys| && (ReadAll(parse, docs, keys).ok <==> n == |keys|)
    ensures n < |keys| ==> parse(docs[keys[n]]).Unreadable?
    ensures forall k :: k in keys[..n] ==> !parse(docs[k]).Unreadable?
    ensures forall o :: o in ReadAll(parse, docs, keys).read <==> o.key in keys[..n] && parse(docs[o.key]) == Item(o.value)
  {
    if keys == [] {
      n := 0;
    } else {
      var front, k := DropLast(keys), Last(keys);
      n := ReadStops(parse, docs, front);
      assert keys[..n] == front[..n];
      if n == |front| {
        assert front[..n] == front;
        if !parse(docs[k]).Unreadable? {
          n := |keys|;
          assert keys[..n] == keys;
          ReadOneMore(parse, docs, keys);
        }
      }
    }
  }

  lemma ReadOneMore<T(!new)>(parse: Doc -> Parsed<T>, docs: Docs, keys: seq<string>)
    requires keys != [] && Last(keys) in docs && !parse(docs[Last(keys)]).Unreadable?
    requires ReadAll(parse, docs, DropLast(keys)).ok
    ensures ReadAll(parse, docs, keys).ok
    ensures forall o :: o in ReadAll(parse, docs, keys).read <==>
              o in ReadAll(parse, docs, DropLast(keys)).read || (o.key == Last(keys) && parse(docs[o.key]) == Item(o.value))
    ensures forall j :: j in keys <==> j in DropLast(keys) || j == Last(keys)
  {
    var a, b := ReadAll(parse, docs, DropLast(keys)), ReadAt(parse, docs, Last(keys));
    assert ReadAll(parse, docs, keys).read == a.read + b.read;
    forall j ensures j in keys <==> j in DropLast(keys) || j == Last(keys) {
      InSnoc(keys, j);
    }
  }

  /** A key is among the first `n` listed exactly if all that is listed up to it is; else the next one is up to it. */
  lemma ListedBefore(docs: Docs, prefix: string, n: nat, k: string)
    requires n <= |AllKeys(docs, prefix)| && k in docs && prefix <= k
    ensures var all := AllKeys(docs, prefix);
            if k in all[..n] then forall j :: j in docs && prefix <= j && Le(j, k) ==> j in all[..n]
            else n < |all| && all[n] in docs && prefix <= all[n] && Le(all[n], k)
  {
    AllKeysMember(docs, prefix);
    PendingSorted(docs.Keys, prefix, None);
    SortedBefore(AllKeys(docs, prefix), n, k);
    assert n < |AllKeys(docs, prefix)| ==> AllKeys(docs, prefix)[n] in AllKeys(docs, prefix);
  }

  lemma SortedBefore(all: seq<string>, n: nat, k: string)
    requires NoDup(all) && KeySorted(Itself, all) && n <= |all| && k in all
    ensures if k in all[..n] then forall j :: j in all && Le(j, k) ==> j in all[..n]
            else n < |all| && Le(all[n], k)
  {
    if k in all[..n] {
      forall j | j in all && Le(j, k) ensures j in all[..n] {
        EarlierListed(all, n, j, k);
      }
    } else {
      InParts(all, n, k);
      var i :| 0 <= i < |all| - n && all[n..][i] == k;
      assert all[n + i] == k;
      LeTotal(k, k);
      assert 0 < i ==> Le(Itself(all[n]), Itself(all[n + i]));
    }
  }

  lemma EarlierListed(all: seq<string>, n: nat, j: string, k: string)
    requires NoDup(all) && KeySorted(Itself, all) && n <= |all| && j in all && k in all[..n] && Le(j, k)
    ensures j in all[..n]
  {
    PageBoundary(all, n);
    LeTransitive(j, k, all[n - 1]);
    InParts(all, n, j);
  }

  lemma InParts(all: seq<string>, n: nat, x: string)
    requires n <= |all|
    ensures x in all <==> x in all[..n] || x in all[n..]
  {
    assert all == all[..n] + all[n..];
  }

  /** The keys read are those up to which everything can be read. */
  lemma StopIsFirst<T>(parse: Doc -> Parsed<T>, docs: Docs, prefix: string, all: seq<string>, n: nat, k: string)
    requires all == AllKeys(docs, prefix) && n <= |all| && k in docs && prefix <= k
    requires forall j :: j in all[..n] ==> j in docs && !parse(docs[j]).Unreadable?
    requires n < |all| ==> all[n] in docs && parse(docs[all[n]]).Unreadable?
    ensures k in all[..n] <==> ReadableUpTo(parse, docs, prefix, k)
  {
    ListedBefore(docs, prefix, n, k);
  }

  lemma AllListed(docs: Docs, prefix: string, all: seq<string>, n: nat)
    requires all == AllKeys(docs, prefix) && n <= |all|
    ensures forall k :: k in all <==> k in docs && prefix <= k
    ensures n < |all| ==> all[n] in docs && prefix <= all[n]
    ensures n == |all| ==> all[..n] == all
    ensures forall k :: k in all[..n] ==> k in all
  {
    AllKeysMember(docs, prefix);
    assert n < |all| ==> all[n] in all;
  }

  /** What an enumerator reads: everything under the prefix, up to the first key that cannot be read. */
  lemma ReadMember<T(!new)>(parse: Doc -> Parsed<T>, docs: Docs, prefix: string)
    ensures var r := ReadAll(parse, docs, AllKeys(docs, prefix));
            && (forall o :: o in r.read <==>
                  o.key in docs && prefix <= o.key && parse(docs[o.key]) == Item(o.value)
                  && ReadableUpTo(parse, docs, prefix, o.key))
            && (r.ok <==> forall k :: k in docs && prefix <= k ==> !parse(docs[k]).Unreadable?)
  {
    var all := AllKeys(docs, prefix);
    AllListed(docs, prefix, all, 0);
    var n := ReadStops(parse, docs, all);
    AllListed(docs, prefix, all, n);
    var r := ReadAll(parse, docs, all);
    forall o ensures o in r.read <==>
      o.key in docs && prefix <= o.key && parse(docs[o.key]) == Item(o.value) && ReadableUpTo(parse, docs, prefix, o.key)
    {
      if o.key in docs && prefix <= o.key {
        StopIsFirst(parse, docs, prefix, all, n, o.key);
      }
    }
  }

  /** All single manifests under the prefix are read, in key order, up to the first key that holds none. */
  lemma SinglesEnumerated(docs: Docs, prefix: string)
    ensures var r := ReadAll(AsSingle, docs, AllKeys(docs, prefix));
            && (r.ok <==> forall k :: k in docs && prefix <= k ==> docs[k].Single?)
            && (r.ok ==> forall k, m :: Online(k, m) in r.read <==> k in docs && prefix <= k && docs[k] == Single(m))
            && KeysAscend(r.read)
  {
    ReadMember(AsSingle, docs, prefix);
    PendingSorted(docs.Keys, prefix, None);
    AllKeysMember(docs, prefix);
    ReadAscends(AsSingle, docs, AllKeys(docs, prefix));
  }

  /** Likewise for sets, where directories are passed over. */
  lemma SetsEnumerated(docs: Docs, prefix: string)
    ensures var r := ReadAll(AsBundle, docs, AllKeys(docs, prefix));
            && (r.ok <==> forall k :: k in docs && prefix <= k ==> docs[k].Bundle? || docs[k].Directory?)
            && (r.ok ==> forall k, b :: Online(k, b) in r.read <==> k in docs && prefix <= k && docs[k] == Bundle(b))
            && KeysAscend(r.read)
  {
    ReadMember(AsBundle, docs, prefix);
    PendingSorted(docs.Keys, prefix, None);
    AllKeysMember(docs, prefix);
    ReadAscends(AsBundle, docs, AllKeys(docs, prefix));
  }

  ghost predicate KeysAscend<T>(read: seq<Online<T>>) {
    forall i, j :: 0 <= i < j < |read| ==> read[i].key != read[j].key && Le(read[i].key, read[j].key)
  }

  lemma {:induction false} ReadAscends<T(!new)>(parse: Doc -> Parsed<T>, docs: Docs, keys: seq<string>)
    requires NoDup(keys) && KeySorted(Itself, keys) && forall k :: k in keys ==> k in docs
    ensures KeysAscend(ReadAll(parse, docs, keys).read)
  {
    if keys != [] {
      var front, k := DropLast(keys), Last(keys);
      ReadAscends(parse, docs, front);
      var n := ReadStops(parse, docs, front);
      var a := ReadAll(parse, docs, front).read;
      forall i | 0 <= i < |a| ensures a[i].key != k && Le(a[i].key, k) {
        assert a[i] in a && a[i].key in front[..n];
        EarlierKey(keys, a[i].key);
      }
    }
  }

  lemma EarlierKey(keys: seq<string>, k: string)
    requires keys != [] && NoDup(keys) && KeySorted(Itself, keys) && k in DropLast(keys)
    ensures k != Last(keys) && Le(k, Last(keys))
  {
    var i :| 0 <= i < |keys| - 1 && keys[i] == k;
    assert Le(Itself(keys[i]), Itself(keys[|keys| - 1]));
  }

  /** Some manifest, alone or in a set, or the logs of some set name the key `k` of this bucket. */
  ghost predicate Named(bucket: string, docs: Docs, k: string) {
    exists j :: j in docs && NamedIn(bucket, j, docs[j], k)
  }

  ghost predicate NamedIn(bucket: string, j: string, d: Doc, k: string) {
    || (d.Single? && "meta/singles" <= j && ListedIn(bucket, d.manifest.paths, k))
    || (d.Bundle? && "meta/sets" <= j
        && (ListedIn(bucket, d.bundle.logs, k) || exists m :: m in d.bundle.manifests && ListedIn(bucket, m.paths, k)))
  }

  ghost predicate ListedIn(bucket: string, files: seq<ReleaseFile>, k: string) {
    exists f :: f in files && f.bucket == bucket && f.key == k
  }

  lemma NamedExactly(bucket: string, docs: Docs, k: string)
    ensures k in Referenced(bucket, docs) <==> Named(bucket, docs, k)
  {
    forall j | j in docs ensures k in KeysNamedBy(bucket, j, docs[j]) <==> NamedIn(bucket, j, docs[j], k) {
      NamedInExactly(bucket, j, docs[j], k);
    }
  }

  lemma NamedInExactly(bucket: string, j: string, d: Doc, k: string)
    ensures k in KeysNamedBy(bucket, j, d) <==> NamedIn(bucket, j, d, k)
  {
    forall files: seq<ReleaseFile> ensures k in PathKeys(bucket, files) <==> ListedIn(bucket, files, k) {
    }
  }

  /** Collects the keys of everything the manifests name. */
  method MarkReferenced(bucket: string, docs: Docs) returns (marked: Option<set<string>>)
    ensures marked.Some? ==> marked.value == Referenced(bucket, docs) && Readable(docs)
    ensures Readable(docs) ==> marked.Some?
  {
    var bundles := EnumerateReleaseSets(docs, SETS_PREFIX);
    ReadMember(AsBundle, docs, SETS_PREFIX);
    if !bundles.ok {
      return None;
    }
    var singles := EnumerateReleases(docs, SINGLES_PREFIX);
    ReadMember(AsSingle, docs, SINGLES_PREFIX);
    if !singles.ok {
      return None;
    }
    var keys := (set o, key | o in bundles.read && key in BundleKeys(bucket, o.value) :: key)
              + (set o, key | o in singles.read && key in PathKeys(bucket, o.value.paths) :: key);
    MarkedExactly(bucket, docs, bundles.read, singles.read);
    return Some(keys);
  }

  lemma MarkedExactly(bucket: string, docs: Docs, bundles: seq<Online<ManifestSet>>, singles: seq<Online<Manifest>>)
    requires Readable(docs)
    requires forall o :: o in singles <==>
               o.key in docs && SINGLES_PREFIX <= o.key && AsSingle(docs[o.key]) == Item(o.value)
               && ReadableUpTo(AsSingle, docs, SINGLES_PREFIX, o.key)
    requires forall o :: o in bundles <==>
               o.key in docs && SETS_PREFIX <= o.key && AsBundle(docs[o.key]) == Item(o.value)
               && ReadableUpTo(AsBundle, docs, SETS_PREFIX, o.key)
    ensures (set o, key | o in bundles && key in BundleKeys(bucket, o.value) :: key)
          + (set o, key | o in singles && key in PathKeys(bucket, o.value.paths) :: key)
         == Referenced(bucket, docs)
  {
    forall k, key | k in docs && key in KeysNamedBy(bucket, k, docs[k])
      ensures (exists o :: o in bundles && key in BundleKeys(bucket, o.value))
           || (exists o :: o in singles && key in PathKeys(bucket, o.value.paths))
    {
      match docs[k] {
        case Single(m) => assert Online(k, m) in singles;
        case Bundle(b) => assert Online(k, b) in bundles;
        case _ =>
      }
    }
    forall o, key | o in bundles && key in BundleKeys(bucket, o.value) ensures key in Referenced(bucket, docs) {
      assert key in KeysNamedBy(bucket, o.key, docs[o.key]);
    }
    forall o, key | o in singles && key in PathKeys(bucket, o.value.paths) ensures key in Referenced(bucket, docs) {
      assert key in KeysNamedBy(bucket, o.key, docs[o.key]);
    }
  }

  // ---- sweeping ----

  /** The contents once listing has passed the token. */
  ghost function SweptUpTo(docs: Docs, prefix: string, marked: set<string>, token: Option<string>): Docs {
    map k | k in docs && (k in marked || !(prefix <= k) || !Passed(token, k)) :: docs[k]
  }

  /**
   Deleting page by page while listing ends with exactly the keys outside the prefix or named
   by a manifest; a dry run, or manifests that cannot be read, change nothing.
   */
  method CleanOrphanedObjects(store: Store, prefix: string, dryRun: bool) returns (ok: bool)
    modifies store`docs
    ensures Readable(old(store.docs)) <==> ok
    ensures store.docs == if ok && !dryRun then AfterSweep(store.name, old(store.docs), prefix) else old(store.docs)
    ensures ok && !dryRun ==> forall k :: k in store.docs <==>
              k in old(store.docs) && (prefix <= k ==> Named(store.name, old(store.docs), k))
  {
    forall k ensures k in Referenced(store.name, store.docs) <==> Named(store.name, store.docs, k) {
      NamedExactly(store.name, store.docs, k);
    }
    var marking := MarkReferenced(store.name, store.docs);
    if marking.None? {
      return false;
    }
    var marked := marking.value;
    ghost var docs0 := store.docs;
    var token: Option<string> := None;
    assert SweptUpTo(docs0, prefix, marked, None) == docs0;
    while true
      invariant store.docs == if dryRun then docs0 else SweptUpTo(docs0, prefix, marked, token)
      decreases |Pending(store.docs.Keys, prefix, token)|
    {
      var page, next := ListObjects(store.docs, prefix, token);
      PageStep(store.docs.Keys, prefix, token, page, next);
      if |page| == 0 {
        EmptyPage(store.docs.Keys, prefix, token, page, next);
        SweptAll(docs0, prefix, marked, token, store.name);
        return true;
      }
      ghost var before := store.docs;
      if !dryRun {
        var loose := (set k | k in page) - marked;
        store.docs := store.docs - loose;
        PageSwept(docs0, prefix, marked, token, page, next);
        PendingAfterPage(before.Keys, loose, prefix, token, page, next);
      }
      if next.None? {
        return true;
      }
      token := next;
    }
  }

  /** A listing that is through has swept everything. */
  lemma SweptAll(docs: Docs, prefix: string, marked: set<string>, token: Option<string>, bucket: string)
    requires Pending(SweptUpTo(docs, prefix, marked, token).Keys, prefix, token) == {}
    requires marked == Referenced(bucket, docs)
    ensures SweptUpTo(docs, prefix, marked, token) == AfterSweep(bucket, docs, prefix)
  {
    assert forall k :: k in docs && prefix <= k && !Passed(token, k) ==>
      k in Pending(SweptUpTo(docs, prefix, marked, token).Keys, prefix, token);
  }

  /** Deleting the loose keys of a page moves the sweep on to the next token, or to its end. */
  lemma PageSwept(docs: Docs, prefix: string, marked: set<string>, token: Option<string>, page: seq<string>, next: Option<string>)
    requires IsPage(SweptUpTo(docs, prefix, marked, token).Keys, prefix, token, page, next)
    ensures var t := SweptUpTo(docs, prefix, marked, token) - (Elems(page) - marked);
            if next.Some? then t == SweptUpTo(docs, prefix, marked, next)
            else t == map k | k in docs && (!(prefix <= k) || k in marked) :: docs[k]
  {
    var s := SweptUpTo(docs, prefix, marked, token);
    if next.Some? {
      NextPage(s.Keys, prefix, token, page, next);
      forall k | k in docs && prefix <= k && Passed(token, k) ensures Passed(next, k) {
        assert Last(page) in Pending(s.Keys, prefix, token);
        LeTotal(Last(page), token.value);
        LeTransitive(k, token.value, Last(page));
      }
    } else {
      LastPage(s.Keys, prefix, token, page);
    }
  }

  /** What was deleted lies behind the token, so the listing does not notice. */
  lemma PendingAfterPage(
    keys: set<string>, loose: set<string>, prefix: string, token: Option<string>, page: seq<string>, next: Option<string>)
    requires IsPage(keys, prefix, token, page, next) && loose <= Elems(page)
    ensures next.Some? ==> Pending(keys - loose, prefix, next) == Pending(keys, prefix, next)
  {
    if next.Some? {
      NextPage(keys, prefix, token, page, next);
    }
  }

  // ---- purging ----

  /** An old single manifest, before which nothing is listed that cannot be read. */
  ghost predicate SinglePurged(docs: Docs, oldest: int, k: string)
    requires k in docs
  {
    && "meta/singles" <= k && docs[k].Single? && docs[k].manifest.timestamp < oldest
    && forall j :: j in docs && "meta/singles" <= j && Le(j, k) ==> docs[j].Single?
  }

  /** A set with an old first manifest, before which nothing is listed that cannot be read. */
  ghost predicate SetPurged(docs: Docs, prefix: string, oldest: int, k: string)
    requires k in docs
  {
    && prefix <= k && docs[k].Bundle?
    && docs[k].bundle.manifests != [] && docs[k].bundle.manifests[0].timestamp <= oldest
    && forall j :: j in docs && prefix <= j && Le(j, k) ==> docs[j].Bundle? || docs[j].Directory?
  }

  lemma SinglesPurgedExactly(docs: Docs, oldest: int, k: string)
    requires k in docs
    ensures k in AfterPurgeSingles(docs, oldest) <==> !SinglePurged(docs, oldest, k)
    ensures k in AfterPurgeSingles(docs, oldest) ==> AfterPurgeSingles(docs, oldest)[k] == docs[k]
  {
    assert ReadableUpTo(AsSingle, docs, SINGLES_PREFIX, k) <==>
           forall j :: j in docs && "meta/singles" <= j && Le(j, k) ==> docs[j].Single?;
  }

  lemma SetsPurgedExactly(docs: Docs, prefix: string, oldest: int, k: string)
    requires k in docs
    ensures k in AfterPurgeSets(docs, prefix, oldest) <==> !SetPurged(docs, prefix, oldest, k)
    ensures k in AfterPurgeSets(docs, prefix, oldest) ==> AfterPurgeSets(docs, prefix, oldest)[k] == docs[k]
  {
    assert ReadableUpTo(AsBundle, docs, prefix, k) <==>
           forall j :: j in docs && prefix <= j && Le(j, k) ==> docs[j].Bundle? || docs[j].Directory?;
  }

  /**
   clean_single_release_manifests: every single manifest older than the limit goes. The purges of
   what was read before an unreadable manifest have been handed out by then, and are carried out.
   */
  method CleanSingleReleaseManifests(store: Store, oldest: int, dryRun: bool) returns (ok: bool)
    modifies store`docs
    ensures ok <==> forall k :: k in old(store.docs) && SINGLES_PREFIX <= k ==> old(store.docs)[k].Single?
    ensures store.docs == if dryRun then old(store.docs) else AfterPurgeSingles(old(store.docs), oldest)
    ensures ok && !dryRun ==> forall k :: k in old(store.docs) && "meta/singles" <= k ==>
              (k in store.docs <==> old(store.docs)[k].manifest.timestamp >= oldest)
  {
    ghost var docs0 := store.docs;
    var reading := EnumerateReleases(store.docs, SINGLES_PREFIX);
    var found := reading.read;
    var i := 0;
    while i < |found|
      invariant 0 <= i <= |found|
      invariant store.docs == if dryRun then docs0 else docs0 - OutdatedSingles(found[..i], oldest)
    {
      var m := found[i];
      OutdatedSinglesSnoc(found, i, oldest);
      if m.value.timestamp < oldest && !dryRun {
        store.docs := store.docs - {m.key};
      }
      i := i + 1;
    }
    assert found[..i] == found;
    PurgedSinglesRead(docs0, oldest);
    forall k | k in docs0 ensures k in AfterPurgeSingles(docs0, oldest) <==> !SinglePurged(docs0, oldest, k) {
      SinglesPurgedExactly(docs0, oldest, k);
    }
    return reading.ok;
  }

  lemma PurgedSinglesRead(docs: Docs, oldest: int)
    ensures var r := ReadAll(AsSingle, docs, AllKeys(docs, SINGLES_PREFIX));
            && docs - OutdatedSingles(r.read, oldest) == AfterPurgeSingles(docs, oldest)
            && (r.ok <==> forall k :: k in docs && SINGLES_PREFIX <= k ==> docs[k].Single?)
  {
    ReadMember(AsSingle, docs, SINGLES_PREFIX);
    PurgedSingles(docs, ReadAll(AsSingle, docs, AllKeys(docs, SINGLES_PREFIX)).read, oldest);
  }

  function OutdatedSingles(found: seq<Online<Manifest>>, oldest: int): set<string> {
    set o | o in found && o.value.timestamp < oldest :: o.key
  }

  lemma OutdatedSinglesSnoc(found: seq<Online<Manifest>>, i: nat, oldest: int)
    requires i < |found|
    ensures OutdatedSingles(found[..i + 1], oldest)
         == OutdatedSingles(found[..i], oldest) + if found[i].value.timestamp < oldest then {found[i].key} else {}
  {
    assert found[..i + 1] == found[..i] + [found[i]];
  }

  lemma PurgedSingles(docs: Docs, found: seq<Online<Manifest>>, oldest: int)
    requires forall o :: o in found <==>
               o.key in docs && SINGLES_PREFIX <= o.key && AsSingle(docs[o.key]) == Item(o.value)
               && ReadableUpTo(AsSingle, docs, SINGLES_PREFIX, o.key)
    ensures docs - OutdatedSingles(found, oldest) == AfterPurgeSingles(docs, oldest)
  {
    forall k | k in docs && SINGLES_PREFIX <= k && docs[k].Single?
      ensures k in OutdatedSingles(found, oldest) <==>
              docs[k].manifest.timestamp < oldest && ReadableUpTo(AsSingle, docs, SINGLES_PREFIX, k)
    {
      assert ReadableUpTo(AsSingle, docs, SINGLES_PREFIX, k) <==> Online(k, docs[k].manifest) in found;
    }
  }

  /**
   clean_release_manifest_sets: a set goes if it is not empty and its first manifest is not young
   enough, also when a later set cannot be read.
   */
  method CleanReleaseManifestSets(store: Store, prefix: string, oldest: int, dryRun: bool) returns (ok: bool)
    modifies store`docs
    ensures ok <==> forall k :: k in old(store.docs) && prefix <= k ==>
                      old(store.docs)[k].Bundle? || old(store.docs)[k].Directory?
    ensures store.docs == if dryRun then old(store.docs) else AfterPurgeSets(old(store.docs), prefix, oldest)
    ensures ok && !dryRun ==> forall k :: k in old(store.docs) && prefix <= k && old(store.docs)[k].Bundle? ==>
              var ms := old(store.docs)[k].bundle.manifests;
              (k in store.docs <==> ms == [] || ms[0].timestamp > oldest)
  {
    ghost var docs0 := store.docs;
    var reading := EnumerateReleaseSets(store.docs, prefix);
    var found := reading.read;
    var i := 0;
    while i < |found|
      invariant 0 <= i <= |found|
      invariant store.docs == if dryRun then docs0 else docs0 - OutdatedSets(found[..i], oldest)
    {
      var s := found[i];
      OutdatedSetsSnoc(found, i, oldest);
      var keep := |s.value.manifests| < 1 || s.value.manifests[0].timestamp > oldest;
      if !keep && !dryRun {
        store.docs := store.docs - {s.key};
      }
      i := i + 1;
    }
    assert found[..i] == found;
    PurgedSetsRead(docs0, prefix, oldest);
    forall k | k in docs0 ensures k in AfterPurgeSets(docs0, prefix, oldest) <==> !SetPurged(docs0, prefix, oldest, k) {
      SetsPurgedExactly(docs0, prefix, oldest, k);
    }
    return reading.ok;
  }

  lemma PurgedSetsRead(docs: Docs, prefix: string, oldest: int)
    ensures var r := ReadAll(AsBundle, docs, AllKeys(docs, prefix));
            && docs - OutdatedSets(r.read, oldest) == AfterPurgeSets(docs, prefix, oldest)
            && (r.ok <==> forall k :: k in docs && prefix <= k ==> docs[k].Bundle? || docs[k].Directory?)
  {
    ReadMember(AsBundle, docs, prefix);
    PurgedSets(docs, ReadAll(AsBundle, docs, AllKeys(docs, prefix)).read, prefix, oldest);
  }

  function OutdatedSets(found: seq<Online<ManifestSet>>, oldest: int): set<string> {
    set o | o in found && SetOutdated(o.value, oldest) :: o.key
  }

  lemma OutdatedSetsSnoc(found: seq<Online<ManifestSet>>, i: nat, oldest: int)
    requires i < |found|
    ensures OutdatedSets(found[..i + 1], oldest)
         == OutdatedSets(found[..i], oldest) + if SetOutdated(found[i].value, oldest) then {found[i].key} else {}
  {
    assert found[..i + 1] == found[..i] + [found[i]];
  }

  lemma PurgedSets(docs: Docs, found: seq<Online<ManifestSet>>, prefix: string, oldest: int)
    requires forall o :: o in found <==>
               o.key in docs && prefix <= o.key && AsBundle(docs[o.key]) == Item(o.value)
               && ReadableUpTo(AsBundle, docs, prefix, o.key)
    ensures docs - OutdatedSets(found, oldest) == AfterPurgeSets(docs, prefix, oldest)
  {
    forall k | k in docs && prefix <= k && docs[k].Bundle?
      ensures k in OutdatedSets(found, oldest) <==> SetOutdated(docs[k].bundle, oldest) && ReadableUpTo(AsBundle, docs, prefix, k)
    {
      assert ReadableUpTo(AsBundle, docs, prefix, k) <==> Online(k, docs[k].bundle) in found;
    }
  }
}
