/** Over every run of pipeline steps, no manifest names an object that is gone. */
module StoreSafety {
  import opened Lists
  import opened FeatureErrors
  import opened IncludeGraph
  import opened FeatureModel
  import opened Releases
  import opened Bucket
  import opened Cleaning

  /** The steps; each is atomic. Whatever depends on the outside world is part of the event. */
  datatype Event =
    | BuildUploaded(build: Build)
    | ImagePromoted(id: Identifier, publishing: Publishing, provisional: string)
    | SetPromoted(q: Query, order: seq<Flavour>, flavourCount: nat, flavourSet: string, key: string)
    | LogsAttached(logName: string, data: seq<int>, built: seq<string>, setKey: string, flavours: seq<Flavour>, q: Query)
    | TestsReported(id: Identifier, result: string)
    | SinglesPurged(oldest: int)
    | SetsPurged(prefix: string, oldest: int)
    | OrphansSwept(prefix: string)

  /** What the methods of Bucket.Store and of Cleaning promise for each step. */
  ghost predicate Next(g: Graph, bucket: string, s: Docs, e: Event, t: Docs) {
    match e
    case BuildUploaded(b) => t == AfterUpload(g, bucket, s, b)
    case ImagePromoted(id, publishing, provisional) => t == AfterPromoteSingle(g, s, id, publishing, provisional)
    case SetPromoted(q, order, flavours, flavourSet, key) =>
      var found := Collect(Lookups(g, s, q, order));
      t == if found.Some? then AfterPromote(s, found.value, flavours, flavourSet, key) else s
    case LogsAttached(logName, data, built, setKey, flavours, q) =>
      var log := LogEntry(bucket, logName);
      var (singles, fine) := AfterSingleLogs(g, s[log.key := Blob(data)], built, log);
      if fine && SetLogsSucceed(g, singles, q, flavours, setKey) then AfterSetLogs(g, singles, q, flavours, log, setKey, t)
      else t == singles
    case TestsReported(id, result) => t == AfterTestResult(g, s, id, result)
    case SinglesPurged(oldest) => t == AfterPurgeSingles(s, oldest)
    case SetsPurged(prefix, oldest) => t == AfterPurgeSets(s, prefix, oldest)
    case OrphansSwept(prefix) => t == AfterSweep(bucket, s, prefix)
  }

  // ---- the invariant ----

  ghost predicate Present(bucket: string, docs: Docs, paths: seq<ReleaseFile>) {
    forall f :: f in paths ==> f.bucket == bucket && f.key in docs && docs[f.key].Blob?
  }

  ghost predicate DocOk(bucket: string, docs: Docs, k: string, d: Doc) {
    match d
    case Blob(_) => OBJECTS <= k
    case Single(m) => SINGLES <= k && Present(bucket, docs, m.paths)
    case Bundle(b) => SETS <= k && forall m :: m in b.manifests ==> Present(bucket, docs, m.paths)
    case Directory => !(SINGLES_PREFIX <= k)
  }

  /** Every path of every stored manifest, and of every manifest in a set, names a stored object. */
  ghost predicate Sane(bucket: string, docs: Docs) {
    forall k :: k in docs ==> DocOk(bucket, docs, k, docs[k])
  }

  lemma PrefixesApart(k: string)
    ensures !(OBJECTS <= k && SINGLES_PREFIX <= k) && !(OBJECTS <= k && SETS_PREFIX <= k)
    ensures !(SINGLES_PREFIX <= k && SETS_PREFIX <= k)
    ensures SINGLES <= k ==> SINGLES_PREFIX <= k
    ensures SETS <= k ==> SETS_PREFIX <= k
  {
    assert OBJECTS[0] == 'o' && SINGLES_PREFIX[0] == 'm' && SETS_PREFIX[0] == 'm';
    assert SINGLES_PREFIX[6] == 'i' && SETS_PREFIX[6] == 'e';
    assert SINGLES_PREFIX == SINGLES[..12] && SETS_PREFIX == SETS[..9];
  }

  /** A sane bucket can be listed and read by the clean-up jobs. */
  lemma SaneReadable(bucket: string, docs: Docs)
    requires Sane(bucket, docs)
    ensures Readable(docs)
  {
    forall k | k in docs
      ensures SINGLES_PREFIX <= k ==> docs[k].Single?
      ensures SETS_PREFIX <= k ==> docs[k].Bundle? || docs[k].Directory?
    {
      PrefixesApart(k);
      assert DocOk(bucket, docs, k, docs[k]);
    }
  }

  // ---- single writes ----

  lemma PutBlob(bucket: string, docs: Docs, k: string, data: seq<int>)
    requires Sane(bucket, docs) && OBJECTS <= k
    ensures Sane(bucket, docs[k := Blob(data)])
  {
    var t := docs[k := Blob(data)];
    forall j | j in t ensures DocOk(bucket, t, j, t[j]) {
      if j != k { assert DocOk(bucket, docs, j, docs[j]); }
    }
  }

  /** Manifests and sets are never stored over an object. */
  lemma PutManifest(bucket: string, docs: Docs, k: string, d: Doc)
    requires Sane(bucket, docs) && (d.Single? || d.Bundle?) && DocOk(bucket, docs, k, d)
    ensures Sane(bucket, docs[k := d])
  {
    var t := docs[k := d];
    PrefixesApart(k);
    assert k in docs ==> !docs[k].Blob? by {
      if k in docs { assert DocOk(bucket, docs, k, docs[k]); }
    }
    forall j | j in t ensures DocOk(bucket, t, j, t[j]) {
      if j != k { assert DocOk(bucket, docs, j, docs[j]); }
    }
  }

  lemma {:induction false} PutFilesSane(bucket: string, docs: Docs, files: seq<LocalFile>)
    requires Sane(bucket, docs)
    ensures Sane(bucket, PutFiles(docs, files))
    ensures forall f :: f in files ==> ObjectKey(f) in PutFiles(docs, files) && PutFiles(docs, files)[ObjectKey(f)].Blob?
  {
    if files != [] {
      PutFilesSane(bucket, docs, DropLast(files));
      PutBlob(bucket, PutFiles(docs, DropLast(files)), ObjectKey(Last(files)), Last(files).data);
      assert files == DropLast(files) + [Last(files)];
    }
  }

  lemma UploadSane(g: Graph, bucket: string, docs: Docs, b: Build)
    requires Sane(bucket, docs)
    ensures Sane(bucket, AfterUpload(g, bucket, docs, b))
  {
    var stored := PutFiles(docs, b.files);
    PutFilesSane(bucket, docs, b.files);
    var m := BuildManifest(bucket, b);
    forall f | f in m.paths ensures f.bucket == bucket && f.key in stored && stored[f.key].Blob? {
      var i :| 0 <= i < |m.paths| && m.paths[i] == f;
      assert b.files[i] in b.files;
    }
    if Publishes(b) && HasKey(g, b.id) {
      PutManifest(bucket, stored, ManifestKey(g, b.id), Single(m));
    }
  }

  /** A manifest that keeps the paths of a stored one may be written back. */
  lemma RewriteSane(g: Graph, bucket: string, docs: Docs, m: Manifest, n: Manifest)
    requires Sane(bucket, docs) && (exists k :: k in docs && docs[k] == Single(m))
    requires n.paths == m.paths && HasKey(g, n.id)
    ensures Sane(bucket, Rewritten(g, docs, n))
  {
    var k :| k in docs && docs[k] == Single(m);
    assert DocOk(bucket, docs, k, docs[k]);
    PutManifest(bucket, docs, ManifestKey(g, n.id), Single(n));
  }

  lemma PromoteSingleSane(g: Graph, bucket: string, docs: Docs, found: Lookup, publishing: Publishing, provisional: string)
    requires Sane(bucket, docs)
    requires found.Hit? ==> exists k :: k in docs && docs[k] == Single(found.manifest)
    ensures Sane(bucket, AfterPublishing(g, docs, found, publishing, provisional))
  {
    if found.Hit? && found.manifest.published.None? {
      var n := PromotedManifest(found.manifest, publishing, provisional);
      if n.Some? && HasKey(g, n.value.id) {
        RewriteSane(g, bucket, docs, found.manifest, n.value);
      }
    }
  }

  lemma TestResultSane(g: Graph, bucket: string, docs: Docs, id: Identifier, result: string)
    requires Sane(bucket, docs)
    ensures Sane(bucket, AfterTestResult(g, docs, id, result))
  {
    var found := FindRelease(g, docs, id);
    if found.Hit? && HasKey(g, found.manifest.id) {
      HitIsStored(g, docs, id);
      RewriteSane(g, bucket, docs, found.manifest, found.manifest.(testResult := Some(result)));
    }
  }

  lemma SetPromotedSane(
    g: Graph, bucket: string, docs: Docs, q: Query, order: seq<Flavour>, flavours: nat, flavourSet: string, key: string)
    requires Sane(bucket, docs) && Collect(Lookups(g, docs, q, order)).Some?
    ensures Sane(bucket, AfterPromote(docs, Collect(Lookups(g, docs, q, order)).value, flavours, flavourSet, key))
  {
    var releases := Collect(Lookups(g, docs, q, order)).value;
    CollectAtMostAll(Lookups(g, docs, q, order));
    forall m | m in releases ensures Present(bucket, docs, m.paths) {
      assert Hit(m) in Lookups(g, docs, q, order);
      var i :| 0 <= i < |order| && FindRelease(g, docs, SearchedId(q, order[i])) == Hit(m);
      HitIsStored(g, docs, SearchedId(q, order[i]));
      var k :| k in docs && docs[k] == Single(m);
      assert DocOk(bucket, docs, k, docs[k]);
    }
    if |releases| == flavours {
      PutManifest(bucket, docs, SETS + key, Bundle(ManifestSet(releases, flavourSet, [])));
    }
  }

  lemma {:induction false} SingleLogsSane(g: Graph, bucket: string, docs: Docs, keys: seq<string>, log: ReleaseFile)
    requires Sane(bucket, docs)
    ensures Sane(bucket, AfterSingleLogs(g, docs, keys, log).0)
  {
    if keys != [] {
      SingleLogsSane(g, bucket, docs, DropLast(keys), log);
      var (d, ok) := AfterSingleLogs(g, docs, DropLast(keys), log);
      var key := Last(keys);
      if ok && !Blank(key) && key in d && d[key].Single? && HasKey(g, d[key].manifest.id) {
        RewriteSane(g, bucket, d, d[key].manifest, d[key].manifest.(logs := Some(log)));
      }
    }
  }

  lemma SetLogsSane(
    g: Graph, bucket: string, docs: Docs, q: Query, flavours: seq<Flavour>, log: ReleaseFile, setKey: string, t: Docs)
    requires Sane(bucket, docs) && AfterSetLogs(g, docs, q, flavours, log, setKey, t)
    ensures Sane(bucket, t)
  {
    if setKey in docs && docs[setKey].Bundle? {
      assert DocOk(bucket, docs, setKey, docs[setKey]);
      var added :| t == docs[setKey := WithLogs(docs[setKey], added)];
      PutManifest(bucket, docs, setKey, WithLogs(docs[setKey], added));
    }
  }

  // ---- deletions ----

  /** Deleting manifests, or objects that no remaining manifest names, is safe. */
  lemma RemoveSane(bucket: string, docs: Docs, t: Docs)
    requires Sane(bucket, docs)
    requires forall k :: k in t ==> k in docs && t[k] == docs[k]
    requires forall k, key :: k in t && key in KeysNamedBy(bucket, k, t[k]) && key in docs && docs[key].Blob? ==> key in t
    ensures Sane(bucket, t)
  {
    forall k | k in t ensures DocOk(bucket, t, k, t[k]) {
      assert DocOk(bucket, docs, k, docs[k]);
      PrefixesApart(k);
      forall f: ReleaseFile, paths: seq<ReleaseFile> | f in paths && PathsOf(t[k], paths)
        ensures f.bucket == bucket && f.key in t && t[f.key].Blob?
      {
        assert Present(bucket, docs, paths);
        assert f.key in PathKeys(bucket, paths);
        assert f.key in KeysNamedBy(bucket, k, t[k]);
      }
    }
  }

  ghost predicate PathsOf(d: Doc, paths: seq<ReleaseFile>) {
    match d
    case Single(m) => paths == m.paths
    case Bundle(b) => exists m :: m in b.manifests && paths == m.paths
    case _ => false
  }

  /** The sweep spares what any manifest names, however many manifests share an object. */
  lemma SweepSane(bucket: string, docs: Docs, prefix: string)
    requires Sane(bucket, docs)
    ensures Sane(bucket, AfterSweep(bucket, docs, prefix))
  {
    RemoveSane(bucket, docs, AfterSweep(bucket, docs, prefix));
  }

  lemma PurgeSane(bucket: string, docs: Docs, t: Docs)
    requires Sane(bucket, docs)
    requires forall k :: k in t ==> k in docs && t[k] == docs[k]
    requires forall k :: k in docs && docs[k].Blob? ==> k in t
    ensures Sane(bucket, t)
  {
    RemoveSane(bucket, docs, t);
  }

  // ---- runs ----

  /** Every step keeps the invariant. */
  lemma NextKeepsSane(g: Graph, bucket: string, s: Docs, e: Event, t: Docs)
    requires Sane(bucket, s) && Next(g, bucket, s, e, t)
    ensures Sane(bucket, t)
  {
    match e {
      case BuildUploaded(b) => UploadSane(g, bucket, s, b);
      case ImagePromoted(id, publishing, provisional) =>
        if Normalises(g, id) {
          var found := FindRelease(g, s, Normalised(g, id));
          if found.Hit? { HitIsStored(g, s, Normalised(g, id)); }
          PromoteSingleSane(g, bucket, s, found, publishing, provisional);
        }
      case SetPromoted(q, order, flavours, flavourSet, key) =>
        if Collect(Lookups(g, s, q, order)).Some? {
          SetPromotedSane(g, bucket, s, q, order, flavours, flavourSet, key);
        }
      case LogsAttached(logName, data, built, setKey, flavours, q) =>
        var log := LogEntry(bucket, logName);
        PutBlob(bucket, s, log.key, data);
        SingleLogsSane(g, bucket, s[log.key := Blob(data)], built, log);
        var (singles, fine) := AfterSingleLogs(g, s[log.key := Blob(data)], built, log);
        if t != singles {
          SetLogsSane(g, bucket, singles, q, flavours, log, setKey, t);
        }
      case TestsReported(id, result) => TestResultSane(g, bucket, s, id, result);
      case SinglesPurged(oldest) => PurgeSane(bucket, s, t);
      case SetsPurged(prefix, oldest) => PurgeSane(bucket, s, t);
      case OrphansSwept(prefix) => SweepSane(bucket, s, prefix);
    }
  }

  ghost predicate IsRun(g: Graph, bucket: string, states: seq<Docs>, events: seq<Event>) {
    && |states| == |events| + 1
    && forall i :: 0 <= i < |events| ==> Next(g, bucket, states[i], events[i], states[i + 1])
  }

  /**
   At every point of every run from a sane bucket, say the empty one, each entry in the paths of
   each stored manifest, and of each manifest in a stored set, names an object that exists.
   */
  lemma {:induction false} RunsAreSafe(g: Graph, bucket: string, states: seq<Docs>, events: seq<Event>, i: nat)
    requires IsRun(g, bucket, states, events) && i < |states| && Sane(bucket, states[0])
    ensures Sane(bucket, states[i]) && Readable(states[i])
  {
    if i > 0 {
      RunsAreSafe(g, bucket, states, events, i - 1);
      NextKeepsSane(g, bucket, states[i - 1], events[i - 1], states[i - 1 + 1]);
    }
    SaneReadable(bucket, states[i]);
  }

  // ---- the methods take these steps ----

  /** What a script or a clean-up job is started with. */
  datatype Job =
    | UploadBuild(build: Build)
    | PromoteImage(id: Identifier, publishing: Publishing, provisional: string)
    | PromoteSet(combinations: seq<Combination>, flavourSet: string, q: Query, key: string)
    | AttachLog(logName: string, data: seq<int>, built: seq<string>, setKey: string, flavours: seq<Flavour>, q: Query)
    | ReportTests(id: Identifier, result: string)
    | PurgeSingles(oldest: int, dryRun: bool)
    | PurgeSets(prefix: string, oldest: int, dryRun: bool)
    | SweepOrphans(prefix: string, dryRun: bool)

  /**
   The step a job amounts to: a set is promoted exactly if it is complete, a sweep happens exactly if
   all manifests can be read; dry runs, and names that are no platform, are no step. A purge goes as far as it can read.
   */
  ghost predicate Amounts(fs: Descriptors, docs: Docs, job: Job, e: Option<Event>) {
    match job
    case UploadBuild(b) => e == Some(BuildUploaded(b))
    case PromoteImage(id, publishing, provisional) =>
      e == if IsPlatformName(fs, id.platform) then Some(ImagePromoted(id, publishing, provisional)) else None
    case PromoteSet(cs, flavourSet, q, key) =>
      && (e.Some? <==> FlavoursBuild(fs, Declared(cs)) && Complete(IncludeLists(fs), docs, q, Declared(cs)))
      && (e.Some? ==> e.value.SetPromoted? && Visits(IncludeLists(fs), Declared(cs), e.value.order)
                      && e.value == SetPromoted(q, e.value.order, |Declared(cs)|, flavourSet, key))
    case AttachLog(logName, data, built, setKey, flavours, q) =>
      e == Some(LogsAttached(logName, data, built, setKey, flavours, q))
    case ReportTests(id, result) => e == Some(TestsReported(id, result))
    case PurgeSingles(oldest, dryRun) => e == if dryRun then None else Some(SinglesPurged(oldest))
    case PurgeSets(prefix, oldest, dryRun) => e == if dryRun then None else Some(SetsPurged(prefix, oldest))
    case SweepOrphans(prefix, dryRun) => e == if dryRun || !Readable(docs) then None else Some(OrphansSwept(prefix))
  }

  /** Whatever is run, the bucket takes a step of the state machine or stays as it is, and stays sane. */
  method Perform(store: Store, fs: Descriptors, job: Job) returns (ghost e: Option<Event>)
    modifies store`docs
    ensures Amounts(fs, old(store.docs), job, e)
    ensures if e.Some? then Next(IncludeLists(fs), store.name, old(store.docs), e.value, store.docs)
            else store.docs == old(store.docs)
    ensures Sane(store.name, old(store.docs)) ==> Sane(store.name, store.docs)
  {
    ghost var s := store.docs;
    match job {
      case UploadBuild(b) =>
        var _ := store.UploadResults(fs, b);
        e := Some(BuildUploaded(b));
      case PromoteImage(id, publishing, provisional) =>
        store.PromoteSingle(fs, id, publishing, provisional);
        e := if IsPlatformName(fs, id.platform) then Some(ImagePromoted(id, publishing, provisional)) else None;
      case PromoteSet(combinations, flavourSet, q, key) =>
        var ok, order := store.Promote(fs, combinations, flavourSet, q, key);
        e := if ok then Some(SetPromoted(q, order, |Declared(combinations)|, flavourSet, key)) else None;
      case AttachLog(logName, data, built, setKey, flavours, q) =>
        var _ := store.AttachLogs(fs, logName, data, built, setKey, flavours, q);
        e := Some(LogsAttached(logName, data, built, setKey, flavours, q));
      case ReportTests(id, result) =>
        store.UploadTestResults(fs, id, result);
        e := Some(TestsReported(id, result));
      case PurgeSingles(oldest, dryRun) =>
        var _ := CleanSingleReleaseManifests(store, oldest, dryRun);
        e := if !dryRun then Some(SinglesPurged(oldest)) else None;
      case PurgeSets(prefix, oldest, dryRun) =>
        var _ := CleanReleaseManifestSets(store, prefix, oldest, dryRun);
        e := if !dryRun then Some(SetsPurged(prefix, oldest)) else None;
      case SweepOrphans(prefix, dryRun) =>
        var ok := CleanOrphanedObjects(store, prefix, dryRun);
        e := if ok && !dryRun then Some(OrphansSwept(prefix)) else None;
    }
    if e.Some? && Sane(store.name, s) {
      NextKeepsSane(IncludeLists(fs), store.name, s, e.value, store.docs);
    }
  }

  // ---- what is lost, and when ----

  lemma {:induction false} PutFilesKeeps(docs: Docs, files: seq<LocalFile>)
    ensures docs.Keys <= PutFiles(docs, files).Keys
  {
    if files != [] {
      PutFilesKeeps(docs, DropLast(files));
    }
  }

  lemma {:induction false} SingleLogsKeep(g: Graph, docs: Docs, keys: seq<string>, log: ReleaseFile)
    ensures docs.Keys <= AfterSingleLogs(g, docs, keys, log).0.Keys
  {
    if keys != [] {
      SingleLogsKeep(g, docs, DropLast(keys), log);
    }
  }

  /** An object is lost only to a sweep, and only while no manifest and no set names it. */
  lemma ObjectsLostOnlyUnnamed(g: Graph, bucket: string, s: Docs, e: Event, t: Docs, k: string)
    requires Next(g, bucket, s, e, t) && k in s && s[k].Blob? && k !in t
    ensures e.OrphansSwept? && e.prefix <= k && k !in Referenced(bucket, s)
  {
    match e {
      case BuildUploaded(b) => PutFilesKeeps(s, b.files);
      case LogsAttached(logName, data, built, setKey, flavours, q) =>
        var log := LogEntry(bucket, logName);
        SingleLogsKeep(g, s[log.key := Blob(data)], built, log);
      case _ =>
    }
  }

  /** So a log file that a stored set names stays as long as the set is stored. */
  lemma SetLogsStay(g: Graph, bucket: string, s: Docs, e: Event, t: Docs, k: string, f: ReleaseFile)
    requires Next(g, bucket, s, e, t) && Sane(bucket, s)
    requires k in s && s[k].Bundle? && f in s[k].bundle.logs && f.bucket == bucket
    requires f.key in s && s[f.key].Blob?
    ensures f.key in t
  {
    assert DocOk(bucket, s, k, s[k]);
    PrefixesApart(k);
    assert f.key in PathKeys(bucket, s[k].bundle.logs);
    assert f.key in KeysNamedBy(bucket, k, s[k]);
    if f.key !in t {
      ObjectsLostOnlyUnnamed(g, bucket, s, e, t, f.key);
    }
  }

  /** After a sweep of the objects, exactly the named ones among them are left, and a second sweep finds nothing. */
  lemma SweepLeavesNamed(bucket: string, s: Docs)
    requires Sane(bucket, s)
    ensures var t := AfterSweep(bucket, s, "objects");
            && Referenced(bucket, t) == Referenced(bucket, s)
            && (forall k :: k in s && s[k].Blob? ==> (k in t <==> k in Referenced(bucket, t)))
            && AfterSweep(bucket, t, "objects") == t
  {
    var t := AfterSweep(bucket, s, "objects");
    forall k | k in s && (s[k].Single? || s[k].Bundle?) ensures k in t {
      assert DocOk(bucket, s, k, s[k]);
      assert SINGLES[0] == 'm' && SETS[0] == 'm' && "objects"[0] == 'o';
    }
    forall k, key | k in s && key in KeysNamedBy(bucket, k, s[k]) ensures key in Referenced(bucket, t) {
      assert k in t && key in KeysNamedBy(bucket, k, t[k]);
    }
    forall k | k in s && s[k].Blob? ensures k in t <==> k in Referenced(bucket, t) {
      assert DocOk(bucket, s, k, s[k]);
      assert OBJECTS[..7] == "objects";
    }
  }
}
