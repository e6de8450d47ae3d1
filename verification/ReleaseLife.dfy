/** The life of a release: who finds it after its upload, and what the steps do to it. */
module ReleaseLife {
  import opened Lists
  import opened TextOrder
  import opened FeatureErrors
  import opened IncludeGraph
  import opened FeatureModel
  import opened Releases
  import opened Bucket
  import opened StoreSafety

  // ---- manifests sit at their own keys ----

  ghost predicate AtOwnKey(g: Graph, k: string, d: Doc) {
    d.Single? ==> HasKey(g, d.manifest.id) && k == ManifestKey(g, d.manifest.id)
  }

  ghost predicate OwnKeys(g: Graph, docs: Docs) {
    forall k :: k in docs ==> AtOwnKey(g, k, docs[k])
  }

  /** The same build: only publication, test result and logs were added, and no publication was replaced. */
  ghost predicate SameBuild(m: Manifest, n: Manifest) {
    && n == m.(published := n.published, testResult := n.testResult, logs := n.logs)
    && (m.published.Some? ==> n.published == m.published)
  }

  ghost predicate Kept(s: Docs, t: Docs, k: string)
    requires k in s && s[k].Single?
  {
    k in t && t[k].Single? && SameBuild(s[k].manifest, t[k].manifest)
  }

  ghost predicate AllKept(s: Docs, t: Docs) {
    forall k :: k in s && s[k].Single? ==> Kept(s, t, k)
  }

  lemma KeptTransitive(s: Docs, t: Docs, u: Docs)
    requires AllKept(s, t) && AllKept(t, u)
    ensures AllKept(s, u)
  {
    forall k | k in s && s[k].Single? ensures Kept(s, u, k) {
      assert Kept(s, t, k) && Kept(t, u, k);
    }
  }

  /** Writing a found manifest back hits the key it was read from. */
  lemma RewrittenInPlace(g: Graph, docs: Docs, k: string, n: Manifest)
    requires OwnKeys(g, docs) && k in docs && docs[k].Single? && SameBuild(docs[k].manifest, n)
    ensures HasKey(g, n.id) && Rewritten(g, docs, n) == docs[k := Single(n)]
    ensures OwnKeys(g, Rewritten(g, docs, n)) && AllKept(docs, Rewritten(g, docs, n))
  {
    assert AtOwnKey(g, k, docs[k]);
  }

  lemma PutOther(g: Graph, docs: Docs, k: string, d: Doc)
    requires OwnKeys(g, docs) && !d.Single? && (k in docs ==> !docs[k].Single?)
    ensures OwnKeys(g, docs[k := d]) && AllKept(docs, docs[k := d])
  {
    var t := docs[k := d];
    forall j | j in t ensures AtOwnKey(g, j, t[j]) {
      if j != k { assert AtOwnKey(g, j, docs[j]); }
    }
  }

  lemma NotSingle(bucket: string, docs: Docs, k: string)
    requires Sane(bucket, docs) && (OBJECTS <= k || SETS <= k)
    ensures k in docs ==> !docs[k].Single?
  {
    PrefixesApart(k);
    if k in docs {
      assert DocOk(bucket, docs, k, docs[k]);
    }
  }

  lemma {:induction false} FilesKeepReleases(g: Graph, bucket: string, docs: Docs, files: seq<LocalFile>)
    requires Sane(bucket, docs) && OwnKeys(g, docs)
    ensures OwnKeys(g, PutFiles(docs, files)) && AllKept(docs, PutFiles(docs, files))
  {
    if files != [] {
      var front := PutFiles(docs, DropLast(files));
      FilesKeepReleases(g, bucket, docs, DropLast(files));
      PutFilesSane(bucket, docs, DropLast(files));
      NotSingle(bucket, front, ObjectKey(Last(files)));
      PutOther(g, front, ObjectKey(Last(files)), Blob(Last(files).data));
      KeptTransitive(docs, front, PutFiles(docs, files));
    }
  }

  lemma {:induction false} SingleLogsKeepReleases(g: Graph, docs: Docs, keys: seq<string>, log: ReleaseFile)
    requires OwnKeys(g, docs)
    ensures var t := AfterSingleLogs(g, docs, keys, log).0; OwnKeys(g, t) && AllKept(docs, t)
  {
    if keys != [] {
      SingleLogsKeepReleases(g, docs, DropLast(keys), log);
      var (d, ok) := AfterSingleLogs(g, docs, DropLast(keys), log);
      var key := Last(keys);
      if ok && !Blank(key) && key in d && d[key].Single? && HasKey(g, d[key].manifest.id) {
        var n := d[key].manifest.(logs := Some(log));
        RewrittenInPlace(g, d, key, n);
        KeptTransitive(docs, d, Rewritten(g, d, n));
      }
    }
  }

  /** The steps after which the manifest at `k` cannot be expected to be there as it was. */
  ghost predicate Endangers(g: Graph, e: Event, k: string, timestamp: int) {
    match e
    case BuildUploaded(b) => Publishes(b) && HasKey(g, b.id) && ManifestKey(g, b.id) == k
    case SinglesPurged(oldest) => timestamp < oldest
    case OrphansSwept(prefix) => prefix <= k
    case _ => false
  }

  ghost predicate UnendangeredKept(g: Graph, s: Docs, e: Event, t: Docs) {
    forall k :: k in s && s[k].Single? && !Endangers(g, e, k, s[k].manifest.timestamp) ==> Kept(s, t, k)
  }

  lemma UploadKeepsReleases(g: Graph, bucket: string, s: Docs, b: Build)
    requires Sane(bucket, s) && OwnKeys(g, s)
    ensures OwnKeys(g, AfterUpload(g, bucket, s, b))
    ensures UnendangeredKept(g, s, BuildUploaded(b), AfterUpload(g, bucket, s, b))
  {
    FilesKeepReleases(g, bucket, s, b.files);
    var stored, t := PutFiles(s, b.files), AfterUpload(g, bucket, s, b);
    forall k | k in t ensures AtOwnKey(g, k, t[k]) {
      if k in stored { assert AtOwnKey(g, k, stored[k]); }
    }
    forall k | k in s && s[k].Single? && !Endangers(g, BuildUploaded(b), k, s[k].manifest.timestamp) ensures Kept(s, t, k) {
      assert Kept(s, stored, k);
    }
  }

  lemma FoundAtKey(g: Graph, docs: Docs, id: Identifier)
    requires FindRelease(g, docs, id).Hit?
    ensures ManifestKey(g, id) in docs && docs[ManifestKey(g, id)] == Single(FindRelease(g, docs, id).manifest)
  {
  }

  lemma PromotedIsSameBuild(m: Manifest, publishing: Publishing, provisional: string)
    requires m.published.None? && PromotedManifest(m, publishing, provisional).Some?
    ensures SameBuild(m, PromotedManifest(m, publishing, provisional).value)
  {
  }

  lemma PublishingFoundKeeps(g: Graph, s: Docs, k: string, found: Lookup, publishing: Publishing, provisional: string)
    requires OwnKeys(g, s) && (found.Hit? ==> k in s && s[k] == Single(found.manifest))
    ensures var t := AfterPublishing(g, s, found, publishing, provisional); OwnKeys(g, t) && AllKept(s, t)
  {
    if found.Hit? && found.manifest.published.None? && PromotedManifest(found.manifest, publishing, provisional).Some? {
      var n := PromotedManifest(found.manifest, publishing, provisional).value;
      PromotedIsSameBuild(found.manifest, publishing, provisional);
      RewrittenInPlace(g, s, k, n);
      assert AfterPublishing(g, s, found, publishing, provisional) == Rewritten(g, s, n);
    } else {
      assert AfterPublishing(g, s, found, publishing, provisional) == s;
    }
  }

  lemma PublishingKeepsReleases(g: Graph, s: Docs, id: Identifier, publishing: Publishing, provisional: string)
    requires OwnKeys(g, s)
    ensures var t := AfterPublishing(g, s, FindRelease(g, s, id), publishing, provisional); OwnKeys(g, t) && AllKept(s, t)
  {
    if FindRelease(g, s, id).Hit? {
      FoundAtKey(g, s, id);
    }
    PublishingFoundKeeps(g, s, ManifestKey(g, id), FindRelease(g, s, id), publishing, provisional);
  }

  lemma TestResultKeepsReleases(g: Graph, s: Docs, id: Identifier, result: string)
    requires OwnKeys(g, s)
    ensures var t := AfterTestResult(g, s, id, result); OwnKeys(g, t) && AllKept(s, t)
  {
    var found := FindRelease(g, s, id);
    if found.Hit? {
      RewrittenInPlace(g, s, ManifestKey(g, id), found.manifest.(testResult := Some(result)));
    }
  }

  lemma LogsKeepReleases(g: Graph, bucket: string, s: Docs, e: Event, t: Docs)
    requires Sane(bucket, s) && OwnKeys(g, s) && e.LogsAttached? && Next(g, bucket, s, e, t)
    ensures OwnKeys(g, t) && AllKept(s, t)
  {
    var log := LogEntry(bucket, e.logName);
    var stored := s[log.key := Blob(e.data)];
    NotSingle(bucket, s, log.key);
    PutOther(g, s, log.key, Blob(e.data));
    SingleLogsKeepReleases(g, stored, e.built, log);
    var singles := AfterSingleLogs(g, stored, e.built, log).0;
    KeptTransitive(s, stored, singles);
    if t != singles {
      var added :| t == singles[e.setKey := WithLogs(singles[e.setKey], added)];
      PutOther(g, singles, e.setKey, WithLogs(singles[e.setKey], added));
      KeptTransitive(s, singles, t);
    }
  }

  /**
   Every step leaves each single manifest at its own key, and a manifest changes only by what
   is added to it, unless it is overwritten by an upload to its key, too old, or swept by prefix.
   */
  lemma NextKeepsReleases(g: Graph, bucket: string, s: Docs, e: Event, t: Docs)
    requires Sane(bucket, s) && OwnKeys(g, s) && Next(g, bucket, s, e, t)
    ensures OwnKeys(g, t) && UnendangeredKept(g, s, e, t)
  {
    match e {
      case BuildUploaded(b) => UploadKeepsReleases(g, bucket, s, b);
      case ImagePromoted(id, publishing, provisional) =>
        if Normalises(g, id) {
          PublishingKeepsReleases(g, s, Normalised(g, id), publishing, provisional);
        }
      case SetPromoted(q, order, flavours, flavourSet, key) =>
        NotSingle(bucket, s, SETS + key);
        if t != s {
          PutOther(g, s, SETS + key, t[SETS + key]);
        }
      case LogsAttached(_, _, _, _, _, _) => LogsKeepReleases(g, bucket, s, e, t);
      case TestsReported(id, result) => TestResultKeepsReleases(g, s, id, result);
      case _ => RemovalKeepsReleases(g, bucket, s, e, t);
    }
  }

  lemma RemovalKeepsReleases(g: Graph, bucket: string, s: Docs, e: Event, t: Docs)
    requires OwnKeys(g, s) && (e.SinglesPurged? || e.SetsPurged? || e.OrphansSwept?) && Next(g, bucket, s, e, t)
    ensures OwnKeys(g, t) && UnendangeredKept(g, s, e, t)
  {
    forall k | k in t ensures AtOwnKey(g, k, t[k]) {
      assert AtOwnKey(g, k, s[k]);
    }
  }

  // ---- what the objects hold ----

  ghost predicate Holds(docs: Docs, f: LocalFile) {
    ObjectKey(f) in docs && docs[ObjectKey(f)] == Blob(f.data)
  }

  /** The step writes nothing else under the name of the file; with honest digests, none does. */
  ghost predicate Respects(e: Event, f: LocalFile) {
    match e
    case BuildUploaded(b) => forall h :: h in b.files && h.digest == f.digest ==> h.data == f.data
    case LogsAttached(logName, data, _, _, _, _) => logName == f.digest ==> data == f.data
    case _ => true
  }

  lemma {:induction false} FilesHold(docs: Docs, files: seq<LocalFile>, f: LocalFile)
    requires forall h :: h in files && h.digest == f.digest ==> h.data == f.data
    requires f in files || Holds(docs, f)
    ensures Holds(PutFiles(docs, files), f)
  {
    if files != [] {
      var h := Last(files);
      assert files == DropLast(files) + [h];
      if h.digest != f.digest {
        assert ObjectKey(h)[|OBJECTS|..] == h.digest && ObjectKey(f)[|OBJECTS|..] == f.digest;
        FilesHold(docs, DropLast(files), f);
      }
    }
  }

  lemma {:induction false} SingleLogsHold(g: Graph, docs: Docs, keys: seq<string>, log: ReleaseFile, f: LocalFile)
    requires Holds(docs, f)
    ensures Holds(AfterSingleLogs(g, docs, keys, log).0, f)
  {
    if keys != [] {
      SingleLogsHold(g, docs, DropLast(keys), log, f);
      PrefixesApart(ObjectKey(f));
    }
  }

  lemma LogStepHolds(g: Graph, s: Docs, log: ReleaseFile, data: seq<int>, built: seq<string>, f: LocalFile)
    requires Holds(s, f) && log.key == OBJECTS + log.name && (log.name == f.digest ==> data == f.data)
    ensures Holds(AfterSingleLogs(g, s[log.key := Blob(data)], built, log).0, f)
  {
    assert log.key[|OBJECTS|..] == log.name && ObjectKey(f)[|OBJECTS|..] == f.digest;
    SingleLogsHold(g, s[log.key := Blob(data)], built, log, f);
  }

  lemma LogsHold(g: Graph, bucket: string, s: Docs, e: Event, t: Docs, f: LocalFile)
    requires e.LogsAttached? && Next(g, bucket, s, e, t) && Holds(s, f) && Respects(e, f)
    ensures Holds(t, f)
  {
    var log := LogEntry(bucket, e.logName);
    LogStepHolds(g, s, log, e.data, e.built, f);
    var singles := AfterSingleLogs(g, s[log.key := Blob(e.data)], e.built, log).0;
    if t != singles {
      var added :| t == singles[e.setKey := WithLogs(singles[e.setKey], added)];
    }
  }

  /** A manifest is never written over an object. */
  lemma RewriteHolds(g: Graph, docs: Docs, n: Manifest, f: LocalFile)
    requires HasKey(g, n.id) && Holds(docs, f)
    ensures Holds(Rewritten(g, docs, n), f)
  {
    PrefixesApart(ObjectKey(f));
  }

  lemma PublishingHolds(g: Graph, s: Docs, found: Lookup, publishing: Publishing, provisional: string, f: LocalFile)
    requires Holds(s, f)
    ensures Holds(AfterPublishing(g, s, found, publishing, provisional), f)
  {
    if found.Hit? {
      var n := PromotedManifest(found.manifest, publishing, provisional);
      if n.Some? && HasKey(g, n.value.id) {
        RewriteHolds(g, s, n.value, f);
      }
    }
  }

  lemma TestResultHolds(g: Graph, s: Docs, id: Identifier, result: string, f: LocalFile)
    requires Holds(s, f)
    ensures Holds(AfterTestResult(g, s, id, result), f)
  {
    var found := FindRelease(g, s, id);
    if found.Hit? && HasKey(g, found.manifest.id) {
      RewriteHolds(g, s, found.manifest.(testResult := Some(result)), f);
    }
  }

  lemma UploadHolds(g: Graph, bucket: string, s: Docs, b: Build, f: LocalFile)
    requires Holds(s, f) && Respects(BuildUploaded(b), f)
    ensures Holds(AfterUpload(g, bucket, s, b), f)
  {
    FilesHold(s, b.files, f);
    PrefixesApart(ObjectKey(f));
  }

  /** A stored file keeps its content under every respectful step that does not remove it. */
  lemma NextHolds(g: Graph, bucket: string, s: Docs, e: Event, t: Docs, f: LocalFile)
    requires Next(g, bucket, s, e, t) && Holds(s, f) && Respects(e, f)
    ensures ObjectKey(f) in t ==> Holds(t, f)
  {
    match e {
      case BuildUploaded(b) => UploadHolds(g, bucket, s, b, f);
      case ImagePromoted(id, publishing, provisional) =>
        PublishingHolds(g, s, FindRelease(g, s, Normalised(g, id)), publishing, provisional, f);
      case SetPromoted(_, _, _, _, _) => PrefixesApart(ObjectKey(f));
      case LogsAttached(_, _, _, _, _, _) => LogsHold(g, bucket, s, e, t, f);
      case TestsReported(id, result) => TestResultHolds(g, s, id, result, f);
      case _ =>
    }
  }

  // ---- an uploaded build over a run ----

  /** The build's manifest is at its key, perhaps with something added, and its files are stored. */
  ghost predicate Alive(g: Graph, bucket: string, docs: Docs, b: Build) {
    var k := ManifestKey(g, b.id);
    && k in docs && docs[k].Single? && SameBuild(BuildManifest(bucket, b), docs[k].manifest)
    && forall f :: f in b.files ==> Holds(docs, f)
  }

  ghost predicate Spares(g: Graph, e: Event, b: Build) {
    && !Endangers(g, e, ManifestKey(g, b.id), b.timestamp)
    && forall f :: f in b.files ==> Respects(e, f)
  }

  ghost predicate DigestsAgree(b: Build) {
    forall f :: f in b.files ==> Respects(BuildUploaded(b), f)
  }

  lemma UploadedIsAlive(g: Graph, bucket: string, s: Docs, b: Build)
    requires Publishes(b) && HasKey(g, b.id) && DigestsAgree(b)
    ensures Alive(g, bucket, AfterUpload(g, bucket, s, b), b)
  {
    forall f | f in b.files ensures Holds(AfterUpload(g, bucket, s, b), f) {
      assert Respects(BuildUploaded(b), f);
      FilesHold(s, b.files, f);
      PrefixesApart(ObjectKey(f));
    }
  }

  lemma AliveFileNamed(g: Graph, bucket: string, s: Docs, b: Build, f: LocalFile)
    requires Alive(g, bucket, s, b) && f in b.files
    ensures ObjectKey(f) in Referenced(bucket, s)
  {
    var k := ManifestKey(g, b.id);
    PrefixesApart(k);
    var i :| 0 <= i < |b.files| && b.files[i] == f;
    var p := s[k].manifest.paths[i];
    assert p in s[k].manifest.paths && p.bucket == bucket && p.key == ObjectKey(f);
    assert ObjectKey(f) in KeysNamedBy(bucket, k, s[k]);
  }

  lemma AliveStep(g: Graph, bucket: string, s: Docs, e: Event, t: Docs, b: Build)
    requires Sane(bucket, s) && OwnKeys(g, s) && Next(g, bucket, s, e, t)
    requires Alive(g, bucket, s, b) && Spares(g, e, b)
    ensures Alive(g, bucket, t, b)
  {
    var k := ManifestKey(g, b.id);
    NextKeepsReleases(g, bucket, s, e, t);
    assert Kept(s, t, k);
    forall f | f in b.files ensures Holds(t, f) {
      NextHolds(g, bucket, s, e, t, f);
      if ObjectKey(f) !in t {
        AliveFileNamed(g, bucket, s, b, f);
        ObjectsLostOnlyUnnamed(g, bucket, s, e, t, ObjectKey(f));
      }
    }
  }

  /** Once uploaded, a build stays alive over every run of steps that spare it. */
  lemma {:induction false} AliveOverRuns(g: Graph, bucket: string, states: seq<Docs>, events: seq<Event>, b: Build, i: nat)
    requires IsRun(g, bucket, states, events) && Sane(bucket, states[0]) && OwnKeys(g, states[0])
    requires 1 <= i < |states| && events[0] == BuildUploaded(b) && Publishes(b) && HasKey(g, b.id) && DigestsAgree(b)
    requires forall j :: 1 <= j < i ==> Spares(g, events[j], b)
    ensures OwnKeys(g, states[i]) && Alive(g, bucket, states[i], b)
  {
    RunsAreSafe(g, bucket, states, events, i - 1);
    assert Next(g, bucket, states[i - 1], events[i - 1], states[i - 1 + 1]);
    if i == 1 {
      UploadedIsAlive(g, bucket, states[0], b);
    } else {
      AliveOverRuns(g, bucket, states, events, b, i - 1);
      AliveStep(g, bucket, states[i - 1], events[i - 1], states[i], b);
    }
    NextKeepsReleases(g, bucket, states[i - 1], events[i - 1], states[i]);
  }

  // ---- who finds it ----

  /** Another way of writing the identifier of the same image. */
  ghost predicate Spells(g: Graph, id: Identifier, of: Identifier) {
    Normalises(g, id) && Normalised(g, id) == Normalised(g, of)
  }

  ghost predicate SameCanonicalSet(g: Graph, id: Identifier, other: Identifier) {
    CanonicalSet(g, Elems(id.modifiers)) == CanonicalSet(g, Elems(other.modifiers))
  }

  lemma NormalisesHasKey(g: Graph, id: Identifier)
    requires Normalises(g, id)
    ensures HasKey(g, id) && Usable(g, Elems(id.modifiers))
  {
    assert id.platform in Elems(id.modifiers) + {id.platform};
  }

  lemma SpellingSameImage(g: Graph, id: Identifier, of: Identifier)
    requires Spells(g, id, of)
    ensures id == of.(modifiers := id.modifiers) && Usable(g, Elems(id.modifiers))
    ensures NormalSet(g, of.platform, Elems(id.modifiers)) == NormalSet(g, of.platform, Elems(of.modifiers))
  {
    NormalisesHasKey(g, id);
    assert Normalised(g, id).(modifiers := []) == id.(modifiers := []);
    assert Normalised(g, of).(modifiers := []) == of.(modifiers := []);
    NormalTupleMembers(g, id.platform, id.modifiers);
    NormalTupleMembers(g, of.platform, of.modifiers);
  }

  /** The search returns the build, perhaps with something added to its manifest. */
  ghost predicate Finds(g: Graph, bucket: string, docs: Docs, id: Identifier, b: Build) {
    FindRelease(g, docs, id).Hit? && SameBuild(BuildManifest(bucket, b), FindRelease(g, docs, id).manifest)
  }

  /** A living build is found under every spelling with the same canonical set, and is the build. */
  lemma AliveIsFound(g: Graph, bucket: string, docs: Docs, b: Build, id: Identifier)
    requires Normalises(g, b.id) && Spells(g, id, b.id) && SameCanonicalSet(g, id, b.id)
    requires Alive(g, bucket, docs, b)
    ensures Finds(g, bucket, docs, id, b)
  {
    NormalisesHasKey(g, id);
    SpellingSameImage(g, id, b.id);
    assert ManifestKey(g, id) == ManifestKey(g, b.id);
  }

  /** The found manifest describes the build, and every path leads to the bytes that were uploaded. */
  ghost predicate Serves(g: Graph, bucket: string, docs: Docs, id: Identifier, b: Build) {
    var found := FindRelease(g, docs, id);
    && Finds(g, bucket, docs, id, b)
    && |found.manifest.paths| == |b.files|
    && forall i :: 0 <= i < |b.files| ==>
         var p := found.manifest.paths[i];
         p.bucket == bucket && p.suffix == b.files[i].name && p.key in docs && docs[p.key] == Blob(b.files[i].data)
  }

  lemma AliveServes(g: Graph, bucket: string, docs: Docs, b: Build, id: Identifier)
    requires Normalises(g, b.id) && Spells(g, id, b.id) && SameCanonicalSet(g, id, b.id)
    requires Alive(g, bucket, docs, b)
    ensures Serves(g, bucket, docs, id, b)
  {
    AliveIsFound(g, bucket, docs, b, id);
    forall k | 0 <= k < |b.files| ensures Holds(docs, b.files[k]) {
      assert b.files[k] in b.files;
    }
  }

  // ---- which other spellings find it ----

  /** Every spelling of the identifier finds the build that was just uploaded. */
  ghost predicate FoundBySpellings(g: Graph, bucket: string, docs: Docs, b: Build) {
    forall id :: Spells(g, id, b.id) ==>
      FindRelease(g, AfterUpload(g, bucket, docs, b), id) == Hit(BuildManifest(bucket, b))
  }

  ghost predicate DashFree(names: set<string>) {
    forall n :: n in names ==> '-' !in n
  }

  lemma UploadFoundWithSameSet(g: Graph, bucket: string, docs: Docs, b: Build, id: Identifier)
    requires Publishes(b) && Normalises(g, b.id) && Spells(g, id, b.id) && SameCanonicalSet(g, id, b.id)
    ensures FindRelease(g, AfterUpload(g, bucket, docs, b), id) == Hit(BuildManifest(bucket, b))
  {
    NormalisesHasKey(g, id);
    NormalisesHasKey(g, b.id);
    SpellingSameImage(g, id, b.id);
    assert ManifestKey(g, id) == ManifestKey(g, b.id);
  }

  lemma LastDash(p: string, x: string)
    requires '-' !in x
    ensures var t := p + "-" + x; t[|p|] == '-' && forall i :: |p| < i < |t| ==> t[i] != '-'
  {
    var t := p + "-" + x;
    forall i | |p| < i < |t| ensures t[i] != '-' {
      assert t[i] == x[i - |p| - 1];
      assert x[i - |p| - 1] in x;
    }
  }

  lemma SplitAtLastDash(p: string, x: string, q: string, y: string)
    requires '-' !in x && '-' !in y && p + "-" + x == q + "-" + y
    ensures p == q && x == y
  {
    LastDash(p, x);
    LastDash(q, y);
    var t := p + "-" + x;
    assert |p| == |q|;
    assert t[..|p|] == p && t[..|q|] == q && t[|p| + 1..] == x && t[|q| + 1..] == y;
  }

  lemma DashInside(a: seq<string>)
    requires a != [] && DashFree(Elems(a))
    ensures '-' in Dashed(a) <==> |a| > 1
  {
    assert a[0] in Elems(a);
    if |a| > 1 {
      assert Dashed(a)[|Dashed(DropLast(a))|] == '-';
    }
  }

  /** Joined dash-free names can be told apart again. */
  lemma {:induction false} DashedInjective(a: seq<string>, b: seq<string>)
    requires a != [] && b != [] && DashFree(Elems(a)) && DashFree(Elems(b)) && Dashed(a) == Dashed(b)
    ensures a == b
  {
    DashInside(a);
    DashInside(b);
    if |a| == 1 {
      assert a == [a[0]] && b == [b[0]];
    } else {
      assert Last(a) in Elems(a) && Last(b) in Elems(b);
      SplitAtLastDash(Dashed(DropLast(a)), Last(a), Dashed(DropLast(b)), Last(b));
      DashedInjective(DropLast(a), DropLast(b));
      assert a == DropLast(a) + [Last(a)] && b == DropLast(b) + [Last(b)];
    }
  }

  /** Without dashes in feature names, keys of one version tell canonical sets apart. */
  lemma KeysTellApart(g: Graph, a: Identifier, b: Identifier)
    requires DashFree(g.Keys) && HasKey(g, a) && HasKey(g, b)
    requires a.version == b.version && a.committish == b.committish
    requires ManifestKey(g, a) == ManifestKey(g, b)
    ensures a.platform == b.platform && SameCanonicalSet(g, a, b)
  {
    var s, t := CanonicalTuple(g, a.platform, a.modifiers), CanonicalTuple(g, b.platform, b.modifiers);
    var rest := "-" + a.version + "-" + Truncated(a.committish);
    KeyShape(g, a, rest);
    KeyShape(g, b, rest);
    var k, n := ManifestKey(g, a), |ManifestKey(g, a)| - |rest|;
    assert k[|SINGLES|..n] == Dashed(s) && k[|SINGLES|..n] == Dashed(t);
    TupleNames(g, a);
    TupleNames(g, b);
    DashedInjective(s, t);
    assert Elems(s[1..]) == Elems(t[1..]);
  }

  lemma KeyShape(g: Graph, id: Identifier, rest: string)
    requires rest == "-" + id.version + "-" + Truncated(id.committish)
    ensures ManifestKey(g, id) == SINGLES + Dashed(CanonicalTuple(g, id.platform, id.modifiers)) + rest
  {
    Regroup(SINGLES, Dashed(CanonicalTuple(g, id.platform, id.modifiers)), id.version, Truncated(id.committish));
  }

  lemma Regroup(prefix: string, names: string, version: string, commit: string)
    ensures prefix + (names + "-" + version + "-" + commit) == prefix + names + ("-" + version + "-" + commit)
  {
    assert names + "-" + version + "-" + commit == names + ("-" + version + "-" + commit);
  }

  lemma TupleNames(g: Graph, id: Identifier)
    requires HasKey(g, id)
    ensures var s := CanonicalTuple(g, id.platform, id.modifiers);
            && s != [] && s[0] == id.platform && Elems(s) <= g.Keys
            && Elems(s[1..]) == CanonicalSet(g, Elems(id.modifiers))
  {
    var s := CanonicalTuple(g, id.platform, id.modifiers);
    assert s[1..] == SortedListing(Upper, CanonicalSet(g, Elems(id.modifiers)));
    assert s == [s[0]] + s[1..];
  }

  /** A manifest found at another key has another identifier. */
  lemma OtherKeyOtherBuild(g: Graph, bucket: string, docs: Docs, b: Build, id: Identifier)
    requires OwnKeys(g, docs) && ManifestKey(g, id) != ManifestKey(g, b.id)
    ensures !Finds(g, bucket, docs, id, b)
  {
    if FindRelease(g, docs, id).Hit? {
      FoundAtKey(g, docs, id);
      assert AtOwnKey(g, ManifestKey(g, id), docs[ManifestKey(g, id)]);
    }
  }

  /** Listing or unlisting what the platform brings along spells the same image. */
  lemma RespelledBy(g: Graph, of: Identifier, d: string) returns (id: Identifier)
    requires Normalises(g, of) && d in AllBelow(g, {of.platform}) && d !in AllBelow(g, Elems(of.modifiers))
    ensures id == of.(modifiers := id.modifiers) && Spells(g, id, of) && !SameCanonicalSet(g, id, of)
  {
    var m := Elems(of.modifiers);
    CanonicalDiffers(g, of.platform, m, d);
    var other := if d in m then m - {d} else m + {d};
    id := of.(modifiers := SortedListing(Upper, other));
    assert Elems(id.modifiers) == other;
    assert Usable(g, other + {of.platform});
  }

  /** A build is missed under a spelling with another canonical set. */
  lemma MissedBySpelling(g: Graph, bucket: string, docs: Docs, b: Build, id: Identifier)
    requires DashFree(g.Keys) && OwnKeys(g, docs) && Normalises(g, b.id)
    requires Spells(g, id, b.id) && !SameCanonicalSet(g, id, b.id)
    ensures !Finds(g, bucket, docs, id, b)
  {
    NormalisesHasKey(g, id);
    NormalisesHasKey(g, b.id);
    SpellingSameImage(g, id, b.id);
    if ManifestKey(g, id) == ManifestKey(g, b.id) {
      KeysTellApart(g, id, b.id);
      assert false;
    }
    OtherKeyOtherBuild(g, bucket, docs, b, id);
  }

  /**
   Over every run of steps that spare an uploaded build, a spelling of its identifier with the canonical
   set it was uploaded with finds it, each path leading to the bytes that were uploaded. No other
   spelling does, if feature names have no dash.
   */
  lemma BuildServedOverRuns(
    g: Graph, bucket: string, states: seq<Docs>, events: seq<Event>, b: Build, id: Identifier, i: nat)
    requires IsRun(g, bucket, states, events) && Sane(bucket, states[0]) && OwnKeys(g, states[0])
    requires 1 <= i < |states| && events[0] == BuildUploaded(b) && Publishes(b) && DigestsAgree(b)
    requires forall j :: 1 <= j < i ==> Spares(g, events[j], b)
    requires Normalises(g, b.id) && Spells(g, id, b.id)
    ensures SameCanonicalSet(g, id, b.id) ==> Serves(g, bucket, states[i], id, b)
    ensures DashFree(g.Keys) && !SameCanonicalSet(g, id, b.id) ==> !Finds(g, bucket, states[i], id, b)
  {
    NormalisesHasKey(g, b.id);
    AliveOverRuns(g, bucket, states, events, b, i);
    if SameCanonicalSet(g, id, b.id) {
      AliveServes(g, bucket, states[i], b, id);
    } else if DashFree(g.Keys) {
      MissedBySpelling(g, bucket, states[i], b, id);
    }
  }

  /** Builds are given normalised modifiers, and promotion searches for them: that always meets. */
  lemma NormalisedBuildServed(
    g: Graph, bucket: string, states: seq<Docs>, events: seq<Event>, b: Build, id: Identifier, i: nat)
    requires IsRun(g, bucket, states, events) && Sane(bucket, states[0]) && OwnKeys(g, states[0])
    requires 1 <= i < |states| && events[0] == BuildUploaded(b) && Publishes(b) && DigestsAgree(b)
    requires forall j :: 1 <= j < i ==> Spares(g, events[j], b)
    requires Normalises(g, b.id) && b.id == Normalised(g, b.id) && Spells(g, id, b.id)
    ensures Serves(g, bucket, states[i], Normalised(g, id), b)
  {
    assert Normalised(g, id) == b.id;
    BuildServedOverRuns(g, bucket, states, events, b, b.id, i);
  }

  /** So a spelling finds the build exactly if it has the canonical set the build was uploaded with. */
  lemma FoundExactlyWhen(g: Graph, bucket: string, docs: Docs, b: Build, id: Identifier)
    requires DashFree(g.Keys) && Sane(bucket, docs) && OwnKeys(g, docs)
    requires Publishes(b) && Normalises(g, b.id) && Spells(g, id, b.id)
    ensures FindRelease(g, AfterUpload(g, bucket, docs, b), id) == Hit(BuildManifest(bucket, b))
       <==> SameCanonicalSet(g, id, b.id)
  {
    if SameCanonicalSet(g, id, b.id) {
      UploadFoundWithSameSet(g, bucket, docs, b, id);
    } else {
      UploadKeepsReleases(g, bucket, docs, b);
      MissedBySpelling(g, bucket, AfterUpload(g, bucket, docs, b), b, id);
    }
  }

  /**
   An uploaded build is found under every spelling of its identifier if and only if the modifiers
   it was uploaded with include all that its platform includes.
   */
  lemma FoundBySpellingsExactly(g: Graph, bucket: string, docs: Docs, b: Build)
    requires DashFree(g.Keys) && Sane(bucket, docs) && OwnKeys(g, docs) && Publishes(b) && Normalises(g, b.id)
    ensures FoundBySpellings(g, bucket, docs, b)
       <==> AllBelow(g, {b.id.platform}) <= AllBelow(g, Elems(b.id.modifiers))
  {
    var p, m := b.id.platform, Elems(b.id.modifiers);
    if AllBelow(g, {p}) <= AllBelow(g, m) {
      NormalisesHasKey(g, b.id);
      forall id | Spells(g, id, b.id)
        ensures FindRelease(g, AfterUpload(g, bucket, docs, b), id) == Hit(BuildManifest(bucket, b))
      {
        SpellingSameImage(g, id, b.id);
        CanonicalAgrees(g, p, m, Elems(id.modifiers));
        FoundExactlyWhen(g, bucket, docs, b, id);
      }
    }
    if d :| d in AllBelow(g, {p}) && d !in AllBelow(g, m) {
      var id := RespelledBy(g, b.id, d);
      FoundExactlyWhen(g, bucket, docs, b, id);
    }
  }

  // ---- what attaching logs leaves ----

  /** A key with a visible character is one; the empty key and white space are none. */
  lemma BlankKeys(key: string, i: nat)
    ensures i < |key| && '!' <= key[i] <= '~' ==> !Blank(key)
    ensures Blank("") && Blank(" ") && Blank("\t") && Blank("\n") && Blank("\r")
  {
    if i < |key| && Blank(key) {
      assert IsSpace(key[i]);
    }
  }

  /** The log is in every named manifest, and the other documents are as they were. */
  ghost predicate LogsIn(docs: Docs, keys: seq<string>, log: ReleaseFile, t: Docs) {
    && t.Keys == docs.Keys
    && (forall k :: k in keys && !Blank(k) ==> k in t && t[k].Single? && t[k].manifest.logs == Some(log))
    && (forall k :: k in docs && (k !in keys || Blank(k)) ==> t[k] == docs[k])
  }

  lemma LogsInSnoc(docs: Docs, keys: seq<string>, log: ReleaseFile, d: Docs, t: Docs)
    requires keys != [] && LogsIn(docs, DropLast(keys), log, d)
    requires if Blank(Last(keys)) then t == d
             else Last(keys) in d && d[Last(keys)].Single?
                  && t == d[Last(keys) := Single(d[Last(keys)].manifest.(logs := Some(log)))]
    ensures LogsIn(docs, keys, log, t)
  {
    forall k ensures k in keys <==> k in DropLast(keys) || k == Last(keys) {
      InSnoc(keys, k);
    }
  }

  lemma {:induction false} SingleLogsWritten(g: Graph, docs: Docs, keys: seq<string>, log: ReleaseFile)
    requires OwnKeys(g, docs) && AfterSingleLogs(g, docs, keys, log).1
    ensures OwnKeys(g, AfterSingleLogs(g, docs, keys, log).0)
    ensures LogsIn(docs, keys, log, AfterSingleLogs(g, docs, keys, log).0)
  {
    if keys != [] {
      SingleLogsWritten(g, docs, DropLast(keys), log);
      var d, key := AfterSingleLogs(g, docs, DropLast(keys), log).0, Last(keys);
      if !Blank(key) {
        RewrittenInPlace(g, d, key, d[key].manifest.(logs := Some(log)));
      }
      LogsInSnoc(docs, keys, log, d, AfterSingleLogs(g, docs, keys, log).0);
    }
  }

  lemma {:induction false} LogsOfExactly(g: Graph, docs: Docs, q: Query, flavours: seq<Flavour>, x: ReleaseFile)
    ensures x in LogsOf(g, docs, q, flavours) <==> LoggedFor(g, docs, q, flavours, x)
  {
    if flavours != [] {
      LogsOfExactly(g, docs, q, DropLast(flavours), x);
      LoggedSnoc(g, docs, q, flavours, x);
      LogOfExactly(FindRelease(g, docs, SearchedId(q, Last(flavours))), x);
    }
  }

  lemma LogOfExactly(found: Lookup, x: ReleaseFile)
    ensures x in LogOf(found) <==> LogIs(found, x)
  {
  }

  lemma LoggedSnoc(g: Graph, docs: Docs, q: Query, flavours: seq<Flavour>, x: ReleaseFile)
    requires flavours != []
    ensures LoggedFor(g, docs, q, flavours, x) <==>
            LoggedFor(g, docs, q, DropLast(flavours), x) || LogIs(FindRelease(g, docs, SearchedId(q, Last(flavours))), x)
  {
    forall f ensures f in flavours <==> f in DropLast(flavours) || f == Last(flavours) {
      InSnoc(flavours, f);
    }
  }

  /** The manifest of one of the flavours is found and carries the log `x`. */
  ghost predicate LoggedFor(g: Graph, docs: Docs, q: Query, flavours: seq<Flavour>, x: ReleaseFile) {
    exists f :: f in flavours && LogIs(FindRelease(g, docs, SearchedId(q, f)), x)
  }

  ghost predicate LogIs(found: Lookup, x: ReleaseFile) {
    found.Hit? && found.manifest.logs == Some(x)
  }

  /** The set keeps its manifests and logs, and receives the new log and those of its flavours' manifests. */
  lemma SetLogsWritten(g: Graph, docs: Docs, q: Query, flavours: seq<Flavour>, log: ReleaseFile, setKey: string, t: Docs)
    requires AfterSetLogs(g, docs, q, flavours, log, setKey, t) && setKey in docs && docs[setKey].Bundle?
    ensures t == docs[setKey := t[setKey]] && t[setKey].Bundle?
    ensures var was, now := docs[setKey].bundle, t[setKey].bundle;
            && now.manifests == was.manifests && now.flavourSet == was.flavourSet && was.logs <= now.logs
            && forall x :: x in now.logs <==> x in was.logs || x == log || LoggedFor(g, docs, q, flavours, x)
  {
    var was := docs[setKey].bundle;
    var added :| Elems(added) == {log} + LogsOf(g, docs, q, flavours) && t == docs[setKey := WithLogs(docs[setKey], added)];
    forall x ensures x in added <==> x == log || LoggedFor(g, docs, q, flavours, x) {
      LogsOfExactly(g, docs, q, flavours, x);
      assert x in added <==> x in Elems(added);
    }
    assert t[setKey] == WithLogs(docs[setKey], added);
    assert WithLogs(docs[setKey], added).bundle == was.(logs := was.logs + added);
  }

  /** The log file is stored, in every named manifest, and in the set with those of its flavours' manifests. */
  lemma LogsAttachedExactly(g: Graph, bucket: string, s: Docs, e: Event, t: Docs)
    requires Sane(bucket, s) && OwnKeys(g, s) && e.LogsAttached? && Next(g, bucket, s, e, t)
    ensures "objects/" + e.logName in t && t["objects/" + e.logName] == Blob(e.data)
    ensures var log := ReleaseFile(e.logName, e.logName, "objects/" + e.logName, bucket);
            var stored := s["objects/" + e.logName := Blob(e.data)];
            var (singles, fine) := AfterSingleLogs(g, stored, e.built, log);
            fine ==>
              && (forall k :: k in e.built && !Blank(k) ==> k in t && t[k].Single? && t[k].manifest.logs == Some(log))
              && (e.setKey in singles && singles[e.setKey].Bundle? && LookupsSucceed(g, singles, e.q, e.flavours) ==>
                    && t[e.setKey].Bundle? && log in t[e.setKey].bundle.logs
                    && forall x :: LoggedFor(g, singles, e.q, e.flavours, x) ==> x in t[e.setKey].bundle.logs)
  {
    var log := LogEntry(bucket, e.logName);
    var stored := s[log.key := Blob(e.data)];
    var f := LocalFile("", e.logName, e.data);
    assert ObjectKey(f) == log.key;
    SingleLogsHold(g, stored, e.built, log, f);
    NotSingle(bucket, s, log.key);
    PutOther(g, s, log.key, Blob(e.data));
    var (singles, fine) := AfterSingleLogs(g, stored, e.built, log);
    if fine {
      SingleLogsWritten(g, stored, e.built, log);
      if e.setKey in singles && singles[e.setKey].Bundle? && LookupsSucceed(g, singles, e.q, e.flavours) {
        SetLogsWritten(g, singles, e.q, e.flavours, log, e.setKey, t);
      }
    }
  }
}
