/** The artifact bucket and the pipeline steps that change it. */
module Bucket {
  import opened Lists
  import opened FeatureErrors
  import opened IncludeGraph
  import opened FeatureModel
  import opened Decimal
  import opened TextOrder
  import opened Listing
  import opened Releases

  const SINGLES_PREFIX := "meta/singles"
  const SETS_PREFIX := "meta/sets"

  // ---- what each step does to the contents ----

  /** A built file: its name, the hex digest of its content, and the content. */
  datatype LocalFile = LocalFile(name: string, digest: string, data: seq<int>)

  function ObjectKey(f: LocalFile): (k: string)
    ensures OBJECTS <= k
  {
    OBJECTS + f.digest
  }

  function PutFiles(docs: Docs, files: seq<LocalFile>): Docs {
    if files == [] then docs
    else PutFiles(docs, DropLast(files))[ObjectKey(Last(files)) := Blob(Last(files).data)]
  }

  function Uploaded(bucket: string, id: Identifier, f: LocalFile): ReleaseFile {
    ReleaseFile(Itoa(id.epoch) + "-" + Truncated(id.committish) + "-" + f.name, f.name, ObjectKey(f), bucket)
  }

  function UploadedAll(bucket: string, id: Identifier, files: seq<LocalFile>): (r: seq<ReleaseFile>)
    ensures |r| == |files|
    ensures forall i :: 0 <= i < |r| ==> r[i] == Uploaded(bucket, id, files[i])
  {
    seq(|files|, i requires 0 <= i < |files| => Uploaded(bucket, id, files[i]))
  }

  /** What upload_results_step is given; `ociImage` is the published reference of an oci build, if publishing it works. */
  datatype Build = Build(id: Identifier, files: seq<LocalFile>, timestamp: int, baseImage: string, ociImage: Option<string>)

  predicate Publishes(b: Build) {
    b.id.platform == "oci" ==> b.ociImage.Some?
  }

  function BuildManifest(bucket: string, b: Build): Manifest {
    Manifest(b.id, b.timestamp, UploadedAll(bucket, b.id, b.files), b.baseImage,
             if b.id.platform == "oci" then b.ociImage else None, None, None)
  }

  /** Objects first; the manifest only if an oci image could be published and its key can be computed. */
  ghost function AfterUpload(g: Graph, bucket: string, docs: Docs, b: Build): Docs {
    var stored := PutFiles(docs, b.files);
    if Publishes(b) && HasKey(g, b.id) then stored[ManifestKey(g, b.id) := Single(BuildManifest(bucket, b))] else stored
  }

  /** The manifest lists each file by name and by the key of its content, and says what was built when. */
  ghost predicate Describes(bucket: string, b: Build, m: Manifest) {
    && m.id == b.id && m.timestamp == b.timestamp && m.baseImage == b.baseImage
    && m.published == (if b.id.platform == "oci" then b.ociImage else None) && m.testResult == None && m.logs == None
    && |m.paths| == |b.files|
    && forall i :: 0 <= i < |m.paths| ==>
         && m.paths[i].key == "objects/" + b.files[i].digest && m.paths[i].bucket == bucket
         && m.paths[i].suffix == b.files[i].name
         && m.paths[i].name == Itoa(b.id.epoch) + "-" + Truncated(b.id.committish) + "-" + b.files[i].name
  }

  /** File `i` is the last one with its digest. */
  ghost predicate LastOf(files: seq<LocalFile>, i: nat)
    requires i < |files|
  {
    forall j :: i < j < |files| ==> files[j].digest != files[i].digest
  }

  ghost predicate KeyOfFile(files: seq<LocalFile>, k: string) {
    exists f :: f in files && k == "objects/" + f.digest
  }

  /** What the files leave at `k`: the content of the last one whose digest it is, or what was there. */
  ghost predicate FileAt(s: Docs, files: seq<LocalFile>, t: Docs, k: string) {
    if KeyOfFile(files, k) then
      exists i :: 0 <= i < |files| && LastOf(files, i) && k == "objects/" + files[i].digest
                  && k in t && t[k] == Blob(files[i].data)
    else (k in t <==> k in s) && (k in s && k in t ==> t[k] == s[k])
  }

  /** Every content is stored under its digest; besides that, and the given key, nothing is touched. */
  ghost predicate FilesStored(s: Docs, files: seq<LocalFile>, besides: set<string>, t: Docs) {
    forall k :: k !in besides ==> FileAt(s, files, t, k)
  }

  lemma {:induction false} FilesPut(s: Docs, files: seq<LocalFile>, k: string)
    ensures FileAt(s, files, PutFiles(s, files), k)
  {
    if files != [] {
      FilesPut(s, DropLast(files), k);
      PutOneMore(s, DropLast(files), Last(files), PutFiles(s, DropLast(files)), k);
      assert files == DropLast(files) + [Last(files)];
    }
  }

  lemma PutOneMore(s: Docs, front: seq<LocalFile>, f: LocalFile, t: Docs, k: string)
    requires FileAt(s, front, t, k)
    ensures FileAt(s, front + [f], t[ObjectKey(f) := Blob(f.data)], k)
  {
    var files := front + [f];
    assert forall h :: h in files <==> h in front || h == f;
    if k == ObjectKey(f) {
      assert LastOf(files, |front|) && k == "objects/" + files[|front|].digest;
      assert f in files;
    } else if KeyOfFile(front, k) {
      var i :| 0 <= i < |front| && LastOf(front, i) && k == "objects/" + front[i].digest
               && k in t && t[k] == Blob(front[i].data);
      assert LastOf(files, i) && k == "objects/" + files[i].digest;
    }
  }

  lemma UploadStores(g: Graph, bucket: string, s: Docs, b: Build)
    ensures var stores := Publishes(b) && HasKey(g, b.id);
            FilesStored(s, b.files, if stores then {ManifestKey(g, b.id)} else {}, AfterUpload(g, bucket, s, b))
    ensures Describes(bucket, b, BuildManifest(bucket, b))
  {
    forall k | Publishes(b) && HasKey(g, b.id) ==> k != ManifestKey(g, b.id)
      ensures FileAt(s, b.files, AfterUpload(g, bucket, s, b), k)
    {
      FilesPut(s, b.files, k);
    }
  }

  ghost function Rewritten(g: Graph, docs: Docs, m: Manifest): Docs
    requires HasKey(g, m.id)
  {
    docs[ManifestKey(g, m.id) := Single(m)]
  }

  /** What publishing an image comes to: new metadata, an unknown platform, or an exception. */
  datatype Publishing = Published(metadata: string) | Unchanged | Failed

  /** The manifest promote_single_step writes back, if it gets that far. */
  function PromotedManifest(m: Manifest, publishing: Publishing, provisional: string): Option<Manifest> {
    var prepared := if m.id.platform == "azure" then m.(published := Some(provisional)) else m;
    match publishing
    case Published(metadata) => Some(prepared.(published := Some(metadata)))
    case Unchanged => Some(prepared)
    case Failed => if m.id.platform == "azure" then Some(prepared) else None
  }

  /** For an identifier whose platform is one. */
  ghost function AfterPromoteSingle(g: Graph, docs: Docs, id: Identifier, publishing: Publishing, provisional: string): Docs {
    if Normalises(g, id) then
      AfterPublishing(g, docs, FindRelease(g, docs, Normalised(g, id)), publishing, provisional)
    else docs
  }

  /** Only a release that was found and not published yet is published and written back. */
  ghost function AfterPublishing(g: Graph, docs: Docs, found: Lookup, publishing: Publishing, provisional: string): Docs {
    if !found.Hit? || found.manifest.published.Some? then docs
    else
      match PromotedManifest(found.manifest, publishing, provisional)
      case Some(n) => if HasKey(g, n.id) then Rewritten(g, docs, n) else docs
      case None => docs
  }

  /**
   What publishing stores: the new metadata if it succeeds, on azure the provisional one if it does
   not, and nothing for a release that is not found or already published.
   */
  ghost predicate Publication(g: Graph, s: Docs, found: Lookup, publishing: Publishing, provisional: string, t: Docs) {
    if found.Hit? && found.manifest.published.None? && HasKey(g, found.manifest.id) then
      var m, key := found.manifest, ManifestKey(g, found.manifest.id);
      && (publishing.Published? ==> t == s[key := Single(m.(published := Some(publishing.metadata)))])
      && (!publishing.Published? && m.id.platform == "azure" ==> t == s[key := Single(m.(published := Some(provisional)))])
      && (publishing.Unchanged? && m.id.platform != "azure" ==> t == s[key := Single(m)])
      && (publishing.Failed? && m.id.platform != "azure" ==> t == s)
    else t == s
  }

  ghost function AfterTestResult(g: Graph, docs: Docs, id: Identifier, result: string): Docs {
    match FindRelease(g, docs, id)
    case Hit(m) => if HasKey(g, m.id) then Rewritten(g, docs, m.(testResult := Some(result))) else docs
    case _ => docs
  }

  /** A set is written only when the count of releases matches the count of flavours. */
  function AfterPromote(docs: Docs, releases: seq<Manifest>, flavours: nat, flavourSet: string, key: string): Docs {
    if |releases| == flavours then docs[SETS + key := Bundle(ManifestSet(releases, flavourSet, []))] else docs
  }

  /** What str.strip removes, within ASCII. */
  predicate IsSpace(c: char) {
    c == ' ' || 9 <= c as int <= 13 || 28 <= c as int <= 31
  }

  predicate Blank(key: string) {
    forall i :: 0 <= i < |key| ==> IsSpace(key[i])
  }

  /** The log file goes into each named manifest in turn; an unreadable one stops the step. */
  ghost function AfterSingleLogs(g: Graph, docs: Docs, keys: seq<string>, log: ReleaseFile): (Docs, bool) {
    if keys == [] then (docs, true)
    else
      var (d, ok) := AfterSingleLogs(g, docs, DropLast(keys), log);
      var key := Last(keys);
      if !ok || Blank(key) then (d, ok)
      else if key in d && d[key].Single? && HasKey(g, d[key].manifest.id) then
        (Rewritten(g, d, d[key].manifest.(logs := Some(log))), true)
      else (d, false)
  }

  function LogEntry(bucket: string, name: string): (f: ReleaseFile)
    ensures OBJECTS <= f.key
  {
    ReleaseFile(name, name, OBJECTS + name, bucket)
  }

  /** The log files that the manifests of the flavours carry. */
  ghost function LogsOf(g: Graph, docs: Docs, q: Query, flavours: seq<Flavour>): set<ReleaseFile> {
    if flavours == [] then {}
    else
      LogsOf(g, docs, q, DropLast(flavours)) + LogOf(FindRelease(g, docs, SearchedId(q, Last(flavours))))
  }

  function LogOf(found: Lookup): set<ReleaseFile> {
    if found.Hit? && found.manifest.logs.Some? then {found.manifest.logs.value} else {}
  }

  /** The set receives the new log and those of its flavours' manifests, in whatever order. */
  ghost predicate AfterSetLogs(
    g: Graph, docs: Docs, q: Query, flavours: seq<Flavour>, log: ReleaseFile, setKey: string, t: Docs) {
    if setKey in docs && docs[setKey].Bundle? then
      exists added ::
        && NoDup(added) && Elems(added) == {log} + LogsOf(g, docs, q, flavours)
        && t == docs[setKey := WithLogs(docs[setKey], added)]
    else t == docs
  }

  /** A set that is stored can be read, and so can the manifests of its flavours. */
  ghost predicate SetLogsSucceed(g: Graph, docs: Docs, q: Query, flavours: seq<Flavour>, setKey: string) {
    setKey in docs ==> docs[setKey].Bundle? && LookupsSucceed(g, docs, q, flavours)
  }

  ghost predicate LookupsSucceed(g: Graph, docs: Docs, q: Query, flavours: seq<Flavour>) {
    forall f :: f in flavours ==> !FindRelease(g, docs, SearchedId(q, f)).Crashed?
  }

  function WithLogs(d: Doc, added: seq<ReleaseFile>): Doc
    requires d.Bundle?
  {
    Bundle(d.bundle.(logs := d.bundle.logs + added))
  }

  // ---- the garbage collector ----

  function PathKeys(bucket: string, files: seq<ReleaseFile>): set<string> {
    set f | f in files && f.bucket == bucket :: f.key
  }

  function BundleKeys(bucket: string, b: ManifestSet): set<string> {
    (set m, key | m in b.manifests && key in PathKeys(bucket, m.paths) :: key) + PathKeys(bucket, b.logs)
  }

  /** The keys a document keeps alive, given where it is stored. */
  function KeysNamedBy(bucket: string, k: string, d: Doc): set<string> {
    match d
    case Single(m) => if SINGLES_PREFIX <= k then PathKeys(bucket, m.paths) else {}
    case Bundle(b) => if SETS_PREFIX <= k then BundleKeys(bucket, b) else {}
    case _ => {}
  }

  /** The keys named by manifests, by manifests in sets, and by the logs of sets. */
  function Referenced(bucket: string, docs: Docs): set<string> {
    set k, key | k in docs && key in KeysNamedBy(bucket, k, docs[k]) :: key
  }

  /** The one-shot meaning of the sweep. */
  function AfterSweep(bucket: string, docs: Docs, prefix: string): Docs {
    map k | k in docs && (!(prefix <= k) || k in Referenced(bucket, docs)) :: docs[k]
  }

  /** Everything listed up to `k` can be read. */
  ghost predicate ReadableUpTo<T>(parse: Doc -> Parsed<T>, docs: Docs, prefix: string, k: string) {
    forall j :: j in docs && prefix <= j && Le(j, k) ==> !parse(docs[j]).Unreadable?
  }

  /** The outdated manifests go, as far as the listing could be read. */
  ghost function AfterPurgeSingles(docs: Docs, oldest: int): Docs {
    map k | k in docs
         && !(SINGLES_PREFIX <= k && docs[k].Single? && docs[k].manifest.timestamp < oldest
              && ReadableUpTo(AsSingle, docs, SINGLES_PREFIX, k))
      :: docs[k]
  }

  predicate SetOutdated(b: ManifestSet, oldest: int) {
    |b.manifests| >= 1 && b.manifests[0].timestamp <= oldest
  }

  ghost function AfterPurgeSets(docs: Docs, prefix: string, oldest: int): Docs {
    map k | k in docs
         && !(prefix <= k && docs[k].Bundle? && SetOutdated(docs[k].bundle, oldest) && ReadableUpTo(AsBundle, docs, prefix, k))
      :: docs[k]
  }

  /** Everything under the manifest prefixes can be read as what it should be. */
  ghost predicate Readable(docs: Docs) {
    && (forall k :: k in docs && SINGLES_PREFIX <= k ==> docs[k].Single?)
    && (forall k :: k in docs && SETS_PREFIX <= k ==> docs[k].Bundle? || docs[k].Directory?)
  }

  // ---- the bucket ----

  class Store {
    const name: string
    var docs: Docs

    constructor (name: string)
      ensures this.name == name && docs == map[]
    {
      this.name := name;
      docs := map[];
    }

    /** upload_results_step: the files one by one, then the manifest. */
    method UploadResults(fs: Descriptors, b: Build) returns (ok: bool)
      modifies this`docs
      ensures docs == AfterUpload(IncludeLists(fs), name, old(docs), b)
      ensures ok <==> (b.id.platform == "oci" ==> b.ociImage.Some?) && HasKey(IncludeLists(fs), b.id)
      ensures FilesStored(old(docs), b.files, if ok then {ManifestKey(IncludeLists(fs), b.id)} else {}, docs)
      ensures ok ==> var key := ManifestKey(IncludeLists(fs), b.id);
                     key in docs && docs[key].Single? && Describes(name, b, docs[key].manifest)
    {
      var paths := [];
      var i := 0;
      while i < |b.files|
        invariant 0 <= i <= |b.files|
        invariant docs == PutFiles(old(docs), b.files[..i])
        invariant paths == UploadedAll(name, b.id, b.files[..i])
      {
        var f := b.files[i];
        assert DropLast(b.files[..i + 1]) == b.files[..i] && Last(b.files[..i + 1]) == f;
        docs := docs[ObjectKey(f) := Blob(f.data)];
        paths := paths + [Uploaded(name, b.id, f)];
        i := i + 1;
      }
      assert b.files[..i] == b.files;
      UploadStores(IncludeLists(fs), name, old(docs), b);
      var published: Option<string> := None;
      if b.id.platform == "oci" {
        if b.ociImage.None? {
          return false;
        }
        published := b.ociImage;
      }
      var manifest := Manifest(b.id, b.timestamp, paths, b.baseImage, published, None, None);
      var key := ManifestKeyOf(fs, b.id);
      match key {
        case Raised(_) => return false;
        case Success(k) =>
          docs := docs[k := Single(manifest)];
          return true;
      }
    }

    /** Computes the manifest's own key and stores it there. */
    method UploadManifest(fs: Descriptors, m: Manifest) returns (ok: bool)
      modifies this`docs
      ensures ok <==> HasKey(IncludeLists(fs), m.id)
      ensures docs == if HasKey(IncludeLists(fs), m.id) then Rewritten(IncludeLists(fs), old(docs), m) else old(docs)
    {
      var key := ManifestKeyOf(fs, m.id);
      match key {
        case Raised(_) => return false;
        case Success(k) =>
          docs := docs[k := Single(m)];
          return true;
      }
    }

    method PromoteSingle(fs: Descriptors, id: Identifier, publishing: Publishing, provisional: string)
      modifies this`docs
      ensures docs == if IsPlatformName(fs, id.platform)
                      then AfterPromoteSingle(IncludeLists(fs), old(docs), id, publishing, provisional) else old(docs)
      ensures IsPlatformName(fs, id.platform) && Normalises(IncludeLists(fs), id) ==>
                Publication(IncludeLists(fs), old(docs), FindRelease(IncludeLists(fs), old(docs), Normalised(IncludeLists(fs), id)),
                            publishing, provisional, docs)
    {
      if !IsPlatformName(fs, id.platform) {
        return;
      }
      var normalised := NormalisedIdentifier(fs, id);
      if normalised.Raised? {
        return;
      }
      var found := FindReleaseIn(fs, docs, normalised.value);
      PublishFound(fs, found, publishing, provisional);
    }

    method PublishFound(fs: Descriptors, found: Lookup, publishing: Publishing, provisional: string)
      modifies this`docs
      ensures docs == AfterPublishing(IncludeLists(fs), old(docs), found, publishing, provisional)
      ensures Publication(IncludeLists(fs), old(docs), found, publishing, provisional, docs)
    {
      if !found.Hit? || found.manifest.published.Some? {
        return;
      }
      var promoted := PublishImage(found.manifest, publishing, provisional);
      if promoted.Some? {
        var _ := UploadManifest(fs, promoted.value);
      }
    }

    method UploadTestResults(fs: Descriptors, id: Identifier, result: string)
      modifies this`docs
      ensures docs == AfterTestResult(IncludeLists(fs), old(docs), id, result)
      ensures var found := FindRelease(IncludeLists(fs), old(docs), id);
              docs == if found.Hit? && HasKey(IncludeLists(fs), found.manifest.id)
                      then old(docs)[ManifestKey(IncludeLists(fs), found.manifest.id) :=
                                     Single(found.manifest.(testResult := Some(result)))]
                      else old(docs)
    {
      var found := FindReleaseIn(fs, docs, id);
      if found.Hit? {
        var _ := UploadManifest(fs, found.manifest.(testResult := Some(result)));
      }
    }

    /** promote_step; on success `order` lists the flavours the stored manifests belong to. */
    method Promote(fs: Descriptors, combinations: seq<Combination>, flavourSet: string, q: Query, key: string)
      returns (ok: bool, order: seq<Flavour>)
      modifies this`docs
      ensures ok <==> FlavoursBuild(fs, Declared(combinations))
                      && Complete(IncludeLists(fs), old(docs), q, Declared(combinations))
      ensures !ok ==> docs == old(docs)
      ensures ok ==>
        var g, declared := IncludeLists(fs), Declared(combinations);
        var found := Collect(Lookups(g, old(docs), q, order));
        && FlavoursBuild(fs, declared) && Visits(g, declared, order)
        && found.Some? && |found.value| == |declared|
        && docs == AfterPromote(old(docs), found.value, |declared|, flavourSet, key)
        && docs == old(docs)["meta/sets/" + key := Bundle(ManifestSet(found.value, flavourSet, []))]
    {
      order := [];
      var flavours := Flavours(fs, combinations);
      if flavours.None? {
        return false, [];
      }
      var releases;
      releases, order := FindReleases(fs, docs, q, flavours.value);
      CompleteExactly(IncludeLists(fs), docs, q, Declared(combinations), order);
      if releases.None? || |releases.value| != |flavours.value| {
        return false, order;
      }
      docs := docs[SETS + key := Bundle(ManifestSet(releases.value, flavourSet, []))];
      return true, order;
    }

    /** _attach_and_upload_logs for an image build: the object, the single manifests, then the set. */
    method AttachLogs(fs: Descriptors, logName: string, data: seq<int>, built: seq<string>,
                      setKey: string, flavours: seq<Flavour>, q: Query)
      returns (ok: bool)
      modifies this`docs
      ensures var g, log := IncludeLists(fs), LogEntry(name, logName);
              var stored := old(docs)[log.key := Blob(data)];
              var (singles, fine) := AfterSingleLogs(g, stored, built, log);
              && (ok <==> fine && SetLogsSucceed(g, singles, q, flavours, setKey))
              && if ok then AfterSetLogs(g, singles, q, flavours, log, setKey, docs) else docs == singles
    {
      ghost var g := IncludeLists(fs);
      var log := LogEntry(name, logName);
      docs := docs[log.key := Blob(data)];
      ghost var stored := docs;
      var i := 0;
      while i < |built|
        invariant 0 <= i <= |built|
        invariant AfterSingleLogs(g, stored, built[..i], log) == (docs, true)
      {
        var key := built[i];
        assert DropLast(built[..i + 1]) == built[..i] && Last(built[..i + 1]) == key;
        i := i + 1;
        if !Blank(key) {
          if key !in docs || !docs[key].Single? {
            SingleLogsStop(g, stored, built, i, log);
            return false;
          }
          var written := UploadManifest(fs, docs[key].manifest.(logs := Some(log)));
          if !written {
            SingleLogsStop(g, stored, built, i, log);
            return false;
          }
        }
      }
      assert built[..i] == built;
      if setKey !in docs {
        return true;
      }
      match docs[setKey] {
        case Bundle(b) =>
          var found, added := CollectLogs(fs, docs, q, flavours, log);
          if !found {
            return false;
          }
          docs := docs[setKey := Bundle(b.(logs := b.logs + added))];
          return true;
        case _ => return false;
      }
    }
  }

  method PublishImage(release: Manifest, publishing: Publishing, provisional: string) returns (r: Option<Manifest>)
    ensures r == PromotedManifest(release, publishing, provisional)
  {
    var m := release;
    if m.id.platform == "azure" {
      m := m.(published := Some(provisional));
    }
    match publishing {
      case Published(metadata) => m := m.(published := Some(metadata));
      case Unchanged =>
      case Failed =>
        if m.id.platform != "azure" {
          return None;
        }
    }
    return Some(m);
  }

  // ---- enumeration ----

  /** A manifest read back from the bucket, together with its key. */
  datatype Online<T> = Online(key: string, value: T)

  /** What was read before something could not be, and whether everything could. */
  datatype Reading<T> = Reading(read: seq<Online<T>>, ok: bool)

  datatype Parsed<T> = Item(value: T) | Skipped | Unreadable

  function AsSingle(d: Doc): Parsed<Manifest> {
    if d.Single? then Item(d.manifest) else Unreadable
  }

  /** Directory markers are skipped. */
  function AsBundle(d: Doc): Parsed<ManifestSet> {
    match d
    case Bundle(b) => Item(b)
    case Directory => Skipped
    case _ => Unreadable
  }

  function Sequel<T>(a: Reading<T>, b: Reading<T>): Reading<T> {
    if a.ok then Reading(a.read + b.read, b.ok) else a
  }

  function ReadAt<T>(parse: Doc -> Parsed<T>, docs: Docs, k: string): Reading<T> {
    if k !in docs then Reading([], false)
    else
      match parse(docs[k])
      case Item(v) => Reading([Online(k, v)], true)
      case Skipped => Reading([], true)
      case Unreadable => Reading([], false)
  }

  /** Reading the documents at the keys in turn, up to the first that cannot be read. */
  function ReadAll<T>(parse: Doc -> Parsed<T>, docs: Docs, keys: seq<string>): Reading<T> {
    if keys == [] then Reading([], true)
    else Sequel(ReadAll(parse, docs, DropLast(keys)), ReadAt(parse, docs, Last(keys)))
  }

  function AllKeys(docs: Docs, prefix: string): seq<string> {
    Remaining(docs.Keys, prefix, None)
  }

  /** One page; S3 may return fewer keys than it could. */
  method ListObjects(docs: Docs, prefix: string, token: Option<string>) returns (page: seq<string>, next: Option<string>)
    ensures IsPage(docs.Keys, prefix, token, page, next)
  {
    var rest := SortedListing(Itself, Pending(docs.Keys, prefix, token));
    var n: nat :| n <= |rest| && n <= PAGE_LIMIT && (rest != [] ==> 0 < n);
    page := rest[..n];
    next := if n < |rest| then Some(Last(page)) else None;
  }

  lemma SequelLaws<T>(a: Reading<T>, b: Reading<T>, c: Reading<T>)
    ensures Sequel(Sequel(a, b), c) == Sequel(a, Sequel(b, c))
    ensures Sequel(a, Reading([], true)) == a && Sequel(Reading([], true), a) == a
  {
    assert a.read + [] == a.read && [] + a.read == a.read;
    assert a.read + b.read + c.read == a.read + (b.read + c.read);
  }

  lemma {:induction false} ReadConcat<T>(parse: Doc -> Parsed<T>, docs: Docs, a: seq<string>, b: seq<string>)
    ensures ReadAll(parse, docs, a + b) == Sequel(ReadAll(parse, docs, a), ReadAll(parse, docs, b))
  {
    if b == [] {
      assert a + b == a;
      SequelLaws(ReadAll(parse, docs, a), ReadAll(parse, docs, a), ReadAll(parse, docs, a));
    } else {
      assert DropLast(a + b) == a + DropLast(b) && Last(a + b) == Last(b);
      ReadConcat(parse, docs, a, DropLast(b));
      SequelLaws(ReadAll(parse, docs, a), ReadAll(parse, docs, DropLast(b)), ReadAt(parse, docs, Last(b)));
    }
  }

  /** Reading on from the token after what was read gives the whole. */
  ghost predicate ReadsOn<T>(whole: Reading<T>, read: seq<Online<T>>, rest: Reading<T>) {
    whole == Sequel(Reading(read, true), rest)
  }

  lemma PageRead<T>(parse: Doc -> Parsed<T>, docs: Docs, prefix: string, token: Option<string>,
                    page: seq<string>, next: Option<string>, whole: Reading<T>, read: seq<Online<T>>)
    requires IsPage(docs.Keys, prefix, token, page, next)
    requires ReadsOn(whole, read, ReadAll(parse, docs, Remaining(docs.Keys, prefix, token)))
    ensures forall k :: k in page ==> k in docs
    ensures next.Some? ==> page != [] && |Pending(docs.Keys, prefix, next)| < |Pending(docs.Keys, prefix, token)|
    ensures var r := ReadAll(parse, docs, page);
            if r.ok && next.Some? then
              ReadsOn(whole, read + r.read, ReadAll(parse, docs, Remaining(docs.Keys, prefix, next)))
            else whole == Reading(read + r.read, r.ok)
  {
    var left := if next.Some? then Remaining(docs.Keys, prefix, next) else [];
    PageStep(docs.Keys, prefix, token, page, next);
    ReadConcat(parse, docs, page, left);
    SequelLaws(Reading(read, true), ReadAll(parse, docs, page), ReadAll(parse, docs, left));
    SequelLaws(ReadAll(parse, docs, page), whole, whole);
  }

  /** The page loop that both enumerators have. */
  method Enumerate<T>(parse: Doc -> Parsed<T>, docs: Docs, prefix: string) returns (r: Reading<T>)
    ensures r == ReadAll(parse, docs, AllKeys(docs, prefix))
  {
    ghost var whole := ReadAll(parse, docs, AllKeys(docs, prefix));
    var read: seq<Online<T>> := [];
    var token: Option<string> := None;
    SequelLaws(whole, whole, whole);
    while true
      invariant ReadsOn(whole, read, ReadAll(parse, docs, Remaining(docs.Keys, prefix, token)))
      decreases |Pending(docs.Keys, prefix, token)|
    {
      var page, next := ListObjects(docs, prefix, token);
      PageRead(parse, docs, prefix, token, page, next, whole, read);
      var more := ReadPage(parse, docs, page);
      read := read + more.read;
      if !more.ok || |page| == 0 || next.None? {
        return Reading(read, more.ok);
      }
      token := next;
    }
  }

  method ReadPage<T>(parse: Doc -> Parsed<T>, docs: Docs, page: seq<string>) returns (r: Reading<T>)
    requires forall k :: k in page ==> k in docs
    ensures r == ReadAll(parse, docs, page)
  {
    var read: seq<Online<T>> := [];
    var i := 0;
    while i < |page|
      invariant 0 <= i <= |page|
      invariant ReadAll(parse, docs, page[..i]) == Reading(read, true)
    {
      TakeSnoc(page, i);
      PageStops(parse, docs, page, i);
      match parse(docs[page[i]]) {
        case Item(v) => read := read + [Online(page[i], v)];
        case Skipped => assert read + [] == read;
        case Unreadable => return Reading(read, false);
      }
      i := i + 1;
    }
    assert page[..i] == page;
    return Reading(read, true);
  }

  lemma PageStops<T>(parse: Doc -> Parsed<T>, docs: Docs, page: seq<string>, i: nat)
    requires i < |page|
    ensures !ReadAt(parse, docs, page[i]).ok && ReadAll(parse, docs, page[..i]).ok ==>
              ReadAll(parse, docs, page) == Reading(ReadAll(parse, docs, page[..i]).read, false)
  {
    TakeSnoc(page, i);
    ReadConcat(parse, docs, page[..i + 1], page[i + 1..]);
    assert page == page[..i + 1] + page[i + 1..];
    var r := ReadAll(parse, docs, page[..i]);
    assert r.read + [] == r.read;
  }

  /** enumerate_releases: the manifests under the prefix, in key order. */
  method EnumerateReleases(docs: Docs, prefix: string) returns (r: Reading<Manifest>)
    ensures r == ReadAll(AsSingle, docs, AllKeys(docs, prefix))
  {
    r := Enumerate(AsSingle, docs, prefix);
  }

  /** enumerate_release_sets: the sets under the prefix, in key order. */
  method EnumerateReleaseSets(docs: Docs, prefix: string) returns (r: Reading<ManifestSet>)
    ensures r == ReadAll(AsBundle, docs, AllKeys(docs, prefix))
  {
    r := Enumerate(AsBundle, docs, prefix);
  }

  /** Collects the logs for a set, in the order Python's set happens to deliver them. */
  method CollectLogs(fs: Descriptors, docs: Docs, q: Query, flavours: seq<Flavour>, log: ReleaseFile)
    returns (ok: bool, added: seq<ReleaseFile>)
    ensures ok <==> LookupsSucceed(IncludeLists(fs), docs, q, flavours)
    ensures ok ==> NoDup(added) && Elems(added) == {log} + LogsOf(IncludeLists(fs), docs, q, flavours)
  {
    var files := {log};
    var i := 0;
    while i < |flavours|
      invariant 0 <= i <= |flavours|
      invariant LookupsSucceed(IncludeLists(fs), docs, q, flavours[..i])
      invariant files == {log} + LogsOf(IncludeLists(fs), docs, q, flavours[..i])
    {
      var v := flavours[i];
      LogsSnoc(IncludeLists(fs), docs, q, flavours, i);
      var found := FindReleaseIn(fs, docs, SearchedId(q, v));
      if found.Crashed? {
        return false, [];
      }
      files := files + LogOf(found);
      i := i + 1;
    }
    assert flavours[..i] == flavours;
    added := InSomeOrder(files);
    return true, added;
  }

  lemma LogsSnoc(g: Graph, docs: Docs, q: Query, flavours: seq<Flavour>, i: nat)
    requires i < |flavours|
    ensures LogsOf(g, docs, q, flavours[..i + 1])
         == LogsOf(g, docs, q, flavours[..i]) + LogOf(FindRelease(g, docs, SearchedId(q, flavours[i])))
    ensures LookupsSucceed(g, docs, q, flavours[..i + 1]) <==>
            LookupsSucceed(g, docs, q, flavours[..i]) && !FindRelease(g, docs, SearchedId(q, flavours[i])).Crashed?
    ensures LookupsSucceed(g, docs, q, flavours) ==> !FindRelease(g, docs, SearchedId(q, flavours[i])).Crashed?
  {
    TakeSnoc(flavours, i);
    assert flavours[..i + 1] == flavours[..i] + [flavours[i]];
    assert flavours[i] in flavours;
  }

  method InSomeOrder(files: set<ReleaseFile>) returns (added: seq<ReleaseFile>)
    ensures NoDup(added) && Elems(added) == files
  {
    added := [];
    var rest := files;
    while rest != {}
      invariant NoDup(added) && Elems(added) !! rest && Elems(added) + rest == files
      decreases rest
    {
      var f :| f in rest;
      assert Elems(added + [f]) == Elems(added) + {f};
      rest := rest - {f};
      added := added + [f];
    }
  }

  lemma {:induction false} SingleLogsStop(g: Graph, docs: Docs, keys: seq<string>, i: nat, log: ReleaseFile)
    requires i <= |keys| && !AfterSingleLogs(g, docs, keys[..i], log).1
    ensures AfterSingleLogs(g, docs, keys, log) == AfterSingleLogs(g, docs, keys[..i], log)
    decreases |keys|
  {
    if i == |keys| {
      assert keys[..i] == keys;
    } else {
      assert DropLast(keys)[..i] == keys[..i];
      SingleLogsStop(g, docs, DropLast(keys), i, log);
    }
  }
}
