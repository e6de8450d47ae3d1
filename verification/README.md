# Garden Linux features, flavours and artifacts: a verified model

Garden Linux images are put together from *features*. A feature may include and exclude other
features; a request names a few features, and the tools work out everything that request pulls
in, a canonical name for the result, and where the built artifacts are kept. This project models
the parts of the repository in which that is decided and proves what they promise.

**The feature tool** (`bin/garden-feat.go`). `IncludeGraph.dfy` defines reachability and cycles by
paths. `Traversal.dfy` is the depth-first walk as a machine whose steps are proved to keep a stack
invariant; `PostorderWalk.dfy` holds the stack loop itself. Because a vertex is marked when it is
pushed, the walk is neither a topological sort nor a full cycle check. `WalkTheorems.dfy` proves what
it is: exactly which names it visits, that every reported loop is real, that the origin's own cycles
are always found, and that walking from every feature in turn orders all includes first if and only
if every include list is ordered (`OrderedAt`). Two concrete walks show both defects. `Expand.dfy`
and `Reduce.dfy` are `expandFeatures` and `reduceFeatures`, the latter blanking its input array in
place. Marking on push also makes expansion depend on the order of the request; `SharedWalk.dfy` proves
when it does not, for expansion, reduction and `cname`, by showing each walk to be its fresh walk
without what was seen before;
`ReduceTheorems.dfy` proves that reduction yields the least list with the same expansion,
with cycles elsewhere in the graph allowed. `FeatureOrder.dfy` and `Commands.dfy` are sorting,
filtering and the commands. `ShellVars.dfy` shows the explicit stack of `printShellVars` printing
what a recursive printer prints, for every order of visiting maps.

**The pipeline's model** (`ci/glci/model.py`, `ci/glci/util.py`). `FeatureModel.dfy` is the recursive
view of includes, the normalised modifiers and the canonical tuple that becomes a storage key.
The docstring of `canonicalised_features` says that the platform's dependencies are removed; the
code subtracts a set that holds a generator object and strings, which removes nothing. The model
follows the code, and `CanonicalExactlyWhen` states for which requests the tuple still depends
on the image alone. The docstring of `normalised_modifiers` says the result leaves out the
platform; a platform that is listed or included as a modifier stays in it, in the code and here.
`Agreement.dfy` relates the two languages. `Releases.dfy` has flavours, lookups and the
completeness check; `Calendar.dfy` the epoch arithmetic, together with that of `bin/garden-version`.

**The artifact store** (`ci/clean.py`, `ci/steps/*.py`). `Bucket.dfy` has one class for the bucket and a
method for each step, `Listing.dfy` the paged listing, `Cleaning.dfy` the purge and sweep jobs.
`StoreSafety.dfy` makes the steps a state machine, shows that the methods take these steps (`Perform`),
and proves over every run that no stored manifest names a missing object. `ReleaseLife.dfy` follows one
build over such runs: it stays as uploaded, and normalised searches find it; searches under other
spellings of the same image can miss it, because the storage key is made of the canonical tuple
described above, and it is shown exactly when they do.

**The patch transport** (`ci/steps.py`, `ci/steps/clone_repo_step.py`) is in `PatchTransport.dfy`.

Conventions and assumptions:

- A walk's callbacks are its results: `emitted` are the vertices passed to `processVertex`, in order,
  and `refused` the names `allowVertex` turned down. Both callers allow exactly the names not ignored,
  so the callback is the set `ignored`.
- Iteration over Go maps and Python sets is an arbitrary choice; results that would show it are stated as sets.
- The bucket is a map. A page of a listing is a non-empty block of at most 1000 of the sorted keys after
  the token, and a token comes with it exactly when keys remain. Each pipeline step is atomic, and
  the features are the same throughout a run of steps.
- Hash digests, publishing results, time stamps and the current time are parameters.
- Feature names are unique. Names that differ in case only are covered by `Distinguishes(Upper, ...)` where
  it matters; elsewhere a tie in the upper-case order is broken by the plain order.
- The shell script runs in UTC.

Check with `dafny verify dfyconfig.toml`.

## Model

| member | source | states |
|---|---|---|
| PostorderWalk.PostorderDFS | bin/garden-feat.go:624-676 | the stack loop, with a shared or a fresh seen set, computes the walk `Dfs`: error, processed vertices in order, refused names, and the updated seen set |
| PostorderWalk.PushUnseen | bin/garden-feat.go:654-664 | the scan from the last include to the first stops at a hot vertex and pushes what is unseen |
| PostorderWalk.IncludeProcessedLate | bin/garden-feat.go:659-663 | on A:[B,C], B:[C] the walk succeeds and processes B before C, although B includes C |
| PostorderWalk.CycleUnreported | bin/garden-feat.go:655-663 | on A:[B,C], B:[C], C:[B] the walk from A reports nothing although B is on a cycle |
| Traversal.StepShrinks | bin/garden-feat.go:643-673 | every step marks a new name or shortens the stack, on every graph, so the loop ends |
| Traversal.StepKeeps | bin/garden-feat.go:643-673 | every step keeps the stack discipline: marked names split into old, waiting, processed and refused; waiting entries were pushed by the nearest hot entry below, earliest include on top; scanned vertices do not include the origin |
| Traversal.ScanOrder | bin/garden-feat.go:654-664 | names pushed by one scan lie on the stack in reverse order of their last occurrence |
| WalkTheorems.DfsVisits | bin/garden-feat.go:624-676 | after finished walks, a successful walk processes exactly the new names its origin reaches through non-ignored includes, once each, and refuses exactly the new ignored names it meets |
| WalkTheorems.HotPath | bin/garden-feat.go:651-667 | the hot stack entries form a path of includes |
| WalkTheorems.LoopCheckSound | bin/garden-feat.go:655-657 | an error on a known origin names a feature on a real cycle of non-ignored includes below the origin |
| WalkTheorems.LoopCheckCompleteForOrigin | bin/garden-feat.go:637-675 | success with a fresh seen set means that the origin lies on no cycle |
| WalkTheorems.LoopCheckExactOverAllOrigins | bin/garden-feat.go:624-676 | walking afresh from every feature succeeds everywhere if and only if the graph has no cycle |
| WalkTheorems.LoopCheckExactWhenOrdered | bin/garden-feat.go:624-676 | below an origin with ordered include lists the check fails exactly if a reachable feature is on a cycle |
| WalkTheorems.DfsOrdered | bin/garden-feat.go:643-673 | with ordered include lists every processed name comes after all non-ignored names it includes, also when earlier walks share the seen set |
| WalkTheorems.OrderExactOverAllOrigins | bin/garden-feat.go:643-673 | without cycles, every single-origin walk puts includes first if and only if in every include list no entry is reachable from one whose last occurrence is earlier |
| WalkTheorems.IncludesFirstAcyclic | bin/garden-feat.go:624-676 | a list that puts includes first has no cycle through its members |
| Expand.ExpandFeatures | bin/garden-feat.go:678-712 | the loop over roots with its shared sets computes `Expanded`: list and ignored names, or the first error |
| Expand.WalkAllVisits | bin/garden-feat.go:684-703 | despite the shared seen set: each feature reached from some root exactly once, and exactly the ignored names met |
| Expand.ExpandedExactly | bin/garden-feat.go:678-712 | on success the list has no duplicates, its members are the closure of the request, and the returned ignore set is exact |
| Expand.WalkAllErrors | bin/garden-feat.go:684-703 | a traversal error names a requested feature that does not exist or one on a real cycle below the request |
| Expand.ExclusionDependsOnSet | bin/garden-feat.go:693-709 | once traversal succeeds, failure happens if and only if a member of the expanded set excludes a member |
| Expand.FirstExcludedNamed | bin/garden-feat.go:705-709 | the error names the first expanded feature that another one excludes |
| Expand.ExpandErrors | bin/garden-feat.go:678-712 | what an error says is so: a requested feature is missing, a feature below the request is on a cycle, or one is excluded by another |
| Expand.ExpandedOnAcyclic | bin/garden-feat.go:678-712 | without cycles expansion succeeds exactly if all requested features exist and the closure does not exclude itself |
| Expand.ExpandedInOrder | bin/garden-feat.go:643-703 | with ordered include lists below the request, includes come first in the expanded list and what is visited has no cycle |
| SharedWalk.SharedWalkIsFreshRest | bin/garden-feat.go:643-703 | after earlier walks a walk succeeds whenever it would succeed afresh, and processes, in the same order, what the fresh walk processes and earlier ones have not seen |
| SharedWalk.AnyOrderExactly | bin/garden-feat.go:684-703 | the requested features can be walked in every order if and only if each of them can be walked afresh |
| SharedWalk.ExpandedAppends | bin/garden-feat.go:684-703 | the next requested feature adds what its own walk processes, in that order, without what the earlier ones pull in |
| SharedWalk.OrderMatters | bin/garden-feat.go:655-663 | on A:[B,C], B:[C], C:[B] the request A,B is walked without error and B,A is refused as a loop |
| Reduce.ReduceFeatures | bin/garden-feat.go:714-776 | in-place blanking, walks, exclusion check and the listing of the minimal set in arbitrary order, with the final contents of the input array and every error |
| Reduce.DropImplied | bin/garden-feat.go:740-758 | the processing callback of one walk: later entries blanked, minimal shrunk, visited and excluded grown |
| ReduceTheorems.WalkKeeps | bin/garden-feat.go:735-762 | one round of the scan keeps: minimal is what no different walked feature reaches, entries ahead are blank exactly if implied, walked features are on no cycle |
| ReduceTheorems.ReducedExactly | bin/garden-feat.go:714-776 | on success the result is exactly the listed non-ignored features no different one reaches, each of which can be walked afresh; they cover the list, and visited is exactly what is implied; cyclic graphs included |
| ReduceTheorems.ReducedExpandsAlike | bin/garden-feat.go:678-776 | whatever was expanded and reduced, the reduced features, in any order, can be expanded again and give the same features, on cyclic graphs as well |
| ReduceTheorems.ReducedTwice | bin/garden-feat.go:714-776 | the reduced features can be reduced again, which changes nothing |
| ReduceTheorems.AnyOrderReducesExactly | bin/garden-feat.go:714-776 | every order of the requested features is reduced without traversal error if and only if each one that counts can be walked afresh |
| ReduceTheorems.ReductionIsLeast | bin/garden-feat.go:678-776 | every set of features with that expansion contains the reduced set, so no proper subset has it |
| ReduceTheorems.ReductionIsCanonical | bin/garden-feat.go:714-776 | two lists reduce to the same set if and only if they expand to the same set |
| ReduceTheorems.ScanErrors | bin/garden-feat.go:737-761 | a traversal error names a listed feature that does not exist or one on a real cycle below a listed feature |
| ReduceTheorems.ReducedOnAcyclic | bin/garden-feat.go:721-762 | without cycles reduction fails to traverse only for want of a listed feature |
| ReduceTheorems.ExclusionCheckRedundant | bin/garden-feat.go:753-768 | after a successful expansion the exclusion check of the reduction cannot fail |
| FeatureOrder.SortFeatures | bin/garden-feat.go:402-437 | the pass over the list, its errors in order, the optional strict sorting |
| FeatureOrder.SortedExactly | bin/garden-feat.go:402-423 | sorting succeeds exactly if all features exist and, when validated, there is exactly one platform |
| FeatureOrder.SortedIsPartition | bin/garden-feat.go:425-436 | the result is a permutation; unless strict it is the stable partition into platforms, others and flags, and strictly each of these parts is in byte order; a validated platform comes first |
| FeatureOrder.SortedApart | bin/garden-feat.go:402-436 | in every sorted list platforms come before all else and flags after it |
| FeatureOrder.OfKindStable | bin/garden-feat.go:425-430 | features of one kind keep their order |
| FeatureOrder.SplitErrors | bin/garden-feat.go:402-423 | the error names the first missing feature, or the first platform and the one it meets |
| FeatureOrder.FilterByType | bin/garden-feat.go:439-456 | the nested loops select by type, failing at the first missing feature |
| FeatureOrder.FilteredSelects | bin/garden-feat.go:439-456 | filtering by different types takes out the entries of other types and keeps the order of the rest |
| FeatureOrder.FilteredErrors | bin/garden-feat.go:439-456 | the error names the first missing feature |
| FeatureOrder.ElementsAndFlagsShuffle | bin/garden-feat.go:439-456 | with the three admitted types the selected elements and flags shuffle back into the list, orders kept |
| Commands.FeaturesCmd | bin/garden-feat.go:174-196 | succeeds exactly if all requested features exist, the walks by kind find no loop, and what is pulled in exists, does not exclude itself and has one platform; then prints that, each feature once, in the order of the walks, which with ordered include lists puts includes first |
| Commands.FilteredCmd | bin/garden-feat.go:145-172 | `elements`, and `flags` at lines 198-225, succeed exactly if `features` does, and print what is left of its output, in order, without the other types |
| Commands.FeaturesPrintedExactly | bin/garden-feat.go:174-196 | `features` prints the closure of the request, each feature once, exactly if that is a valid image and the walks succeed |
| Commands.ElementsAndFlagsPartition | bin/garden-feat.go:145-225 | the outputs of `elements` and `flags` are disjoint and partition that of `features`, orders kept |
| Commands.PlatformCmd | bin/garden-feat.go:293-310 | succeeds exactly if the walks do and the request pulls in a valid image, and then prints its one platform |
| Commands.PlatformPrintedExactly | bin/garden-feat.go:293-310 | `platform` prints the one platform in the expanded set, exactly if that is a valid image |
| Commands.IgnoreCmd | bin/garden-feat.go:227-250 | prints exactly the ignored names met, without duplicates, in byte order |
| Commands.CnameCmd | bin/garden-feat.go:114-143 | when a name is printed, and that it is made of the sorted minimal features of the request |
| Commands.PrintCname | bin/garden-feat.go:478-501 | a dash goes before every non-flag but the first entry; printing stops at a missing feature |
| Commands.NameTextGrows | bin/garden-feat.go:478-501 | one more feature is put behind the text, a flag directly, anything else after a dash |
| Commands.PlatformElementFlag | bin/garden-feat.go:478-501 | a platform, an element and a flag are printed as p-e_f |
| Commands.StrictSortIsNameSequence | bin/garden-feat.go:425-436 | strict sorting gives one sequence for every order in which the map delivered the features |
| Commands.CnameIsCanonical | bin/garden-feat.go:114-143 | two requests are named by the same sequence of features if and only if they expand to the same set |
| Commands.PrintedNameIsCanonical | bin/garden-feat.go:478-501 | with features named as the shipped ones are, the printed names too are equal if and only if the expanded sets are |
| Commands.PrintedNamesCollide | bin/garden-feat.go:478-501 | in a catalog with dashes in names, the requests p,a-b and p,a,b succeed, pull in different features and are printed alike |
| Commands.CnameRoundTrip | bin/garden-feat.go:114-143 | asking for an image by its canonical name succeeds, expands to the same features, is named by the same sequence again, and every request that does contains it; cyclic graphs included |
| Commands.CnameInAnyOrderExactly | bin/garden-feat.go:114-143 | `cname` succeeds on every order of the request if and only if that pulls in a valid image and each requested feature can be walked afresh |
| Commands.CnameOnAcyclic | bin/garden-feat.go:114-143 | without cycles `cname` succeeds exactly if expanding and validating do |
| ShellVars.PrintShellVars | bin/garden-feat.go:503-622 | the stack loop ends and prints what the recursive preorder printer prints, for every map order, each header naming its children in the order of their blocks; the root names its children by their keys |
| ShellVars.MapPrinted | bin/garden-feat.go:586-612 | a map prints its name, `_` at the root, and for each key, in the order of the blocks, that key behind the name of the map |
| ShellVars.ListPrinted | bin/garden-feat.go:549-584 | a list prints for each item the name of the list, an underscore, and the scalar `name` of the item or only without one its index in decimal, in the order of the blocks |
| ShellVars.ScalarsPrinted | bin/garden-feat.go:516-547 | a scalar prints one assignment, a list of scalars one array, and what is unsupported nothing |
| ShellVars.PrintNode | bin/garden-feat.go:516-618 | the lines of one node followed by the blocks of its children are a print of the node, and the children weigh less |
| ShellVars.PushReversed | bin/garden-feat.go:582-584 | pushing from last to first makes the first child come off the stack first |
| FeatureModel.IncludedExactly | ci/glci/model.py:121-133 | the recursion ends normally exactly if nothing below is missing or cyclic, and yields exactly the proper transitive includes |
| FeatureModel.NormalisedModifiers | ci/glci/model.py:436-454 | the loops over sets raise exactly for unusable requests and return each modifier, its includes and those of the platform once, names with an underscore after those with a letter |
| FeatureModel.NormalIdempotent | ci/glci/model.py:436-454 | normalising twice changes nothing |
| FeatureModel.CanonicalisedFeatures | ci/glci/model.py:466-488 | the platform followed by the modifiers that no listed modifier includes, names with an underscore after those with a letter |
| FeatureModel.CaseIgnored | ci/glci/model.py:452-454 | names that differ only in case have the same sort key |
| FeatureModel.CanonicalIsMinimal | ci/glci/model.py:475-483 | these are the modifiers no different listed modifier reaches |
| FeatureModel.CanonicalGenerates | ci/glci/model.py:466-488 | the retained modifiers still imply everything that was listed, and nothing more |
| FeatureModel.CanonicalIdentifies | ci/glci/model.py:466-488 | equal tuples for one platform mean equal normalised modifiers |
| FeatureModel.CanonicalExactlyWhen | ci/glci/model.py:478-483 | every spelling of the same image has the same canonical set if and only if the listed modifiers include all that the platform includes |
| FeatureModel.CanonicalDiffers | ci/glci/model.py:478-479 | otherwise adding or dropping a feature the platform brings along changes the canonical set but not the image |
| FeatureModel.CloudListedOrNot | ci/glci/model.py:478-483 | aws with and without the cloud it includes: the same normalised modifiers, two canonical tuples |
| Agreement.LanguagesAgree | ci/glci/model.py:436-454 | on every catalog: the pipeline accepts a request that does not exclude itself if and only if the Go tool accepts it and nothing in it is on a cycle; whatever is expanded is the normalised modifiers plus the platform |
| Agreement.LanguagesAgreeOnAcyclic | ci/glci/model.py:436-454 | without cycles the tools accept the same requests, except those that exclude themselves |
| Agreement.CanonicalNamesRelate | ci/glci/model.py:475-483 | the Go minimal set is the canonical one without what the platform or a modifier includes |
| Agreement.NormalTupleUnique | ci/glci/model.py:452-454 | with names distinct up to case the normalised tuple is unique, idempotent and blind to input order |
| Releases.ManifestKeyOf | ci/glci/model.py:266-290 | the storage key is built from the canonical tuple, version and short commit, and raises exactly for unusable identifiers |
| Releases.KeyOfElementAndFlag | ci/glci/model.py:266-290 | a key spelled out: platform, element, flag, version and six characters of the commit, joined by dashes |
| Releases.NormalisedIdentifier | ci/glci/model.py:457-463 | the identifier with its modifiers normalised |
| Releases.Flavours | ci/glci/model.py:209-221 | the product of the declared combinations in order, each normalised; succeeds exactly if all names resolve, each platform is one, and nothing pulled in besides is a platform (lines 170-183) |
| Releases.DeclaredExactly | ci/glci/model.py:209-221 | a flavour is declared if and only if some combination offers its architecture, platform and modifiers |
| Releases.DeclaredLength | ci/glci/model.py:209-221 | the number of declared flavours is the sum of the products of the combinations |
| Releases.FindReleaseIn | ci/glci/util.py:298-328 | a manifest is found exactly if it is stored at the key and normalises to the searched identifier |
| Releases.LookupCases | ci/glci/util.py:298-328 | when a manifest is found, when none is, and when the lookup raises |
| Releases.FindReleases | ci/glci/util.py:331-360 | the set of flavours is visited once each, in some order, and the releases found are returned in that order |
| Releases.CountExactlyWhen | ci/steps/promote_step.py:142-156 | as many releases as declared combinations are found if and only if no two combinations normalise to one flavour and each flavour has its release |
| Releases.CountMeansCoverage | ci/steps/promote_step.py:142-156 | then there is exactly one manifest per flavour, of the promoted commit, version and epoch, and its normalised identifier is the one searched for |
| Calendar.OrdinalOfAddDays | ci/glci/model.py:697-721 | counting days by formula and walking the Gregorian calendar day by day agree |
| Calendar.SnapshotDefinedExactly | ci/glci/model.py:707-722 | a snapshot date exists exactly for epochs from 1 to 2914544, the last day of year 9999 |
| Calendar.EpochRoundTrip | ci/glci/model.py:684-722 | the epoch of the parsed snapshot date of an epoch is that epoch |
| Calendar.DateRoundTrip | ci/glci/model.py:684-722 | the snapshot date of the epoch of a date is that date |
| Calendar.SnapshotsSortAsEpochs | ci/glci/model.py:707-722 | the texts sort exactly as the epochs do |
| Calendar.ScriptAgrees | bin/garden-version:47-69 | `--date` of a major version is its snapshot date, and a snapshot date given to the script is taken for a date and converts back to the same major version |
| Calendar.FirstDay | ci/glci/model.py:684-722 | epoch 1 is 20200401, and major version 0 of the script is 20200331 |
| Calendar.VersionsBelowLimit | bin/garden-version:47-51 | numbers below ten million are versions and larger ones dates |
| Calendar.GregorianMonths | ci/glci/model.py:707-722 | the lengths of the months, leap years included |
| Calendar.KnownOrdinals | ci/glci/model.py:697-721 | day numbers known from elsewhere, across a century without a leap day |
| Listing.NextPage | ci/clean.py:163-200 | the next listing starts where the page stopped |
| Bucket.EnumerateReleases | ci/glci/util.py:257-295 | page by page, the manifests under the prefix are read in key order, up to the first that cannot be |
| Bucket.EnumerateReleaseSets | ci/glci/util.py:385-430 | likewise for sets, skipping directories |
| Cleaning.ReadMember | ci/glci/util.py:257-295 | exactly those entries are read up to whose keys everything listed can be read |
| Cleaning.SinglesEnumerated | ci/glci/util.py:257-295 | reading succeeds exactly if all keys hold manifests, and then delivers each once in key order |
| Cleaning.SetsEnumerated | ci/glci/util.py:385-430 | likewise for sets, with directories passed over |
| Bucket.Store.UploadResults | ci/steps/upload_results_step.py:23-146 | every content is stored under its digest, then the manifest that lists all files with their names and says what was built, unless publishing an oci image or computing the key raises; nothing else is touched |
| Bucket.Store.PromoteSingle | ci/steps/promote_step.py:33-110 | an unpublished release that is found is written back with the new metadata, on azure with the provisional one when there is none; otherwise, and for a name that is no platform, nothing is written |
| Bucket.Store.Promote | ci/steps/promote_step.py:113-194 | succeeds exactly if all flavours can be built, no two combinations normalise to one flavour and each flavour has its release; then a set is stored with exactly one manifest per flavour, otherwise nothing changes |
| Bucket.Store.UploadTestResults | ci/steps/upload_test_results.py:67-101 | the manifest found gets the test result |
| Bucket.Store.AttachLogs | ci/steps/attach_logs.py:41-207 | the log object, then the named single manifests in turn, then the set with the logs of its flavours' manifests; succeeds exactly if every named manifest can be rewritten and the set, where there is one, and its flavours' manifests can be read |
| Cleaning.MarkReferenced | ci/clean.py:107-156 | marks exactly the keys in paths of single manifests and in paths and logs of sets, for this bucket |
| Cleaning.CleanOrphanedObjects | ci/clean.py:135-200 | deleting page by page ends with exactly the keys outside the prefix or named by a manifest, by a manifest in a set or in the logs of a set; a dry run changes nothing |
| Cleaning.PageSwept | ci/clean.py:163-200 | deleting the loose keys of a page moves the sweep on to the next token, or completes it |
| Cleaning.CleanSingleReleaseManifests | ci/clean.py:69-104 | exactly the single manifests older than the limit go, of those listed before one that cannot be read, if any |
| Cleaning.CleanReleaseManifestSets | ci/clean.py:15-66 | exactly the non-empty sets whose first manifest is not younger than the limit go, of those listed before one that cannot be read, if any |
| StoreSafety.NextKeepsSane | ci/steps/upload_results_step.py:103-146 | every step, of every script listed here, keeps all paths of stored manifests and sets pointing at stored objects |
| StoreSafety.Perform | ci/clean.py:15-200 | each script and clean-up job takes its step of the state machine, exactly when it should: sets if complete, sweeps if everything can be read, purges unless dry |
| StoreSafety.RunsAreSafe | ci/clean.py:15-200 | over every run of uploads, promotions, log and test steps, purges and sweeps, no stored manifest or set names a missing object |
| StoreSafety.SweepSane | ci/clean.py:135-200 | a sweep spares whatever any remaining manifest names, shared objects included |
| StoreSafety.ObjectsLostOnlyUnnamed | ci/clean.py:181-196 | an object is lost only to a sweep, and only while nothing names it |
| StoreSafety.SetLogsStay | ci/steps/attach_logs.py:244-247 | a stored log file named by a stored set stays |
| StoreSafety.SweepLeavesNamed | ci/clean.py:135-200 | after a sweep exactly the named objects are left, and a second sweep finds nothing |
| ReleaseLife.NextKeepsReleases | ci/steps/promote_step.py:99-110 | after every step each single manifest sits at its own key; read-modify-write hits the key that was read, build data and earlier publications survive, and only an upload to the key, age, or a sweep of its prefix ends a manifest |
| ReleaseLife.LogsAttachedExactly | ci/steps/attach_logs.py:41-207 | the log file is stored, is in every named manifest, and the set has it with the logs of all manifests of its flavours |
| ReleaseLife.SetLogsWritten | ci/steps/attach_logs.py:186-207 | the set keeps its manifests and logs and receives exactly these |
| ReleaseLife.BlankKeys | ci/steps/attach_logs.py:48-49 | empty and white keys are skipped, keys with a visible character are not |
| ReleaseLife.NextHolds | ci/steps/upload_results_step.py:29-56 | a stored file keeps its content under every step that does not remove it or store other content under its digest |
| ReleaseLife.AliveOverRuns | ci/clean.py:69-200 | over every run of steps that spare it, an uploaded build keeps its manifest and all its files, whatever else is promoted, tested, logged, purged or swept |
| ReleaseLife.BuildServedOverRuns | ci/glci/util.py:298-328 | over all such runs a spelling of its identifier with the canonical set of the upload finds the build, each path leading to the bytes uploaded; with dash-free feature names no other spelling does |
| ReleaseLife.NormalisedBuildServed | ci/steps/promote_step.py:41-59 | so promotion, which searches by the normalised form of any spelling, always finds a build uploaded with normalised modifiers |
| ReleaseLife.DashedInjective | ci/glci/model.py:281-286 | dash-free names joined by dashes can be told apart again |
| ReleaseLife.FoundExactlyWhen | ci/glci/util.py:298-328 | with dash-free feature names, a spelling of its identifier finds the uploaded build if and only if it has the canonical set the build was uploaded with |
| ReleaseLife.FoundBySpellingsExactly | ci/glci/model.py:478-483 | so every spelling finds it if and only if the modifiers it was uploaded with include all that the platform includes |
| PatchTransport.CutLines | ci/steps.py:58-61 | lines of 64 characters but for the last, none empty, nothing lost |
| PatchTransport.WrappedIsTerminated | ci/steps.py:58-64 | the wrapped text is these lines, each ended by a line break |
| PatchTransport.RenderedText | ci/steps.py:149-152 | the line put in front of the script |
| PatchTransport.PatchCache.CreatePatch | ci/steps.py:34-66 | the encoded patch in lines, cached for good; a fresh one, rendered and decoded, is the diff and a line break |
| PatchTransport.ApplyPatch | ci/steps/clone_repo_step.py:14-19 | from the rendered line of an encoded patch exactly the patch; from any other line what it decodes to, if anything |
| PatchTransport.DecodeEncode | ci/steps/clone_repo_step.py:18 | the lenient decoder inverts base64 on every byte sequence |
| PatchTransport.SymbolsInOrder | ci/steps.py:58-59 | the 64 symbols are those of RFC 4648 section 4 |
| PatchTransport.EncodedVectors | ci/steps.py:58-59 | the encoder on test vectors of RFC 4648 section 10 and on the last two symbols |
| PatchTransport.PatchRoundTrip | ci/steps.py:58-66 | encoding, cutting into lines, rendering as a literal (lines 149-152), reading it back and decoding returns the original bytes |

## Left out

- Reading and merging YAML, command lines, printing as I/O, `params` as a command: libraries; the model starts from a built feature map.
- File names are `string`s of characters: UTF-8 is not modelled.
- The recursion limit on deep but finite include chains: only endless recursion raises in the model.
- Cloud uploads, publishing, Tekton rendering, notifications: services that are not visible; publishing results are parameters.
- Build targets and the other early exits of the steps that change nothing.
- Package builds in `ci/steps/attach_logs.py`: they write only under `logs/`, in a bucket of their own.
- The return value that fails a release build whose set is missing: it changes nothing in the bucket.
- The selection of flavours by platform in `ci/steps/attach_logs.py:170-172`: the step is given the selected flavours.
- Overlap of a sweep with a running step: steps are atomic.
- Logs of single manifests: the sweep does not mark them, so nothing is claimed about them.
- Calendar.ScriptAgrees: covers inputs of digits without a leading zero; dotted versions, `dev`, minor versions and other time zones are not modelled.
- Times of day and ISO 8601 forms other than the basic date: they only reach `gardenlinux_epoch` from outside.
- Commands.PrintedNameIsCanonical: covers plain names (flags with one leading underscore, no dashes); with others the printed text can be ambiguous, though the sequence behind it is not.
- Escapes other than the line continuation in a Python literal: an encoded patch contains none.
