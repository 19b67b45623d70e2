# depiction-map, modelled in Dafny

The depiction-map service collects records of depictions of dragons from two
sources. One is a Wikidata SPARQL query and the other is an OpenStreetMap
Overpass query. Each source stores its records in one JSON file per source,
committed to a git repository. For every depiction category the service
publishes one merged list, and a map page shows it.

This project models the core of that service and proves what the code
promises about it:

- **Records** (`records.dfy`, `entry_set.dfy`). `MapEntry` with the total
  order that `#[derive(Ord)]` gives it, `post_process`, and the `BTreeSet`
  in which every source keeps its records. The set is modelled as a strictly
  sorted sequence.
- **Overrides** (`overrides.rs` → `overrides.dfy`). The per-identity lookup
  and the patch of a record's image. A closed form of the effect of several
  overrides gives idempotence of the whole merge step.
- **Sources** (`wikidata.dfy`, `openstreetmap.dfy`, `fetch_data.dfy`). How a
  SPARQL binding or an Overpass element becomes a record: `parse_point`, the
  coordinate priority, `is_true`/`is_false`, the QID, the exhibit flag, and
  `guess_nature_from_tags`. The network requests are outside the model, so
  each source starts from the decoded answer.
- **Storage and git** (`filesystem.dfy`, `storage.dfy`, `git_util.dfy`).
  - The file system is a class holding a map from paths to bytes.
  - The repository is a class holding an index and a history of commits.
  - `Storage` derives its two paths. It loads with the private fallback and
    saves through a temporary file plus a rename.
  - `make_commit` stages a file and commits only a changed tree.
- **The set of sources** (`fetched_data_set.dfy`).
  - The refresh decision and the update of one source.
  - The merged list of a category: every source that depicts it, in slot
    order, with overrides applied.
  - The union of categories and `add_fetcher`.
- **Published snapshots** (`display_data_set.dfy`, `depict_app_data.dfy`).
  - The category-to-snapshot table and `DepictAppData::new`.
  - One pass of the update thread's loop over the sources.
- **The map page** (`code_js.dfy`). `escapeHtml` is proved equal to escaping
  each character on its own, and its output holds no `<`, `>`, `"` or `'`.
  Also modelled: the popup markup and the marker loop of `refresh_map`.

Code that updates state step by step is modelled imperatively: classes with
`modifies` clauses and loops with invariants. Each method is proved against a
specification function or predicate, and lemmas state the properties of those
functions. Pure code is modelled as functions and lemmas.

Things outside the program are parameters of the model:

- the clock (`now`, `nows`);
- the outcome of each fetch (`fetched`);
- float parsing (`FloatParser`) and URL parsing (`UrlParser`);
- the JSON codec of the storage (`StorageCodec`);
- the JSON encoder of snapshots (`JsonEncoder`).

I/O that may fail for reasons outside the model is chosen nondeterministically
in the method. Examples are a write, a rename, and git writing its index or a
commit. The contract says what each outcome may have changed.

The sources do not agree with each other on one point, the image of a
record. `src/overrides.rs:17-21` uses an image struct with a url, a credit
url and a credit text. `src/map_entry.rs:13-15` uses three separate fields.
The model keeps the struct: `image: Option<ImageSource>`. The fields
`image_source_url` and `image_source_text` of `map_entry.rs` become that
image's `creditUrl` and `creditText`.

The refresh rule at `src/fetched_data_set.rs:30` uses a strict `<`, so
`now == last_updated + retry_every` is not yet due and one nanosecond later
is. `ShouldBeUpdated` states both sides of that boundary.

## Model

| member | source | states |
|---|---|---|
| Records.CompareEqualIff | src/map_entry.rs:8-20 | two records compare Equal under the derived order exactly when all their fields are equal |
| Records.CompareLaws | src/map_entry.rs:8-20 | at any three records the derived lexicographic order (pos, name, location, image, source url, exhibit flag, nature, ids) is antisymmetric (swapping arguments flips the result), transitive, and Equal only on equal records |
| Records.CompareIsTotalOrder | src/map_entry.rs:8-20 | the derived order of MapEntry is a total order |
| Records.PostProcess | src/map_entry.rs:24-45 | only the image's credit text can change; it becomes "From " + domain exactly when the text is missing and the credit url parses with a domain; in every other case (text present, no credit url, parse failure, no domain) the record is unchanged |
| Records.PostProcessIdempotent | src/map_entry.rs:24-45 | post-processing twice gives the same as once |
| EntrySets.Insert | src/storage.rs:23-25 | BTreeSet insert: the result is sorted and duplicate-free, holds exactly the old elements plus x, is the old set when x was present, and otherwise has one more element |
| EntrySets.Collect | src/fetch_data_openstreetmap.rs:38-70 | collecting into a BTreeSet keeps exactly the elements of the input, whatever their order or repetitions |
| EntrySets.SameElementsSameSet | src/storage.rs:23-25 | two sets with the same elements have the same representation, so a set does not depend on insertion order |
| Overrides.GetOverride | src/overrides.rs:43-48 | an OSM id is found exactly when it is a key of the OSM table, and a Wikidata id exactly when it is a key of the Wikidata table; the entry returned is the table's |
| Overrides.GetOverrideUsesOwnTable | src/overrides.rs:43-48 | the lookup of an id is unaffected by the table of the other kind |
| Overrides.OverrideMapEntry | src/overrides.rs:15-33 | only the image changes; a local image gives the url "/images/" + name with only the override's credits; with no local image and no image nothing changes; otherwise the url is kept and each credit is replaced only when the override supplies one |
| Overrides.OverrideMapEntryIdempotent | src/overrides.rs:15-33 | applying the same override twice equals applying it once |
| Overrides.EffectOfOverride | src/overrides.rs:15-33 | an override amounts to running its image effect (replace, or amend the credits) on the image, leaving the rest of the record alone |
| Overrides.ApplyOverridesEffect | src/fetched_data_set.rs:159-165 | applying the overrides of all ids in order leaves every field but the image alone and runs their composed effect on the image |
| Overrides.MergeEntryTouchesOnlyImage | src/fetched_data_set.rs:159-165 | the published copy of a record differs from the stored one only in its image, and keeps its ids |
| Overrides.MergeEntryNoOverride | src/fetched_data_set.rs:160-165 | a record with no override for any of its ids is published unchanged |
| Overrides.MergeEntryIdempotent | src/fetched_data_set.rs:159-165 | applying the override table to an already merged record changes nothing more |
| WikidataSparql.ParsePoint | src/fetch_data_wikidata_sparql.rs:11-21 | a point is only ever read from a value that contains "Point(" |
| WikidataSparql.ParsePointReadsTwoNumbers | src/fetch_data_wikidata_sparql.rs:11-21 | for "…Point(a b …)" the result is (b, a) when both tokens parse and None otherwise; tokens after the second are ignored |
| WikidataSparql.ParsePointNeedsTwoNumbers | src/fetch_data_wikidata_sparql.rs:14-16 | a point with a single token between the parentheses gives None |
| WikidataSparql.IsTrue | src/fetch_data_wikidata_sparql.rs:37-42 | true only for a present value of four characters (whose lower-case form is "true") |
| WikidataSparql.IsFalse | src/fetch_data_wikidata_sparql.rs:30-35 | true only for a present value of five characters (whose lower-case form is "false") |
| WikidataSparql.TrueFalseProperties | src/fetch_data_wikidata_sparql.rs:30-42 | a value is never both true and false, a missing value is neither, and both tests ignore case |
| WikidataSparql.FirstValue | src/fetch_data_wikidata_sparql.rs:63-79 | None exactly when no candidate is present with a value; otherwise the value of the first candidate that is present with a value, all earlier ones lacking one |
| WikidataSparql.GetCoordValue | src/fetch_data_wikidata_sparql.rs:63-79 | the early-return loop over coords, P1_0, P2_0, P1_1, C1_0_0, C1_0_1 returns the first bound value in that order |
| WikidataSparql.IsInExhibit | src/fetch_data_wikidata_sparql.rs:81-86 | a record is in an exhibit exactly when isInExhibit is true or coords has no value |
| WikidataSparql.LastSegmentIsSuffix | src/fetch_data_wikidata_sparql.rs:157-160 | the QID (the last "/"-piece, which always exists) is the suffix of the item URL after its last "/" |
| WikidataSparql.CommonsPage | src/fetch_data_wikidata_sparql.rs:166-178 | there is a credit page exactly when the image url parses and has a path segment; it is "https://commons.wikimedia.org/wiki/File:" followed by the last segment |
| WikidataSparql.MakeEntry | src/fetch_data_wikidata_sparql.rs:147-189 | a binding fails exactly when it has no item URL; otherwise the record has the item URL as source url, [Wikidata(qid)] as ids, the label, place and nature values, the exhibit rule, the parsed first coordinate, and an image exactly when one is bound, credited "from Wikimedia Commons" and to the Commons page the image url names |
| WikidataSparql.CollectEntries | src/fetch_data_wikidata_sparql.rs:146-192 | the fetch fails exactly when some binding has no item URL; otherwise the set holds exactly the records of the bindings |
| WikidataSparql.NewFetcher | src/fetch_data_wikidata_sparql.rs:195-201 | the source retries every 3·3600 seconds and keeps its title |
| OpenStreetMap.GuessNatureFromTags | src/fetch_data_openstreetmap.rs:10-18 | the loop over the tags returns the artwork_type value when that tag exists and None otherwise |
| OpenStreetMap.ElementToEntry | src/fetch_data_openstreetmap.rs:39-69 | only nodes yield a record; it has the node's position, its name tag, the node URL, no image, no location name, not in an exhibit, the artwork type as nature, and [Osm(id)] as ids |
| OpenStreetMap.NodeUrlNamesTheNode | src/fetch_data_openstreetmap.rs:63 | the source url is the node prefix followed by digits that read back as the node id |
| OpenStreetMap.NodeEntries | src/fetch_data_openstreetmap.rs:38-69 | a record is in the filter_map output exactly when some element maps to it |
| OpenStreetMap.FetchEntries | src/fetch_data_openstreetmap.rs:38-70 | the collected set holds exactly the records of the nodes of the answer |
| OpenStreetMap.NewFetcher | src/fetch_data_openstreetmap.rs:73-79 | the source retries every 3·3600 seconds and keeps its title |
| MapPage.EscapeHtmlIsPerCharacter | static/code.js:2-9 | the chain of replaces equals escaping each character on its own, since "&" goes first and later entities are not escaped again |
| MapPage.EscapeHtmlOneChar | static/code.js:3-8 | each of & < > " ' becomes its entity and every other character stays |
| MapPage.EscapeHtmlConcat | static/code.js:3-8 | escaping distributes over concatenation |
| MapPage.EscapeHtmlIsSafe | static/code.js:2-9 | the output holds no <, >, " or ', and a text without special characters comes back unchanged |
| MapPage.EscapeUnknownName | static/code.js:74-77 | the placeholder "no/unknown name" is kept as it is by escaping |
| MapPage.PopupHtml | static/code.js:83-110 | a record has a popup exactly when it has a source url (escaping null throws) |
| MapPage.Markers | static/code.js:67-118 | the refresh aborts exactly when a record it does not skip has no popup; with exhibits kept it yields one marker per record, in order, at the record's position with its popup |
| MapPage.OneMarkerPerRecord | static/code.js:59-118 | with ignore_exhibits false, the page shows one marker per published record in order, or aborts exactly when some record lacks a source url |
| MapPage.RefreshMap | static/code.js:67-118 | the loop of refresh_map builds exactly the markers that Markers specifies |
| MapPage.BuildPopup | static/code.js:74-110 | the popup built by += is the name line (placeholder for a null name), then the location only when present, then the link, as PopupHtml specifies |
| FileSystems.SafeJoin | src/storage.rs:41-58 | a join fails exactly for an absolute name or one with a ".." component; a successful join extends the directory with components that are never "", "." or ".." |
| FileSystems.SafeJoinPlainName | src/storage.rs:41-58 | a plain file name joins to the directory plus that one component |
| FileSystems.SidecarPathsDistinct | src/storage.rs:41-58 | for any accepted name the public file, the private file and the temporary file are three different paths |
| FileSystems.TempPath | src/storage.rs:127-137 | the temporary file lies in the same directory as the public file, and its name is four characters (".tmp") longer |
| FileSystems.DiffPaths | src/fetched_data_set.rs:60-61 | the relative path exists exactly when the base is a prefix, and the base followed by it is the path |
| FileSystems.FileSystem.ReadFile | src/storage.rs:79-84 | opening fails exactly when the file is missing, and otherwise yields its content (a present file is always readable, see below) |
| FileSystems.FileSystem.WriteFile | src/storage.rs:140-143 | on success the file holds exactly the content; on failure no other file has changed |
| FileSystems.FileSystem.Rename | src/storage.rs:145 | on success the target holds what the source held and the source is gone; on failure nothing changes |
| GitUtil.Repository.MakeCommit | src/git_util.rs:6-49 | as written: an unborn branch fails before staging; otherwise the file is staged, an unchanged tree makes no commit, and a changed one appends exactly one commit with HEAD as its parent and the message; after success HEAD holds the file |
| GitUtil.UnbornBranchRejected | src/git_util.rs:7 | the first commit of a fresh repository (the .gitignore commit) always fails with the code as written |
| GitUtil.Repository.MakeCommitCorrected | src/git_util.rs:6-49 | as lines 21-30 intend: on an unborn branch the first commit has no parent; otherwise the same as MakeCommit |
| Storages.DecodeFile | src/storage.rs:79-91 | reading a part succeeds exactly when the file exists and decodes, giving the decoded value |
| Storages.LoadedData | src/storage.rs:96-119 | a storage loaded from its default holds nothing when the public file cannot be read, and otherwise its public part, with the private part as decoded when the private file decodes and the default when it is missing or does not decode |
| Storages.SavedFilesLoadBack | src/storage.rs:139-153 | files written with a round-tripping codec decode back to the data written |
| Storages.OnlyTempChanged | src/storage.rs:139-145 | a failure before the first rename leaves both storage files and every other file as they were |
| Storages.PublicReplaced | src/storage.rs:145-153 | a failure after the first rename leaves the public file fully replaced and the private file untouched |
| Storages.Storage.Init | src/storage.rs:62-67 | a new storage has never been updated and holds no records |
| Storages.Storage.New | src/storage.rs:40-68 | fails exactly when either join fails; otherwise the two paths are the joins of name and name + ".private", the data is the default, and the three paths are distinct; a plain name sits directly in the directory |
| Storages.Storage.LoadPrivate | src/storage.rs:78-94 | succeeds exactly when the private file exists and decodes, then replacing only the private part; on failure the data is untouched |
| Storages.Storage.Load | src/storage.rs:96-119 | fails exactly when the public file is missing or does not decode, then leaving the data untouched; otherwise the public part is decoded and the private part is decoded or reset to the default |
| Storages.Storage.Save | src/storage.rs:121-155 | on success both files hold the encodings and the temporary file is gone; on failure the private file is untouched, the public file is untouched or fully replaced, and nothing else but the temporary file changed; the data in memory is never changed |
| Storages.Storage.SaveThenLoad | src/storage.rs:121-155 | with a round-tripping codec, loading after a successful save restores exactly the data saved |
| FetchedDataSets.FetchedDataEntry.ShouldBeUpdated | src/fetched_data_set.rs:24-37 | due exactly when the data is not current (never fetched, clock went back, or more than retry_every elapsed); exactly at last + retry_every it is not due, one nanosecond later it is |
| FetchedDataSets.FetchedDataEntry.PerformUpdateIfNeeded | src/fetched_data_set.rs:40-70 | not due: Ok(false) and nothing changes; due: the timestamp is now whatever happens, the entries are the fetched set or kept on a fetch error (which touches no file and no commit); Ok(true) means both files and HEAD hold the new data; on a repository with no commits a due update always fails at the commit |
| FetchedDataSets.MergeAll | src/fetched_data_set.rs:158-167 | every record of a source is copied in order with its overrides applied |
| FetchedDataSets.MergedLength | src/fetched_data_set.rs:153-171 | the merged list has exactly as many records as the sources depicting the category hold, so nothing is dropped or deduplicated |
| FetchedDataSets.MergedMembership | src/fetched_data_set.rs:153-171 | a record is published for a category exactly when it is the merged form of a record of some source depicting it |
| FetchedDataSets.MergedIsStable | src/fetched_data_set.rs:153-171 | applying the overrides again to the merged list changes nothing |
| FetchedDataSets.MergedIgnoresOtherSources | src/fetched_data_set.rs:155-157 | the records of sources that do not depict the category do not affect its merged list |
| FetchedDataSets.AllCategoriesMembership | src/fetched_data_set.rs:174-182 | a category is in the union exactly when some source depicts it |
| FetchedDataSets.FetchedDataSet.New | src/fetched_data_set.rs:106-122 | an existing .gitignore is left alone; a missing one is written and committed on top of HEAD, and a repository with no commits refuses that commit, so `new` fails there; the new set has no sources, keeps the directory, overrides and repository, and is valid |
| FetchedDataSets.FetchedDataSet.AddFetcher | src/fetched_data_set.rs:125-146 | fails exactly when the storage paths cannot be joined; otherwise exactly one source is appended, depicting the set of the given categories, holding the loaded data even if loading failed |
| FetchedDataSets.FetchedDataSet.BuildDataForDepictionCategory | src/fetched_data_set.rs:148-172 | the nested loops produce the merged list of the category |
| FetchedDataSets.FetchedDataSet.ListAllDepictionCategory | src/fetched_data_set.rs:174-182 | the loops produce the union of the categories of all sources |
| FetchedDataSets.MergeRecords | src/fetched_data_set.rs:158-167 | the middle loop gives the records of one source, merged, in order |
| FetchedDataSets.MergeOne | src/fetched_data_set.rs:159-165 | the inner loop applies every override found for the record's ids, in order |
| DisplayDataSets.NewSnapshot | src/display_data_set.rs:14-21 | fails exactly when the records cannot be encoded; otherwise the snapshot keeps the records as given and its JSON is their encoding |
| DisplayDataSets.DisplayDataSet.constructor | src/display_data_set.rs:37-44 | there is one snapshot per given category and no other, each the default (no records, JSON "[]") |
| DepictApp.Publish | src/depict_app_data.rs:26-35 | the loop of new gives every category the snapshot of its merged list, or fails at a category whose list cannot be encoded |
| DepictApp.DepictAppData.New | src/depict_app_data.rs:22-41 | fails only if some category's list cannot be encoded; otherwise there is exactly one snapshot per depicted category, each showing its merged list and its encoding |
| DepictApp.DepictAppData.UpdatePass | src/depict_app_data.rs:50-91 | every slot is visited in order with the outcome of ShouldBeUpdated/PerformUpdateIfNeeded; the key set is unchanged; each snapshot is the old one or consistent with its records; when encoding cannot fail, a category shows its current records if no slot depicting it failed and it was in sync before or one of its slots updated |
| DepictApp.DepictAppData.UpdateSlot | src/depict_app_data.rs:59-90 | one slot: the source's data changes as its update says and no other source's; only after Ok(true) each category it depicts is republished; categories it does not depict keep their records |
| DepictApp.DepictAppData.UpdateSource | src/depict_app_data.rs:59 | perform_update_if_needed changes the data of that one source only, and Ok(false) leaves every source as it was |
| DepictApp.DepictAppData.Republish | src/depict_app_data.rs:63-81 | each category of the source gets the snapshot of its merged list, or keeps its old snapshot when the list cannot be encoded; the other categories are untouched |
| DepictApp.DepictAppData.RepublishOne | src/depict_app_data.rs:64-76 | one category is swapped to its fresh snapshot, or kept when encoding fails |
| DepictApp.RepublishStep | src/depict_app_data.rs:63-81 | republishing one more category extends what was republished so far |
| DepictApp.KeepsSync | src/depict_app_data.rs:61-89 | a slot that succeeded or was not due keeps an in-sync category in sync, and an update brings its categories in sync |
| DepictApp.PassSyncStep | src/depict_app_data.rs:50-91 | each slot preserves the pass's synchronisation guarantee |

## Left out

- The network requests of both sources, the JSON decoding of their answers, and git2 internals are left out. Each source starts from decoded bindings or elements.
- Threads, `ArcSwap` and `sleep` are left out, and so is the infinite loop of `start_update_thread`. One pass of the loop is modelled, and a snapshot swap is a map update.
- The panic on `TaiTime::try_now` is left out. The time of each slot is a parameter.
- src/main.rs (HTTP routing, assets, start-up) is not part of this model.
- `Repository::open`/`init_opts` are not modelled: `FetchedDataSet.New` receives the repository already opened.
- Lock poisoning of the repository mutex (src/fetched_data_set.rs:53-56) is not modelled, because the model is single-threaded.
- `Signature::now` failing is folded into the nondeterministic failure of the commit write.
- f64 values are not modelled. Parsing is an oracle, and `Float` keeps the `OrderedFloat` order but not rounding.
- `to_lowercase` is modelled on ASCII letters only.
- The URL crate and `serde_json` are oracles, and so is the storage codec, whose round trip is stated as the hypothesis `RoundTrips`.
- Directories are not modelled. A path is a sequence of components.
- FileSystems.FileSystem.CreateDirAll: only its possible failure is modelled, because directories are not.
- `safe_join` is modelled by its documented behaviour. Absolute names and ".." components are refused, and "" and "." components are dropped. Finer points of `Path` parsing are out of scope.
- FileSystems.DiffPaths: models `diff_paths` only where the base is a prefix of the path, the only case the storage paths produce.
- GitUtil.Repository.MakeCommit: a tree's id is its content, so "same id" is equality of staged contents. git's own write failures are nondeterministic.
- The OSM record's `source_text` (src/fetch_data_openstreetmap.rs:64) names a field the record does not have. It is dropped.
- The Wikidata `image_source_text` survives only as the credit of an existing image: with `image: Option<ImageSource>`, a record without an image has nowhere to keep it.
- `post_process` is never called by the service. It is modelled and proved on its own.
- Floating-point parse results are accepted as given. `OrderedFloat::from` adds nothing.
- Leaflet's handling of a marker with a null position is not modelled.
- The JavaScript loop's iteration through `Object.entries` is modelled as walking the array in order.
- The "include exhibits" checkbox is commented out in the page (static/code.js:58-59). Only `ignore_exhibits = false` is proved in detail.
- MapPage.Markers: with exhibits ignored, it states only when the refresh aborts, because that branch is unreachable in the page.
- Deduplication across sources is a TODO in the source (src/fetched_data_set.rs:152). The model proves that nothing is deduplicated.
- A source's `depict` list becomes a set, as `collect` into a `BTreeSet` does. The source republishes a slot's categories in ascending order (src/fetched_data_set.rs:20, src/depict_app_data.rs:63); the model leaves that order open, which changes nothing because each category is republished independently of the others.
- `ElementId` and `MapEntryImageSource` are not defined in any source file of this model. `ElementId` is taken to be `Osm(u64) | Wikidata(String)` in that variant order, and `CompareElementId` depends on that order.
- FileSystems.FileSystem.ReadFile: a present file is always readable. Permission and I/O errors of `File::open` and of reading are not modelled, so the "exactly when" claims of `Storage.LoadPrivate`, `Storage.Load`, `LoadedData`, `FetchedDataSet.AddFetcher` and `Storage.SaveThenLoad` hold only under that assumption.
- DepictApp.DepictAppData.UpdatePass: when encoding can fail, it promises only that each snapshot is the old one or consistent with its records. The exact per-slot rule is the `RepublishedSoFar` clause of `UpdateSlot`.
- The three nested loops of `build_data_for_depiction_category` and the two of the update thread are split into methods of their own (`MergeRecords`, `MergeOne`, `UpdateSlot`, `Republish`, `RepublishOne`). This makes each loop's invariant separate.
- The `unwrap` at src/depict_app_data.rs:67 cannot fail in the model. `UpdatePass` requires every depicted category to have a snapshot, which `DepictAppData.New` establishes.
- The unreachable error at src/fetch_data_wikidata_sparql.rs:159 is not modelled: `split("/").last()` always yields a piece.

## Findings

| source | as written | input that shows it | evidently intended | confidence | as-written member | corrected member |
|---|---|---|---|---|---|---|
| src/git_util.rs:7 | `repo.head()?` is the first step, so on an unborn branch `make_commit` returns the error before the unborn-branch handling at lines 21-30 can run | a freshly initialised storage repository: `FetchedDataSet::new` writes `.gitignore` and calls `make_commit` (src/fetched_data_set.rs:112), which fails, so the service cannot start on an empty directory | on an unborn branch the old tree is the empty tree and the first commit is made without a parent | not executed | GitUtil.Repository.MakeCommit, GitUtil.UnbornBranchRejected | GitUtil.Repository.MakeCommitCorrected |

The core keeps `make_commit` as written: `FetchedDataSet.New` and
`FetchedDataEntry.PerformUpdateIfNeeded` call `MakeCommit` and state the
failure on a repository with no commits. `MakeCommitCorrected` is the
intended behaviour, proved on its own.
