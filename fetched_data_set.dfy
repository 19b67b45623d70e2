/**
 * The set of sources and their stored data (src/fetched_data_set.rs):
 * when a source is due for an update, what an update does to its storage,
 * the working tree and the git history, and how the published records of
 * one depiction category are assembled from every source that depicts it.
 */
module FetchedDataSets {
  import opened Wrappers
  import opened Records
  import opened EntrySets
  import opened FetchData
  import opened FileSystems
  import opened Overrides
  import opened GitUtil
  import opened Storages

  // ---------------------------------------------------------------------
  // When an update is due
  // ---------------------------------------------------------------------

  /**
   * Data fetched at `last` is still current at `now` when `now` lies in the
   * closed interval from `last` to `last + retry`.
   */
  predicate UpToDate(last: Option<Time>, retry: Duration, now: Time) {
    last.Some? && last.value <= now <= last.value + retry
  }

  // ---------------------------------------------------------------------
  // Assembling a depiction category
  // ---------------------------------------------------------------------

  /** What one source contributes: the categories it depicts and its stored records. */
  datatype Source = Source(depict: set<DepictionCategory>, entries: EntrySet)

  /** Every record with the overrides applied, in order. */
  function MergeAll(o: Overrides, es: seq<MapEntry>): (r: seq<MapEntry>)
    ensures |r| == |es|
    ensures forall i {:trigger r[i]} :: 0 <= i < |es| ==> r[i] == MergeEntry(o, es[i])
  {
    if es == [] then [] else MergeAll(o, es[..|es| - 1]) + [MergeEntry(o, es[|es| - 1])]
  }

  /**
   * The records published for category `c`: the records of every source
   * that depicts `c`, source after source, each with its overrides applied.
   * Nothing is deduplicated.
   */
  function Merged(sources: seq<Source>, o: Overrides, c: DepictionCategory): seq<MapEntry>
  {
    if sources == [] then []
    else
      var last := sources[|sources| - 1];
      Merged(sources[..|sources| - 1], o, c) + (if c in last.depict then MergeAll(o, last.entries) else [])
  }

  lemma MergedSnoc(sources: seq<Source>, x: Source, o: Overrides, c: DepictionCategory)
    ensures Merged(sources + [x], o, c) == Merged(sources, o, c) + (if c in x.depict then MergeAll(o, x.entries) else [])
  {
    assert (sources + [x])[..|sources|] == sources;
  }

  /** The number of records of the sources that depict `c`. */
  function UsedCount(sources: seq<Source>, c: DepictionCategory): nat {
    if sources == [] then 0
    else
      var last := sources[|sources| - 1];
      UsedCount(sources[..|sources| - 1], c) + (if c in last.depict then |last.entries| else 0)
  }

  /** Every record of every source depicting `c` is published, none is dropped. */
  lemma {:induction false} MergedLength(sources: seq<Source>, o: Overrides, c: DepictionCategory)
    ensures |Merged(sources, o, c)| == UsedCount(sources, c)
  {
    if sources != [] {
      MergedLength(sources[..|sources| - 1], o, c);
    }
  }

  /**
   * A record is published for `c` exactly when it is the merged form of a
   * record of some source that depicts `c`.
   */
  lemma MergedMembership(sources: seq<Source>, o: Overrides, c: DepictionCategory, e: MapEntry)
    ensures e in Merged(sources, o, c) <==>
              exists i, x | 0 <= i < |sources| && x in sources[i].entries :: c in sources[i].depict && e == MergeEntry(o, x)
  {
    if e in Merged(sources, o, c) {
      MergedOnlyFromSources(sources, o, c, e);
    }
    if exists i, x | 0 <= i < |sources| && x in sources[i].entries :: c in sources[i].depict && e == MergeEntry(o, x) {
      var i, x :| 0 <= i < |sources| && x in sources[i].entries && c in sources[i].depict && e == MergeEntry(o, x);
      MergedAllFromSources(sources, o, c, i, x);
    }
  }

  /** Every published record comes from a record of a source depicting `c`. */
  lemma {:induction false} MergedOnlyFromSources(sources: seq<Source>, o: Overrides, c: DepictionCategory, e: MapEntry)
    requires e in Merged(sources, o, c)
    ensures exists i, x | 0 <= i < |sources| && x in sources[i].entries :: c in sources[i].depict && e == MergeEntry(o, x)
  {
    var n := |sources| - 1;
    var init, last := sources[..n], sources[n];
    var tail := if c in last.depict then MergeAll(o, last.entries) else [];
    assert Merged(sources, o, c) == Merged(init, o, c) + tail;
    if e in tail {
      var k :| 0 <= k < |tail| && tail[k] == e;
      assert c in sources[n].depict && last.entries[k] in sources[n].entries && e == MergeEntry(o, last.entries[k]);
    } else {
      MergedOnlyFromSources(init, o, c, e);
      var i, x :| 0 <= i < n && x in init[i].entries && c in init[i].depict && e == MergeEntry(o, x);
      assert sources[i] == init[i];
    }
  }

  /** Every record of a source depicting `c` is published, with its overrides applied. */
  lemma {:induction false} MergedAllFromSources(sources: seq<Source>, o: Overrides, c: DepictionCategory, i: nat, x: MapEntry)
    requires i < |sources| && x in sources[i].entries && c in sources[i].depict
    ensures MergeEntry(o, x) in Merged(sources, o, c)
  {
    var n := |sources| - 1;
    var init, last := sources[..n], sources[n];
    var tail := if c in last.depict then MergeAll(o, last.entries) else [];
    assert Merged(sources, o, c) == Merged(init, o, c) + tail;
    if i == n {
      var k :| 0 <= k < |last.entries| && last.entries[k] == x;
      assert tail[k] == MergeEntry(o, x);
    } else {
      assert init[i] == sources[i];
      MergedAllFromSources(init, o, c, i, x);
    }
  }

  /** Published records are already merged: applying the overrides again changes nothing. */
  lemma {:induction false} MergedIsStable(sources: seq<Source>, o: Overrides, c: DepictionCategory)
    ensures MergeAll(o, Merged(sources, o, c)) == Merged(sources, o, c)
  {
    var m := Merged(sources, o, c);
    forall i | 0 <= i < |m| ensures MergeAll(o, m)[i] == m[i] {
      assert m[i] in m;
      MergedMembership(sources, o, c, m[i]);
      var j, x :| 0 <= j < |sources| && x in sources[j].entries && c in sources[j].depict && m[i] == MergeEntry(o, x);
      MergeEntryIdempotent(o, x);
    }
  }

  /**
   * Only the sources that depict `c` matter: changing the records of any
   * other source leaves the category as it was.
   */
  lemma {:induction false} MergedIgnoresOtherSources(s: seq<Source>, s': seq<Source>, o: Overrides, c: DepictionCategory)
    requires |s| == |s'|
    requires forall i :: 0 <= i < |s| ==> s[i].depict == s'[i].depict
    requires forall i :: 0 <= i < |s| && c in s[i].depict ==> s[i].entries == s'[i].entries
    ensures Merged(s, o, c) == Merged(s', o, c)
  {
    if s != [] {
      MergedIgnoresOtherSources(s[..|s| - 1], s'[..|s| - 1], o, c);
    }
  }

  /** The union of the depicted categories. */
  function AllCategories(ds: seq<set<DepictionCategory>>): set<DepictionCategory>
  {
    if ds == [] then {} else AllCategories(ds[..|ds| - 1]) + ds[|ds| - 1]
  }

  /** A category is in the union exactly when some source depicts it. */
  lemma {:induction false} AllCategoriesMembership(ds: seq<set<DepictionCategory>>, c: DepictionCategory)
    ensures c in AllCategories(ds) <==> exists i :: 0 <= i < |ds| && c in ds[i]
  {
    if ds != [] {
      var init := ds[..|ds| - 1];
      AllCategoriesMembership(init, c);
      if c in AllCategories(init) {
        var i :| 0 <= i < |init| && c in init[i];
        assert ds[i] == init[i];
      }
      if exists i :: 0 <= i < |ds| && c in ds[i] {
        var i :| 0 <= i < |ds| && c in ds[i];
        if i < |ds| - 1 {
          assert init[i] == ds[i];
        }
      }
    }
  }

  /** Each source's categories are among all the categories. */
  lemma AllCategoriesContainsEach(ds: seq<set<DepictionCategory>>, i: nat)
    requires i < |ds|
    ensures ds[i] <= AllCategories(ds)
  {
    forall c | c in ds[i] ensures c in AllCategories(ds) {
      AllCategoriesMembership(ds, c);
    }
  }

  // ---------------------------------------------------------------------
  // One source
  // ---------------------------------------------------------------------

  class FetchedDataEntry {
    const storage: Storage
    const fetcher: Fetcher
    const depict: set<DepictionCategory>

    constructor(storage: Storage, fetcher: Fetcher, depict: set<DepictionCategory>)
      ensures this.storage == storage && this.fetcher == fetcher && this.depict == depict
    {
      this.storage := storage;
      this.fetcher := fetcher;
      this.depict := depict;
    }

    /**
     * `should_be_updated`: due unless the data was fetched no later than
     * `now` and no more than `retry_every` before it. A clock that went back
     * makes the source due; the very end of the interval is not yet due.
     */
    function ShouldBeUpdated(now: Time): (r: bool)
      reads storage
      ensures r <==> !UpToDate(storage.data.private.lastUpdated, fetcher.retryEvery, now)
      ensures storage.data.private.lastUpdated == Some(now) ==> !r
      ensures storage.data.private.lastUpdated.Some? ==>
                var t := storage.data.private.lastUpdated.value;
                (now == t + fetcher.retryEvery ==> !r) && (now == t + fetcher.retryEvery + 1 ==> r) && (now == t - 1 ==> r)
    {
      match storage.data.private.lastUpdated
      case Some(fetchedTime) =>
        if now < fetchedTime then true
        else if fetchedTime + fetcher.retryEvery < now then true
        else false
      case None => true
    }

    /**
     * `perform_update_if_needed`, with `fetched` the outcome of the
     * source's `fetch_data` at this moment. The timestamp is set before
     * anything can fail, so a failed update waits a full interval too.
     */
    method PerformUpdateIfNeeded(now: Time, fetched: Result<EntrySet>, fs: FileSystem, codec: StorageCodec)
      returns (r: Result<bool>)
      requires storage.Valid()
      modifies storage, fs, storage.extra.repo
      // `Ok(true)` means updated, `Ok(false)` not due.
      ensures r.Ok? ==> r.value == old(ShouldBeUpdated(now))
      ensures !old(ShouldBeUpdated(now)) ==>
                && r == Ok(false)
                && storage.data == old(storage.data)
                && fs.files == old(fs.files)
                && unchanged(storage.extra.repo)
      ensures old(ShouldBeUpdated(now)) ==>
                && storage.data.private.lastUpdated == Some(now)
                && storage.data.public == (if fetched.Ok? then StoredDataPublic(fetched.value) else old(storage.data.public))
                && !ShouldBeUpdated(now)
      // A failed fetch touches neither the files nor the repository.
      ensures old(ShouldBeUpdated(now)) && fetched.Err? ==>
                r.Err? && fs.files == old(fs.files) && unchanged(storage.extra.repo)
      // Committing on a repository with no commits fails (`repo.head()?` in
      // `make_commit`), so a due update there never succeeds.
      ensures old(ShouldBeUpdated(now)) && old(storage.extra.repo.commits) == [] ==>
                r.Err? && storage.extra.repo.commits == []
      // After an update both files hold the new data, and so does HEAD.
      ensures r == Ok(true) ==>
                var dir, pub := storage.extra.saveStorageDir, storage.publicFile;
                && pub in fs.files && fs.files[pub] == codec.encodePublic(storage.data.public)
                && storage.privateFile in fs.files && fs.files[storage.privateFile] == codec.encodePrivate(storage.data.private)
                && storage.extra.repo.commits != []
                && pub[|dir|..] in storage.extra.repo.Head().tree
                && storage.extra.repo.Head().tree[pub[|dir|..]] == fs.files[pub]
    {
      if !ShouldBeUpdated(now) {
        return Ok(false);
      }
      storage.data := storage.data.(private := StoredDataPrivate(Some(now)));
      if fetched.Err? {
        return Err("Fetching data from " + fetcher.title + ": " + fetched.msg);
      }
      storage.data := storage.data.(public := StoredDataPublic(fetched.value));
      var saved := storage.Save(fs, codec);
      if saved.Err? {
        return Err("Saving data of " + fetcher.title + ": " + saved.msg);
      }
      var extra := storage.extra;
      var path := DiffPaths(storage.publicFile, extra.saveStorageDir);
      if path.None? {
        return Err("Could not diff paths for indexing with git");
      }
      assert extra.saveStorageDir + path.value == storage.publicFile;
      var committed := extra.repo.MakeCommit(fs, extra.saveStorageDir, path.value, "Update " + fetcher.title);
      if committed.Err? {
        return Err("Commiting changes to git: " + committed.msg);
      }
      return Ok(true);
    }
  }

  /** What a source contributes at this moment. */
  function SourceOf(e: FetchedDataEntry): Source
    reads e.storage
  {
    Source(e.depict, e.storage.data.public.entries)
  }

  function SourcesOf(es: seq<FetchedDataEntry>): (r: seq<Source>)
    reads set e | e in es :: e.storage
    ensures |r| == |es|
    ensures forall i {:trigger r[i]} :: 0 <= i < |es| ==> r[i] == SourceOf(es[i])
  {
    if es == [] then [] else SourcesOf(es[..|es| - 1]) + [SourceOf(es[|es| - 1])]
  }

  /** The stored data of each entry, in order. */
  function DataOf(es: seq<FetchedDataEntry>): (r: seq<StoredData>)
    reads set e | e in es :: e.storage
    ensures |r| == |es|
    ensures forall i {:trigger r[i]} :: 0 <= i < |es| ==> r[i] == es[i].storage.data
  {
    if es == [] then [] else DataOf(es[..|es| - 1]) + [es[|es| - 1].storage.data]
  }

  function DepictsOf(es: seq<FetchedDataEntry>): (r: seq<set<DepictionCategory>>)
    ensures |r| == |es|
    ensures forall i {:trigger r[i]} :: 0 <= i < |es| ==> r[i] == es[i].depict
  {
    if es == [] then [] else DepictsOf(es[..|es| - 1]) + [es[|es| - 1].depict]
  }

  // ---------------------------------------------------------------------
  // All sources
  // ---------------------------------------------------------------------

  /** The content of a new storage directory's ".gitignore": "*.private" and two line ends. */
  const Gitignore: Bytes := [42, 46, 112, 114, 105, 118, 97, 116, 101, 10, 10]

  class FetchedDataSet {
    var entries: seq<FetchedDataEntry>
    const extra: FetchDataExtra

    /** Every source stores into the shared directory, through a storage of its own. */
    ghost predicate Valid()
      reads this
    {
      && (forall i :: 0 <= i < |entries| ==> entries[i].storage.extra == extra && entries[i].storage.Valid())
      && (forall i, j :: 0 <= i < j < |entries| ==> entries[i].storage != entries[j].storage)
    }

    constructor Init(extra: FetchDataExtra)
      ensures entries == [] && this.extra == extra
    {
      entries := [];
      this.extra := extra;
    }

    /** The sources with what they currently store. */
    function Sources(): seq<Source>
      reads this, set e | e in entries :: e.storage
    {
      SourcesOf(entries)
    }

    /**
     * `FetchedDataSet::new`, given the repository already opened (or
     * created) in `dir`: a missing ".gitignore" is written and committed.
     */
    static method New(dir: Path, overrides: Overrides, fs: FileSystem, repo: Repository)
      returns (r: Result<FetchedDataSet>)
      modifies fs, repo
      ensures r.Ok? ==>
                && fresh(r.value) && fresh(r.value.extra)
                && r.value.entries == [] && r.value.Valid()
                && r.value.extra.saveStorageDir == dir
                && r.value.extra.overrides == overrides
                && r.value.extra.repo == repo
      // An existing ".gitignore" is left alone.
      ensures dir + [".gitignore"] in old(fs.files) ==> r.Ok? && fs.files == old(fs.files) && unchanged(repo)
      // A new one is written, and committed on top of HEAD.
      ensures dir + [".gitignore"] !in old(fs.files) && r.Ok? ==>
                && old(repo.commits) != []
                && fs.files == old(fs.files)[dir + [".gitignore"] := Gitignore]
                && repo.commits != [] && [".gitignore"] in repo.Head().tree
                && repo.Head().tree[[".gitignore"]] == Gitignore
      // A repository with no commits cannot take that commit (`repo.head()?`
      // in `make_commit`), so a fresh storage directory is refused.
      ensures dir + [".gitignore"] !in old(fs.files) && old(repo.commits) == [] ==>
                r.Err? && repo.commits == []
    {
      var gitignorePath := dir + [".gitignore"];
      if gitignorePath !in fs.files {
        var w := fs.WriteFile(gitignorePath, Gitignore);
        if w.Err? {
          return Err("Creating .gitignore: " + w.msg);
        }
        var c := repo.MakeCommit(fs, dir, [".gitignore"], "Add .gitignore");
        if c.Err? {
          return Err(c.msg);
        }
      }
      var extra := new FetchDataExtra(dir, overrides, repo);
      var s := new FetchedDataSet.Init(extra);
      return Ok(s);
    }

    /**
     * `add_fetcher`: a storage named `name` is created and loaded (a failed
     * load only leaves it empty) and the source is appended.
     */
    method AddFetcher(fetcher: Fetcher, depict: seq<DepictionCategory>, name: string, fs: FileSystem, codec: StorageCodec)
      returns (r: Result<()>)
      requires Valid()
      modifies this
      ensures Valid()
      ensures r.Err? <==> SafeJoin(extra.saveStorageDir, name).Err? || SafeJoin(extra.saveStorageDir, name + ".private").Err?
      ensures r.Err? ==> entries == old(entries)
      ensures r.Ok? ==>
                && |entries| == |old(entries)| + 1
                && entries[..|old(entries)|] == old(entries)
                && var e := entries[|entries| - 1];
                   && fresh(e) && fresh(e.storage)
                   && e.fetcher == fetcher
                   && e.depict == (set d | d in depict)
                   && e.storage.data == LoadedData(fs.files, e.storage.publicFile, e.storage.privateFile, codec)
                   && (PlainName(name) ==> e.storage.publicFile == extra.saveStorageDir + [name])
    {
      var storage := Storage.New(name, extra);
      if storage.Err? {
        return Err(storage.msg);
      }
      var s := storage.value;
      var loaded := s.Load(fs, codec);
      var e := new FetchedDataEntry(s, fetcher, set d | d in depict);
      entries := entries + [e];
      return Ok(());
    }

    /** `build_data_for_depiction_category`: the records published for `c`. */
    method BuildDataForDepictionCategory(c: DepictionCategory) returns (result: seq<MapEntry>)
      ensures result == Merged(Sources(), extra.overrides, c)
    {
      var o := extra.overrides;
      result := [];
      var i := 0;
      while i < |entries|
        invariant 0 <= i <= |entries|
        invariant result == Merged(SourcesOf(entries[..i]), o, c)
      {
        var source := entries[i];
        assert entries[..i + 1] == entries[..i] + [source];
        assert SourcesOf(entries[..i + 1]) == SourcesOf(entries[..i]) + [SourceOf(source)];
        MergedSnoc(SourcesOf(entries[..i]), SourceOf(source), o, c);
        if c in source.depict {
          var merged := MergeRecords(o, source.storage.data.public.entries);
          result := result + merged;
        }
        i := i + 1;
      }
      assert entries[..i] == entries;
    }

    /** `list_all_depiction_category`: every category some source depicts. */
    method ListAllDepictionCategory() returns (result: set<DepictionCategory>)
      ensures result == AllCategories(DepictsOf(entries))
    {
      result := {};
      var i := 0;
      while i < |entries|
        invariant 0 <= i <= |entries|
        invariant result == AllCategories(DepictsOf(entries[..i]))
      {
        var depict := entries[i].depict;
        var rest := depict;
        while rest != {}
          invariant rest <= depict
          invariant result == AllCategories(DepictsOf(entries[..i])) + (depict - rest)
        {
          var d :| d in rest;
          result := result + {d};
          rest := rest - {d};
        }
        assert entries[..i + 1] == entries[..i] + [entries[i]];
        assert DepictsOf(entries[..i + 1]) == DepictsOf(entries[..i]) + [depict];
        assert DepictsOf(entries[..i + 1])[..i] == DepictsOf(entries[..i]);
        i := i + 1;
      }
      assert entries[..i] == entries;
    }
  }

  /** The middle loop of `build_data_for_depiction_category`: one source's records, in order. */
  method MergeRecords(o: Overrides, es: seq<MapEntry>) returns (ms: seq<MapEntry>)
    ensures ms == MergeAll(o, es)
  {
    ms := [];
    var j := 0;
    while j < |es|
      invariant 0 <= j <= |es|
      invariant ms == MergeAll(o, es[..j])
    {
      var m := MergeOne(o, es[j]);
      assert es[..j + 1][..j] == es[..j];
      ms := ms + [m];
      j := j + 1;
    }
    assert es[..j] == es;
  }

  /** The innermost loop of `build_data_for_depiction_category`: one record's overrides, in order. */
  method MergeOne(o: Overrides, e: MapEntry) returns (m: MapEntry)
    ensures m == MergeEntry(o, e)
  {
    m := e;
    var ids := e.elementIds;
    var k := 0;
    while k < |ids|
      invariant 0 <= k <= |ids|
      invariant m == ApplyOverrides(o, ids[..k], e)
    {
      assert ids[..k + 1][..k] == ids[..k];
      match GetOverride(o, ids[k]) {
        case Some(ov) => m := OverrideMapEntry(ov, m);
        case None =>
      }
      k := k + 1;
    }
    assert ids[..k] == ids;
  }
}
