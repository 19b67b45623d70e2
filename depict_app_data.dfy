/**
 * The application state and one pass of the update thread
 * (src/depict_app_data.rs): every source is given its chance to update, in
 * order, and each successful update republishes the categories the source
 * depicts.
 */
module DepictApp {
  import opened Wrappers
  import opened Records
  import opened EntrySets
  import opened FetchData
  import opened FileSystems
  import opened Overrides
  import opened GitUtil
  import opened Storages
  import opened FetchedDataSets
  import opened DisplayDataSets

  /** Serialising records never fails. */
  ghost predicate NeverFails(encode: JsonEncoder) {
    forall es :: encode(es).Some?
  }

  /** What is published for `c` is what `sources` give for it. */
  predicate Publishes(toDisplay: map<DepictionCategory, Snapshot>, sources: seq<Source>, o: Overrides, c: DepictionCategory) {
    c in toDisplay && toDisplay[c].entries == Merged(sources, o, c)
  }

  class DepictAppData {
    const displayDataSet: DisplayDataSet
    const ressourcePath: Path

    constructor Init(displayDataSet: DisplayDataSet, ressourcePath: Path)
      ensures this.displayDataSet == displayDataSet && this.ressourcePath == ressourcePath
    {
      this.displayDataSet := displayDataSet;
      this.ressourcePath := ressourcePath;
    }

    /** What is published for `c` is what the sources currently give for it. */
    ghost predicate InSync(fds: FetchedDataSet, c: DepictionCategory)
      reads displayDataSet, fds, set e | e in fds.entries :: e.storage
    {
      c in displayDataSet.toDisplay
      && displayDataSet.toDisplay[c].entries == Merged(fds.Sources(), fds.extra.overrides, c)
    }

    /**
     * `DepictAppData::new`: a snapshot of every category some source
     * depicts, built from the stored data; the first category whose records
     * cannot be serialised makes it fail.
     */
    static method New(fds: FetchedDataSet, ressourcePath: Path, encode: JsonEncoder) returns (r: Result<DepictAppData>)
      ensures r.Err? ==>
                exists c :: c in AllCategories(DepictsOf(fds.entries)) && encode(Merged(old(fds.Sources()), fds.extra.overrides, c)).None?
      ensures r.Ok? ==>
                && fresh(r.value) && fresh(r.value.displayDataSet)
                && r.value.ressourcePath == ressourcePath
                && r.value.displayDataSet.toDisplay.Keys == AllCategories(DepictsOf(fds.entries))
                && PublishedSoFar(r.value.displayDataSet.toDisplay, r.value.displayDataSet.toDisplay.Keys,
                                  old(fds.Sources()), fds.extra.overrides, encode)
    {
      ghost var sources := fds.Sources();
      var categories := fds.ListAllDepictionCategory();
      var dds := new DisplayDataSet(categories);
      var published := Publish(fds, categories, dds.toDisplay, encode);
      if published.Err? {
        return Err(published.msg);
      }
      dds.toDisplay := published.value;
      var app := new DepictAppData.Init(dds, ressourcePath);
      return Ok(app);
    }

    /**
     * One pass of the update thread over the sources, in order; slot `i`
     * runs at time `nows[i]` and receives `fetched[i]` as the outcome of its
     * fetch. Every snapshot is either untouched or the serialisation of its
     * records; and a category whose every source succeeded (or was not due)
     * ends up showing its current records, if it did before the pass or if
     * one of its sources updated during it.
     */
    method UpdatePass(fds: FetchedDataSet, nows: seq<Time>, fetched: seq<Result<EntrySet>>,
                      fs: FileSystem, codec: StorageCodec, encode: JsonEncoder) returns (results: seq<Result<bool>>)
      requires fds.Valid() && |nows| == |fds.entries| && |fetched| == |fds.entries|
      requires AllCategories(DepictsOf(fds.entries)) <= displayDataSet.toDisplay.Keys
      modifies set e | e in fds.entries :: e.storage
      modifies fs, fds.extra.repo, displayDataSet
      ensures |results| == |fds.entries|
      ensures displayDataSet.toDisplay.Keys == old(displayDataSet.toDisplay.Keys)
      ensures SlotsDone(fds.entries, old(DataOf(fds.entries)), DataOf(fds.entries), nows, fetched, results)
      ensures FreshOrKept(displayDataSet.toDisplay, old(displayDataSet.toDisplay), encode)
      ensures NeverFails(encode) ==>
                forall c :: c in displayDataSet.toDisplay && KeptInSync(results, DepictsOf(fds.entries), old(Publishes(displayDataSet.toDisplay, fds.Sources(), fds.extra.overrides, c)), c) ==>
                  Publishes(displayDataSet.toDisplay, fds.Sources(), fds.extra.overrides, c)
    {
      ghost var o := fds.extra.overrides;
      ghost var orig, initial, sources := displayDataSet.toDisplay, DataOf(fds.entries), fds.Sources();
      ghost var synced := map c | c in orig :: Publishes(orig, sources, o, c);
      PassStart(fds.entries, initial, orig, sources, o, nows, fetched, encode, synced);
      results := [];
      var k := 0;
      while k < |fds.entries|
        invariant k == |results| <= |fds.entries|
        invariant PassState(fds, nows, fetched, encode, initial, orig, synced, results)
      {
        var r := PassSlot(fds, k, nows, fetched, fs, codec, encode, initial, orig, synced, results);
        results := results + [r];
        k := k + 1;
      }
      PassEnd(fds.entries, DataOf(fds.entries), displayDataSet.toDisplay, fds.Sources(), o, nows, fetched, encode, initial, orig, synced, results);
    }

    /**
     * What `UpdatePass` has established after the slots with these
     * `results`: see `SlotsDone`, `FreshOrKept` and `PassSynced`.
     */
    ghost predicate PassState(fds: FetchedDataSet, nows: seq<Time>, fetched: seq<Result<EntrySet>>, encode: JsonEncoder,
                              initial: seq<StoredData>, orig: map<DepictionCategory, Snapshot>,
                              synced: map<DepictionCategory, bool>, results: seq<Result<bool>>)
      reads this, displayDataSet, fds, set e | e in fds.entries :: e.storage
    {
      PassFacts(fds.entries, DataOf(fds.entries), displayDataSet.toDisplay, fds.Sources(), fds.extra.overrides,
                nows, fetched, encode, initial, orig, synced, results)
    }

    /** Slot `k` of `UpdatePass`, which keeps what the pass has established so far. */
    method PassSlot(fds: FetchedDataSet, k: nat, nows: seq<Time>, fetched: seq<Result<EntrySet>>,
                    fs: FileSystem, codec: StorageCodec, encode: JsonEncoder, ghost initial: seq<StoredData>,
                    ghost orig: map<DepictionCategory, Snapshot>, ghost synced: map<DepictionCategory, bool>,
                    ghost results: seq<Result<bool>>) returns (r: Result<bool>)
      requires fds.Valid() && k == |results| < |fds.entries|
      requires AllCategories(DepictsOf(fds.entries)) <= orig.Keys
      requires PassState(fds, nows, fetched, encode, initial, orig, synced, results)
      modifies fds.entries[k].storage, fs, fds.extra.repo, displayDataSet
      ensures PassState(fds, nows, fetched, encode, initial, orig, synced, results + [r])
    {
      AllCategoriesContainsEach(DepictsOf(fds.entries), k);
      ghost var m, s, d := displayDataSet.toDisplay, fds.Sources(), DataOf(fds.entries);
      r := UpdateSlot(fds, k, nows[k], fetched[k], fs, codec, encode);
      ghost var m', s', d' := displayDataSet.toDisplay, fds.Sources(), DataOf(fds.entries);
      PassStep(fds.entries, d, d', m, m', s, s', fds.extra.overrides, nows, fetched, encode, initial, orig, synced, results, r);
    }

    /**
     * One iteration of the update thread's loop over the sources: source
     * `i` updates if due, at time `now`, with `fetched` as the outcome of its
     * fetch; after a successful update every category it depicts is
     * republished.
     */
    method UpdateSlot(fds: FetchedDataSet, i: nat, now: Time, fetched: Result<EntrySet>,
                      fs: FileSystem, codec: StorageCodec, encode: JsonEncoder) returns (r: Result<bool>)
      requires fds.Valid() && i < |fds.entries|
      requires fds.entries[i].depict <= displayDataSet.toDisplay.Keys
      modifies fds.entries[i].storage, fs, fds.extra.repo, displayDataSet
      ensures SlotOutcome(old(DataOf(fds.entries))[i], DataOf(fds.entries)[i], fds.entries[i].fetcher.retryEvery, now, fetched, r)
      ensures DataOf(fds.entries) == old(DataOf(fds.entries))[i := DataOf(fds.entries)[i]]
      // The categories of the source are republished after a successful update, and only then.
      ensures RepublishedSoFar(displayDataSet.toDisplay, old(displayDataSet.toDisplay),
                               if r == Ok(true) then fds.entries[i].depict else {},
                               fds.Sources(), fds.extra.overrides, encode)
      // The records of any other category are unaffected.
      ensures forall c :: c !in fds.entries[i].depict ==>
                Merged(fds.Sources(), fds.extra.overrides, c) == Merged(old(fds.Sources()), fds.extra.overrides, c)
      ensures r == Ok(false) ==> fds.Sources() == old(fds.Sources())
    {
      r := UpdateSource(fds, i, now, fetched, fs, codec);
      if r == Ok(true) {
        Republish(fds, fds.entries[i].depict, encode);
      }
    }

    /** `perform_update_if_needed` on source `i`, seen from the whole set of sources. */
    static method UpdateSource(fds: FetchedDataSet, i: nat, now: Time, fetched: Result<EntrySet>,
                               fs: FileSystem, codec: StorageCodec) returns (r: Result<bool>)
      requires fds.Valid() && i < |fds.entries|
      modifies fds.entries[i].storage, fs, fds.extra.repo
      ensures SlotOutcome(old(DataOf(fds.entries))[i], DataOf(fds.entries)[i], fds.entries[i].fetcher.retryEvery, now, fetched, r)
      ensures DataOf(fds.entries) == old(DataOf(fds.entries))[i := DataOf(fds.entries)[i]]
      ensures forall c :: c !in fds.entries[i].depict ==>
                Merged(fds.Sources(), fds.extra.overrides, c) == Merged(old(fds.Sources()), fds.extra.overrides, c)
      ensures r == Ok(false) ==> fds.Sources() == old(fds.Sources())
    {
      var entry := fds.entries[i];
      ghost var before, o, data := fds.Sources(), fds.extra.overrides, DataOf(fds.entries);
      r := entry.PerformUpdateIfNeeded(now, fetched, fs, codec);
      ghost var after, data' := fds.Sources(), DataOf(fds.entries);
      forall j | 0 <= j < |before| && j != i ensures after[j] == before[j] && data'[j] == data[j] {
        assert fds.entries[j].storage != entry.storage;
      }
      assert data' == data[i := data'[i]];
      forall c | c !in entry.depict ensures Merged(after, o, c) == Merged(before, o, c) {
        MergedIgnoresOtherSources(after, before, o, c);
      }
      if r == Ok(false) {
        assert after[i] == before[i];
        assert after == before;
      }
    }

    /**
     * The inner loop of the update thread after a successful update: each
     * category in `cats` gets a fresh snapshot of its records, or keeps its
     * old one when the records cannot be serialised.
     */
    method Republish(fds: FetchedDataSet, cats: set<DepictionCategory>, encode: JsonEncoder)
      requires cats <= displayDataSet.toDisplay.Keys
      modifies displayDataSet
      ensures RepublishedSoFar(displayDataSet.toDisplay, old(displayDataSet.toDisplay), cats,
                               fds.Sources(), fds.extra.overrides, encode)
      ensures fds.Sources() == old(fds.Sources())
    {
      ghost var sources, o := fds.Sources(), fds.extra.overrides;
      ghost var orig := displayDataSet.toDisplay;
      var rest := cats;
      while rest != {}
        modifies displayDataSet
        invariant rest <= cats
        invariant fds.Sources() == sources
        invariant RepublishedSoFar(displayDataSet.toDisplay, orig, cats - rest, sources, o, encode)
      {
        var d :| d in rest;
        ghost var before := displayDataSet.toDisplay;
        RepublishOne(fds, d, encode);
        RepublishStep(before, orig, cats - rest, d, sources, o, encode);
        assert cats - rest + {d} == cats - (rest - {d});
        rest := rest - {d};
      }
    }

    /** One category of the inner loop: a fresh snapshot, unless the records cannot be serialised. */
    method RepublishOne(fds: FetchedDataSet, d: DepictionCategory, encode: JsonEncoder)
      requires d in displayDataSet.toDisplay
      modifies displayDataSet
      ensures displayDataSet.toDisplay == RepublishedAt(old(displayDataSet.toDisplay), d, old(fds.Sources()), fds.extra.overrides, encode)
      ensures fds.Sources() == old(fds.Sources())
    {
      var entries := fds.BuildDataForDepictionCategory(d);
      // The `unwrap` of the source cannot fail: every depicted category has a slot.
      assert d in displayDataSet.toDisplay;
      var snapshot := NewSnapshot(entries, encode);
      if snapshot.Ok? {
        displayDataSet.toDisplay := displayDataSet.toDisplay[d := snapshot.value];
      }
    }
  }

  /** The snapshots after republishing `d`: its records, unless they cannot be serialised. */
  function RepublishedAt(m: map<DepictionCategory, Snapshot>, d: DepictionCategory, sources: seq<Source>,
                         o: Overrides, encode: JsonEncoder): map<DepictionCategory, Snapshot>
  {
    var s := NewSnapshot(Merged(sources, o, d), encode);
    if s.Ok? then m[d := s.value] else m
  }

  /**
   * The categories of `done` were republished: each holds the snapshot of
   * its records, or its snapshot of `orig` when they cannot be serialised;
   * the others are as in `orig`.
   */
  ghost predicate RepublishedSoFar(m: map<DepictionCategory, Snapshot>, orig: map<DepictionCategory, Snapshot>,
                                   done: set<DepictionCategory>, sources: seq<Source>, o: Overrides, encode: JsonEncoder) {
    && m.Keys == orig.Keys
    && (forall c :: c in m && c !in done ==> m[c] == orig[c])
    && (forall c :: c in done ==>
          && c in m
          && (|| (m[c].entries == Merged(sources, o, c) && Consistent(m[c], encode))
              || (m[c] == orig[c] && encode(Merged(sources, o, c)).None?)))
  }

  lemma RepublishStep(m: map<DepictionCategory, Snapshot>, orig: map<DepictionCategory, Snapshot>,
                      done: set<DepictionCategory>, d: DepictionCategory, sources: seq<Source>, o: Overrides, encode: JsonEncoder)
    requires RepublishedSoFar(m, orig, done, sources, o, encode)
    requires d in m && d !in done
    ensures RepublishedSoFar(RepublishedAt(m, d, sources, o, encode), orig, done + {d}, sources, o, encode)
  {
    var m' := RepublishedAt(m, d, sources, o, encode);
    forall c | c in m' && c != d ensures m'[c] == m[c] {
    }
  }

  /** `PassState` on the values it reads. */
  ghost predicate PassFacts(es: seq<FetchedDataEntry>, data: seq<StoredData>, m: map<DepictionCategory, Snapshot>,
                            sources: seq<Source>, o: Overrides, nows: seq<Time>, fetched: seq<Result<EntrySet>>,
                            encode: JsonEncoder, initial: seq<StoredData>, orig: map<DepictionCategory, Snapshot>,
                            synced: map<DepictionCategory, bool>, results: seq<Result<bool>>) {
    && |results| <= |es|
    && m.Keys == orig.Keys
    && SlotsDone(es, initial, data, nows, fetched, results)
    && FreshOrKept(m, orig, encode)
    && (NeverFails(encode) ==> PassSynced(m, orig, synced, sources, o, results, DepictsOf(es)[..|results|]))
  }

  /** Before the first slot. */
  lemma PassStart(es: seq<FetchedDataEntry>, data: seq<StoredData>, m: map<DepictionCategory, Snapshot>,
                  sources: seq<Source>, o: Overrides, nows: seq<Time>, fetched: seq<Result<EntrySet>>,
                  encode: JsonEncoder, synced: map<DepictionCategory, bool>)
    requires |data| == |es| && |nows| == |es| && |fetched| == |es|
    requires synced == map c | c in m :: Publishes(m, sources, o, c)
    ensures PassFacts(es, data, m, sources, o, nows, fetched, encode, data, m, synced, [])
  {
    assert DepictsOf(es)[..0] == [];
  }

  /** After the last slot: what `UpdatePass` promises. */
  lemma PassEnd(es: seq<FetchedDataEntry>, data: seq<StoredData>, m: map<DepictionCategory, Snapshot>,
                sources: seq<Source>, o: Overrides, nows: seq<Time>, fetched: seq<Result<EntrySet>>,
                encode: JsonEncoder, initial: seq<StoredData>, orig: map<DepictionCategory, Snapshot>,
                synced: map<DepictionCategory, bool>, results: seq<Result<bool>>)
    requires |results| == |es|
    requires PassFacts(es, data, m, sources, o, nows, fetched, encode, initial, orig, synced, results)
    requires synced.Keys == orig.Keys
    ensures m.Keys == orig.Keys
    ensures SlotsDone(es, initial, data, nows, fetched, results)
    ensures FreshOrKept(m, orig, encode)
    ensures NeverFails(encode) ==>
              forall c :: c in m && KeptInSync(results, DepictsOf(es), synced[c], c) ==> Publishes(m, sources, o, c)
  {
    assert DepictsOf(es)[..|results|] == DepictsOf(es);
  }

  /** One slot, as `UpdateSlot` describes it, keeps `PassFacts`. */
  lemma PassStep(es: seq<FetchedDataEntry>, d: seq<StoredData>, d': seq<StoredData>,
                 m: map<DepictionCategory, Snapshot>, m': map<DepictionCategory, Snapshot>, s: seq<Source>, s': seq<Source>,
                 o: Overrides, nows: seq<Time>, fetched: seq<Result<EntrySet>>, encode: JsonEncoder,
                 initial: seq<StoredData>, orig: map<DepictionCategory, Snapshot>, synced: map<DepictionCategory, bool>,
                 results: seq<Result<bool>>, r: Result<bool>)
    requires |results| < |es|
    requires PassFacts(es, d, m, s, o, nows, fetched, encode, initial, orig, synced, results)
    requires var k := |results|;
             && |d'| == |d| && d' == d[k := d'[k]]
             && SlotOutcome(d[k], d'[k], es[k].fetcher.retryEvery, nows[k], fetched[k], r)
             && RepublishedSoFar(m', m, if r == Ok(true) then es[k].depict else {}, s', o, encode)
             && (forall c :: c !in es[k].depict ==> Merged(s', o, c) == Merged(s, o, c))
             && (r == Ok(false) ==> s' == s)
    ensures PassFacts(es, d', m', s', o, nows, fetched, encode, initial, orig, synced, results + [r])
  {
    var k, depicts := |results|, DepictsOf(es);
    SlotsStep(es, initial, d, d', nows, fetched, results, r);
    FreshOrKeptStep(m, m', orig, if r == Ok(true) then depicts[k] else {}, s', o, encode);
    TakeSnoc(depicts, k);
    if NeverFails(encode) {
      PassSyncStep(m, m', orig, synced, s, s', o, encode, results, r, depicts[..k], depicts[k]);
    }
  }

  /** What one slot of the pass did to its source's data. `Ok(false)` is "not due". */
  ghost predicate SlotOutcome(before: StoredData, after: StoredData, retry: Duration, now: Time,
                              fetched: Result<EntrySet>, r: Result<bool>) {
    var due := !UpToDate(before.private.lastUpdated, retry, now);
    && (r.Ok? ==> r.value == due)
    && (!due ==> r == Ok(false) && after == before)
    && (due ==> && after.private.lastUpdated == Some(now)
                && after.public == (if fetched.Ok? then StoredDataPublic(fetched.value) else before.public))
  }

  /**
   * The slots with these `results` have run, in order, on the first
   * `|results|` sources: each did what `SlotOutcome` says to its data, and
   * the data of the others is as `before`.
   */
  ghost predicate SlotsDone(es: seq<FetchedDataEntry>, before: seq<StoredData>, after: seq<StoredData>,
                            nows: seq<Time>, fetched: seq<Result<EntrySet>>, results: seq<Result<bool>>) {
    && |before| == |es| && |after| == |es| && |nows| == |es| && |fetched| == |es| && |results| <= |es|
    && (forall j :: 0 <= j < |results| ==>
          SlotOutcome(before[j], after[j], es[j].fetcher.retryEvery, nows[j], fetched[j], results[j]))
    && (forall j :: |results| <= j < |es| ==> after[j] == before[j])
  }

  lemma SlotsStep(es: seq<FetchedDataEntry>, before: seq<StoredData>, d: seq<StoredData>, d': seq<StoredData>,
                  nows: seq<Time>, fetched: seq<Result<EntrySet>>, results: seq<Result<bool>>, r: Result<bool>)
    requires SlotsDone(es, before, d, nows, fetched, results) && |results| < |es|
    requires var k := |results|;
             && |d'| == |d| && d' == d[k := d'[k]]
             && SlotOutcome(d[k], d'[k], es[k].fetcher.retryEvery, nows[k], fetched[k], r)
    ensures SlotsDone(es, before, d', nows, fetched, results + [r])
  {
  }

  /**
   * Category `c` stays in sync through slots with these `results` and
   * categories: no slot depicting `c` failed, and either `c` was in sync
   * before or some slot depicting it updated.
   */
  predicate KeptInSync(results: seq<Result<bool>>, depicts: seq<set<DepictionCategory>>, wasSynced: bool, c: DepictionCategory)
    requires |results| == |depicts|
  {
    && (forall j :: 0 <= j < |results| && c in depicts[j] ==> results[j].Ok?)
    && (wasSynced || exists j :: 0 <= j < |results| && c in depicts[j] && results[j] == Ok(true))
  }

  lemma KeptInSyncStep(results: seq<Result<bool>>, r: Result<bool>, depicts: seq<set<DepictionCategory>>,
                       d: set<DepictionCategory>, wasSynced: bool, c: DepictionCategory)
    requires |results| == |depicts|
    requires KeptInSync(results + [r], depicts + [d], wasSynced, c)
    ensures c in d ==> r.Ok?
    ensures !(c in d && r == Ok(true)) ==> KeptInSync(results, depicts, wasSynced, c)
  {
    var rs, ds := results + [r], depicts + [d];
    assert forall j :: 0 <= j < |results| ==> rs[j] == results[j] && ds[j] == depicts[j];
    if c in d {
      assert rs[|results|] == r && ds[|results|] == d;
    }
    if !(c in d && r == Ok(true)) && !wasSynced {
      var j :| 0 <= j < |rs| && c in ds[j] && rs[j] == Ok(true);
      assert j < |results|;
    }
  }

  /** One slot keeps a category in sync, or brings it in sync when it republishes it. */
  lemma KeepsSync(m: map<DepictionCategory, Snapshot>, m': map<DepictionCategory, Snapshot>, s: seq<Source>, s': seq<Source>,
                  depict: set<DepictionCategory>, r: Result<bool>, o: Overrides, encode: JsonEncoder, c: DepictionCategory)
    requires NeverFails(encode)
    requires RepublishedSoFar(m', m, if r == Ok(true) then depict else {}, s', o, encode)
    requires c !in depict ==> Merged(s', o, c) == Merged(s, o, c)
    requires r == Ok(false) ==> s' == s
    requires c in m
    requires c in depict ==> r.Ok?
    requires (c in depict && r == Ok(true)) || Publishes(m, s, o, c)
    ensures Publishes(m', s', o, c)
  {
    assert c in m';
    if c in depict && r == Ok(true) {
      assert encode(Merged(s', o, c)).Some?;
    } else {
      assert c !in (if r == Ok(true) then depict else {});
      assert m'[c] == m[c];
      if c in depict {
        assert r.Ok? && r != Ok(true);
        assert !r.value;
        assert r == Ok(false);
        assert s' == s;
      }
    }
  }

  /** Every snapshot of `m` is the one of `orig` or the serialisation of its records. */
  ghost predicate FreshOrKept(m: map<DepictionCategory, Snapshot>, orig: map<DepictionCategory, Snapshot>, encode: JsonEncoder) {
    forall c :: c in m ==> (c in orig && m[c] == orig[c]) || Consistent(m[c], encode)
  }

  lemma FreshOrKeptStep(m: map<DepictionCategory, Snapshot>, m': map<DepictionCategory, Snapshot>, orig: map<DepictionCategory, Snapshot>,
                        done: set<DepictionCategory>, sources: seq<Source>, o: Overrides, encode: JsonEncoder)
    requires FreshOrKept(m, orig, encode)
    requires RepublishedSoFar(m', m, done, sources, o, encode)
    ensures FreshOrKept(m', orig, encode)
  {
    forall c | c in m' ensures (c in orig && m'[c] == orig[c]) || Consistent(m'[c], encode) {
      if c !in done {
        assert m'[c] == m[c];
      }
    }
  }

  /**
   * After the slots with these `results` and categories, every category
   * that was kept in sync shows the records of `sources`; `synced` says
   * which categories were in sync before the pass.
   */
  ghost predicate PassSynced(m: map<DepictionCategory, Snapshot>, orig: map<DepictionCategory, Snapshot>,
                             synced: map<DepictionCategory, bool>, sources: seq<Source>, o: Overrides,
                             results: seq<Result<bool>>, depicts: seq<set<DepictionCategory>>)
    requires |results| == |depicts|
  {
    forall c :: c in orig && c in synced && KeptInSync(results, depicts, synced[c], c) ==> Publishes(m, sources, o, c)
  }

  /** One slot of the pass preserves `PassSynced`. */
  lemma PassSyncStep(m: map<DepictionCategory, Snapshot>, m': map<DepictionCategory, Snapshot>, orig: map<DepictionCategory, Snapshot>,
                     synced: map<DepictionCategory, bool>, s: seq<Source>, s': seq<Source>, o: Overrides, encode: JsonEncoder,
                     results: seq<Result<bool>>, r: Result<bool>, depicts: seq<set<DepictionCategory>>, d: set<DepictionCategory>)
    requires NeverFails(encode) && |results| == |depicts|
    requires m.Keys == orig.Keys
    requires RepublishedSoFar(m', m, if r == Ok(true) then d else {}, s', o, encode)
    requires forall c :: c !in d ==> Merged(s', o, c) == Merged(s, o, c)
    requires r == Ok(false) ==> s' == s
    requires PassSynced(m, orig, synced, s, o, results, depicts)
    ensures PassSynced(m', orig, synced, s', o, results + [r], depicts + [d])
  {
    forall c | c in orig && c in synced && KeptInSync(results + [r], depicts + [d], synced[c], c)
      ensures Publishes(m', s', o, c)
    {
      KeptInSyncStep(results, r, depicts, d, synced[c], c);
      KeepsSync(m, m', s, s', d, r, o, encode, c);
    }
  }

  lemma TakeSnoc<T>(xs: seq<T>, k: nat)
    requires k < |xs|
    ensures xs[..k + 1] == xs[..k] + [xs[k]]
  {
  }

  /** Every category of `done` holds the snapshot of its records. */
  ghost predicate PublishedSoFar(m: map<DepictionCategory, Snapshot>, done: set<DepictionCategory>,
                                 sources: seq<Source>, o: Overrides, encode: JsonEncoder) {
    forall c :: c in done ==> Publishes(m, sources, o, c) && Consistent(m[c], encode)
  }

  lemma PublishStep(m: map<DepictionCategory, Snapshot>, done: set<DepictionCategory>, d: DepictionCategory,
                    s: Snapshot, sources: seq<Source>, o: Overrides, encode: JsonEncoder)
    requires PublishedSoFar(m, done, sources, o, encode)
    requires s.entries == Merged(sources, o, d) && Consistent(s, encode)
    ensures PublishedSoFar(m[d := s], done + {d}, sources, o, encode)
  {
    forall c | c in done + {d} ensures Publishes(m[d := s], sources, o, c) && Consistent(m[d := s][c], encode) {
      if c != d {
        assert m[d := s][c] == m[c];
      }
    }
  }

  /**
   * The loop of `DepictAppData::new`: the snapshot of every category in
   * `categories`, replacing the defaults; it stops at the first category
   * whose records cannot be serialised.
   */
  method Publish(fds: FetchedDataSet, categories: set<DepictionCategory>, toDisplay: map<DepictionCategory, Snapshot>,
                 encode: JsonEncoder) returns (r: Result<map<DepictionCategory, Snapshot>>)
    ensures r.Err? ==> exists c :: c in categories && encode(Merged(fds.Sources(), fds.extra.overrides, c)).None?
    ensures r.Ok? ==>
              && r.value.Keys == toDisplay.Keys + categories
              && PublishedSoFar(r.value, categories, fds.Sources(), fds.extra.overrides, encode)
  {
    ghost var sources, o := fds.Sources(), fds.extra.overrides;
    var m := toDisplay;
    var rest := categories;
    while rest != {}
      invariant rest <= categories
      invariant m.Keys == toDisplay.Keys + (categories - rest)
      invariant PublishedSoFar(m, categories - rest, sources, o, encode)
    {
      var d :| d in rest;
      var entries := fds.BuildDataForDepictionCategory(d);
      var snapshot := NewSnapshot(entries, encode);
      if snapshot.Err? {
        return Err(snapshot.msg);
      }
      PublishStep(m, categories - rest, d, snapshot.value, sources, o, encode);
      assert categories - rest + {d} == categories - (rest - {d});
      m := m[d := snapshot.value];
      rest := rest - {d};
    }
    return Ok(m);
  }
}
