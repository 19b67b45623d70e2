/**
 * Static corrections keyed by element identity (src/overrides.rs), and their
 * application to a record when a category's merged list is built
 * (src/fetched_data_set.rs, the inner loop of build_data_for_depiction_category).
 */
module Overrides {
  import opened Wrappers
  import opened Records

  datatype OverrideEntry = OverrideEntry(
    localImage: Option<string>,
    imageSourceUrl: Option<string>,
    imageSourceText: Option<string>)

  /** One table per kind of identity. */
  datatype Overrides = Overrides(osm: map<u64, OverrideEntry>, wikidata: map<string, OverrideEntry>)

  /** `a` when present, otherwise `b`. */
  function Or<T>(a: Option<T>, b: Option<T>): (r: Option<T>)
    ensures r == if a.Some? then a else b
  {
    if a.Some? then a else b
  }

  /** `Overrides::get_override`: an OSM id is looked up in the OSM table only, a Wikidata id in the Wikidata table only. */
  function GetOverride(o: Overrides, id: ElementId): (r: Option<OverrideEntry>)
    ensures id.Osm? ==> (r.Some? <==> id.osmId in o.osm) && (r.Some? ==> r.value == o.osm[id.osmId])
    ensures id.Wikidata? ==> (r.Some? <==> id.qid in o.wikidata) && (r.Some? ==> r.value == o.wikidata[id.qid])
  {
    match id
    case Osm(n) => if n in o.osm then Some(o.osm[n]) else None
    case Wikidata(q) => if q in o.wikidata then Some(o.wikidata[q]) else None
  }

  /** The lookup of an identity does not depend on the table of the other kind. */
  lemma GetOverrideUsesOwnTable(o: Overrides, o': Overrides, id: ElementId)
    requires id.Osm? ==> o.osm == o'.osm
    requires id.Wikidata? ==> o.wikidata == o'.wikidata
    ensures GetOverride(o, id) == GetOverride(o', id)
  {
  }

  /**
   * `OverrideEntry::override_map_entry`: a local image replaces the image
   * (served under "/images/", with no credits of its own); then, if there is
   * an image, each credit the override supplies replaces the existing one.
   */
  function OverrideMapEntry(ov: OverrideEntry, e: MapEntry): (r: MapEntry)
    // only the image is touched
    ensures r.(image := e.image) == e
    // a local image always yields an image, with the override's credits only
    ensures ov.localImage.Some? ==>
              r.image == Some(ImageSource("/images/" + ov.localImage.value, ov.imageSourceUrl, ov.imageSourceText))
    // without a local image, no image stays no image
    ensures ov.localImage.None? && e.image.None? ==> r == e
    // without a local image, the url is kept and each credit is replaced only when the override has one
    ensures ov.localImage.None? && e.image.Some? ==>
              r.image == Some(ImageSource(e.image.value.url,
                                          Or(ov.imageSourceUrl, e.image.value.creditUrl),
                                          Or(ov.imageSourceText, e.image.value.creditText)))
  {
    var e1 := if ov.localImage.Some? then e.(image := Some(ImageSource("/images/" + ov.localImage.value, None, None))) else e;
    match e1.image
    case None => e1
    case Some(img) =>
      var img1 := if ov.imageSourceUrl.Some? then img.(creditUrl := ov.imageSourceUrl) else img;
      var img2 := if ov.imageSourceText.Some? then img1.(creditText := ov.imageSourceText) else img1;
      e1.(image := Some(img2))
  }

  /** Applying one override twice is applying it once. */
  lemma OverrideMapEntryIdempotent(ov: OverrideEntry, e: MapEntry)
    ensures OverrideMapEntry(ov, OverrideMapEntry(ov, e)) == OverrideMapEntry(ov, e)
  {
  }

  /**
   * The copy of a record that is published: every override found for one of
   * its identities, applied in the order of `elementIds`.
   */
  function ApplyOverrides(o: Overrides, ids: seq<ElementId>, e: MapEntry): MapEntry
    decreases |ids|
  {
    if ids == [] then e
    else
      var e' := ApplyOverrides(o, ids[..|ids| - 1], e);
      match GetOverride(o, ids[|ids| - 1])
      case Some(ov) => OverrideMapEntry(ov, e')
      case None => e'
  }

  function MergeEntry(o: Overrides, e: MapEntry): MapEntry {
    ApplyOverrides(o, e.elementIds, e)
  }

  // ---------------------------------------------------------------------
  // What a sequence of overrides does to an image, in closed form
  // ---------------------------------------------------------------------

  /** The effect of overrides on the image: replace it outright, or amend the credits of an image if there is one. */
  datatype ImageEffect = Replace(img: ImageSource) | Amend(creditUrl: Option<string>, creditText: Option<string>)

  function Run(f: ImageEffect, img: Option<ImageSource>): Option<ImageSource> {
    match f
    case Replace(c) => Some(c)
    case Amend(u, t) =>
      match img
      case None => None
      case Some(i) => Some(i.(creditUrl := Or(u, i.creditUrl), creditText := Or(t, i.creditText)))
  }

  /** `f`, then `g`. */
  function AndThen(f: ImageEffect, g: ImageEffect): ImageEffect {
    match g
    case Replace(c) => Replace(c)
    case Amend(u, t) =>
      match f
      case Replace(c) => Replace(c.(creditUrl := Or(u, c.creditUrl), creditText := Or(t, c.creditText)))
      case Amend(u0, t0) => Amend(Or(u, u0), Or(t, t0))
  }

  const NoEffect := Amend(None, None)

  function EffectOf(ov: OverrideEntry): ImageEffect {
    if ov.localImage.Some? then Replace(ImageSource("/images/" + ov.localImage.value, ov.imageSourceUrl, ov.imageSourceText))
    else Amend(ov.imageSourceUrl, ov.imageSourceText)
  }

  /** The combined effect of the overrides found for `ids`, in order. */
  function EffectFor(o: Overrides, ids: seq<ElementId>): ImageEffect
    decreases |ids|
  {
    if ids == [] then NoEffect
    else
      var f := EffectFor(o, ids[..|ids| - 1]);
      match GetOverride(o, ids[|ids| - 1])
      case Some(ov) => AndThen(f, EffectOf(ov))
      case None => f
  }

  lemma RunAndThen(f: ImageEffect, g: ImageEffect, img: Option<ImageSource>)
    ensures Run(AndThen(f, g), img) == Run(g, Run(f, img))
  {
  }

  lemma AndThenIdempotent(f: ImageEffect)
    ensures AndThen(f, f) == f
  {
  }

  lemma EffectOfOverride(ov: OverrideEntry, e: MapEntry)
    ensures OverrideMapEntry(ov, e) == e.(image := Run(EffectOf(ov), e.image))
  {
  }

  /** Applying the overrides of `ids` leaves every field but the image alone and runs their combined effect on it. */
  lemma {:induction false} ApplyOverridesEffect(o: Overrides, ids: seq<ElementId>, e: MapEntry)
    ensures ApplyOverrides(o, ids, e) == e.(image := Run(EffectFor(o, ids), e.image))
    decreases |ids|
  {
    if ids != [] {
      var init := ids[..|ids| - 1];
      ApplyOverridesEffect(o, init, e);
      match GetOverride(o, ids[|ids| - 1])
      case Some(ov) =>
        var e' := ApplyOverrides(o, init, e);
        EffectOfOverride(ov, e');
        RunAndThen(EffectFor(o, init), EffectOf(ov), e.image);
      case None =>
    }
  }

  /** The published copy differs from the stored record in its image only. */
  lemma MergeEntryTouchesOnlyImage(o: Overrides, e: MapEntry)
    ensures MergeEntry(o, e).(image := e.image) == e
    ensures MergeEntry(o, e).elementIds == e.elementIds
  {
    ApplyOverridesEffect(o, e.elementIds, e);
  }

  /** A record none of whose identities has an override is published as it is stored. */
  lemma {:induction false} MergeEntryNoOverride(o: Overrides, ids: seq<ElementId>, e: MapEntry)
    requires forall i :: 0 <= i < |ids| ==> GetOverride(o, ids[i]).None?
    ensures ApplyOverrides(o, ids, e) == e
    decreases |ids|
  {
    if ids != [] {
      MergeEntryNoOverride(o, ids[..|ids| - 1], e);
    }
  }

  /**
   * Override application is idempotent: applying the override table to a
   * record that already went through it changes nothing more.
   */
  lemma MergeEntryIdempotent(o: Overrides, e: MapEntry)
    ensures MergeEntry(o, MergeEntry(o, e)) == MergeEntry(o, e)
  {
    var f := EffectFor(o, e.elementIds);
    var e1 := MergeEntry(o, e);
    ApplyOverridesEffect(o, e.elementIds, e);
    assert e1.elementIds == e.elementIds;
    ApplyOverridesEffect(o, e.elementIds, e1);
    RunAndThen(f, f, e.image);
    AndThenIdempotent(f);
  }
}
