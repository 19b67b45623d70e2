/**
 * The record exchanged throughout the service (`MapEntry`, src/map_entry.rs),
 * its identities and categories (src/lib.rs), and the total order that
 * Rust's `#[derive(PartialOrd, Ord)]` gives it.
 *
 * Representation choice: the sources disagree on the image fields. This
 * model follows src/overrides.rs and keeps ONE optional image made of a url,
 * a credit url and a credit text (`ImageSource`); the separate
 * `image_source_url` / `image_source_text` of src/map_entry.rs are that
 * image's `creditUrl` / `creditText`.
 */
module Records {
  import opened Wrappers

  newtype u64 = x: int | 0 <= x < 0x1_0000_0000_0000_0000

  /** `OrderedFloat<f64>`: the infinities, the finite values (rounding is not modelled) and one NaN above all. */
  datatype Float = NegInf | Finite(r: real) | PosInf | NaN

  /** The identity of the element a record was built from, in one source. */
  datatype ElementId = Osm(osmId: u64) | Wikidata(qid: string)

  datatype ImageSource = ImageSource(url: string, creditUrl: Option<string>, creditText: Option<string>)

  /** (latitude, longitude), WGS84. */
  type Position = (Float, Float)

  datatype MapEntry = MapEntry(
    pos: Option<Position>,
    name: Option<string>,
    locationName: Option<string>,
    image: Option<ImageSource>,
    sourceUrl: Option<string>,
    isInExhibit: bool,
    nature: Option<string>,
    elementIds: seq<ElementId>)

  /** What kind of thing is depicted; groups several sources into one published view. */
  datatype DepictionCategory = DepictionCategory(name: string)

  const Dragon := DepictionCategory("dragon")

  // ---------------------------------------------------------------------
  // The derived order
  // ---------------------------------------------------------------------

  datatype Ordering = Less | Equal | Greater {
    function Flip(): Ordering {
      match this
      case Less => Greater
      case Equal => Equal
      case Greater => Less
    }

    /** Lexicographic combination: the first component that is not `Equal` decides. */
    function Then(next: Ordering): Ordering {
      if this == Equal then next else this
    }
  }

  /** The laws of a total order, at three given points. */
  ghost predicate LawsAt<T>(cmp: (T, T) -> Ordering, x: T, y: T, z: T) {
    && (cmp(x, y) == Equal <==> x == y)
    && (cmp(y, z) == Equal <==> y == z)
    && (cmp(x, z) == Equal <==> x == z)
    && cmp(y, x) == cmp(x, y).Flip()
    && (cmp(x, y) == Less && cmp(y, z) == Less ==> cmp(x, z) == Less)
  }

  ghost predicate TotalOrder<T(!new)>(cmp: (T, T) -> Ordering) {
    forall x, y, z :: LawsAt(cmp, x, y, z)
  }

  function CompareInt(a: int, b: int): Ordering {
    if a < b then Less else if a == b then Equal else Greater
  }

  function CompareReal(a: real, b: real): Ordering {
    if a < b then Less else if a == b then Equal else Greater
  }

  function CompareChar(a: char, b: char): Ordering {
    if a < b then Less else if a == b then Equal else Greater
  }

  function CompareBool(a: bool, b: bool): Ordering {
    if a == b then Equal else if !a then Less else Greater
  }

  function FloatRank(f: Float): nat {
    match f
    case NegInf => 0
    case Finite(_) => 1
    case PosInf => 2
    case NaN => 3
  }

  /** `OrderedFloat`'s order: numeric, with NaN greater than everything. */
  function CompareFloat(a: Float, b: Float): Ordering {
    if a.Finite? && b.Finite? then CompareReal(a.r, b.r)
    else CompareInt(FloatRank(a), FloatRank(b))
  }

  /** `None` before every `Some`; two `Some` compare by their contents. */
  function CompareOption<T>(a: Option<T>, b: Option<T>, cmp: (T, T) -> Ordering): Ordering {
    match (a, b)
    case (None, None) => Equal
    case (None, Some(_)) => Less
    case (Some(_), None) => Greater
    case (Some(x), Some(y)) => cmp(x, y)
  }

  /** Lexicographic order on sequences (a proper prefix comes first); strings and `Vec`s. */
  function CompareSeq<T>(a: seq<T>, b: seq<T>, cmp: (T, T) -> Ordering): Ordering
    decreases |a|
  {
    if a == [] then (if b == [] then Equal else Less)
    else if b == [] then Greater
    else cmp(a[0], b[0]).Then(CompareSeq(a[1..], b[1..], cmp))
  }

  function CompareString(a: string, b: string): Ordering {
    CompareSeq(a, b, CompareChar)
  }

  function CompareOptString(a: Option<string>, b: Option<string>): Ordering {
    CompareOption(a, b, CompareString)
  }

  function ComparePosition(a: Position, b: Position): Ordering {
    CompareFloat(a.0, b.0).Then(CompareFloat(a.1, b.1))
  }

  function CompareOptPosition(a: Option<Position>, b: Option<Position>): Ordering {
    CompareOption(a, b, ComparePosition)
  }

  function CompareImage(a: ImageSource, b: ImageSource): Ordering {
    CompareString(a.url, b.url)
      .Then(CompareOptString(a.creditUrl, b.creditUrl))
      .Then(CompareOptString(a.creditText, b.creditText))
  }

  function CompareOptImage(a: Option<ImageSource>, b: Option<ImageSource>): Ordering {
    CompareOption(a, b, CompareImage)
  }

  /** Variants in declaration order, then their payloads. */
  function CompareElementId(a: ElementId, b: ElementId): Ordering {
    match (a, b)
    case (Osm(x), Osm(y)) => CompareInt(x as int, y as int)
    case (Osm(_), Wikidata(_)) => Less
    case (Wikidata(_), Osm(_)) => Greater
    case (Wikidata(x), Wikidata(y)) => CompareString(x, y)
  }

  function CompareIds(a: seq<ElementId>, b: seq<ElementId>): Ordering {
    CompareSeq(a, b, CompareElementId)
  }

  /** Lexicographic combination of a sequence of component comparisons. */
  function Lex(s: seq<Ordering>): Ordering {
    if s == [] then Equal else s[0].Then(Lex(s[1..]))
  }

  /** The comparisons of the fields of two records, in declaration order. */
  function FieldComparisons(a: MapEntry, b: MapEntry): seq<Ordering> {
    [ CompareOptPosition(a.pos, b.pos),
      CompareOptString(a.name, b.name),
      CompareOptString(a.locationName, b.locationName),
      CompareOptImage(a.image, b.image),
      CompareOptString(a.sourceUrl, b.sourceUrl),
      CompareBool(a.isInExhibit, b.isInExhibit),
      CompareOptString(a.nature, b.nature),
      CompareIds(a.elementIds, b.elementIds) ]
  }

  /** The derived `Ord` of `MapEntry`: its fields compared in declaration order. */
  function Compare(a: MapEntry, b: MapEntry): Ordering {
    Lex(FieldComparisons(a, b))
  }

  predicate Lt(a: MapEntry, b: MapEntry) {
    Compare(a, b) == Less
  }

  // ---------------------------------------------------------------------
  // The derived order is a total order
  // ---------------------------------------------------------------------

  lemma OptionLaws<T>(a: Option<T>, b: Option<T>, c: Option<T>, cmp: (T, T) -> Ordering)
    requires a.Some? && b.Some? && c.Some? ==> LawsAt(cmp, a.value, b.value, c.value)
    requires a.Some? && b.Some? ==> LawsAt(cmp, a.value, b.value, b.value)
    requires b.Some? && c.Some? ==> LawsAt(cmp, b.value, c.value, c.value)
    requires a.Some? && c.Some? ==> LawsAt(cmp, a.value, c.value, c.value)
    ensures LawsAt((x, y) => CompareOption(x, y, cmp), a, b, c)
  {
  }

  lemma {:induction false} SeqPairLaws<T(!new)>(a: seq<T>, b: seq<T>, cmp: (T, T) -> Ordering)
    requires TotalOrder(cmp)
    ensures CompareSeq(a, b, cmp) == Equal <==> a == b
    ensures CompareSeq(b, a, cmp) == CompareSeq(a, b, cmp).Flip()
    decreases |a|
  {
    if a != [] && b != [] {
      SeqPairLaws(a[1..], b[1..], cmp);
      assert LawsAt(cmp, a[0], b[0], b[0]);
      assert a == [a[0]] + a[1..] && b == [b[0]] + b[1..];
    }
  }

  lemma {:induction false} SeqTransitive<T(!new)>(a: seq<T>, b: seq<T>, c: seq<T>, cmp: (T, T) -> Ordering)
    requires TotalOrder(cmp)
    ensures CompareSeq(a, b, cmp) == Less && CompareSeq(b, c, cmp) == Less ==> CompareSeq(a, c, cmp) == Less
    decreases |a|
  {
    if a != [] && b != [] && c != [] {
      SeqTransitive(a[1..], b[1..], c[1..], cmp);
      assert LawsAt(cmp, a[0], b[0], c[0]);
      SeqPairLaws(a[1..], b[1..], cmp);
      SeqPairLaws(b[1..], c[1..], cmp);
    }
  }

  lemma SeqLaws<T(!new)>(a: seq<T>, b: seq<T>, c: seq<T>, cmp: (T, T) -> Ordering)
    requires TotalOrder(cmp)
    ensures LawsAt((x, y) => CompareSeq(x, y, cmp), a, b, c)
  {
    SeqPairLaws(a, b, cmp);
    SeqPairLaws(b, c, cmp);
    SeqPairLaws(a, c, cmp);
    SeqTransitive(a, b, c, cmp);
  }

  lemma CharIsTotalOrder()
    ensures TotalOrder(CompareChar)
  {
  }

  lemma StringLaws(a: string, b: string, c: string)
    ensures LawsAt(CompareString, a, b, c)
  {
    CharIsTotalOrder();
    SeqLaws(a, b, c, CompareChar);
  }

  lemma OptStringLaws(a: Option<string>, b: Option<string>, c: Option<string>)
    ensures LawsAt(CompareOptString, a, b, c)
  {
    if a.Some? && b.Some? && c.Some? { StringLaws(a.value, b.value, c.value); }
    if a.Some? && b.Some? { StringLaws(a.value, b.value, b.value); }
    if b.Some? && c.Some? { StringLaws(b.value, c.value, c.value); }
    if a.Some? && c.Some? { StringLaws(a.value, c.value, c.value); }
    OptionLaws(a, b, c, CompareString);
  }

  lemma FloatIsTotalOrder()
    ensures TotalOrder(CompareFloat)
  {
  }

  lemma PositionLaws(a: Position, b: Position, c: Position)
    ensures LawsAt(ComparePosition, a, b, c)
  {
    FloatIsTotalOrder();
    assert LawsAt(CompareFloat, a.0, b.0, c.0);
    assert LawsAt(CompareFloat, a.1, b.1, c.1);
  }

  lemma ImageLaws(a: ImageSource, b: ImageSource, c: ImageSource)
    ensures LawsAt(CompareImage, a, b, c)
  {
    StringLaws(a.url, b.url, c.url);
    OptStringLaws(a.creditUrl, b.creditUrl, c.creditUrl);
    OptStringLaws(a.creditText, b.creditText, c.creditText);
  }

  lemma ElementIdLaws(a: ElementId, b: ElementId, c: ElementId)
    ensures LawsAt(CompareElementId, a, b, c)
  {
    if a.Wikidata? && b.Wikidata? && c.Wikidata? { StringLaws(a.qid, b.qid, c.qid); }
    if a.Wikidata? && b.Wikidata? { StringLaws(a.qid, b.qid, b.qid); }
    if b.Wikidata? && c.Wikidata? { StringLaws(b.qid, c.qid, c.qid); }
    if a.Wikidata? && c.Wikidata? { StringLaws(a.qid, c.qid, c.qid); }
  }

  lemma ElementIdIsTotalOrder()
    ensures TotalOrder(CompareElementId)
  {
    forall x, y, z ensures LawsAt(CompareElementId, x, y, z) {
      ElementIdLaws(x, y, z);
    }
  }

  lemma OptPositionLaws(a: Option<Position>, b: Option<Position>, c: Option<Position>)
    ensures LawsAt(CompareOptPosition, a, b, c)
  {
    if a.Some? && b.Some? && c.Some? { PositionLaws(a.value, b.value, c.value); }
    if a.Some? && b.Some? { PositionLaws(a.value, b.value, b.value); }
    if b.Some? && c.Some? { PositionLaws(b.value, c.value, c.value); }
    if a.Some? && c.Some? { PositionLaws(a.value, c.value, c.value); }
    OptionLaws(a, b, c, ComparePosition);
  }

  lemma OptImageLaws(a: Option<ImageSource>, b: Option<ImageSource>, c: Option<ImageSource>)
    ensures LawsAt(CompareOptImage, a, b, c)
  {
    if a.Some? && b.Some? && c.Some? { ImageLaws(a.value, b.value, c.value); }
    if a.Some? && b.Some? { ImageLaws(a.value, b.value, b.value); }
    if b.Some? && c.Some? { ImageLaws(b.value, c.value, c.value); }
    if a.Some? && c.Some? { ImageLaws(a.value, c.value, c.value); }
    OptionLaws(a, b, c, CompareImage);
  }

  /**
   * What a comparison must satisfy at the pairs (a,b), (b,c), (a,c), (b,a)
   * for a lexicographic combination to stay transitive and antisymmetric.
   */
  predicate Coherent(ab: Ordering, bc: Ordering, ac: Ordering, ba: Ordering) {
    && ba == ab.Flip()
    && (ab == Less && bc == Less ==> ac == Less)
    && (ab == Equal ==> ac == bc)
    && (bc == Equal ==> ac == ab)
  }

  lemma {:induction false} LexCoherent(ab: seq<Ordering>, bc: seq<Ordering>, ac: seq<Ordering>, ba: seq<Ordering>)
    requires |ab| == |bc| == |ac| == |ba|
    requires forall i :: 0 <= i < |ab| ==> Coherent(ab[i], bc[i], ac[i], ba[i])
    ensures Coherent(Lex(ab), Lex(bc), Lex(ac), Lex(ba))
  {
    if ab != [] {
      LexCoherent(ab[1..], bc[1..], ac[1..], ba[1..]);
    }
  }

  lemma {:induction false} LexEqual(s: seq<Ordering>)
    ensures Lex(s) == Equal <==> forall i :: 0 <= i < |s| ==> s[i] == Equal
  {
    if s != [] {
      LexEqual(s[1..]);
      assert forall i :: 1 <= i < |s| ==> s[i] == s[1..][i - 1];
    }
  }

  lemma LawsCoherent<T>(cmp: (T, T) -> Ordering, x: T, y: T, z: T)
    requires LawsAt(cmp, x, y, z)
    ensures Coherent(cmp(x, y), cmp(y, z), cmp(x, z), cmp(y, x))
  {
  }

  lemma IdsLaws(a: seq<ElementId>, b: seq<ElementId>, c: seq<ElementId>)
    ensures LawsAt(CompareIds, a, b, c)
  {
    ElementIdIsTotalOrder();
    SeqLaws(a, b, c, CompareElementId);
  }

  lemma OptPositionCoherent(x: Option<Position>, y: Option<Position>, z: Option<Position>)
    ensures Coherent(CompareOptPosition(x, y), CompareOptPosition(y, z), CompareOptPosition(x, z), CompareOptPosition(y, x))
  {
    OptPositionLaws(x, y, z);
    LawsCoherent(CompareOptPosition, x, y, z);
  }

  lemma OptStringCoherent(x: Option<string>, y: Option<string>, z: Option<string>)
    ensures Coherent(CompareOptString(x, y), CompareOptString(y, z), CompareOptString(x, z), CompareOptString(y, x))
  {
    OptStringLaws(x, y, z);
    LawsCoherent(CompareOptString, x, y, z);
  }

  lemma OptImageCoherent(x: Option<ImageSource>, y: Option<ImageSource>, z: Option<ImageSource>)
    ensures Coherent(CompareOptImage(x, y), CompareOptImage(y, z), CompareOptImage(x, z), CompareOptImage(y, x))
  {
    OptImageLaws(x, y, z);
    LawsCoherent(CompareOptImage, x, y, z);
  }

  lemma IdsCoherent(x: seq<ElementId>, y: seq<ElementId>, z: seq<ElementId>)
    ensures Coherent(CompareIds(x, y), CompareIds(y, z), CompareIds(x, z), CompareIds(y, x))
  {
    IdsLaws(x, y, z);
    LawsCoherent(CompareIds, x, y, z);
  }

  /** Each field comparison is coherent at the three records. */
  lemma FieldCoherent(a: MapEntry, b: MapEntry, c: MapEntry, i: nat)
    requires i < 8
    ensures Coherent(FieldComparisons(a, b)[i], FieldComparisons(b, c)[i], FieldComparisons(a, c)[i], FieldComparisons(b, a)[i])
  {
    var ab, bc, ac, ba := FieldComparisons(a, b), FieldComparisons(b, c), FieldComparisons(a, c), FieldComparisons(b, a);
    if i == 0 {
      assert ab[0] == CompareOptPosition(a.pos, b.pos) && bc[0] == CompareOptPosition(b.pos, c.pos);
      assert ac[0] == CompareOptPosition(a.pos, c.pos) && ba[0] == CompareOptPosition(b.pos, a.pos);
      OptPositionCoherent(a.pos, b.pos, c.pos);
    } else if i == 3 {
      assert ab[3] == CompareOptImage(a.image, b.image) && bc[3] == CompareOptImage(b.image, c.image);
      assert ac[3] == CompareOptImage(a.image, c.image) && ba[3] == CompareOptImage(b.image, a.image);
      OptImageCoherent(a.image, b.image, c.image);
    } else if i == 5 {
      assert ab[5] == CompareBool(a.isInExhibit, b.isInExhibit) && bc[5] == CompareBool(b.isInExhibit, c.isInExhibit);
      assert ac[5] == CompareBool(a.isInExhibit, c.isInExhibit) && ba[5] == CompareBool(b.isInExhibit, a.isInExhibit);
    } else if i == 7 {
      assert ab[7] == CompareIds(a.elementIds, b.elementIds) && bc[7] == CompareIds(b.elementIds, c.elementIds);
      assert ac[7] == CompareIds(a.elementIds, c.elementIds) && ba[7] == CompareIds(b.elementIds, a.elementIds);
      IdsCoherent(a.elementIds, b.elementIds, c.elementIds);
    } else {
      var x, y, z := FieldString(a, i), FieldString(b, i), FieldString(c, i);
      assert ab[i] == CompareOptString(x, y) && bc[i] == CompareOptString(y, z);
      assert ac[i] == CompareOptString(x, z) && ba[i] == CompareOptString(y, x);
      OptStringCoherent(x, y, z);
    }
  }

  /** The optional text fields of a record, by position. */
  function FieldString(a: MapEntry, i: nat): Option<string>
    requires i == 1 || i == 2 || i == 4 || i == 6
  {
    if i == 1 then a.name else if i == 2 then a.locationName else if i == 4 then a.sourceUrl else a.nature
  }

  /** Two records compare `Equal` exactly when every field is equal. */
  lemma CompareEqualIff(a: MapEntry, b: MapEntry)
    ensures Compare(a, b) == Equal <==> a == b
  {
    OptPositionLaws(a.pos, b.pos, b.pos);
    OptStringLaws(a.name, b.name, b.name);
    OptStringLaws(a.locationName, b.locationName, b.locationName);
    OptImageLaws(a.image, b.image, b.image);
    OptStringLaws(a.sourceUrl, b.sourceUrl, b.sourceUrl);
    OptStringLaws(a.nature, b.nature, b.nature);
    IdsLaws(a.elementIds, b.elementIds, b.elementIds);
    var ab := FieldComparisons(a, b);
    LexEqual(ab);
    if Compare(a, b) == Equal {
      assert ab[0] == Equal && ab[1] == Equal && ab[2] == Equal && ab[3] == Equal;
      assert ab[4] == Equal && ab[5] == Equal && ab[6] == Equal && ab[7] == Equal;
    }
  }

  lemma CompareCoherent(a: MapEntry, b: MapEntry, c: MapEntry)
    ensures Coherent(Compare(a, b), Compare(b, c), Compare(a, c), Compare(b, a))
  {
    var ab, bc, ac, ba := FieldComparisons(a, b), FieldComparisons(b, c), FieldComparisons(a, c), FieldComparisons(b, a);
    forall i | 0 <= i < 8 ensures Coherent(ab[i], bc[i], ac[i], ba[i]) {
      FieldCoherent(a, b, c, i);
    }
    LexCoherent(ab, bc, ac, ba);
  }

  /** The derived order of `MapEntry` is a total order whose equality is field-wise equality. */
  lemma CompareLaws(a: MapEntry, b: MapEntry, c: MapEntry)
    ensures LawsAt(Compare, a, b, c)
  {
    CompareEqualIff(a, b);
    CompareEqualIff(b, c);
    CompareEqualIff(a, c);
    CompareCoherent(a, b, c);
  }

  lemma CompareIsTotalOrder()
    ensures TotalOrder(Compare)
  {
    forall x, y, z ensures LawsAt(Compare, x, y, z) {
      CompareLaws(x, y, z);
    }
  }

  // ---------------------------------------------------------------------
  // post_process
  // ---------------------------------------------------------------------

  /** What the `url` crate tells about a parsed URL: its domain and, unless it cannot be a base, its path segments. */
  datatype Url = Url(domain: Option<string>, pathSegments: Option<seq<string>>)

  /** `Url::parse`, an external parser: `None` for a string it rejects. */
  type UrlParser = string -> Option<Url>

  /** The domain of the image's credit url, when there is one and it parses. */
  function CreditDomain(e: MapEntry, parse: UrlParser): Option<string> {
    if e.image.Some? && e.image.value.creditUrl.Some? && parse(e.image.value.creditUrl.value).Some?
    then parse(e.image.value.creditUrl.value).value.domain
    else None
  }

  /**
   * `MapEntry::post_process`: an image with a credit url but no credit text
   * gets the text "From <domain>" when that url parses and has a domain.
   */
  function PostProcess(e: MapEntry, parse: UrlParser): (r: MapEntry)
    // only the credit text of the image can change
    ensures r.(image := e.image) == e
    ensures r.image.Some? <==> e.image.Some?
    ensures r.image.Some? ==> r.image.value.(creditText := e.image.value.creditText) == e.image.value
    // the text is filled in exactly when it is missing and the credit url has a domain
    ensures (e.image.Some? && e.image.value.creditText.None? && CreditDomain(e, parse).Some?) ==>
              r.image.value.creditText == Some("From " + CreditDomain(e, parse).value)
    // in every other case (text already present, no credit url, unparsable url, no domain) nothing changes
    ensures !(e.image.Some? && e.image.value.creditText.None? && CreditDomain(e, parse).Some?) ==> r == e
  {
    match e.image
    case None => e
    case Some(img) =>
      if img.creditText.None? && img.creditUrl.Some? then
        match parse(img.creditUrl.value)
        case Some(url) =>
          if url.domain.Some? then e.(image := Some(img.(creditText := Some("From " + url.domain.value))))
          else e
        case None => e
      else e
  }

  /** Post-processing twice is post-processing once: once the text is set it is never touched again. */
  lemma PostProcessIdempotent(e: MapEntry, parse: UrlParser)
    ensures PostProcess(PostProcess(e, parse), parse) == PostProcess(e, parse)
  {
  }
}
