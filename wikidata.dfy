/**
 * The Wikidata source (src/fetch_data_wikidata_sparql.rs): turning the
 * bindings of a SPARQL answer into records. The HTTP request and the JSON
 * decoding of the answer are outside the model: it starts from the decoded
 * bindings.
 */
module WikidataSparql {
  import opened Wrappers
  import opened Text
  import opened Records
  import opened EntrySets
  import opened FetchData

  /** `str::parse::<f64>`, an external parser. */
  type FloatParser = string -> Option<Float>

  /**
   * `parse_point`: reads a WKT literal "Point(<lon> <lat>)". The text after
   * the first "Point(" is cut at the next ")", split at spaces, and the
   * first two pieces are parsed; the pair is returned the other way round.
   */
  function ParsePoint(value: string, parseFloat: FloatParser): (r: Option<Position>)
    ensures r.Some? ==> Contains(value, "Point(")
  {
    SplitSingleIff(value, "Point(");
    var parts := Split(value, "Point(");
    if |parts| < 2 then None
    else
      var isolated := Split(parts[1], ")")[0];
      var tokens := Split(isolated, " ");
      if |tokens| < 2 then None
      else
        match (parseFloat(tokens[0]), parseFloat(tokens[1]))
        case (Some(first), Some(second)) => Some((second, first))
        case _ => None
  }

  /** Splitting a text without the separator's last character gives the text itself. */
  lemma SplitWithout(s: string, sep: string)
    requires |sep| > 0 && sep[|sep| - 1] !in s
    ensures Split(s, sep) == [s]
  {
    if Contains(s, sep) { ContainsHasLastChar(s, sep); }
    SplitSingleIff(s, sep);
  }

  /** The text after the only "Point(" is the second piece. */
  lemma PointPieces(prefix: string, m: string)
    requires '(' !in prefix && '(' !in m
    ensures Split(prefix + "Point(" + m, "Point(") == [prefix, m]
  {
    SplitAfterPiece(prefix, "Point(", m);
    SplitWithout(m, "Point(");
  }

  /** Cutting at ")" keeps what precedes the first ")". */
  lemma BeforeParen(inner: string)
    requires ')' !in inner
    ensures Split(inner + ")", ")")[0] == inner
  {
    SplitAfterPiece(inner, ")", []);
    assert inner + ")" == inner + ")" + [];
  }

  /** The first two space-separated tokens of "a b..." are a and b. */
  lemma TwoTokens(a: string, b: string, rest: string)
    requires ' ' !in a && ' ' !in b
    requires rest == [] || rest[0] == ' '
    ensures var t := Split(a + " " + b + rest, " "); |t| >= 2 && t[0] == a && t[1] == b
  {
    assert a + " " + b + rest == a + " " + (b + rest);
    SplitAfterPiece(a, " ", b + rest);
    if rest == [] {
      assert b + rest == b;
      SplitWithout(b, " ");
    } else {
      assert b + rest == b + " " + rest[1..];
      SplitAfterPiece(b, " ", rest[1..]);
    }
  }

  /**
   * A well-formed point: whatever precedes "Point(", the first two
   * space-separated numbers are read, any further ones are ignored, and the
   * result is (second, first) — WKT writes longitude first.
   */
  lemma ParsePointReadsTwoNumbers(prefix: string, a: string, b: string, rest: string, parseFloat: FloatParser)
    requires '(' !in prefix
    requires ' ' !in a && ')' !in a && '(' !in a
    requires ' ' !in b && ')' !in b && '(' !in b
    requires rest == [] || (rest[0] == ' ' && ')' !in rest && '(' !in rest)
    ensures ParsePoint(prefix + "Point(" + a + " " + b + rest + ")", parseFloat) ==
              if parseFloat(a).Some? && parseFloat(b).Some? then Some((parseFloat(b).value, parseFloat(a).value)) else None
  {
    var inner := a + " " + b + rest;
    assert prefix + "Point(" + a + " " + b + rest + ")" == prefix + "Point(" + (inner + ")");
    PointPieces(prefix, inner + ")");
    BeforeParen(inner);
    TwoTokens(a, b, rest);
  }

  /** A point with a single number between the parentheses is rejected. */
  lemma ParsePointNeedsTwoNumbers(prefix: string, a: string, parseFloat: FloatParser)
    requires '(' !in prefix
    requires ' ' !in a && ')' !in a && '(' !in a
    ensures ParsePoint(prefix + "Point(" + a + ")", parseFloat) == None
  {
    assert prefix + "Point(" + a + ")" == prefix + "Point(" + (a + ")");
    PointPieces(prefix, a + ")");
    BeforeParen(a);
    SplitWithout(a, " ");
  }

  /** A value of the SPARQL answer; `value` is absent for an unbound variable. */
  datatype WikidataValue = WikidataValue(value: Option<string>)

  /** `WikidataValue::is_true`: the value exists and, lower-cased, is "true". */
  function IsTrue(v: WikidataValue): (r: bool)
    ensures r ==> v.value.Some? && |v.value.value| == 4
  {
    v.value.Some? && Lower(v.value.value) == "true"
  }

  /** `WikidataValue::is_false`: the value exists and, lower-cased, is "false". */
  function IsFalse(v: WikidataValue): (r: bool)
    ensures r ==> v.value.Some? && |v.value.value| == 5
  {
    v.value.Some? && Lower(v.value.value) == "false"
  }

  /** The two tests ignore case and never both hold; a missing value is neither. */
  lemma TrueFalseProperties(v: WikidataValue)
    ensures !(IsTrue(v) && IsFalse(v))
    ensures v.value.None? ==> !IsTrue(v) && !IsFalse(v)
    ensures v.value.Some? ==> IsTrue(v) == IsTrue(WikidataValue(Some(Lower(v.value.value))))
    ensures v.value.Some? ==> IsFalse(v) == IsFalse(WikidataValue(Some(Lower(v.value.value))))
  {
    if v.value.Some? {
      var s := v.value.value;
      assert Lower(Lower(s)) == Lower(s);
    }
  }

  /** One binding (row) of the answer; every variable may be missing. */
  datatype WikidataElement = WikidataElement(
    item: Option<WikidataValue>,
    itemLabel: Option<WikidataValue>,
    coords: Option<WikidataValue>,
    coordsApproxP1_0: Option<WikidataValue>,
    coordsApproxP1_1: Option<WikidataValue>,
    coordsApproxP2_0: Option<WikidataValue>,
    coordsApproxC1_0_0: Option<WikidataValue>,
    coordsApproxC1_0_1: Option<WikidataValue>,
    image: Option<WikidataValue>,
    placeLabel: Option<WikidataValue>,
    natureLabel: Option<WikidataValue>,
    isInExhibit: Option<WikidataValue>)

  predicate HasValue(v: Option<WikidataValue>) {
    v.Some? && v.value.value.Some?
  }

  /** The value of a variable, when it is bound. */
  function ValueOf(v: Option<WikidataValue>): Option<string> {
    if HasValue(v) then v.value.value else None
  }

  /** The coordinate variables in priority order (P2_0 before P1_1). */
  function CoordCandidates(b: WikidataElement): seq<Option<WikidataValue>> {
    [b.coords, b.coordsApproxP1_0, b.coordsApproxP2_0, b.coordsApproxP1_1, b.coordsApproxC1_0_0, b.coordsApproxC1_0_1]
  }

  /** The value of the first candidate that is present and bound; a present but unbound one is skipped. */
  function FirstValue(cs: seq<Option<WikidataValue>>): (r: Option<string>)
    ensures r.None? <==> forall i :: 0 <= i < |cs| ==> !HasValue(cs[i])
    ensures r.Some? ==> exists i :: 0 <= i < |cs| && HasValue(cs[i]) && cs[i].value.value == r &&
                                    forall j :: 0 <= j < i ==> !HasValue(cs[j])
  {
    if cs == [] then None
    else if HasValue(cs[0]) then cs[0].value.value
    else
      var r := FirstValue(cs[1..]);
      assert forall i :: 1 <= i < |cs| ==> cs[i] == cs[1..][i - 1];
      assert r.Some? ==> exists i :: 0 <= i < |cs| && HasValue(cs[i]) && cs[i].value.value == r &&
                                     forall j :: 0 <= j < i ==> !HasValue(cs[j]) by {
        if r.Some? {
          var i :| 0 <= i < |cs[1..]| && HasValue(cs[1..][i]) && cs[1..][i].value.value == r &&
                   forall j :: 0 <= j < i ==> !HasValue(cs[1..][j]);
          assert HasValue(cs[i + 1]) && forall j :: 0 <= j < i + 1 ==> !HasValue(cs[j]);
        }
      }
      r
  }

  /** `WikidataElement::get_coord_value`: the loop over the candidates, returning at the first bound one. */
  method GetCoordValue(b: WikidataElement) returns (r: Option<string>)
    ensures r == FirstValue(CoordCandidates(b))
  {
    var orders := CoordCandidates(b);
    var i := 0;
    while i < |orders|
      invariant 0 <= i <= |orders|
      invariant FirstValue(orders) == FirstValue(orders[i..])
    {
      assert orders[i..][1..] == orders[i + 1..];
      if orders[i].Some? && orders[i].value.value.Some? {
        return orders[i].value.value;
      }
      i := i + 1;
    }
    return None;
  }

  /** `is_direct_location`: the exact coordinates are bound. */
  function IsDirectLocation(b: WikidataElement): bool {
    HasValue(b.coords)
  }

  /** The published flag: marked as in an exhibit, or only approximately located. */
  function IsInExhibit(b: WikidataElement): (r: bool)
    ensures r <==> (b.isInExhibit.Some? && IsTrue(b.isInExhibit.value)) || !HasValue(b.coords)
  {
    (b.isInExhibit.Some? && IsTrue(b.isInExhibit.value)) || !IsDirectLocation(b)
  }

  /** The piece after the last "/" of a text (what `split("/").last()` yields; it always exists). */
  function LastSegment(s: string): string {
    var pieces := Split(s, "/");
    pieces[|pieces| - 1]
  }

  /** The last piece is a suffix without "/", and the character before it, if any, is "/". */
  lemma {:induction false} LastSegmentIsSuffix(s: string)
    ensures var q := LastSegment(s);
            && |q| <= |s| && s[|s| - |q|..] == q && '/' !in q
            && (|q| < |s| ==> s[|s| - |q| - 1] == '/')
    decreases |s|
  {
    if s != [] {
      var init, d := s[..|s| - 1], s[|s| - 1];
      assert s == init + [d];
      LastSegmentIsSuffix(init);
      SplitSnoc(init, '/', d);
      if d != '/' {
        var q' := LastSegment(init);
        assert LastSegment(s) == q' + [d];
        assert s[|s| - |q'| - 1..] == init[|init| - |q'|..] + [d];
      }
    }
  }

  const CommonsFilePage := "https://commons.wikimedia.org/wiki/File:"

  /**
   * The Commons page of an image: the "File:" page named by the last path
   * segment of the image url; none when the url does not parse or has no
   * path segments.
   */
  function CommonsPage(imageUrl: string, parseUrl: UrlParser): (r: Option<string>)
    ensures r.Some? <==>
              && parseUrl(imageUrl).Some?
              && parseUrl(imageUrl).value.pathSegments.Some?
              && |parseUrl(imageUrl).value.pathSegments.value| > 0
    ensures r.Some? ==>
              var segments := parseUrl(imageUrl).value.pathSegments.value;
              && CommonsFilePage <= r.value
              && r.value[|CommonsFilePage|..] == segments[|segments| - 1]
  {
    match parseUrl(imageUrl)
    case None => None
    case Some(url) =>
      if url.pathSegments.Some? && |url.pathSegments.value| > 0
      then Some(CommonsFilePage + url.pathSegments.value[|url.pathSegments.value| - 1])
      else None
  }

  const CommonsCredit := "from Wikimedia Commons"

  function ItemUrl(b: WikidataElement): Option<string> {
    ValueOf(b.item)
  }

  /**
   * The record built from one binding (lines 147-189). A binding without an
   * item URL fails the whole fetch. The image keeps the credit text that the
   * source sets on every Wikidata record.
   */
  function MakeEntry(b: WikidataElement, parseFloat: FloatParser, parseUrl: UrlParser): (r: Result<MapEntry>)
    ensures r.Err? <==> ItemUrl(b).None?
    ensures r.Ok? ==>
              var e := r.value;
              && e.sourceUrl == ItemUrl(b)
              && e.elementIds == [ElementId.Wikidata(LastSegment(ItemUrl(b).value))]
              && e.name == ValueOf(b.itemLabel)
              && e.locationName == ValueOf(b.placeLabel)
              && e.nature == ValueOf(b.natureLabel)
              && e.isInExhibit == IsInExhibit(b)
              && e.pos == (if FirstValue(CoordCandidates(b)).Some? then ParsePoint(FirstValue(CoordCandidates(b)).value, parseFloat) else None)
              && (e.image.Some? <==> HasValue(b.image))
              && (e.image.Some? ==>
                    && e.image.value.url == ValueOf(b.image).value
                    && e.image.value.creditUrl == CommonsPage(ValueOf(b.image).value, parseUrl)
                    && e.image.value.creditText == Some(CommonsCredit))
  {
    var coord := match FirstValue(CoordCandidates(b)) case Some(c) => ParsePoint(c, parseFloat) case None => None;
    match ItemUrl(b)
    case None => Err("Item URL missing in an entry (the query likely has an issue)")
    case Some(itemUrl) =>
      var qid := LastSegment(itemUrl);
      var image := match ValueOf(b.image)
        case Some(v) => Some(ImageSource(v, CommonsPage(v, parseUrl), Some(CommonsCredit)))
        case None => None;
      Ok(MapEntry(coord, ValueOf(b.itemLabel), ValueOf(b.placeLabel), image, Some(itemUrl),
                  IsInExhibit(b), ValueOf(b.natureLabel), [ElementId.Wikidata(qid)]))
  }

  /** A Wikidata record credits its image to a page of Wikimedia Commons, when it credits a page at all. */
  lemma MakeEntryCreditsCommons(b: WikidataElement, parseFloat: FloatParser, parseUrl: UrlParser)
    requires MakeEntry(b, parseFloat, parseUrl).Ok?
    ensures var e := MakeEntry(b, parseFloat, parseUrl).value;
            e.image.Some? && e.image.value.creditUrl.Some? ==> CommonsFilePage <= e.image.value.creditUrl.value
  {
  }

  /**
   * The loop of `fetch_data` over the bindings: the records of all bindings,
   * as a set, or an error as soon as one binding has no item URL.
   */
  method CollectEntries(bindings: seq<WikidataElement>, parseFloat: FloatParser, parseUrl: UrlParser)
    returns (r: Result<EntrySet>)
    ensures r.Err? <==> exists i :: 0 <= i < |bindings| && ItemUrl(bindings[i]).None?
    ensures r.Ok? ==> forall e :: e in r.value <==>
              exists i :: 0 <= i < |bindings| && MakeEntry(bindings[i], parseFloat, parseUrl) == Ok(e)
  {
    var results: EntrySet := [];
    var i := 0;
    while i < |bindings|
      invariant 0 <= i <= |bindings|
      invariant CollectedSoFar(bindings, i, results, parseFloat, parseUrl)
    {
      var entry := MakeEntry(bindings[i], parseFloat, parseUrl);
      if entry.Err? {
        return Err(entry.msg);
      }
      CollectStep(bindings, i, results, parseFloat, parseUrl);
      results := Insert(results, entry.value);
      i := i + 1;
    }
    return Ok(results);
  }

  /** The first `n` bindings have an item URL, and `results` holds exactly their records. */
  ghost predicate CollectedSoFar(bindings: seq<WikidataElement>, n: nat, results: EntrySet,
                                 parseFloat: FloatParser, parseUrl: UrlParser)
    requires n <= |bindings|
  {
    && (forall k :: 0 <= k < n ==> ItemUrl(bindings[k]).Some?)
    && (forall e :: e in results <==>
          exists k :: 0 <= k < n && MakeEntry(bindings[k], parseFloat, parseUrl) == Ok(e))
  }

  lemma CollectStep(bindings: seq<WikidataElement>, n: nat, results: EntrySet, parseFloat: FloatParser, parseUrl: UrlParser)
    requires n < |bindings| && CollectedSoFar(bindings, n, results, parseFloat, parseUrl)
    requires MakeEntry(bindings[n], parseFloat, parseUrl).Ok?
    ensures CollectedSoFar(bindings, n + 1, Insert(results, MakeEntry(bindings[n], parseFloat, parseUrl).value), parseFloat, parseUrl)
  {
    var x := MakeEntry(bindings[n], parseFloat, parseUrl).value;
    var r := Insert(results, x);
    forall e ensures e in r <==> exists k :: 0 <= k < n + 1 && MakeEntry(bindings[k], parseFloat, parseUrl) == Ok(e) {
      if e == x {
        assert MakeEntry(bindings[n], parseFloat, parseUrl) == Ok(e);
      }
    }
  }

  /** `retry_every`: three hours. */
  const RetryEvery: Duration := Secs(3600 * 3)

  function NewFetcher(title: string): (f: Fetcher)
    ensures f.title == title && f.retryEvery == 10800 * 1_000_000_000
  {
    Fetcher(title, RetryEvery)
  }
}
