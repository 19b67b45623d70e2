/**
 * The OpenStreetMap source (src/fetch_data_openstreetmap.rs): turning the
 * elements of an Overpass answer into records. The Overpass request itself
 * is outside the model: it starts from the decoded elements.
 */
module OpenStreetMap {
  import opened Wrappers
  import opened Text
  import opened Records
  import opened EntrySets
  import opened FetchData

  /** The tag whose value names the kind of artwork. */
  const ArtworkTag := "artwork_type"

  /** The nature a tag map announces: the value of its artwork tag, if any. */
  function ArtworkType(tags: map<string, string>): Option<string> {
    if ArtworkTag in tags then Some(tags[ArtworkTag]) else None
  }

  /**
   * `guess_nature_from_tags`: walks the tags in an unspecified order and
   * returns at the artwork tag. Keys are unique, so the order cannot change
   * the answer.
   */
  method GuessNatureFromTags(tags: map<string, string>) returns (r: Option<string>)
    ensures r == ArtworkType(tags)
    ensures r.Some? <==> ArtworkTag in tags
  {
    var remaining := tags.Keys;
    while remaining != {}
      invariant remaining <= tags.Keys
      invariant ArtworkTag in tags ==> ArtworkTag in remaining
      decreases |remaining|
    {
      var k :| k in remaining;
      if k == ArtworkTag {
        return Some(tags[k]);
      }
      remaining := remaining - {k};
    }
    return None;
  }

  /** An element of the Overpass answer: a node, a way or a relation. */
  datatype Nwr =
    | Node(osmId: u64, location: Position, tags: map<string, string>)
    | Way(osmId: u64)
    | Relation(osmId: u64)

  const NodeUrlPrefix := "https://www.openstreetmap.org/node/"

  /** The closure given to `filter_map`: nodes become records, ways and relations are dropped. */
  function ElementToEntry(el: Nwr): (r: Option<MapEntry>)
    ensures r.Some? <==> el.Node?
    ensures r.Some? ==>
              && r.value.pos == Some(el.location)
              && r.value.image.None? && r.value.locationName.None?
              && r.value.name == (if "name" in el.tags then Some(el.tags["name"]) else None)
              && r.value.sourceUrl == Some(NodeUrlPrefix + NatToDecimal(el.osmId as nat))
              && !r.value.isInExhibit
              && r.value.nature == ArtworkType(el.tags)
              && r.value.elementIds == [ElementId.Osm(el.osmId)]
  {
    match el
    case Node(id, location, tags) =>
      Some(MapEntry(Some(location), if "name" in tags then Some(tags["name"]) else None, None, None,
                    Some(NodeUrlPrefix + NatToDecimal(id as nat)), false, ArtworkType(tags), [ElementId.Osm(id)]))
    case _ => None
  }

  /** The link of a node record reads back as the node's id. */
  lemma NodeUrlNamesTheNode(el: Nwr)
    requires el.Node?
    ensures var url := ElementToEntry(el).value.sourceUrl.value;
            && |url| > |NodeUrlPrefix| && url[..|NodeUrlPrefix|] == NodeUrlPrefix
            && DecimalValue(url[|NodeUrlPrefix|..]) == el.osmId as int
  {
    var url := ElementToEntry(el).value.sourceUrl.value;
    assert url[|NodeUrlPrefix|..] == NatToDecimal(el.osmId as nat);
    DecimalRoundTrip(el.osmId as nat);
  }

  /** `filter_map` over the answer, in order. */
  function NodeEntries(els: seq<Nwr>): (r: seq<MapEntry>)
    ensures forall e :: e in r <==> exists i :: 0 <= i < |els| && ElementToEntry(els[i]) == Some(e)
  {
    if els == [] then []
    else
      var rest := NodeEntries(els[1..]);
      assert forall i :: 1 <= i < |els| ==> els[i] == els[1..][i - 1];
      assert forall e :: (exists i :: 0 <= i < |els[1..]| && ElementToEntry(els[1..][i]) == Some(e)) ==>
                         exists i :: 0 <= i < |els| && ElementToEntry(els[i]) == Some(e) by {
        forall e | exists i :: 0 <= i < |els[1..]| && ElementToEntry(els[1..][i]) == Some(e)
          ensures exists i :: 0 <= i < |els| && ElementToEntry(els[i]) == Some(e)
        {
          var i :| 0 <= i < |els[1..]| && ElementToEntry(els[1..][i]) == Some(e);
          assert ElementToEntry(els[i + 1]) == Some(e);
        }
      }
      match ElementToEntry(els[0])
      case Some(e) => [e] + rest
      case None => rest
  }

  /** `fetch_data` after the request: the records of the nodes, collected into a set. */
  function FetchEntries(els: seq<Nwr>): (r: EntrySet)
    ensures forall e :: e in r <==> exists i :: 0 <= i < |els| && els[i].Node? && ElementToEntry(els[i]) == Some(e)
  {
    Collect(NodeEntries(els))
  }

  /** `retry_every`: three hours. */
  const RetryEvery: Duration := Secs(3600 * 3)

  function NewFetcher(title: string): (f: Fetcher)
    ensures f.title == title && f.retryEvery == 10800 * 1_000_000_000
  {
    Fetcher(title, RetryEvery)
  }
}
