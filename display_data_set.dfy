/**
 * What the web server shares with the update thread (src/display_data_set.rs):
 * for every depiction category, the published records and their JSON.
 * The JSON serialisation of the records is a parameter of the model.
 */
module DisplayDataSets {
  import opened Wrappers
  import opened Records
  import opened FileSystems

  /** `DisplayDataSetEntry`. */
  datatype Snapshot = Snapshot(entries: seq<MapEntry>, json: Bytes)

  /** `serde_json::to_string` of the records, which may fail. */
  type JsonEncoder = seq<MapEntry> -> Option<Bytes>

  /** The JSON of a snapshot is that of its records. */
  predicate Consistent(s: Snapshot, encode: JsonEncoder) {
    encode(s.entries) == Some(s.json)
  }

  /** `DisplayDataSetEntry::new`: fails exactly when the records cannot be serialised. */
  function NewSnapshot(entries: seq<MapEntry>, encode: JsonEncoder): (r: Result<Snapshot>)
    ensures r.Ok? <==> encode(entries).Some?
    ensures r.Ok? ==> r.value.entries == entries && Consistent(r.value, encode)
  {
    match encode(entries)
    case Some(json) => Ok(Snapshot(entries, json))
    case None => Err("Storing the result in DisplayDataSetEntry")
  }

  /** The bytes of "[]". */
  const EmptyJson: Bytes := [91, 93]

  /** `DisplayDataSetEntry::default()`: no records, and the JSON of an empty list. */
  const DefaultSnapshot := Snapshot([], EmptyJson)

  class DisplayDataSet {
    var toDisplay: map<DepictionCategory, Snapshot>

    /** `DisplayDataSet::new`: one default snapshot per category. */
    constructor(depictions: set<DepictionCategory>)
      ensures toDisplay.Keys == depictions
      ensures forall c :: c in depictions ==> toDisplay[c] == DefaultSnapshot
    {
      var m: map<DepictionCategory, Snapshot> := map[];
      var rest := depictions;
      while rest != {}
        invariant rest <= depictions
        invariant m.Keys == depictions - rest
        invariant forall c :: c in m ==> m[c] == DefaultSnapshot
      {
        var d :| d in rest;
        m := m[d := DefaultSnapshot];
        rest := rest - {d};
      }
      toDisplay := m;
    }
  }
}
