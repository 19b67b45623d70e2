/**
 * The browser side (static/code.js): HTML escaping and the popup built for
 * each record of the published list. Leaflet, the request and the status
 * line are outside the model.
 */
module MapPage {
  import opened Wrappers
  import opened Records

  /** `s.replace(/c/g, rep)`: every occurrence of the character `c` becomes `rep`. */
  function ReplaceAll(s: string, c: char, rep: string): (r: string)
    ensures c !in rep ==> c !in r
    ensures c !in s ==> r == s
  {
    if s == [] then [] else (if s[0] == c then rep else [s[0]]) + ReplaceAll(s[1..], c, rep)
  }

  /** Replacing distributes over concatenation: no replacement spans the seam. */
  lemma {:induction false} ReplaceAllConcat(a: string, b: string, c: char, rep: string)
    ensures ReplaceAll(a + b, c, rep) == ReplaceAll(a, c, rep) + ReplaceAll(b, c, rep)
  {
    if a != [] {
      assert (a + b)[1..] == a[1..] + b;
      ReplaceAllConcat(a[1..], b, c, rep);
    } else {
      assert a + b == b;
    }
  }

  /** A chain of global replaces, applied left to right. */
  function ReplaceChain(s: string, steps: seq<(char, string)>): string
    decreases |steps|
  {
    if steps == [] then s else ReplaceChain(ReplaceAll(s, steps[0].0, steps[0].1), steps[1..])
  }

  /** The replaces of `escapeHtml`, `&` first. */
  const EscapeSteps: seq<(char, string)> :=
    [('&', "&amp;"), ('<', "&lt;"), ('>', "&gt;"), ('"', "&quot;"), ('\'', "&#039;")]

  /** `escapeHtml`. */
  function EscapeHtml(s: string): string {
    ReplaceChain(s, EscapeSteps)
  }

  /** The entity each special character stands for. */
  function EscapeChar(c: char): string {
    match c
    case '&' => "&amp;"
    case '<' => "&lt;"
    case '>' => "&gt;"
    case '"' => "&quot;"
    case '\'' => "&#039;"
    case _ => [c]
  }

  predicate Special(c: char) {
    c == '&' || c == '<' || c == '>' || c == '"' || c == '\''
  }

  /** The independent definition: each character escaped on its own, in order. */
  function EscapeEach(s: string): string {
    if s == [] then [] else EscapeChar(s[0]) + EscapeEach(s[1..])
  }

  lemma ReplaceAllSingle(d: char, c: char, rep: string)
    ensures ReplaceAll([d], c, rep) == if d == c then rep else [d]
  {
    assert [d][1..] == [];
  }

  /** The chain of `escapeHtml` written out step by step. */
  lemma EscapeHtmlSteps(s: string)
    ensures EscapeHtml(s) ==
            ReplaceAll(ReplaceAll(ReplaceAll(ReplaceAll(ReplaceAll(s, '&', "&amp;"), '<', "&lt;"), '>', "&gt;"), '"', "&quot;"), '\'', "&#039;")
  {
    var steps := EscapeSteps;
    var s1 := ReplaceAll(s, '&', "&amp;");
    var s2 := ReplaceAll(s1, '<', "&lt;");
    var s3 := ReplaceAll(s2, '>', "&gt;");
    var s4 := ReplaceAll(s3, '"', "&quot;");
    assert ReplaceChain(s, steps) == ReplaceChain(s1, steps[1..]);
    assert ReplaceChain(s1, steps[1..]) == ReplaceChain(s2, steps[2..]);
    assert ReplaceChain(s2, steps[2..]) == ReplaceChain(s3, steps[3..]);
    assert ReplaceChain(s3, steps[3..]) == ReplaceChain(s4, steps[4..]);
  }

  lemma EscapeHtmlPlainChar(c: char)
    requires !Special(c)
    ensures EscapeHtml([c]) == [c]
  {
    EscapeHtmlSteps([c]);
    ReplaceAllSingle(c, '&', "&amp;");
    ReplaceAllSingle(c, '<', "&lt;");
    ReplaceAllSingle(c, '>', "&gt;");
    ReplaceAllSingle(c, '"', "&quot;");
    ReplaceAllSingle(c, '\'', "&#039;");
  }

  // The five special characters, each escaped on its own.
  lemma EscapeAmpersand() ensures EscapeHtml("&") == "&amp;" {}
  lemma EscapeLess() ensures EscapeHtml("<") == "&lt;" {}
  lemma EscapeGreater() ensures EscapeHtml(">") == "&gt;" {}
  lemma EscapeDoubleQuote() ensures EscapeHtml("\"") == "&quot;" {}
  lemma EscapeSingleQuote() ensures EscapeHtml("'") == "&#039;" {}

  lemma EscapeHtmlOneChar(c: char)
    ensures EscapeHtml([c]) == EscapeChar(c)
  {
    if c == '&' {
      assert [c] == "&"; EscapeAmpersand();
    } else if c == '<' {
      assert [c] == "<"; EscapeLess();
    } else if c == '>' {
      assert [c] == ">"; EscapeGreater();
    } else if c == '"' {
      assert [c] == "\""; EscapeDoubleQuote();
    } else if c == '\'' {
      assert [c] == "'"; EscapeSingleQuote();
    } else {
      EscapeHtmlPlainChar(c);
    }
  }

  lemma {:induction false} ReplaceChainConcat(a: string, b: string, steps: seq<(char, string)>)
    ensures ReplaceChain(a + b, steps) == ReplaceChain(a, steps) + ReplaceChain(b, steps)
    decreases |steps|
  {
    if steps != [] {
      var (c, rep) := steps[0];
      ReplaceAllConcat(a, b, c, rep);
      ReplaceChainConcat(ReplaceAll(a, c, rep), ReplaceAll(b, c, rep), steps[1..]);
    }
  }

  lemma EscapeHtmlConcat(a: string, b: string)
    ensures EscapeHtml(a + b) == EscapeHtml(a) + EscapeHtml(b)
  {
    ReplaceChainConcat(a, b, EscapeSteps);
  }

  /**
   * The chain of replaces escapes each character on its own: because `&`
   * goes first, the entities introduced later are not escaped again.
   */
  lemma {:induction false} EscapeHtmlIsPerCharacter(s: string)
    ensures EscapeHtml(s) == EscapeEach(s)
  {
    if s != [] {
      assert s == [s[0]] + s[1..];
      EscapeHtmlConcat([s[0]], s[1..]);
      EscapeHtmlOneChar(s[0]);
      EscapeHtmlIsPerCharacter(s[1..]);
    }
  }

  /** Escaping one character at a time leaves none of `<`, `>`, `"`, `'`, and keeps other characters. */
  lemma {:induction false} EscapeEachIsSafe(s: string)
    ensures forall i :: 0 <= i < |EscapeEach(s)| ==> !(EscapeEach(s)[i] in "<>\"'")
    ensures (forall i :: 0 <= i < |s| ==> !Special(s[i])) ==> EscapeEach(s) == s
  {
    if s != [] {
      EscapeEachIsSafe(s[1..]);
      var head, rest := EscapeChar(s[0]), EscapeEach(s[1..]);
      assert EscapeEach(s) == head + rest;
      forall i | 0 <= i < |head + rest| ensures !((head + rest)[i] in "<>\"'") {
        if i >= |head| {
          assert (head + rest)[i] == rest[i - |head|];
        }
      }
      if forall i :: 0 <= i < |s| ==> !Special(s[i]) {
        assert !Special(s[0]);
        assert forall i :: 0 <= i < |s[1..]| ==> s[1..][i] == s[i + 1];
        assert s == [s[0]] + s[1..];
      }
    }
  }

  /** `escapeHtml`'s output holds no `<`, `>`, `"` or `'`, and a text without special characters comes back unchanged. */
  lemma EscapeHtmlIsSafe(s: string)
    ensures forall i :: 0 <= i < |EscapeHtml(s)| ==> !(EscapeHtml(s)[i] in "<>\"'")
    ensures (forall i :: 0 <= i < |s| ==> !Special(s[i])) ==> EscapeHtml(s) == s
  {
    EscapeHtmlIsPerCharacter(s);
    EscapeEachIsSafe(s);
  }

  const UnknownName := "no/unknown name"

  // The fixed pieces of the popup markup.
  const BoldOpen: string := "<b>"
  const BoldClose: string := "</b><br />"
  const ItalicOpen: string := "<i>"
  const ItalicClose: string := "</i>"
  const LinkOpen: string := "<a href=\""
  const LinkClose: string := "\">Data source</a>"

  /** The placeholder has no special character, so escaping keeps it. */
  lemma EscapeUnknownName()
    ensures EscapeHtml(UnknownName) == UnknownName
  {
    var s := UnknownName;
    assert forall i :: 0 <= i < |s| ==> !Special(s[i]);
    EscapeHtmlIsPerCharacter(s);
    EscapeEachIsSafe(s);
  }

  /**
   * The bold name line; a null name shows the placeholder (escaped like a
   * name, which by `EscapeUnknownName` keeps it as it is).
   */
  function NameHtml(e: MapEntry): string {
    BoldOpen + (if e.name.Some? then EscapeHtml(e.name.value) else UnknownName) + BoldClose
  }

  /** The italic location, present only for a record with a location name. */
  function LocationHtml(e: MapEntry): string {
    if e.locationName.Some? then ItalicOpen + EscapeHtml(e.locationName.value) + ItalicClose else ""
  }

  function LinkHtml(url: string): string {
    LinkOpen + EscapeHtml(url) + LinkClose
  }

  /**
   * The popup of one record: name line, location, link, in that order. A
   * null source url makes `escapeHtml` throw (`null.replace`), which aborts
   * the refresh: that record has no popup.
   */
  function PopupHtml(e: MapEntry): (r: Option<string>)
    ensures r.None? <==> e.sourceUrl.None?
  {
    match e.sourceUrl
    case None => None
    case Some(url) => Some(NameHtml(e) + LocationHtml(e) + LinkHtml(url))
  }

  /** A marker handed to the cluster group: where it goes and its popup. */
  datatype Marker = Marker(pos: Option<Position>, popup: string)

  /**
   * The markers for a list, given how each record's popup is built, or None
   * when a record without a popup aborts the refresh.
   */
  function Markers(entries: seq<MapEntry>, ignoreExhibits: bool, popup: MapEntry -> Option<string>): (r: Option<seq<Marker>>)
    ensures r.None? <==> exists i :: 0 <= i < |entries| && !(ignoreExhibits && entries[i].isInExhibit) && popup(entries[i]).None?
    ensures r.Some? && !ignoreExhibits ==>
              |r.value| == |entries| &&
              forall i :: 0 <= i < |entries| ==> popup(entries[i]).Some? && r.value[i] == Marker(entries[i].pos, popup(entries[i]).value)
  {
    if entries == [] then Some([])
    else
      var rest := Markers(entries[1..], ignoreExhibits, popup);
      assert forall i :: 1 <= i < |entries| ==> entries[i] == entries[1..][i - 1];
      if ignoreExhibits && entries[0].isInExhibit then rest
      else
        match popup(entries[0])
        case None => None
        case Some(p) =>
          match rest
          case None => None
          case Some(ms) =>
            var r := [Marker(entries[0].pos, p)] + ms;
            assert !ignoreExhibits ==> forall i :: 0 <= i < |entries| ==>
                     popup(entries[i]).Some? && r[i] == Marker(entries[i].pos, popup(entries[i]).value) by {
              if !ignoreExhibits {
                forall i | 0 <= i < |entries|
                  ensures popup(entries[i]).Some? && r[i] == Marker(entries[i].pos, popup(entries[i]).value)
                {
                  if i > 0 {
                    assert r[i] == ms[i - 1];
                  }
                }
              }
            }
            Some(r)
  }

  /** One step of `Markers` from position `i`, seen from the markers `done` already added. */
  lemma MarkersStep(entries: seq<MapEntry>, i: nat, ignoreExhibits: bool, popup: MapEntry -> Option<string>, done: seq<Marker>)
    requires i < |entries|
    ensures ignoreExhibits && entries[i].isInExhibit ==>
              Markers(entries[i..], ignoreExhibits, popup) == Markers(entries[i + 1..], ignoreExhibits, popup)
    ensures !(ignoreExhibits && entries[i].isInExhibit) && popup(entries[i]).None? ==>
              Markers(entries[i..], ignoreExhibits, popup) == None
    ensures !(ignoreExhibits && entries[i].isInExhibit) && popup(entries[i]).Some? ==>
              Prefixed(done, Markers(entries[i..], ignoreExhibits, popup)) ==
              Prefixed(done + [Marker(entries[i].pos, popup(entries[i]).value)], Markers(entries[i + 1..], ignoreExhibits, popup))
  {
    assert entries[i..][1..] == entries[i + 1..];
    var rest := Markers(entries[i + 1..], ignoreExhibits, popup);
    if rest.Some? && popup(entries[i]).Some? {
      var m := Marker(entries[i].pos, popup(entries[i]).value);
      assert done + ([m] + rest.value) == (done + [m]) + rest.value;
    }
  }

  /** The markers already added, in front of those still to come. */
  function Prefixed(done: seq<Marker>, rest: Option<seq<Marker>>): Option<seq<Marker>> {
    match rest
    case None => None
    case Some(ms) => Some(done + ms)
  }

  /** `const ignore_exhibits = false`: the checkbox is not wired up. */
  const IgnoreExhibits := false

  /**
   * With exhibits kept, the page shows one marker per published record, in
   * order, each with that record's popup; it shows nothing if some record has
   * no source url.
   */
  lemma OneMarkerPerRecord(entries: seq<MapEntry>)
    ensures var r := Markers(entries, IgnoreExhibits, PopupHtml);
            && (r.None? <==> exists i :: 0 <= i < |entries| && entries[i].sourceUrl.None?)
            && (r.Some? ==>
                  && |r.value| == |entries|
                  && forall i :: 0 <= i < |entries| ==> r.value[i].pos == entries[i].pos && Some(r.value[i].popup) == PopupHtml(entries[i]))
  {
  }

  /** The loop of `refresh_map` over the published records, in order, building each popup piece by piece. */
  method RefreshMap(entries: seq<MapEntry>) returns (r: Option<seq<Marker>>)
    ensures r == Markers(entries, IgnoreExhibits, PopupHtml)
  {
    var markers: seq<Marker> := [];
    var i := 0;
    assert entries[0..] == entries;
    if Markers(entries, IgnoreExhibits, PopupHtml).Some? {
      assert [] + Markers(entries, IgnoreExhibits, PopupHtml).value == Markers(entries, IgnoreExhibits, PopupHtml).value;
    }
    while i < |entries|
      invariant 0 <= i <= |entries|
      invariant Markers(entries, IgnoreExhibits, PopupHtml) == Prefixed(markers, Markers(entries[i..], IgnoreExhibits, PopupHtml))
    {
      var entry := entries[i];
      MarkersStep(entries, i, IgnoreExhibits, PopupHtml, markers);
      if IgnoreExhibits && entry.isInExhibit {
        i := i + 1;
        continue;
      }
      var popupHtml := BuildPopup(entry);
      if popupHtml.None? {
        return None;
      }
      markers := markers + [Marker(entry.pos, popupHtml.value)];
      i := i + 1;
    }
    assert entries[i..] == [];
    assert markers + [] == markers;
    return Some(markers);
  }

  /** The body of the loop that builds `popupHTML` with `+=`. */
  method BuildPopup(entry: MapEntry) returns (r: Option<string>)
    ensures r == PopupHtml(entry)
  {
    var name := entry.name;
    if name.None? {
      name := Some(UnknownName);
      EscapeUnknownName();
    }
    var popupHtml := BoldOpen + EscapeHtml(name.value) + BoldClose;
    if entry.locationName.Some? {
      popupHtml := popupHtml + (ItalicOpen + EscapeHtml(entry.locationName.value) + ItalicClose);
    } else {
      assert popupHtml + LocationHtml(entry) == popupHtml;
    }
    if entry.sourceUrl.None? {
      return None;
    }
    popupHtml := popupHtml + (LinkOpen + EscapeHtml(entry.sourceUrl.value) + LinkClose);
    return Some(popupHtml);
  }
}
