/**
 * The runtime_state renderer of the official source catalog
 * (infra/scripts/render_source_catalog_runtime_state.py).
 *
 * RenderLines is the specification: it cuts the lines below "sources:" into entries and rewrites
 * each one. CatalogRun has the line loop of the script, proved to compute it.
 */
module Catalog {
  import opened Lists
  import opened Text

  const ENTRY_PREFIX := "  - "
  const STATUS_PREFIX := "    status:"
  const STATE_PREFIX := "    runtime_state:"
  const SOURCES_LINE := "sources:"
  const UNREGISTERED := "unregistered"

  type States = map<string, string>

  // A source entry: its first line starts with the entry prefix.
  type Entry = e: seq<string> | e != [] && StartsEntry(e[0]) witness [ENTRY_PREFIX]

  predicate IsStateLine(line: string) { StartsWith(line, STATE_PREFIX) }

  predicate IsStatusLine(line: string) { StartsWith(line, STATUS_PREFIX) }

  predicate StartsEntry(line: string) { StartsWith(line, ENTRY_PREFIX) }

  predicate LeavesSources(line: string)
  {
    line != "" && line[0] != ' ' && line[0] != '#'
  }

  predicate Continues(line: string)
  {
    !StartsEntry(line) && !LeavesSources(line)
  }

  predicate IsQuote(c: char) { c == '"' || c == '\'' }

  function EntryKey(line: string): Option<string>
    requires StartsEntry(line)
  {
    var text := line[|ENTRY_PREFIX|..];
    match Find(text, ":", 0)
    case None => None
    case Some(colon) =>
      if Strip(text[..colon]) != "key" then None
      else Some(Trim(Strip(text[colon + 1..]), IsQuote))
  }

  function StateLine(state: string): string
  {
    STATE_PREFIX + " " + state
  }

  // A runtime_state line continues its entry, and is neither an entry's first line nor a status.
  lemma StateLineKind(line: string)
    requires IsStateLine(line)
    ensures Continues(line) && !IsStatusLine(line)
  {
    StartsWithAt(line, STATE_PREFIX, 0);
    StartsWithAt(line, STATE_PREFIX, 2);
    StartsWithAt(line, STATE_PREFIX, 4);
    if StartsEntry(line) { StartsWithAt(line, ENTRY_PREFIX, 2); }
    if IsStatusLine(line) { StartsWithAt(line, STATUS_PREFIX, 4); }
  }

  lemma StateLineIs(state: string)
    ensures IsStateLine(StateLine(state))
  {
    StartsWithAppend(STATE_PREFIX, " " + state);
    assert StateLine(state) == STATE_PREFIX + (" " + state);
  }

  // ---- one entry -----------------------------------------------------------------------------

  function Kept(lines: seq<string>): seq<string>
  {
    Filter(lines, line => !IsStateLine(line))
  }

  // The position of the first status line, or 0.
  function Anchor(body: seq<string>): (r: nat)
    ensures body != [] ==> r < |body|
    ensures r != 0 ==> r < |body| && IsStatusLine(body[r])
    ensures forall i | 0 <= i < |body| && IsStatusLine(body[i]) :: r <= i && IsStatusLine(body[r])
  {
    if HasStatus(body) then FirstStatus(body) else 0
  }

  predicate HasStatus(body: seq<string>)
  {
    exists i :: 0 <= i < |body| && IsStatusLine(body[i])
  }

  function FirstStatus(body: seq<string>): (r: nat)
    requires HasStatus(body)
    ensures r < |body| && IsStatusLine(body[r])
    ensures forall i | 0 <= i < r :: !IsStatusLine(body[i])
  {
    if IsStatusLine(body[0]) then 0 else 1 + FirstStatus(body[1..])
  }

  function Wanted(line: string, expected: States): Option<string>
    requires StartsEntry(line)
  {
    var key := EntryKey(line);
    if key.Some? && key.value in expected then Some(expected[key.value]) else None
  }

  function Place(body: seq<string>, wanted: Option<string>): (r: seq<string>)
    requires body != []
    ensures r != [] && r[0] == body[0]
  {
    match wanted
    case None => body
    case Some(state) => body[..Anchor(body) + 1] + [StateLine(state)] + body[Anchor(body) + 1..]
  }

  function RenderEntry(entry: Entry, expected: States): (r: Entry)
    ensures r[0] == entry[0]
  {
    KeptHead(entry);
    Place(Kept(entry), Wanted(entry[0], expected))
  }

  // ---- all lines -----------------------------------------------------------------------------

  // The number of lines that continue the entry before them.
  function Span(lines: seq<string>): (n: nat)
    ensures n <= |lines|
    ensures forall i | 0 <= i < n :: Continues(lines[i])
    ensures n < |lines| ==> !Continues(lines[n])
  {
    if lines == [] || !Continues(lines[0]) then 0 else 1 + Span(lines[1..])
  }

  // The entries of the text, each with its own lines, in order.
  function Entries(lines: seq<string>, inSources: bool): seq<Entry>
  {
    if lines == [] then []
    else if !inSources then Entries(lines[1..], lines[0] == SOURCES_LINE)
    else if StartsEntry(lines[0]) then
      var n := Span(lines[1..]);
      [lines[..1 + n]] + Entries(lines[1 + n..], true)
    else Entries(lines[1..], !LeavesSources(lines[0]))
  }

  function RenderLines(lines: seq<string>, inSources: bool, expected: States): seq<string>
  {
    if lines == [] then []
    else if !inSources then
      [lines[0]] + RenderLines(lines[1..], lines[0] == SOURCES_LINE, expected)
    else if StartsEntry(lines[0]) then
      var n := Span(lines[1..]);
      RenderEntry(lines[..1 + n], expected) + RenderLines(lines[1 + n..], true, expected)
    else [lines[0]] + RenderLines(lines[1..], !LeavesSources(lines[0]), expected)
  }

  function KeyOf(entry: Entry): Option<string>
  {
    EntryKey(entry[0])
  }

  function KeysBy<E(==)>(entries: seq<E>, keyOf: E -> Option<string>): set<string>
  {
    set e | e in entries && keyOf(e).Some? :: keyOf(e).value
  }

  function Keys(entries: seq<Entry>): set<string>
  {
    KeysBy(entries, KeyOf)
  }

  function Missing(lines: seq<string>, expected: States): set<string>
  {
    expected.Keys - Keys(Entries(lines, false))
  }

  // ---- an entry rendered twice ---------------------------------------------------------------

  lemma KeptAppend(a: seq<string>, b: seq<string>)
    ensures Kept(a + b) == Kept(a) + Kept(b)
  {
    FilterAppend(a, b, line => !IsStateLine(line));
  }

  lemma KeptMember(lines: seq<string>)
    ensures forall l :: l in Kept(lines) <==> l in lines && !IsStateLine(l)
  {
    FilterMember(lines, line => !IsStateLine(line));
  }

  lemma KeptFixed(lines: seq<string>)
    requires forall l | l in lines :: !IsStateLine(l)
    ensures Kept(lines) == lines
  {
    FilterAll(lines, line => !IsStateLine(line));
  }

  lemma KeptHead(entry: Entry)
    ensures !IsStateLine(entry[0])
    ensures Kept(entry) != [] && Kept(entry)[0] == entry[0]
  {
    if IsStateLine(entry[0]) { StateLineKind(entry[0]); }
  }

  lemma KeptPlace(body: seq<string>, wanted: Option<string>)
    requires body != [] && forall l | l in body :: !IsStateLine(l)
    ensures Kept(Place(body, wanted)) == body
  {
    match wanted
    case None => KeptFixed(body);
    case Some(state) =>
      var at := Anchor(body) + 1;
      assert body == body[..at] + body[at..];
      KeptInsert(body[..at], state, body[at..]);
  }

  lemma KeptRenderEntry(entry: Entry, expected: States)
    ensures Kept(RenderEntry(entry, expected)) == Kept(entry)
    ensures Kept(entry) != [] && Kept(entry)[0] == entry[0] && !IsStateLine(entry[0])
  {
    KeptHead(entry);
    KeptMember(entry);
    KeptPlace(Kept(entry), Wanted(entry[0], expected));
  }

  // Inserting a runtime_state line between kept lines leaves the kept lines as they are.
  lemma KeptInsert(front: seq<string>, state: string, back: seq<string>)
    requires forall l | l in front + back :: !IsStateLine(l)
    ensures Kept(front + [StateLine(state)] + back) == front + back
  {
    var line := StateLine(state);
    StateLineIs(state);
    KeptAppend(front + [line], back);
    KeptAppend(front, [line]);
    FilterNone([line], l => !IsStateLine(l));
    KeptFixed(front);
    KeptFixed(back);
  }

  lemma EntryIdempotent(entry: Entry, expected: States)
    ensures RenderEntry(RenderEntry(entry, expected), expected) == RenderEntry(entry, expected)
  {
    KeptRenderEntry(entry, expected);
  }

  lemma PlaceContinues(body: seq<string>, wanted: Option<string>)
    requires body != [] && forall i | 1 <= i < |body| :: Continues(body[i])
    ensures forall i | 1 <= i < |Place(body, wanted)| :: Continues(Place(body, wanted)[i])
  {
    match wanted
    case None =>
    case Some(state) =>
      StateLineIs(state);
      StateLineKind(StateLine(state));
      var p := Anchor(body) + 1;
      forall i | 1 <= i < |Place(body, wanted)| ensures Continues(Place(body, wanted)[i]) {
        if i != p { assert Continues(body[if i < p then i else i - 1]); }
      }
  }

  lemma EntryContinues(entry: Entry, expected: States)
    requires forall i | 1 <= i < |entry| :: Continues(entry[i])
    ensures forall i | 1 <= i < |RenderEntry(entry, expected)| ::
              Continues(RenderEntry(entry, expected)[i])
  {
    var body := Kept(entry);
    KeptHead(entry);
    KeptAppend([entry[0]], entry[1..]);
    assert entry == [entry[0]] + entry[1..];
    KeptFixed([entry[0]]);
    KeptMember(entry[1..]);
    forall i | 1 <= i < |body| ensures Continues(body[i]) {
      assert body[i] == Kept(entry[1..])[i - 1];
      assert body[i] in Kept(entry[1..]);
    }
    PlaceContinues(body, Wanted(entry[0], expected));
  }

  // ---- the whole text rendered twice ---------------------------------------------------------

  lemma {:induction false} SpanAppend(front: seq<string>, back: seq<string>)
    requires forall i | 0 <= i < |front| :: Continues(front[i])
    requires back == [] || !Continues(back[0])
    ensures Span(front + back) == |front|
  {
    if front == [] {
      assert front + back == back;
    } else {
      SpanAppend(front[1..], back);
      assert (front + back)[1..] == front[1..] + back;
    }
  }

  // Rendering never changes the first line, so what follows an entry still ends it.
  lemma RenderLinesHead(lines: seq<string>, inSources: bool, expected: States)
    requires lines != []
    ensures RenderLines(lines, inSources, expected) != []
    ensures RenderLines(lines, inSources, expected)[0] == lines[0]
  {
    if inSources && StartsEntry(lines[0]) {
      KeptRenderEntry(lines[..1 + Span(lines[1..])], expected);
    }
  }

  lemma SpanCut(entry: seq<string>, tail: seq<string>)
    requires entry != [] && forall i | 1 <= i < |entry| :: Continues(entry[i])
    requires tail == [] || !Continues(tail[0])
    ensures (entry + tail)[0] == entry[0] && 1 + Span((entry + tail)[1..]) == |entry|
    ensures (entry + tail)[..|entry|] == entry && (entry + tail)[|entry|..] == tail
  {
    assert (entry + tail)[1..] == entry[1..] + tail;
    SpanAppend(entry[1..], tail);
  }

  // Cutting the rendered text gives exactly the rendered entries, at the same places.
  lemma RenderedEntryCut(entry: Entry, rest: seq<string>, expected: States)
    requires forall i | 1 <= i < |entry| :: Continues(entry[i])
    requires rest == [] || !Continues(rest[0])
    ensures var e, tail := RenderEntry(entry, expected), RenderLines(rest, true, expected);
            && (e + tail)[0] == entry[0] && 1 + Span((e + tail)[1..]) == |e|
            && (e + tail)[..|e|] == e && (e + tail)[|e|..] == tail
  {
    EntryContinues(entry, expected);
    if rest != [] { RenderLinesHead(rest, true, expected); }
    SpanCut(RenderEntry(entry, expected), RenderLines(rest, true, expected));
  }

  lemma {:induction false} LinesIdempotent(lines: seq<string>, inSources: bool, expected: States)
    ensures var once := RenderLines(lines, inSources, expected);
            RenderLines(once, inSources, expected) == once
    decreases |lines|
  {
    if lines != [] {
      if inSources && StartsEntry(lines[0]) {
        var n := Span(lines[1..]);
        LinesIdempotent(lines[1 + n..], true, expected);
        RenderedEntryCut(lines[..1 + n], lines[1 + n..], expected);
        EntryIdempotent(lines[..1 + n], expected);
      } else {
        LinesIdempotent(lines[1..], if inSources then !LeavesSources(lines[0]) else lines[0] == SOURCES_LINE, expected);
        var once := RenderLines(lines, inSources, expected);
        assert once[0] == lines[0] && once == [once[0]] + once[1..];
      }
    }
  }

  // Every line that is not a runtime_state line survives, in order, and no other line appears.
  lemma {:induction false} LinesPreserved(lines: seq<string>, inSources: bool, expected: States)
    ensures Kept(RenderLines(lines, inSources, expected)) == Kept(lines)
    decreases |lines|
  {
    if lines != [] {
      if inSources && StartsEntry(lines[0]) {
        var n := Span(lines[1..]);
        LinesPreserved(lines[1 + n..], true, expected);
        KeptAppend(RenderEntry(lines[..1 + n], expected), RenderLines(lines[1 + n..], true, expected));
        KeptRenderEntry(lines[..1 + n], expected);
        KeptAppend(lines[..1 + n], lines[1 + n..]);
        assert lines == lines[..1 + n] + lines[1 + n..];
      } else {
        var next := if inSources then !LeavesSources(lines[0]) else lines[0] == SOURCES_LINE;
        LinesPreserved(lines[1..], next, expected);
        KeptAppend([lines[0]], RenderLines(lines[1..], next, expected));
        KeptAppend([lines[0]], lines[1..]);
        assert lines == [lines[0]] + lines[1..];
      }
    }
  }

  // ---- what each entry carries afterwards ----------------------------------------------------

  // The entry carries `state` on exactly one line, directly after its first status line, or after
  // its first line when it has no status; with no state it carries no runtime_state line at all.
  ghost predicate Carries(entry: seq<string>, state: Option<string>)
  {
    match state
    case None => forall l | l in entry :: !IsStateLine(l)
    case Some(value) => exists p :: CarriesAt(entry, value, p)
  }

  ghost predicate CarriesAt(entry: seq<string>, value: string, p: int)
  {
    && 1 <= p < |entry| && entry[p] == StateLine(value)
    && (forall i | 0 <= i < |entry| && i != p :: !IsStateLine(entry[i]))
    && if HasStatus(entry) then p - 1 == FirstStatus(entry) else p == 1
  }

  lemma PlaceCarries(body: seq<string>, wanted: Option<string>)
    requires body != [] && forall l | l in body :: !IsStateLine(l)
    ensures Carries(Place(body, wanted), wanted)
  {
    match wanted
    case None =>
    case Some(state) =>
      StateLineIs(state);
      StateLineKind(StateLine(state));
      hide IsStateLine, IsStatusLine, StateLine;
      var p := Anchor(body) + 1;
      var out := Place(body, wanted);
      assert forall i | 0 <= i < p :: out[i] == body[i];
      assert forall i | p < i < |out| :: out[i] == body[i - 1];
      PlacedAt(body, out, p, state);
  }

  // A state line inserted behind the anchor is carried there.
  lemma PlacedAt(body: seq<string>, out: seq<string>, p: nat, state: string)
    requires body != [] && (forall l | l in body :: !IsStateLine(l)) && p == Anchor(body) + 1
    requires |out| == |body| + 1 && out[p] == StateLine(state) && !IsStatusLine(StateLine(state))
    requires (forall i | 0 <= i < p :: out[i] == body[i]) && forall i | p < i < |out| :: out[i] == body[i - 1]
    ensures CarriesAt(out, state, p)
  {
    hide IsStateLine, IsStatusLine, StateLine;
    forall i | 0 <= i < |out| && i != p ensures !IsStateLine(out[i]) {
      assert out[i] == body[if i < p then i else i - 1];
      assert body[if i < p then i else i - 1] in body;
    }
    if HasStatus(body) { assert IsStatusLine(out[p - 1]); }
    if HasStatus(out) {
      var i :| 0 <= i < |out| && IsStatusLine(out[i]);
      assert IsStatusLine(body[if i < p then i else i - 1]);
      assert IsStatusLine(out[p - 1]);
      assert FirstStatus(out) == p - 1;
    }
  }

  lemma EntryCarries(entry: Entry, expected: States)
    ensures Carries(RenderEntry(entry, expected), Wanted(entry[0], expected))
  {
    KeptHead(entry);
    KeptMember(entry);
    PlaceCarries(Kept(entry), Wanted(entry[0], expected));
  }

  ghost predicate RenderedFrom(out: seq<Entry>, entries: seq<Entry>, expected: States)
  {
    |out| == |entries| && forall i | 0 <= i < |out| :: out[i] == RenderEntry(entries[i], expected)
  }

  lemma RenderedCons(entry: Entry, out: seq<Entry>, entries: seq<Entry>, expected: States)
    requires RenderedFrom(out, entries, expected)
    ensures RenderedFrom([RenderEntry(entry, expected)] + out, [entry] + entries, expected)
  {
  }

  lemma EntriesCut(entry: Entry, tail: seq<string>)
    requires forall i | 1 <= i < |entry| :: Continues(entry[i])
    requires tail == [] || !Continues(tail[0])
    ensures Entries(entry + tail, true) == [entry] + Entries(tail, true)
  {
    SpanCut(entry, tail);
  }

  lemma {:induction false} EntriesRendered(lines: seq<string>, inSources: bool, expected: States)
    ensures RenderedFrom(Entries(RenderLines(lines, inSources, expected), inSources),
                         Entries(lines, inSources), expected)
    decreases |lines|
  {
    if lines != [] {
      if inSources && StartsEntry(lines[0]) {
        var n := Span(lines[1..]);
        var entry: Entry, rest: seq<string> := lines[..1 + n], lines[1 + n..];
        EntriesRendered(rest, true, expected);
        EntryContinues(entry, expected);
        if rest != [] { RenderLinesHead(rest, true, expected); }
        EntriesCut(RenderEntry(entry, expected), RenderLines(rest, true, expected));
        RenderedCons(entry, Entries(RenderLines(rest, true, expected), true), Entries(rest, true), expected);
      } else {
        var next := if inSources then !LeavesSources(lines[0]) else lines[0] == SOURCES_LINE;
        EntriesRendered(lines[1..], next, expected);
        var out := RenderLines(lines, inSources, expected);
        assert out[0] == lines[0] && out[1..] == RenderLines(lines[1..], next, expected);
      }
    }
  }

  // In the rendered text every entry carries the state its key is expected to have, and no other.
  lemma RenderedEntriesCarry(lines: seq<string>, expected: States)
    ensures forall e | e in Entries(RenderLines(lines, false, expected), false) ::
              Carries(e, Wanted(e[0], expected))
    ensures Missing(RenderLines(lines, false, expected), expected) == Missing(lines, expected)
  {
    hide EntryKey, StartsWith;
    var before, after := Entries(lines, false), Entries(RenderLines(lines, false, expected), false);
    EntriesRendered(lines, false, expected);
    forall i | 0 <= i < |after|
      ensures after[i][0] == before[i][0]
      ensures Carries(after[i], Wanted(after[i][0], expected))
    {
      KeptRenderEntry(before[i], expected);
      EntryCarries(before[i], expected);
    }
    forall k | k in Keys(before) ensures k in Keys(after) {
      var e: Entry :| e in before && KeyOf(e) == Some(k);
      var i :| 0 <= i < |before| && before[i] == e;
      assert after[i] in after && KeyOf(after[i]) == Some(k);
    }
    forall k | k in Keys(after) ensures k in Keys(before) {
      var e: Entry :| e in after && KeyOf(e) == Some(k);
      var i :| 0 <= i < |after| && after[i] == e;
      assert before[i] in before && KeyOf(before[i]) == Some(k);
    }
    assert Keys(before) == Keys(after);
  }
}
