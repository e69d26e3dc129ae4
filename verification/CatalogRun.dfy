/**
 * The loops of the catalog renderer, and the states the registry implies
 * (infra/scripts/render_source_catalog_runtime_state.py).
 */
module CatalogRun {
  import opened Text
  import opened Catalog
  import opened CatalogText
  import opened CatalogCheck

  // ---- render_catalog_text -------------------------------------------------------------------

  // What the rest of the lines adds to the output, given the entry collected so far.
  ghost function Rest(entry: Option<Entry>, lines: seq<string>, inSources: bool, expected: States): seq<string>
  {
    match entry
    case None => RenderLines(lines, inSources, expected)
    case Some(e) =>
      RenderEntry(e + lines[..Span(lines)], expected) + RenderLines(lines[Span(lines)..], true, expected)
  }

  ghost function RestEntries(entry: Option<Entry>, lines: seq<string>, inSources: bool): seq<Entry>
  {
    if entry.None? then Entries(lines, inSources) else Entries(lines[Span(lines)..], true)
  }

  function One(key: Option<string>): set<string>
  {
    match key case None => {} case Some(k) => {k}
  }

  method RenderCatalogText(text: string, expected: States) returns (r: Result<string, set<string>>)
    ensures r == RenderText(text, expected)
  {
    hide *;
    var lines := Lines(text);
    var rendered: seq<string> := [];
    var entry: Option<Entry> := None;
    var inSources := false;
    var seen: set<string> := {};
    var i := 0;
    Start(lines, expected);
    assert lines[0..] == lines;
    while i < |lines|
      invariant i <= |lines|
      invariant entry.Some? ==> inSources
      invariant RenderLines(lines, false, expected) == rendered + Rest(entry, lines[i..], inSources, expected)
      invariant seen + Keys(RestEntries(entry, lines[i..], inSources)) == Keys(Entries(lines, false))
    {
      var line, rest := lines[i], lines[i + 1..];
      assert lines[i..] == [line] + rest;
      i := i + 1;
      if !inSources {
        StepPlain(line, rest, false, line == SOURCES_LINE, expected);
        inSources := line == SOURCES_LINE;
        rendered := rendered + [line];
      } else if StartsEntry(line) {
        StepEntry(entry, line, rest, expected);
        var flushed := Flush(entry, expected);
        rendered := rendered + flushed;
        seen := See(seen, EntryKey(line));
        entry := Some([line]);
      } else if LeavesSources(line) {
        StepOut(entry, line, rest, expected);
        var flushed := Flush(entry, expected);
        rendered := rendered + flushed + [line];
        entry, inSources := None, false;
      } else if entry.None? {
        StepPlain(line, rest, true, true, expected);
        rendered := rendered + [line];
      } else {
        StepContinue(entry.value, line, rest, expected);
        entry := Some(entry.value + [line]);
      }
    }
    assert lines[i..] == [];
    StepEnd(entry, inSources, expected);
    var flushed := Flush(entry, expected);
    rendered := rendered + flushed;
    Summary(text, expected, rendered, seen);
    var missing := expected.Keys - seen;
    if missing != {} { return Err(missing); }
    return Ok(Join(rendered, '\n'));
  }

  lemma Start(lines: seq<string>, expected: States)
    ensures Rest(None, lines, false, expected) == RenderLines(lines, false, expected)
    ensures RestEntries(None, lines, false) == Entries(lines, false)
  {
  }

  lemma Summary(text: string, expected: States, rendered: seq<string>, seen: set<string>)
    requires rendered == RenderLines(Lines(text), false, expected)
    requires seen == Keys(Entries(Lines(text), false))
    ensures rendered != []
    ensures RenderText(text, expected)
         == if expected.Keys - seen != {} then Err(expected.Keys - seen) else Ok(Join(rendered, '\n'))
  {
    RenderLinesHead(Lines(text), false, expected);
  }

  method See(seen: set<string>, key: Option<string>) returns (r: set<string>)
    ensures r == seen + One(key)
  {
    if key.Some? { return seen + {key.value}; }
    return seen;
  }

  method Flush(entry: Option<Entry>, expected: States) returns (r: seq<string>)
    ensures r == if entry.Some? then RenderEntry(entry.value, expected) else []
  {
    if entry.None? { return []; }
    r := RenderEntryLines(entry.value, EntryKey(entry.value[0]), expected);
  }

  // _render_entry: the anchor is found by a loop that stops at the first status line.
  method RenderEntryLines(entry: Entry, key: Option<string>, expected: States) returns (r: seq<string>)
    requires key == EntryKey(entry[0])
    ensures r == RenderEntry(entry, expected)
  {
    hide EntryKey, StartsWith;
    var body := Kept(entry);
    KeptHead(entry);
    if key.None? || key.value !in expected { return body; }
    var anchor, index := 0, 0;
    while index < |body|
      invariant index <= |body|
      invariant anchor == 0
      invariant forall j | 0 <= j < index :: !IsStatusLine(body[j])
    {
      if IsStatusLine(body[index]) {
        anchor := index;
        break;
      }
      index := index + 1;
    }
    FirstStatusAt(body, anchor, index);
    assert Wanted(entry[0], expected) == Some(expected[key.value]);
    return body[..anchor + 1] + [StateLine(expected[key.value])] + body[anchor + 1..];
  }

  lemma FirstStatusAt(body: seq<string>, anchor: nat, index: nat)
    requires index <= |body| && forall j | 0 <= j < index :: !IsStatusLine(body[j])
    requires if index < |body| then IsStatusLine(body[index]) && anchor == index else anchor == 0
    ensures Anchor(body) == anchor
  {
  }

  lemma StepEnd(entry: Option<Entry>, inSources: bool, expected: States)
    ensures Rest(entry, [], inSources, expected) == if entry.Some? then RenderEntry(entry.value, expected) else []
    ensures Keys(RestEntries(entry, [], inSources)) == {}
  {
    hide EntryKey, StartsWith;
    if entry.Some? { assert entry.value + [] == entry.value; }
  }

  lemma StepPlain(line: string, rest: seq<string>, inSources: bool, next: bool, expected: States)
    requires inSources ==> !StartsEntry(line)
    requires next == if inSources then !LeavesSources(line) else line == SOURCES_LINE
    ensures Rest(None, [line] + rest, inSources, expected) == [line] + Rest(None, rest, next, expected)
    ensures RestEntries(None, [line] + rest, inSources) == RestEntries(None, rest, next)
  {
    assert ([line] + rest)[1..] == rest;
  }

  lemma StepEntry(entry: Option<Entry>, line: string, rest: seq<string>, expected: States)
    requires StartsEntry(line)
    ensures Rest(entry, [line] + rest, true, expected)
         == (if entry.Some? then RenderEntry(entry.value, expected) else [])
            + Rest(Some([line]), rest, true, expected)
    ensures Keys(RestEntries(entry, [line] + rest, true))
         == One(EntryKey(line)) + Keys(RestEntries(Some([line]), rest, true))
  {
    hide EntryKey, StartsWith, RenderEntry, KeysBy;
    var lines := [line] + rest;
    var head: Entry := [line] + rest[..Span(rest)];
    var tail := rest[Span(rest)..];
    assert lines[1..] == rest;
    assert lines[..1 + Span(rest)] == head && lines[1 + Span(rest)..] == tail;
    assert RenderLines(lines, true, expected) == RenderEntry(head, expected) + RenderLines(tail, true, expected);
    assert Entries(lines, true) == [head] + Entries(tail, true);
    KeysCons(head, Entries(tail, true), KeyOf);
    match entry
    case None =>
    case Some(e) => assert Span(lines) == 0 && e + lines[..0] == e && lines[0..] == lines;
  }

  lemma KeysCons<E>(head: E, tail: seq<E>, keyOf: E -> Option<string>)
    ensures KeysBy([head] + tail, keyOf)
         == One(keyOf(head)) + KeysBy(tail, keyOf)
  {
    assert forall e :: e in [head] + tail <==> e == head || e in tail;
  }

  lemma StepOut(entry: Option<Entry>, line: string, rest: seq<string>, expected: States)
    requires !StartsEntry(line) && LeavesSources(line)
    ensures Rest(entry, [line] + rest, true, expected)
         == (if entry.Some? then RenderEntry(entry.value, expected) else [])
            + [line] + Rest(None, rest, false, expected)
    ensures RestEntries(entry, [line] + rest, true) == RestEntries(None, rest, false)
  {
    hide EntryKey, StartsWith;
    var lines := [line] + rest;
    assert lines[0] == line && lines[1..] == rest;
    assert RenderLines(lines, true, expected) == [line] + RenderLines(rest, false, expected);
    match entry
    case None =>
    case Some(e) =>
      assert Span(lines) == 0 && e + lines[..0] == e && lines[0..] == lines;
  }

  lemma StepContinue(entry: Entry, line: string, rest: seq<string>, expected: States)
    requires !StartsEntry(line) && !LeavesSources(line)
    ensures Rest(Some(entry), [line] + rest, true, expected) == Rest(Some(entry + [line]), rest, true, expected)
    ensures RestEntries(Some(entry), [line] + rest, true) == RestEntries(Some(entry + [line]), rest, true)
  {
    var lines := [line] + rest;
    assert lines[1..] == rest && Span(lines) == 1 + Span(rest);
    assert entry + lines[..Span(lines)] == entry + [line] + rest[..Span(rest)];
    assert lines[Span(lines)..] == rest[Span(rest)..];
  }

  // ---- the states the registry implies ---------------------------------------------------------

  function RuntimeState(decision: string): (r: Option<string>)
    ensures r.Some? ==> r.value in {"live", "available_off", "retired", "blocked", "reference"}
  {
    match decision
    case "production_backbone" => Some("live")
    case "eligible_default_off" => Some("available_off")
    case "candidate" => Some("available_off")
    case "development_only" => Some("available_off")
    case "audit_only" => Some("retired")
    case "superseded" => Some("retired")
    case "blocked_pending_approval" => Some("blocked")
    case "authorization_pending" => Some("blocked")
    case "contract_review_pending" => Some("blocked")
    case "credential_and_contract_pending" => Some("blocked")
    case "context_only" => Some("reference")
    case "planning_reference" => Some("reference")
    case "static_snapshot" => Some("reference")
    case "request_time_fallback" => Some("reference")
    case "request_time_legacy" => Some("reference")
    case _ => None
  }

  datatype Source = Source(adapterKey: string, decision: string)

  // An entry of a YAML list of sources: a mapping with the fields it needs, or not.
  datatype RegistryEntry = NotMapping | NotStrings | Sound(source: Source)

  datatype RegistryError =
    | NoSources
    | NotAMapping(index: nat)
    | NeedsStrings(index: nat)
    | Unmapped(decisions: set<string>)
    | MissingKey(index: nat)

  // The state of the last registry source with the key, or "unregistered".
  function RegistryState(registry: seq<Source>, key: string): string
  {
    if registry == [] then UNREGISTERED
    else
      var last := registry[|registry| - 1];
      if last.adapterKey == key && RuntimeState(last.decision).Some?
      then RuntimeState(last.decision).value
      else RegistryState(registry[..|registry| - 1], key)
  }

  ghost predicate Loaded(registry: seq<Source>, states: States)
  {
    forall k :: RegistryState(registry, k) == if k in states then states[k] else UNREGISTERED
  }

  ghost function UnmappedIn(registry: seq<Source>): set<string>
  {
    set s | s in registry && RuntimeState(s.decision).None? :: s.decision
  }

  function SourcesOf(entries: seq<RegistryEntry>): seq<Source>
    requires forall e | e in entries :: e.Sound?
  {
    seq(|entries|, i requires 0 <= i < |entries| => assert entries[i] in entries; entries[i].source)
  }

  predicate FirstUnsound(entries: seq<RegistryEntry>, i: nat)
  {
    i < |entries| && !entries[i].Sound? && forall j | 0 <= j < i :: entries[j].Sound?
  }

  // The first unsound entry is an error; then all unmapped decisions are named together.
  method LoadRuntimeStates(entries: seq<RegistryEntry>) returns (r: Result<States, RegistryError>)
    ensures r.Ok? <==> && entries != [] && (forall e | e in entries :: e.Sound?)
                       && forall s | s in SourcesOf(entries) :: RuntimeState(s.decision).Some?
    ensures r.Ok? ==> Loaded(SourcesOf(entries), r.value)
    ensures r.Err? && (forall e | e in entries :: e.Sound?) ==>
              r.error == if entries == [] then NoSources else Unmapped(UnmappedIn(SourcesOf(entries)))
    ensures r.Err? && !(forall e | e in entries :: e.Sound?) ==>
              exists i: nat :: FirstUnsound(entries, i)
                && r.error == if entries[i].NotMapping? then NotAMapping(i) else NeedsStrings(i)
  {
    hide RuntimeState, Loaded, UnmappedIn;
    if entries == [] { return Err(NoSources); }
    var states: States := map[];
    var unknown: set<string> := {};
    ghost var registry: seq<Source> := [];
    NothingLoaded();
    for i := 0 to |entries|
      invariant |registry| == i && forall j | 0 <= j < i :: entries[j].Sound? && registry[j] == entries[j].source
      invariant unknown == UnmappedIn(registry)
      invariant Loaded(registry, states)
    {
      match entries[i] {
        case NotMapping =>
          assert entries[i] in entries && FirstUnsound(entries, i);
          return Err(NotAMapping(i));
        case NotStrings =>
          assert entries[i] in entries && FirstUnsound(entries, i);
          return Err(NeedsStrings(i));
        case Sound(source) =>
          LoadStep(registry, source, states, unknown);
          match RuntimeState(source.decision) {
            case None => unknown := unknown + {source.decision};
            case Some(state) => states := states[source.adapterKey := state];
          }
          registry := registry + [source];
      }
    }
    assert registry == SourcesOf(entries);
    AllMapped(registry);
    if unknown != {} { return Err(Unmapped(unknown)); }
    return Ok(states);
  }

  lemma NothingLoaded()
    ensures Loaded([], map[]) && UnmappedIn([]) == {}
  {
  }

  lemma AllMapped(registry: seq<Source>)
    ensures UnmappedIn(registry) == {} <==> forall s | s in registry :: RuntimeState(s.decision).Some?
  {
    hide RuntimeState;
    forall s | s in registry && RuntimeState(s.decision).None? ensures s.decision in UnmappedIn(registry) {}
  }

  lemma LoadStep(front: seq<Source>, last: Source, states: States, unknown: set<string>)
    requires Loaded(front, states) && unknown == UnmappedIn(front)
    ensures match RuntimeState(last.decision)
            case None => Loaded(front + [last], states) && UnmappedIn(front + [last]) == unknown + {last.decision}
            case Some(state) =>
              Loaded(front + [last], states[last.adapterKey := state]) && UnmappedIn(front + [last]) == unknown
  {
    hide RuntimeState;
    var all := front + [last];
    assert all[..|all| - 1] == front;
    assert forall s :: s in all <==> s in front || s == last;
  }

  // The keys of the catalog's sources, None for an entry without a string key.
  function KeysIn(catalog: seq<Option<string>>): set<string>
  {
    set k | k in catalog && k.Some? :: k.value
  }

  method ExpectedRuntimeStates(entries: seq<RegistryEntry>, catalog: seq<Option<string>>)
    returns (r: Result<States, RegistryError>)
    ensures r.Ok? <==> && entries != [] && catalog != [] && (forall e | e in entries :: e.Sound?)
                       && (forall s | s in SourcesOf(entries) :: RuntimeState(s.decision).Some?)
                       && forall k | k in catalog :: k.Some?
    ensures r.Ok? ==> r.value.Keys == KeysIn(catalog)
    ensures r.Ok? ==> forall k | k in r.value :: r.value[k] == RegistryState(SourcesOf(entries), k)
    ensures r.Ok? ==> PlainStates(r.value)
  {
    hide RuntimeState, PlainStates;
    var loaded := LoadRuntimeStates(entries);
    if loaded.Err? { return loaded; }
    var states := loaded.value;
    ghost var registry := SourcesOf(entries);
    if catalog == [] { return Err(NoSources); }
    var expected: States := map[];
    for i := 0 to |catalog|
      invariant forall j | 0 <= j < i :: catalog[j].Some?
      invariant expected.Keys == KeysIn(catalog[..i])
      invariant forall k | k in expected :: expected[k] == RegistryState(registry, k)
    {
      assert catalog[..i + 1] == catalog[..i] + [catalog[i]];
      if catalog[i].None? {
        assert catalog[i] in catalog;
        return Err(MissingKey(i));
      }
      var key := catalog[i].value;
      expected := expected[key := if key in states then states[key] else UNREGISTERED];
    }
    assert catalog[..|catalog|] == catalog;
    RegistryStatesPlain(registry, expected);
    return Ok(expected);
  }

  lemma {:induction false} RegistryStateNamed(registry: seq<Source>, key: string)
    ensures RegistryState(registry, key)
         in {"live", "available_off", "retired", "blocked", "reference", UNREGISTERED}
  {
    if registry != [] { RegistryStateNamed(registry[..|registry| - 1], key); }
  }

  lemma PlainWord(v: string)
    requires v in {"live", "available_off", "retired", "blocked", "reference", UNREGISTERED}
    ensures '\n' !in v && '\r' !in v && Strip(" " + v) == v
  {
    hide Trim;
    assert v != "" && !IsSpace(v[0]) && !IsSpace(v[|v| - 1]);
    TrimExact(" ", v, "", IsSpace);
    assert " " + v + "" == " " + v;
  }

  // Registry states are single words, so a state line holds exactly the state.
  lemma RegistryStatesPlain(registry: seq<Source>, expected: States)
    requires forall k | k in expected :: expected[k] == RegistryState(registry, k)
    ensures PlainStates(expected)
  {
    forall k | k in expected
      ensures '\n' !in expected[k] && '\r' !in expected[k] && Strip(" " + expected[k]) == expected[k]
    {
      RegistryStateNamed(registry, k);
      PlainWord(expected[k]);
    }
  }

  // ---- the decision table --------------------------------------------------------------------------

  // Which decisions give which state; every other decision is an error.
  lemma DecisionTable(decision: string)
    ensures RuntimeState(decision) == Some("live") <==> decision == "production_backbone"
    ensures RuntimeState(decision) == Some("available_off")
       <==> decision in {"eligible_default_off", "candidate", "development_only"}
    ensures RuntimeState(decision) == Some("retired") <==> decision in {"audit_only", "superseded"}
    ensures RuntimeState(decision) == Some("blocked")
       <==> decision in {"blocked_pending_approval", "authorization_pending", "contract_review_pending",
                         "credential_and_contract_pending"}
    ensures RuntimeState(decision) == Some("reference")
       <==> decision in {"context_only", "planning_reference", "static_snapshot", "request_time_fallback",
                         "request_time_legacy"}
  {
  }

  // A key has the state of its last registry entry, and "unregistered" without one.
  lemma {:induction false} RegistryLast(registry: seq<Source>, key: string, i: nat)
    requires forall s | s in registry :: RuntimeState(s.decision).Some?
    requires i < |registry| && registry[i].adapterKey == key
    requires forall j | i < j < |registry| :: registry[j].adapterKey != key
    ensures Some(RegistryState(registry, key)) == RuntimeState(registry[i].decision)
  {
    hide RuntimeState;
    var n := |registry| - 1;
    assert registry[n] in registry;
    if i < n { RegistryLast(registry[..n], key, i); }
  }

  lemma {:induction false} RegistryNone(registry: seq<Source>, key: string)
    requires forall s | s in registry :: s.adapterKey != key
    ensures RegistryState(registry, key) == "unregistered"
  {
    hide RuntimeState;
    if registry != [] {
      assert registry[|registry| - 1] in registry;
      RegistryNone(registry[..|registry| - 1], key);
    }
  }
}
