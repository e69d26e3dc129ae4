/**
 * The inputs on which rendering a catalog file a second time changes it again, built from scratch:
 * a catalog whose only entry line ends the file with a lone carriage return.
 */
module CatalogDrift {
  import opened Text
  import opened Catalog
  import opened CatalogText

  // A key that stands in the catalog as it is, without quotes or spaces around it.
  predicate PlainKey(key: string)
  {
    key != "" && !IsSpace(key[0]) && !IsSpace(key[|key| - 1]) && !IsQuote(key[0]) && !IsQuote(key[|key| - 1])
    && '\n' !in key && '\r' !in key
  }

  function KeyLine(key: string): string
  {
    ENTRY_PREFIX + ("key" + [':'] + (" " + key + "\r"))
  }

  function DriftLines(key: string): seq<string>
  {
    [SOURCES_LINE, KeyLine(key)]
  }

  lemma Prefixed(text: string)
    ensures StartsEntry(ENTRY_PREFIX + text) && (ENTRY_PREFIX + text)[|ENTRY_PREFIX|..] == text
  {
    StartsWithAppend(ENTRY_PREFIX, text);
  }

  lemma EntryKeyIs(line: string, text: string, name: string, value: string)
    requires StartsEntry(line) && line[|ENTRY_PREFIX|..] == text && text == name + [':'] + value
    requires ':' !in name && Strip(name) == "key"
    ensures EntryKey(line) == Some(Trim(Strip(value), IsQuote))
  {
    hide Find, Strip, Trim, StartsEntry, ENTRY_PREFIX;
    FindChar(name, ':', value);
    assert text[..|name|] == name && text[|name| + 1..] == value;
  }

  lemma WordKey()
    ensures ':' !in "key" && Strip("key") == "key"
  {
    hide Trim;
    TrimExact("", "key", "", IsSpace);
    assert "" + "key" + "" == "key";
  }

  lemma KeyLineKey(key: string)
    requires PlainKey(key)
    ensures StartsEntry(KeyLine(key)) && EntryKey(KeyLine(key)) == Some(key)
  {
    hide Trim, EntryKey, Find, StartsEntry, ENTRY_PREFIX;
    var value := " " + key + "\r";
    Prefixed("key" + [':'] + value);
    WordKey();
    EntryKeyIs(KeyLine(key), "key" + [':'] + value, "key", value);
    TrimExact(" ", key, "\r", IsSpace);
    TrimExact("", key, "", IsQuote);
    assert "" + key + "" == key;
  }

  // The entry line is neither a status nor a runtime_state line: its key is a plain one.
  lemma KeyLineKept(key: string)
    ensures !IsStateLine(KeyLine(key)) && EndsInReturn(KeyLine(key))
    ensures '\n' !in key ==> '\n' !in KeyLine(key)
  {
    var line := KeyLine(key);
    assert line[2] == '-' && STATE_PREFIX[2] == ' ';
    if IsStateLine(line) { StartsWithAt(line, STATE_PREFIX, 2); }
  }

  lemma SourcesFirst(rest: seq<string>, expected: States)
    ensures Entries([SOURCES_LINE] + rest, false) == Entries(rest, true)
    ensures EndsAtAnchor([SOURCES_LINE] + rest, false, expected) == EndsAtAnchor(rest, true, expected)
  {
    hide StartsEntry, LeavesSources, Continues, AnchorIsLast, SOURCES_LINE;
    assert ([SOURCES_LINE] + rest)[1..] == rest;
  }

  lemma OneEntry(entry: Entry, expected: States)
    requires |entry| == 1
    ensures Entries(entry, true) == [entry]
    ensures EndsAtAnchor(entry, true, expected) == AnchorIsLast(entry, expected)
  {
    hide StartsEntry, LeavesSources, Continues, AnchorIsLast;
    assert entry[1..] == [] && entry[..1] == entry;
    assert Entries([], true) == [];
  }

  lemma OneKey(entry: Entry, key: string)
    requires KeyOf(entry) == Some(key)
    ensures Keys([entry]) == {key}
  {
    hide KeyOf, StartsEntry;
  }

  lemma LastIsAnchor(entry: Entry, expected: States)
    requires |entry| == 1 && !IsStateLine(entry[0]) && Wanted(entry[0], expected).Some?
    ensures AnchorIsLast(entry, expected)
  {
    hide IsStateLine, IsStatusLine, StartsEntry, Wanted;
    KeptFixed(entry);
  }

  lemma MakeEntry(line: string) returns (entry: Entry)
    requires StartsEntry(line)
    ensures entry == [line]
  {
    hide StartsEntry;
    var lines := [line];
    assert lines[0] == line;
    entry := lines;
  }

  lemma DriftWanted(entry: Entry, key: string, expected: States)
    requires |entry| == 1 && EntryKey(entry[0]) == Some(key)
    ensures key in expected ==> Wanted(entry[0], expected).Some?
    ensures KeyOf(entry) == Some(key)
  {
    hide StartsEntry, EntryKey;
  }

  lemma DriftLinesAre(key: string)
    ensures DriftLines(key) == [SOURCES_LINE] + [KeyLine(key)]
  {
    hide KeyLine, SOURCES_LINE;
  }

  lemma DriftEntries(key: string, expected: States)
    requires PlainKey(key)
    ensures Keys(Entries(DriftLines(key), false)) == {key}
    ensures key in expected ==> EndsAtAnchor(DriftLines(key), false, expected)
  {
    KeyLineKey(key);
    KeyLineKept(key);
    var line := KeyLine(key);
    hide *;
    var entry := MakeEntry(line);
    DriftLinesAre(key);
    SourcesFirst(entry, expected);
    OneEntry(entry, expected);
    DriftWanted(entry, key, expected);
    OneKey(entry, key);
    if key in expected { LastIsAnchor(entry, expected); }
  }

  lemma DriftText(key: string)
    requires PlainKey(key)
    ensures var text := Join(DriftLines(key), '\n');
            !HasCrlf(text) && EndsInReturn(text) && Lines(text) == DriftLines(key)
  {
    KeyLineKept(key);
    var lines := DriftLines(key);
    assert '\n' !in lines[1];
    assert lines[0] == SOURCES_LINE && SOURCES_LINE[7] == ':' && '\n' !in SOURCES_LINE;
    hide KeyLine, PlainKey, HasCrlf, Split, Join, Normalise, DriftLines;
    var text := Join(lines, '\n');
    JoinHasCrlf(lines);
    LastReturn(lines);
    NormaliseFixed(text);
    SplitJoin(lines, '\n');
  }

  // Rendering the file twice is not rendering it once.
  lemma SecondRunDrifts(key: string, state: string)
    requires PlainKey(key) && '\n' !in state && '\r' !in state
    ensures var text, expected := Join(DriftLines(key), '\n'), map[key := state];
            RenderFile(text, expected).Ok?
            && RenderFile(RenderFile(text, expected).value, expected) != Ok(RenderFile(text, expected).value)
  {
    hide *;
    DriftText(key);
    var expected := map[key := state];
    DriftEntries(key, expected);
    NothingMissing(key, state);
    FileIdempotent(Join(DriftLines(key), '\n'), expected);
  }

  lemma NothingMissing(key: string, state: string)
    requires PlainKey(key) && '\n' !in state && '\r' !in state
    ensures SingleLineStates(map[key := state])
    ensures RenderFile(Join(DriftLines(key), '\n'), map[key := state]).Ok?
  {
    DriftText(key);
    DriftEntries(key, map[key := state]);
    hide DriftLines, Lines, Entries, Keys, RenderLines, PlainKey;
  }
}
