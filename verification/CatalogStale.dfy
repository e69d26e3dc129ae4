/**
 * Which sources the check of the catalog reports (infra/scripts/render_source_catalog_runtime_state.py,
 * check_catalog_runtime_state), said of the entries' own lines, and what an edit of one line does to it.
 */
module CatalogStale {
  import opened Text
  import opened Catalog
  import opened CatalogText
  import opened CatalogCheck

  // Entry i is the last one with the given key, the one the check reads.
  ghost predicate LastWith(entries: seq<Entry>, key: string, i: int)
  {
    && 0 <= i < |entries| && EntryKey(entries[i][0]) == Some(key)
    && forall j | i < j < |entries| :: EntryKey(entries[j][0]) != Some(key)
  }

  // Line p is the last runtime_state line of the entry, and has the given state on it.
  ghost predicate SaysAt(entry: seq<string>, p: int, state: string)
  {
    && 0 <= p < |entry| && IsStateLine(entry[p]) && Strip(entry[p][|STATE_PREFIX|..]) == state
    && forall q | p < q < |entry| :: !IsStateLine(entry[q])
  }

  // The entry's lines give no state, or another one.
  ghost predicate StaleEntry(entry: seq<string>, wanted: string)
  {
    || (forall line | line in entry :: !IsStateLine(line))
    || exists p, state :: SaysAt(entry, p, state) && state != wanted
  }

  ghost predicate StaleKey(entries: seq<Entry>, key: string, wanted: string)
  {
    || (forall e | e in entries :: EntryKey(e[0]) != Some(key))
    || exists i :: LastWith(entries, key, i) && StaleEntry(entries[i], wanted)
  }

  lemma {:induction false} FieldExactly(entry: seq<string>)
    ensures FieldValue(entry) == None ==> forall p | 0 <= p < |entry| :: !IsStateLine(entry[p])
    ensures FieldValue(entry).Some? ==> exists p :: SaysAt(entry, p, FieldValue(entry).value)
  {
    hide IsStateLine, Strip, STATE_PREFIX;
    if entry != [] {
      var n := |entry| - 1;
      if IsStateLine(entry[n]) {
        assert SaysAt(entry, n, StateOn(entry[n]));
      } else {
        FieldExactly(entry[..n]);
        if FieldValue(entry).Some? {
          var p :| SaysAt(entry[..n], p, FieldValue(entry[..n]).value);
          assert entry[..n][p] == entry[p];
          assert SaysAt(entry, p, FieldValue(entry).value);
        }
      }
    }
  }

  lemma StaleField(entry: seq<string>, wanted: string)
    ensures FieldValue(entry) != Some(wanted) <==> StaleEntry(entry, wanted)
  {
    hide IsStateLine, Strip, FieldValue, STATE_PREFIX;
    FieldExactly(entry);
    match FieldValue(entry)
    case None =>
    case Some(v) =>
      var p :| SaysAt(entry, p, v);
      assert entry[p] in entry;
      assert forall q, state | SaysAt(entry, q, state) :: q == p && state == v;
  }

  lemma {:induction false} ActualAt(entries: seq<Entry>, key: string, i: int)
    requires LastWith(entries, key, i)
    ensures Actual(entries, key) == FieldValue(entries[i])
  {
    hide EntryKey, FieldValue;
    var n := |entries| - 1;
    if i < n {
      assert EntryKey(entries[n][0]) != Some(key);
      assert LastWith(entries[..n], key, i);
      ActualAt(entries[..n], key, i);
    }
  }

  lemma {:induction false} ActualNone(entries: seq<Entry>, key: string)
    requires forall e | e in entries :: EntryKey(e[0]) != Some(key)
    ensures Actual(entries, key) == None
  {
    hide EntryKey, FieldValue;
    if entries != [] {
      var n := |entries| - 1;
      assert entries[n] in entries;
      ActualNone(entries[..n], key);
    }
  }

  lemma {:induction false} SomeLast(entries: seq<Entry>, key: string, e: Entry)
    requires e in entries && EntryKey(e[0]) == Some(key)
    ensures exists i :: LastWith(entries, key, i)
  {
    hide EntryKey;
    var n := |entries| - 1;
    if EntryKey(entries[n][0]) == Some(key) {
      assert LastWith(entries, key, n);
    } else {
      assert e in entries[..n];
      SomeLast(entries[..n], key, e);
      var i :| LastWith(entries[..n], key, i);
      assert LastWith(entries, key, i);
    }
  }

  lemma LastBound(entries: seq<Entry>, key: string, i: int)
    requires LastWith(entries, key, i)
    ensures 0 <= i < |entries|
  {
  }

  lemma OneLast(entries: seq<Entry>, key: string, i: int, j: int)
    requires LastWith(entries, key, i) && LastWith(entries, key, j)
    ensures i == j
  {
  }

  lemma StaleActual(entries: seq<Entry>, key: string, wanted: string)
    ensures Actual(entries, key) != Some(wanted) <==> StaleKey(entries, key, wanted)
  {
    hide EntryKey, FieldValue, Actual, StaleEntry, LastWith;
    if forall e | e in entries :: EntryKey(e[0]) != Some(key) {
      ActualNone(entries, key);
    } else {
      var e: Entry :| e in entries && EntryKey(e[0]) == Some(key);
      SomeLast(entries, key, e);
      var i :| LastWith(entries, key, i);
      ActualAt(entries, key, i);
      LastBound(entries, key, i);
      StaleField(entries[i], wanted);
      forall j | LastWith(entries, key, j) ensures j == i { OneLast(entries, key, i, j); }
    }
  }

  // A key is reported exactly when it is expected and no entry has it, or the last entry that has
  // it carries no runtime_state line, or another state on the last such line.
  lemma ReportedExactly(text: string, expected: States, key: string)
    ensures key in Differences(text, expected)
       <==> key in expected && StaleKey(Entries(Lines(text), false), key, expected[key])
  {
    hide Lines, Entries, Actual, StaleKey;
    if key in expected { StaleActual(Entries(Lines(text), false), key, expected[key]); }
  }

  // ---- an edit of one line -----------------------------------------------------------------------

  // The lines with entry i rewritten.
  function Rewritten(lines: seq<string>, inSources: bool, i: nat, entry: Entry): seq<string>
    requires i < |Entries(lines, inSources)|
    decreases |lines|
  {
    if inSources && StartsEntry(lines[0]) then
      var n := Span(lines[1..]);
      if i == 0 then entry + lines[1 + n..]
      else lines[..1 + n] + Rewritten(lines[1 + n..], true, i - 1, entry)
    else
      [lines[0]] + Rewritten(lines[1..], if inSources then !LeavesSources(lines[0]) else lines[0] == SOURCES_LINE, i, entry)
  }

  // Lines `from` up to `to` are the old entry, and the rewritten lines have the new one there.
  ghost predicate SplicedAt(lines: seq<string>, was: Entry, out: seq<string>, entry: Entry, from: nat)
  {
    && from + |was| <= |lines| && lines[from..from + |was|] == was
    && out == lines[..from] + entry + lines[from + |was|..]
  }

  lemma SplicedBehind(front: seq<string>, lines: seq<string>, was: Entry, out: seq<string>, entry: Entry, from: nat)
    requires SplicedAt(lines, was, out, entry, from)
    ensures SplicedAt(front + lines, was, front + out, entry, |front| + from)
  {
    hide StartsEntry;
    SliceBehind(front, lines, from, from + |was|);
  }

  lemma SliceBehind(front: seq<string>, lines: seq<string>, from: nat, to: nat)
    requires from <= to <= |lines|
    ensures (front + lines)[..|front| + from] == front + lines[..from]
    ensures (front + lines)[|front| + from..|front| + to] == lines[from..to]
    ensures (front + lines)[|front| + to..] == lines[to..]
  {
  }

  // The lines outside entry i stay, and the new lines stand where the old ones stood.
  lemma {:induction false} RewrittenInPlace(lines: seq<string>, inSources: bool, i: nat, entry: Entry)
    returns (from: nat)
    requires i < |Entries(lines, inSources)|
    ensures SplicedAt(lines, Entries(lines, inSources)[i], Rewritten(lines, inSources, i, entry), entry, from)
    decreases |lines|
  {
    hide SplicedAt, LeavesSources, Span;
    if inSources && StartsEntry(lines[0]) {
      var first: Entry, rest := lines[..1 + Span(lines[1..])], lines[1 + Span(lines[1..])..];
      assert lines == first + rest;
      if i == 0 {
        SplicedFirst(first, rest, entry);
        from := 0;
      } else {
        from := RewrittenInPlace(rest, true, i - 1, entry);
        SplicedBehind(first, rest, Entries(rest, true)[i - 1], Rewritten(rest, true, i - 1, entry), entry, from);
        from := |first| + from;
      }
    } else {
      var next := if inSources then !LeavesSources(lines[0]) else lines[0] == SOURCES_LINE;
      from := RewrittenInPlace(lines[1..], next, i, entry);
      assert lines == [lines[0]] + lines[1..];
      SplicedBehind([lines[0]], lines[1..], Entries(lines[1..], next)[i], Rewritten(lines[1..], next, i, entry), entry,
                    from);
      from := |[lines[0]]| + from;
    }
  }

  lemma SplicedFirst(first: Entry, rest: seq<string>, entry: Entry)
    ensures SplicedAt(first + rest, first, entry + rest, entry, 0)
  {
    hide StartsEntry;
    assert (first + rest)[0..|first|] == first && (first + rest)[|first|..] == rest;
    assert (first + rest)[..0] + entry == entry;
  }

  lemma TailHead(lines: seq<string>)
    requires lines != []
    ensures var tail := lines[1 + Span(lines[1..])..]; tail == [] || !Continues(tail[0])
    ensures var first := lines[..1 + Span(lines[1..])]; forall j | 1 <= j < |first| :: Continues(first[j])
  {
    hide Continues;
    var n := Span(lines[1..]);
    forall j | 1 <= j < 1 + n ensures Continues(lines[j]) { assert lines[j] == lines[1..][j - 1]; }
    if 1 + n < |lines| { assert lines[1 + n] == lines[1..][n]; }
  }

  lemma RewrittenHead(lines: seq<string>, i: nat, entry: Entry)
    requires i < |Entries(lines, true)| && !Continues(lines[0])
    ensures var out := Rewritten(lines, true, i, entry); out != [] && !Continues(out[0])
  {
  }

  // Rewriting the lines of one entry changes that entry and no other.
  lemma {:induction false} OnlyThatEntry(lines: seq<string>, inSources: bool, i: nat, entry: Entry)
    requires i < |Entries(lines, inSources)| && forall j | 1 <= j < |entry| :: Continues(entry[j])
    ensures Entries(Rewritten(lines, inSources, i, entry), inSources) == Entries(lines, inSources)[i := entry]
    decreases |lines|
  {
    hide Continues, LeavesSources, Span;
    if inSources && StartsEntry(lines[0]) {
      var first: Entry, rest := lines[..1 + Span(lines[1..])], lines[1 + Span(lines[1..])..];
      TailHead(lines);
      if i == 0 {
        EntriesCut(entry, rest);
        assert Rewritten(lines, true, 0, entry) == entry + rest;
      } else {
        OnlyThatEntry(rest, true, i - 1, entry);
        RewrittenHead(rest, i - 1, entry);
        var out := Rewritten(rest, true, i - 1, entry);
        assert Rewritten(lines, true, i, entry) == first + out;
        EntriesCut(first, out);
      }
    } else {
      var next := if inSources then !LeavesSources(lines[0]) else lines[0] == SOURCES_LINE;
      OnlyThatEntry(lines[1..], next, i, entry);
      LineKept(lines[0], Rewritten(lines[1..], next, i, entry), inSources, next);
    }
  }

  lemma LineKept(line: string, rest: seq<string>, inSources: bool, next: bool)
    requires !(inSources && StartsEntry(line)) && next == if inSources then !LeavesSources(line) else line == SOURCES_LINE
    ensures Entries([line] + rest, inSources) == Entries(rest, next)
  {
    hide StartsEntry, LeavesSources;
    assert ([line] + rest)[1..] == rest;
  }

  // The entry with its line p taken out, or with another line in its place.
  function Edited(entry: Entry, p: nat, line: Option<string>): Entry
    requires 1 <= p < |entry|
  {
    entry[..p] + (if line.Some? then [line.value] else []) + entry[p + 1..]
  }

  lemma EditedStale(entry: Entry, wanted: string, p: nat, line: Option<string>)
    requires CarriesAt(entry, wanted, p)
    requires line.Some? ==> IsStateLine(line.value) && Strip(line.value[|STATE_PREFIX|..]) != wanted
    ensures StaleEntry(Edited(entry, p, line), wanted)
  {
    hide IsStateLine, Strip, StateLine, HasStatus, FirstStatus;
    var out := Edited(entry, p, line);
    if line.Some? {
      forall q | p < q < |out| ensures !IsStateLine(out[q]) { assert out[q] == entry[q]; }
      assert SaysAt(out, p, StateOn(line.value));
    } else {
      forall q | 0 <= q < |out| ensures !IsStateLine(out[q]) { assert out[q] == entry[if q < p then q else q + 1]; }
    }
  }

  lemma EditedContinues(entry: Entry, p: nat, line: Option<string>)
    requires 1 <= p < |entry| && forall j | 1 <= j < |entry| :: Continues(entry[j])
    requires line.Some? ==> IsStateLine(line.value)
    ensures forall j | 1 <= j < |Edited(entry, p, line)| :: Continues(Edited(entry, p, line)[j])
  {
    if line.Some? { StateLineKind(line.value); }
    hide IsStateLine, Continues;
    var out := Edited(entry, p, line);
    forall j | 1 <= j < |out| ensures Continues(out[j]) {
      if line.Some? {
        assert out[j] == if j == p then line.value else entry[j];
      } else {
        assert out[j] == entry[if j < p then j else j + 1];
      }
    }
  }

  lemma {:induction false} EntriesContinue(lines: seq<string>, inSources: bool)
    ensures forall e, j | e in Entries(lines, inSources) && 1 <= j < |e| :: Continues(e[j])
    decreases |lines|
  {
    if lines != [] {
      if inSources && StartsEntry(lines[0]) {
        var n := Span(lines[1..]);
        EntriesContinue(lines[1 + n..], true);
        var first: Entry := lines[..1 + n];
        forall j | 1 <= j < |first| ensures Continues(first[j]) { assert first[j] == lines[1..][j - 1]; }
      } else {
        EntriesContinue(lines[1..], if inSources then !LeavesSources(lines[0]) else lines[0] == SOURCES_LINE);
      }
    }
  }

  // Deleting the runtime_state line that a render placed in the last entry of a key, or writing
  // another state on it, makes the check report that key, and leaves every other key as it was.
  lemma EditReported(before: string, after: string, expected: States, key: string, i: nat, p: nat,
                     line: Option<string>)
    requires key in expected && LastWith(Entries(Lines(before), false), key, i)
    requires CarriesAt(Entries(Lines(before), false)[i], expected[key], p)
    requires line.Some? ==> IsStateLine(line.value) && Strip(line.value[|STATE_PREFIX|..]) != expected[key]
    requires Lines(after)
          == Rewritten(Lines(before), false, i, Edited(Entries(Lines(before), false)[i], p, line))
    ensures Differences(after, expected) == Differences(before, expected) + {key}
  {
    hide *;
    var lines := Lines(before);
    var entries := Entries(lines, false);
    EditEntries(lines, key, expected[key], i, p, line);
    forall k ensures k in Differences(after, expected) <==> k in Differences(before, expected) + {key} {
      ReportedExactly(after, expected, k);
      ReportedExactly(before, expected, k);
      if k in expected { EditStale(entries, key, expected[key], i, p, line, k, expected[k]); }
    }
  }

  lemma EditEntries(lines: seq<string>, key: string, wanted: string, i: nat, p: nat, line: Option<string>)
    requires LastWith(Entries(lines, false), key, i) && CarriesAt(Entries(lines, false)[i], wanted, p)
    requires line.Some? ==> IsStateLine(line.value)
    ensures var entry := Edited(Entries(lines, false)[i], p, line);
            Entries(Rewritten(lines, false, i, entry), false) == Entries(lines, false)[i := entry]
  {
    hide EntryKey, IsStateLine, StartsEntry, Continues, Rewritten, HasStatus, FirstStatus, StateLine;
    EntriesContinue(lines, false);
    var e := Entries(lines, false)[i];
    assert e in Entries(lines, false);
    EditedContinues(e, p, line);
    OnlyThatEntry(lines, false, i, Edited(e, p, line));
  }

  lemma EditStale(entries: seq<Entry>, key: string, wanted: string, i: nat, p: nat, line: Option<string>,
                  k: string, expected: string)
    requires LastWith(entries, key, i) && CarriesAt(entries[i], wanted, p) && (k == key ==> expected == wanted)
    requires line.Some? ==> IsStateLine(line.value) && Strip(line.value[|STATE_PREFIX|..]) != wanted
    ensures StaleKey(entries[i := Edited(entries[i], p, line)], k, expected)
       <==> k == key || StaleKey(entries, k, expected)
  {
    hide *;
    LastBound(entries, key, i);
    CarriedBound(entries[i], wanted, p);
    var entry := Edited(entries[i], p, line);
    EditedHead(entries[i], p, line);
    if k == key {
      EditedStale(entries[i], wanted, p, line);
      SameLast(entries, i, entry, key, i);
      StaleAt(entries[i := entry], key, expected, i);
    } else {
      StaleElsewhere(entries, i, entry, key, k, expected);
    }
  }

  lemma CarriedBound(entry: seq<string>, wanted: string, p: int)
    requires CarriesAt(entry, wanted, p)
    ensures 1 <= p < |entry|
  {
  }

  lemma EditedHead(entry: Entry, p: nat, line: Option<string>)
    requires 1 <= p < |entry|
    ensures Edited(entry, p, line)[0] == entry[0]
  {
  }

  lemma StaleAt(entries: seq<Entry>, key: string, wanted: string, i: int)
    requires LastWith(entries, key, i) && StaleEntry(entries[i], wanted)
    ensures StaleKey(entries, key, wanted)
  {
  }

  lemma SameLast(entries: seq<Entry>, i: nat, entry: Entry, key: string, j: int)
    requires i < |entries| && entry[0] == entries[i][0]
    ensures LastWith(entries[i := entry], key, j) <==> LastWith(entries, key, j)
  {
    hide EntryKey, StartsEntry;
    var out := entries[i := entry];
    assert forall j | 0 <= j < |out| :: out[j][0] == entries[j][0];
  }

  lemma StaleElsewhere(entries: seq<Entry>, i: nat, entry: Entry, key: string, k: string, expected: string)
    requires LastWith(entries, key, i) && entry[0] == entries[i][0] && k != key
    ensures StaleKey(entries[i := entry], k, expected) <==> StaleKey(entries, k, expected)
  {
    hide EntryKey, StaleEntry, StartsEntry;
    var out := entries[i := entry];
    forall j ensures LastWith(out, k, j) <==> LastWith(entries, k, j) { SameLast(entries, i, entry, k, j); }
    NoneWith(entries, k);
    NoneWith(out, k);
    assert forall j | 0 <= j < |out| :: out[j][0] == entries[j][0];
    hide LastWith;
    assert forall j | LastWith(out, k, j) :: j != i && out[j] == entries[j] by {
      forall j | LastWith(out, k, j) ensures j != i && out[j] == entries[j] { ApartLast(entries, key, i, k, j); }
    }
  }

  lemma ApartLast(entries: seq<Entry>, key: string, i: int, k: string, j: int)
    requires LastWith(entries, key, i) && LastWith(entries, k, j) && k != key
    ensures j != i && 0 <= j < |entries|
  {
  }

  lemma NoneWith(entries: seq<Entry>, key: string)
    ensures (forall e | e in entries :: EntryKey(e[0]) != Some(key))
       <==> (forall j | 0 <= j < |entries| :: EntryKey(entries[j][0]) != Some(key))
  {
    hide EntryKey, StartsEntry;
    assert forall j | 0 <= j < |entries| :: entries[j] in entries;
  }
}
