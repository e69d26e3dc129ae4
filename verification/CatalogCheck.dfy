/**
 * The check mode of the catalog renderer (infra/scripts/render_source_catalog_runtime_state.py,
 * check_catalog_runtime_state), which reads each entry's field off its lines, and what it finds
 * after a render.
 */
module CatalogCheck {
  import opened Text
  import opened Catalog
  import opened CatalogText

  // The runtime_state field of an entry, read off its last such line: a repeated YAML key
  // overwrites the value before it.
  function FieldValue(entry: seq<string>): Option<string>
  {
    if entry == [] then None
    else
      var line := entry[|entry| - 1];
      if IsStateLine(line) then Some(StateOn(line)) else FieldValue(entry[..|entry| - 1])
  }

  // The state written on a runtime_state line.
  function StateOn(line: string): string
    requires IsStateLine(line)
  {
    Strip(line[|STATE_PREFIX|..])
  }

  // The field of the last entry with the given key: later entries overwrite earlier ones.
  function Actual(entries: seq<Entry>, key: string): Option<string>
  {
    if entries == [] then None
    else
      var e := entries[|entries| - 1];
      if EntryKey(e[0]) == Some(key) then FieldValue(e) else Actual(entries[..|entries| - 1], key)
  }

  // The sources whose runtime state is missing or stale.
  function Differences(text: string, expected: States): set<string>
  {
    set k | k in expected && Actual(Entries(Lines(text), false), k) != Some(expected[k])
  }

  predicate PlainStates(expected: States)
  {
    SingleLineStates(expected) && forall k | k in expected :: Strip(" " + expected[k]) == expected[k]
  }

  lemma {:induction false} FieldFrom(entry: seq<string>, value: string, p: int)
    requires 0 <= p < |entry| && entry[p] == StateLine(value)
    requires forall i | p < i < |entry| :: !IsStateLine(entry[i])
    ensures FieldValue(entry) == Some(Strip(" " + value))
  {
    StateLineIs(value);
    if p == |entry| - 1 {
      assert StateLine(value)[|STATE_PREFIX|..] == " " + value;
    } else {
      FieldFrom(entry[..|entry| - 1], value, p);
    }
  }

  lemma {:induction false} ActualCarried(entries: seq<Entry>, key: string, expected: States)
    requires PlainStates(expected) && key in expected && key in Keys(entries)
    requires forall e | e in entries :: Carries(e, Wanted(e[0], expected))
    ensures Actual(entries, key) == Some(expected[key])
  {
    var front, last := entries[..|entries| - 1], entries[|entries| - 1];
    assert last in entries;
    if EntryKey(last[0]) == Some(key) {
      var p :| CarriesAt(last, expected[key], p);
      FieldFrom(last, expected[key], p);
    } else {
      var e: Entry :| e in entries && KeyOf(e) == Some(key);
      assert e in front;
      ActualCarried(front, key, expected);
    }
  }

  // ---- the lines of a written file ---------------------------------------------------------------

  function Cut(line: string): string
  {
    if EndsInReturn(line) then line[..|line| - 1] else line
  }

  // Every line but the last without the carriage return at its end.
  function Cuts(lines: seq<string>): (r: seq<string>)
    requires lines != []
    ensures |r| == |lines|
  {
    if |lines| == 1 then lines else [Cut(lines[0])] + Cuts(lines[1..])
  }

  lemma {:induction false} CutsAt(lines: seq<string>, i: nat)
    requires i < |lines|
    ensures Cuts(lines)[i] == if i < |lines| - 1 then Cut(lines[i]) else lines[i]
  {
    if i > 0 { CutsAt(lines[1..], i - 1); }
  }

  lemma ReplaceHead(s: string)
    requires s != "" && !("\r\n" <= s)
    ensures Normalise(s) == [s[0]] + Normalise(s[1..])
  {
    if |s| == 1 { assert s == [s[0]] && s[1..] == ""; }
  }

  lemma EmptyBreak(rest: string)
    ensures Normalise(['\n'] + rest) == ['\n'] + Normalise(rest)
  {
    var all := ['\n'] + rest;
    PrefixAt("\r\n", all, 0);
    ReplaceHead(all);
    assert all[1..] == rest;
  }

  lemma ReturnBreak(rest: string)
    ensures Normalise("\r\n" + rest) == ['\n'] + Normalise(rest)
  {
    var all := "\r\n" + rest;
    assert all[2..] == rest;
    assert "\r\n" <= all;
  }

  lemma {:induction false} NormaliseBreak(line: string, rest: string)
    requires '\n' !in line
    ensures Normalise(line + ['\n'] + rest) == Cut(line) + ['\n'] + Normalise(rest)
  {
    hide Normalise;
    var all := line + ['\n'] + rest;
    if line == "" {
      EmptyBreak(rest);
      assert all == ['\n'] + rest;
    } else if line == "\r" {
      ReturnBreak(rest);
      assert all == "\r\n" + rest;
    } else {
      assert all[1..] == line[1..] + ['\n'] + rest && all[0] == line[0];
      NormaliseBreak(line[1..], rest);
      NotBreak(line, all);
      ReplaceHead(all);
      assert Cut(line) == [line[0]] + Cut(line[1..]);
    }
  }

  lemma NotBreak(line: string, all: string)
    requires line != "" && line != "\r" && '\n' !in line && line <= all
    ensures !("\r\n" <= all)
  {
    PrefixAt("\r\n", all, 0);
    PrefixAt("\r\n", all, 1);
    if |line| > 1 { assert all[1] == line[1] && line[1] in line; } else { assert line == [line[0]]; }
  }

  lemma {:induction false} NormaliseJoin(lines: seq<string>)
    requires lines != [] && forall l | l in lines :: '\n' !in l
    ensures Normalise(Join(lines, '\n')) == Join(Cuts(lines), '\n')
  {
    if |lines| == 1 {
      NoFeedNoCrlf(lines[0]);
      NormaliseFixed(lines[0]);
    } else {
      NormaliseJoin(lines[1..]);
      NormaliseBreak(lines[0], Join(lines[1..], '\n'));
      assert Cuts(lines)[1..] == Cuts(lines[1..]);
    }
  }

  // ---- lines that read alike ---------------------------------------------------------------------

  // The same line, or an entry's first line or status line with a carriage return less.
  predicate LineAlike(x: string, y: string)
  {
    x == y || (x == y + "\r" && (StartsEntry(x) || IsStatusLine(x)))
  }

  ghost predicate Alike(a: seq<string>, b: seq<string>)
  {
    |a| == |b| && forall i | 0 <= i < |a| :: LineAlike(a[i], b[i])
  }

  lemma {:induction false} PrefixCut(y: string, prefix: string)
    requires '\r' !in prefix
    ensures StartsWith(y + "\r", prefix) <==> StartsWith(y, prefix)
  {
    if prefix != "" {
      if y == "" {
        assert (y + "\r")[0] == '\r' && prefix[0] in prefix;
      } else {
        assert (y + "\r")[1..] == y[1..] + "\r" && (y + "\r")[0] == y[0];
        PrefixCut(y[1..], prefix[1..]);
      }
    }
  }

  lemma {:induction false} TrimLeftReturn(s: string)
    ensures TrimLeft(s + "\r", IsSpace)
         == if TrimLeft(s, IsSpace) == "" then "" else TrimLeft(s, IsSpace) + "\r"
  {
    if s == "" {
      assert "\r"[1..] == "";
      assert s + "\r" == "\r";
    } else {
      assert (s + "\r")[1..] == s[1..] + "\r" && (s + "\r")[0] == s[0];
      TrimLeftReturn(s[1..]);
    }
  }

  lemma TrimRightReturn(s: string)
    ensures TrimRight(s + "\r", IsSpace) == TrimRight(s, IsSpace)
  {
    var all := s + "\r";
    assert all[|all| - 1] == '\r' && all[..|all| - 1] == s;
  }

  lemma StripReturn(s: string)
    ensures Strip(s + "\r") == Strip(s)
  {
    TrimLeftReturn(s);
    var left := TrimLeft(s, IsSpace);
    hide TrimLeft;
    if left != "" { TrimRightReturn(left); }
  }

  lemma FindInReturn(text: string)
    ensures Find(text + "\r", ":", 0) == Find(text, ":", 0)
  {
    FindAcross(text, "\r", ":", 0);
    assert "\r"[0] !in ":";
    forall i | 0 <= i ensures !OccursAt("\r", ":", i) {
      if i == 0 { assert "\r"[0..1][0] == '\r'; }
    }
    FindNone("\r", ":", 0);
  }

  lemma EntryText(y: string)
    requires StartsEntry(y + "\r")
    ensures StartsEntry(y) && |ENTRY_PREFIX| <= |y| && (y + "\r")[|ENTRY_PREFIX|..] == y[|ENTRY_PREFIX|..] + "\r"
  {
    PlainPrefixes();
    PrefixCut(y, ENTRY_PREFIX);
  }

  lemma KeyAlike(y: string)
    requires StartsEntry(y + "\r")
    ensures StartsEntry(y) && EntryKey(y + "\r") == EntryKey(y)
  {
    hide Find, OccursAt, Strip, Trim, StartsEntry, ENTRY_PREFIX;
    EntryText(y);
    var text := y[|ENTRY_PREFIX|..];
    FindInReturn(text);
    FindBound(text, ":", 0);
    match Find(text, ":", 0)
    case None =>
    case Some(colon) =>
      assert (text + "\r")[..colon] == text[..colon];
      assert (text + "\r")[colon + 1..] == text[colon + 1..] + "\r";
      StripReturn(text[colon + 1..]);
  }

  lemma PlainPrefixes()
    ensures '\r' !in ENTRY_PREFIX && '\r' !in STATUS_PREFIX && '\r' !in STATE_PREFIX
  {
  }

  // Lines that read alike are of one kind.
  lemma AlikeKind(x: string, y: string)
    requires LineAlike(x, y)
    ensures StartsEntry(x) <==> StartsEntry(y)
    ensures LeavesSources(x) <==> LeavesSources(y)
    ensures IsStateLine(x) <==> IsStateLine(y)
    ensures IsStateLine(x) ==> x == y
    ensures x == SOURCES_LINE <==> y == SOURCES_LINE
    ensures StartsEntry(x) ==> EntryKey(x) == EntryKey(y)
  {
    if x != y {
      PlainPrefixes();
      PrefixCut(y, ENTRY_PREFIX);
      PrefixCut(y, STATUS_PREFIX);
      PrefixCut(y, STATE_PREFIX);
      if StartsEntry(x) { KeyAlike(y); }
      KindsApart(x);
      KindsApart(y);
    }
  }

  lemma KindsApart(line: string)
    requires StartsEntry(line) || IsStatusLine(line)
    ensures line != "" && line[0] == ' ' && !IsStateLine(line) && line != SOURCES_LINE
  {
    if IsStateLine(line) { StateLineKind(line); }
    if StartsEntry(line) { StartsWithAt(line, ENTRY_PREFIX, 0); } else { StartsWithAt(line, STATUS_PREFIX, 0); }
    assert SOURCES_LINE[0] == 's';
  }

  lemma {:induction false} SpanAlike(a: seq<string>, b: seq<string>)
    requires Alike(a, b)
    ensures Span(a) == Span(b)
  {
    hide StartsEntry, LeavesSources, LineAlike;
    if a != [] {
      AlikeKind(a[0], b[0]);
      SpanAlike(a[1..], b[1..]);
    }
  }

  ghost predicate EntriesAlike(a: seq<Entry>, b: seq<Entry>)
  {
    |a| == |b| && forall i | 0 <= i < |a| :: Alike(a[i], b[i])
  }

  lemma {:induction false} SameEntries(a: seq<string>, b: seq<string>, inSources: bool)
    requires Alike(a, b)
    ensures EntriesAlike(Entries(a, inSources), Entries(b, inSources))
    decreases |a|
  {
    hide LineAlike, LeavesSources;
    if a != [] {
      AlikeKind(a[0], b[0]);
      if inSources && StartsEntry(a[0]) {
        SpanAlike(a[1..], b[1..]);
        var n := Span(a[1..]);
        SameEntries(a[1 + n..], b[1 + n..], true);
      } else {
        SameEntries(a[1..], b[1..], if inSources then !LeavesSources(a[0]) else a[0] == SOURCES_LINE);
      }
    }
  }

  lemma {:induction false} SameField(a: seq<string>, b: seq<string>)
    requires Alike(a, b)
    ensures FieldValue(a) == FieldValue(b)
  {
    hide LineAlike, IsStateLine, Strip;
    if a != [] {
      var n := |a| - 1;
      AlikeKind(a[n], b[n]);
      SameField(a[..n], b[..n]);
    }
  }

  lemma {:induction false} SameActual(a: seq<Entry>, b: seq<Entry>, key: string)
    requires EntriesAlike(a, b)
    ensures Actual(a, key) == Actual(b, key)
  {
    hide LineAlike, FieldValue, EntryKey, StartsEntry;
    if a != [] {
      var n := |a| - 1;
      AlikeKind(a[n][0], b[n][0]);
      SameField(a[n], b[n]);
      SameActual(a[..n], b[..n], key);
    }
  }

  // ---- where a return is cut off -------------------------------------------------------------------

  // Every line but the last that ends in a return is an entry's first line or a status line.
  ghost predicate ReturnsAtAnchors(lines: seq<string>)
  {
    forall i | 0 <= i < |lines| - 1 && EndsInReturn(lines[i]) :: StartsEntry(lines[i]) || IsStatusLine(lines[i])
  }

  lemma PlaceAtAnchor(body: seq<string>, wanted: Option<string>)
    requires body != [] && StartsEntry(body[0]) && !ReturnInside(body)
    requires wanted.Some? ==> '\r' !in wanted.value
    ensures ReturnsAtAnchors(Place(body, wanted))
  {
    hide StartsEntry, IsStatusLine, EndsInReturn;
    match wanted
    case None =>
    case Some(state) =>
      var p := Anchor(body) + 1;
      var out := Place(body, wanted);
      assert out[p] == StateLine(state);
      StateLineNoReturn(state);
      forall i | 0 <= i < |out| - 1 && EndsInReturn(out[i]) ensures StartsEntry(out[i]) || IsStatusLine(out[i]) {
        BodyReturn(body, if i < p then i else i - 1);
      }
  }

  lemma BodyReturn(body: seq<string>, i: int)
    requires 0 <= i < |body| && !ReturnInside(body) && EndsInReturn(body[i])
    ensures i == |body| - 1
  {
  }

  lemma AnchorsAppend(front: seq<string>, back: seq<string>)
    requires ReturnsAtAnchors(back) && forall l | l in front :: !EndsInReturn(l)
    ensures ReturnsAtAnchors(front + back)
  {
    hide StartsEntry, IsStatusLine, EndsInReturn;
    var all := front + back;
    assert forall i | 0 <= i < |front| :: all[i] in front;
    assert forall i | |front| <= i < |all| :: all[i] == back[i - |front|];
  }

  lemma NoReturnBefore(lines: seq<string>, n: nat)
    requires !ReturnInside(lines) && n < |lines|
    ensures forall l | l in lines[..n] :: !EndsInReturn(l)
  {
    hide EndsInReturn;
    forall l | l in lines[..n] ensures !EndsInReturn(l) {
      var i :| 0 <= i < n && lines[..n][i] == l;
      assert lines[i] == l;
    }
  }

  // What the lines of the first entry add.
  lemma EntryAtAnchors(entry: Entry, rest: seq<string>, expected: States)
    requires SingleLineStates(expected) && !ReturnInside(entry + rest)
    requires ReturnsAtAnchors(RenderLines(rest, true, expected))
    ensures ReturnsAtAnchors(RenderEntry(entry, expected) + RenderLines(rest, true, expected))
  {
    hide EntryKey, StartsWith, Place, Anchor, Kept, EndsInReturn, ReturnInside, IsStatusLine, RenderLines, StartsEntry;
    var lines := entry + rest;
    assert entry == lines[0..|entry|];
    SliceReturn(lines, 0, |entry|);
    KeptReturn(entry);
    KeptHead(entry);
    if rest == [] {
      PlaceAtAnchor(Kept(entry), Wanted(entry[0], expected));
      assert RenderLines(rest, true, expected) == [] by { NothingRendered(expected); }
      assert RenderEntry(entry, expected) + [] == RenderEntry(entry, expected);
    } else {
      assert entry == lines[..|entry|];
      NoReturnBefore(lines, |entry|);
      EntryNoReturn(entry, expected);
      AnchorsAppend(RenderEntry(entry, expected), RenderLines(rest, true, expected));
    }
  }

  lemma NothingRendered(expected: States)
    ensures RenderLines([], true, expected) == []
  {
  }

  lemma LineAtAnchors(line: string, rest: seq<string>, out: seq<string>)
    requires !ReturnInside([line] + rest) && ReturnsAtAnchors(out) && (rest == [] ==> out == [])
    ensures ReturnsAtAnchors([line] + out)
  {
    hide StartsEntry, IsStatusLine, EndsInReturn;
    if rest != [] {
      NoReturnBefore([line] + rest, 1);
      assert ([line] + rest)[..1] == [line];
      AnchorsAppend([line], out);
    }
  }

  lemma RestNoReturn(front: seq<string>, rest: seq<string>)
    requires !ReturnInside(front + rest)
    ensures !ReturnInside(rest)
  {
    SliceReturn(front + rest, |front|, |front + rest|);
    assert (front + rest)[|front|..|front + rest|] == rest;
  }

  lemma {:induction false} RenderedAtAnchors(lines: seq<string>, inSources: bool, expected: States)
    requires SingleLineStates(expected) && !ReturnInside(lines)
    ensures ReturnsAtAnchors(RenderLines(lines, inSources, expected))
    decreases |lines|
  {
    hide EntryKey, StartsWith, LeavesSources, ReturnInside, ReturnsAtAnchors, RenderEntry, SingleLineStates;
    if lines == [] {
      NoLinesAtAnchors();
    } else if inSources && StartsEntry(lines[0]) {
      var n := Span(lines[1..]);
      var entry: Entry, rest: seq<string> := lines[..1 + n], lines[1 + n..];
      assert lines == entry + rest;
      RestNoReturn(entry, rest);
      RenderedAtAnchors(rest, true, expected);
      EntryAtAnchors(entry, rest, expected);
    } else {
      var next := if inSources then !LeavesSources(lines[0]) else lines[0] == SOURCES_LINE;
      assert lines == [lines[0]] + lines[1..];
      RestNoReturn([lines[0]], lines[1..]);
      RenderedAtAnchors(lines[1..], next, expected);
      LineAtAnchors(lines[0], lines[1..], RenderLines(lines[1..], next, expected));
    }
  }

  lemma NoLinesAtAnchors()
    ensures ReturnsAtAnchors([])
  {
  }

  lemma CutsAlike(lines: seq<string>)
    requires lines != [] && ReturnsAtAnchors(lines)
    ensures Alike(lines, Cuts(lines))
  {
    hide StartsEntry, IsStatusLine;
    forall i | 0 <= i < |lines| ensures LineAlike(lines[i], Cuts(lines)[i]) {
      CutsAt(lines, i);
      if EndsInReturn(lines[i]) { assert lines[i] == Cut(lines[i]) + "\r"; }
    }
  }

  // The written file reads back as the rendered lines, but for a return that is cut off an anchor.
  lemma FileLines(text: string, expected: States)
    requires SingleLineStates(expected) && RenderFile(text, expected).Ok?
    ensures Alike(RenderLines(Lines(text), false, expected), Lines(RenderFile(text, expected).value))
  {
    var lines := Lines(text);
    var out := RenderLines(lines, false, expected);
    RenderedSingleLines(text, expected);
    RenderLinesHead(lines, false, expected);
    hide RenderLines, SingleLineStates, LineAlike;
    if HasCrlf(text) {
      NormaliseUndoesCrlf(Join(out, '\n'));
      SplitJoin(out, '\n');
      SelfAlike(out);
    } else {
      NormaliseFixed(text);
      JoinSplit(text, '\n');
      JoinHasCrlf(lines);
      RenderedAtAnchors(lines, false, expected);
      CutsAlike(out);
      NormaliseJoin(out);
      CutsOneLine(out);
      SplitJoin(Cuts(out), '\n');
    }
  }

  lemma SelfAlike(lines: seq<string>)
    ensures Alike(lines, lines)
  {
  }

  lemma {:induction false} CutsOneLine(lines: seq<string>)
    requires lines != [] && forall l | l in lines :: '\n' !in l
    ensures forall l | l in Cuts(lines) :: '\n' !in l
  {
    if |lines| > 1 {
      assert lines[0] in lines;
      CutsOneLine(lines[1..]);
    }
  }

  // After a successful render the check reports nothing, even when a key occurs more than once.
  lemma CheckAfterRender(text: string, expected: States)
    requires PlainStates(expected) && RenderFile(text, expected).Ok?
    ensures Differences(RenderFile(text, expected).value, expected) == {}
  {
    var out, written := RenderLines(Lines(text), false, expected), Lines(RenderFile(text, expected).value);
    FileLines(text, expected);
    SameEntries(out, written, false);
    RenderedEntriesCarry(Lines(text), expected);
    assert Missing(out, expected) == {};
    hide RenderLines, Lines, RenderFile, Entries, EntriesAlike, Alike, Wanted, PlainStates;
    forall k | k in expected ensures Actual(Entries(written, false), k) == Some(expected[k]) {
      assert k !in Missing(out, expected);
      ActualCarried(Entries(out, false), k, expected);
      SameActual(Entries(out, false), Entries(written, false), k);
    }
  }
}
