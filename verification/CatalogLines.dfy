/**
 * The lines of the catalog by their text: what an entry's first line, a state line and a status line
 * are, and where the sources section begins and ends
 * (infra/scripts/render_source_catalog_runtime_state.py).
 */
module CatalogLines {
  import opened Text
  import opened Catalog
  import opened CatalogText
  import opened CatalogCheck

  lemma {:induction false} StartsExactly(s: string, prefix: string)
    ensures StartsWith(s, prefix) <==> prefix <= s
  {
    if StartsWith(s, prefix) {
      forall i | 0 <= i < |prefix| ensures s[i] == prefix[i] { StartsWithAt(s, prefix, i); }
      assert s[..|prefix|] == prefix;
    }
    if prefix <= s {
      assert s == prefix + s[|prefix|..];
      StartsWithAppend(prefix, s[|prefix|..]);
    }
  }

  // A line states a runtime state exactly when it is the field's indented name and that state.
  lemma StateLineExactly(line: string, state: string)
    ensures IsStateLine(line) && StateOn(line) == state
       <==> exists rest: string :: line == "    runtime_state:" + rest && Strip(rest) == state
  {
    StartsExactly(line, STATE_PREFIX);
    hide Strip, StartsWith;
    if IsStateLine(line) { assert line == "    runtime_state:" + line[|STATE_PREFIX|..]; }
    forall rest: string | line == "    runtime_state:" + rest ensures IsStateLine(line) && StateOn(line) == Strip(rest) {
      assert STATE_PREFIX <= line && line[|STATE_PREFIX|..] == rest;
    }
  }

  // A status line is one that starts with the field's indented name.
  lemma StatusLineExactly(line: string)
    ensures IsStatusLine(line) <==> "    status:" <= line
  {
    StartsExactly(line, STATUS_PREFIX);
  }

  lemma ColonAt(text: string, i: nat)
    ensures OccursAt(text, ":", i) <==> i < |text| && text[i] == ':'
  {
    if i < |text| { assert text[i..i + 1] == [text[i]]; }
  }

  // An entry has a key exactly when its first line is the entry mark, a name before the first colon
  // that is "key" but for white space, and that key but for white space and quotes.
  lemma KeyLineExactly(line: string, key: string)
    ensures StartsEntry(line) && EntryKey(line) == Some(key)
       <==> exists name, value :: KeyLineAs(line, key, name, value)
  {
    StartsExactly(line, ENTRY_PREFIX);
    hide Strip, Trim, StartsWith;
    if StartsEntry(line) && EntryKey(line) == Some(key) { KeyLineParts(line, key); }
    forall name, value | KeyLineAs(line, key, name, value) ensures StartsEntry(line) && EntryKey(line) == Some(key) {
      var text := name + ":" + value;
      assert line == "  - " + text && ENTRY_PREFIX <= line && line[|ENTRY_PREFIX|..] == text;
      FindChar(name, ':', value);
      assert text[..|name|] == name && text[|name| + 1..] == value;
    }
  }

  ghost predicate KeyLineAs(line: string, key: string, name: string, value: string)
  {
    && line == "  - " + (name + ":" + value)
    && ':' !in name && Strip(name) == "key" && key == Trim(Strip(value), IsQuote)
  }

  lemma KeyLineParts(line: string, key: string)
    requires StartsEntry(line) && EntryKey(line) == Some(key) && ENTRY_PREFIX <= line
    ensures exists name, value :: KeyLineAs(line, key, name, value)
  {
    hide Strip, Trim, StartsWith;
    var text := line[|ENTRY_PREFIX|..];
    var colon := Find(text, ":", 0).value;
    var name, value := text[..colon], text[colon + 1..];
    ColonAt(text, colon);
    forall i | 0 <= i < colon ensures text[i] != ':' { ColonAt(text, i); }
    assert text == name + ":" + value && line == "  - " + text;
    assert KeyLineAs(line, key, name, value);
  }

  // ---- the section ---------------------------------------------------------------------------------

  // A line of the section: empty, a comment or indented.
  predicate Inside(line: string)
  {
    line == "" || line[0] == ' ' || line[0] == '#'
  }

  lemma InsideExactly(line: string)
    ensures Inside(line) <==> !LeavesSources(line)
    ensures StartsEntry(line) ==> Inside(line)
  {
    if StartsEntry(line) { StartsWithAt(line, ENTRY_PREFIX, 0); }
  }

  lemma {:induction false} BeforeSection(front: seq<string>, rest: seq<string>, expected: States)
    requires SOURCES_LINE !in front
    ensures RenderLines(front + rest, false, expected) == front + RenderLines(rest, false, expected)
  {
    if front == [] {
      assert front + rest == rest;
    } else {
      assert (front + rest)[1..] == front[1..] + rest;
      BeforeSection(front[1..], rest, expected);
      assert front == [front[0]] + front[1..];
    }
  }

  lemma RenderCut(first: Entry, rest: seq<string>, expected: States)
    requires forall j | 1 <= j < |first| :: Continues(first[j])
    requires rest == [] || !Continues(rest[0])
    ensures RenderLines(first + rest, true, expected) == RenderEntry(first, expected) + RenderLines(rest, true, expected)
  {
    SpanCut(first, rest);
    hide StartsEntry, Continues, RenderEntry, LeavesSources, Span;
  }

  lemma RenderKept(line: string, rest: seq<string>, expected: States)
    requires Inside(line) && !StartsEntry(line)
    ensures RenderLines([line] + rest, true, expected) == [line] + RenderLines(rest, true, expected)
  {
    InsideExactly(line);
    assert ([line] + rest)[1..] == rest;
    hide Inside, StartsEntry, LeavesSources;
  }

  // Where the first entry of some lines is cut off.
  lemma FirstCut(body: seq<string>) returns (first: Entry, rest: seq<string>)
    requires body != [] && StartsEntry(body[0])
    ensures body == first + rest && first[0] == body[0] && |rest| < |body|
    ensures (forall j | 1 <= j < |first| :: Continues(first[j])) && (rest == [] || !Continues(rest[0]))
  {
    var n := Span(body[1..]);
    first, rest := body[..1 + n], body[1 + n..];
    hide StartsEntry, Continues;
    forall j | 1 <= j < |first| ensures Continues(first[j]) { assert first[j] == body[1..][j - 1]; }
    if rest != [] { assert rest[0] == body[1..][n]; }
  }

  lemma {:induction false} InSection(body: seq<string>, tail: seq<string>, expected: States)
    requires forall l | l in body :: Inside(l)
    requires tail != [] && !Inside(tail[0])
    ensures RenderLines(body + tail, true, expected) == RenderLines(body, true, expected) + RenderLines(tail, true, expected)
    decreases |body|
  {
    hide *;
    if body == [] {
      assert body + tail == tail;
      NothingRendered(expected);
    } else if StartsEntry(body[0]) {
      var first, rest := FirstCut(body);
      assert forall l | l in rest :: l in body;
      InSection(rest, tail, expected);
      StopsHere(rest, tail);
      RenderCut(first, rest, expected);
      RenderCut(first, rest + tail, expected);
      Regroup(first, rest, tail);
      Regroup(RenderEntry(first, expected), RenderLines(rest, true, expected), RenderLines(tail, true, expected));
    } else {
      var rest := body[1..];
      assert body == [body[0]] + rest;
      InSection(rest, tail, expected);
      RenderKept(body[0], rest, expected);
      RenderKept(body[0], rest + tail, expected);
      Regroup([body[0]], rest, tail);
      Regroup([body[0]], RenderLines(rest, true, expected), RenderLines(tail, true, expected));
    }
  }

  lemma Regroup(a: seq<string>, b: seq<string>, c: seq<string>)
    ensures (a + b) + c == a + (b + c)
  {
  }

  lemma StopsHere(rest: seq<string>, tail: seq<string>)
    requires rest == [] || !Continues(rest[0])
    requires tail != [] && !Inside(tail[0])
    ensures rest + tail == [] || !Continues((rest + tail)[0])
  {
    InsideExactly(tail[0]);
    assert (rest + tail)[0] == if rest == [] then tail[0] else rest[0];
  }

  lemma Section(body: seq<string>, line: string, back: seq<string>, expected: States)
    requires (forall l | l in body :: Inside(l)) && !Inside(line)
    ensures RenderLines(["sources:"] + (body + ([line] + back)), false, expected)
         == ["sources:"] + (RenderLines(body, true, expected) + ([line] + RenderLines(back, false, expected)))
  {
    var tail := [line] + back;
    assert (["sources:"] + (body + tail))[1..] == body + tail;
    InSection(body, tail, expected);
    InsideExactly(line);
    assert tail[1..] == back;
    hide Inside, StartsEntry, LeavesSources;
  }

  // Everything up to the first line "sources:" stays; the section goes on to the first line that is
  // neither empty nor a comment nor indented, is rendered by itself, and behind it the search for a
  // section starts again.
  lemma SectionBounds(front: seq<string>, body: seq<string>, line: string, back: seq<string>, expected: States)
    requires "sources:" !in front && (forall l | l in body :: Inside(l)) && !Inside(line)
    ensures RenderLines(front + (["sources:"] + (body + ([line] + back))), false, expected)
         == front + (["sources:"] + (RenderLines(body, true, expected) + ([line] + RenderLines(back, false, expected))))
  {
    hide Inside, RenderLines;
    BeforeSection(front, ["sources:"] + (body + ([line] + back)), expected);
    Section(body, line, back, expected);
  }

  // ---- the endings of the written lines --------------------------------------------------------------

  lemma {:induction false} NoneCounted(s: string)
    requires Returns(s) == 0
    ensures '\r' !in s
  {
    if s != "" { NoneCounted(s[1..]); }
  }

  lemma NoReturnRendered(text: string, expected: States)
    requires SingleLineStates(expected) && RenderText(text, expected).Ok? && '\r' !in text
    ensures '\r' !in RenderText(text, expected).value
  {
    var lines := Lines(text);
    var out := RenderLines(lines, false, expected);
    RenderLinesHead(lines, false, expected);
    NormaliseFixedPlain(text);
    JoinSplit(text, '\n');
    ReturnsAbsent(text);
    ReturnsJoin(lines);
    ReturnsRendered(lines, false, expected);
    ReturnsJoin(out);
    NoneCounted(Join(out, '\n'));
  }

  lemma NormaliseFixedPlain(text: string)
    requires '\r' !in text
    ensures Normalise(text) == text && !HasCrlf(text)
  {
    if HasCrlf(text) { CrlfNeedsReturn(text); }
    NormaliseFixed(text);
  }

  // A file with CRLF line ends gets them on every line, one without carriage returns gets none; in
  // both cases it reads back as the rendered lines.
  lemma FileEndings(text: string, expected: States)
    requires SingleLineStates(expected) && RenderFile(text, expected).Ok?
    ensures var file := RenderFile(text, expected).value;
            && (HasCrlf(text) ==> !HasBareFeed(file))
            && ('\r' !in text ==> '\r' !in file)
            && (HasCrlf(text) || '\r' !in text ==> Lines(file) == RenderLines(Lines(text), false, expected))
  {
    var out := RenderLines(Lines(text), false, expected);
    var rendered := RenderText(text, expected).value;
    RenderLinesHead(Lines(text), false, expected);
    RenderedSingleLines(text, expected);
    SplitJoin(out, '\n');
    hide RenderLines, SingleLineStates, HasCrlf, Missing;
    if HasCrlf(text) {
      CrlfHasNoBareFeed(rendered);
      NormaliseUndoesCrlf(rendered);
      if '\r' !in text { CrlfNeedsReturn(text); }
    } else if '\r' !in text {
      NoReturnRendered(text, expected);
      NormaliseFixedPlain(rendered);
    }
  }
}
