/**
 * The catalog renderer on whole texts and files: line endings, and what a second run does
 * (infra/scripts/render_source_catalog_runtime_state.py).
 */
module CatalogText {
  import opened Lists
  import opened Text
  import opened Catalog

  // ---- line endings --------------------------------------------------------------------------

  function Normalise(text: string): string
  {
    Replace(text, "\r\n", "\n")
  }

  function WithCrlf(text: string): string
  {
    Replace(text, "\n", "\r\n")
  }

  predicate HasCrlf(s: string)
  {
    |s| >= 2 && ((s[0] == '\r' && s[1] == '\n') || HasCrlf(s[1..]))
  }

  // A carriage return that does not belong to a CRLF pair.
  predicate HasBareReturn(s: string)
  {
    s != "" && ((s[0] == '\r' && (|s| == 1 || s[1] != '\n')) || HasBareReturn(s[1..]))
  }

  predicate EndsInReturn(line: string)
  {
    line != "" && line[|line| - 1] == '\r'
  }

  lemma {:induction false} NormaliseFixed(s: string)
    requires !HasCrlf(s)
    ensures Normalise(s) == s
  {
    if |s| >= 2 {
      NormaliseFixed(s[1..]);
      assert s == [s[0]] + s[1..];
      PrefixAt("\r\n", s, 0);
      PrefixAt("\r\n", s, 1);
    }
  }

  // Restoring CRLF and normalising again gives back every text.
  lemma {:induction false} NormaliseUndoesCrlf(s: string)
    ensures Normalise(WithCrlf(s)) == s
  {
    if s != "" {
      var t := WithCrlf(s[1..]);
      NormaliseUndoesCrlf(s[1..]);
      assert s == [s[0]] + s[1..];
      if s[0] == '\n' {
        assert "\n" <= s && WithCrlf(s) == "\r\n" + t;
        assert ("\r\n" + t)[2..] == t;
      } else {
        PrefixAt("\n", s, 0);
        assert WithCrlf(s) == [s[0]] + t;
        assert ([s[0]] + t)[1..] == t;
        CrlfHead(s[1..]);
        PrefixAt("\r\n", [s[0]] + t, 1);
        if |t| == 0 { assert [s[0]] + t == [s[0]]; }
      }
    }
  }

  lemma CrlfHead(s: string)
    ensures s == "" ==> WithCrlf(s) == ""
    ensures s != "" ==> WithCrlf(s) != "" && WithCrlf(s)[0] != '\n'
  {
    if s != "" { PrefixAt("\n", s, 0); }
  }

  ghost predicate HasBareFeed(s: string)
  {
    exists i :: 0 <= i < |s| && s[i] == '\n' && (i == 0 || s[i - 1] != '\r')
  }

  lemma {:induction false} CrlfHasNoBareFeed(s: string)
    ensures forall i | 0 <= i < |WithCrlf(s)| && WithCrlf(s)[i] == '\n' :: i > 0 && WithCrlf(s)[i - 1] == '\r'
    ensures HasCrlf(WithCrlf(s)) <==> '\n' in s
  {
    if s != "" {
      var t := WithCrlf(s[1..]);
      CrlfHasNoBareFeed(s[1..]);
      CrlfHead(s[1..]);
      assert s == [s[0]] + s[1..];
      if s[0] == '\n' {
        assert "\n" <= s && WithCrlf(s) == "\r\n" + t;
      } else {
        PrefixAt("\n", s, 0);
        assert WithCrlf(s) == [s[0]] + t;
        assert ([s[0]] + t)[1..] == t;
      }
    }
  }

  lemma {:induction false} NormaliseKeepsFeed(s: string)
    ensures HasCrlf(s) ==> '\n' in Normalise(s)
    ensures !HasBareReturn(s) ==> '\r' !in Normalise(s)
    decreases |s|
  {
    if |s| >= 2 {
      if s[0] == '\r' && s[1] == '\n' {
        assert "\r\n" <= s;
        NormaliseKeepsFeed(s[2..]);
        assert s[1..][0] == '\n' && s[1..][1..] == s[2..];
        assert HasBareReturn(s) == HasBareReturn(s[1..]) == HasBareReturn(s[2..]);
        assert s == [s[0], s[1]] + s[2..];
      } else {
        PrefixAt("\r\n", s, 0);
        PrefixAt("\r\n", s, 1);
        NormaliseKeepsFeed(s[1..]);
      }
    }
  }

  // ---- rendering a text and a file -------------------------------------------------------------

  function Lines(text: string): (r: seq<string>)
    ensures r != []
    ensures forall l | l in r :: '\n' !in l
  {
    Split(Normalise(text), '\n')
  }

  function RenderText(text: string, expected: States): Result<string, set<string>>
  {
    var missing := Missing(Lines(text), expected);
    if missing != {} then Err(missing)
    else
      RenderLinesHead(Lines(text), false, expected);
      Ok(Join(RenderLines(Lines(text), false, expected), '\n'))
  }

  // What render_catalog_file leaves in the file.
  function RenderFile(text: string, expected: States): Result<string, set<string>>
  {
    match RenderText(text, expected)
    case Err(missing) => Err(missing)
    case Ok(rendered) => Ok(if HasCrlf(text) then WithCrlf(rendered) else rendered)
  }

  predicate SingleLineStates(expected: States)
  {
    forall k | k in expected :: '\n' !in expected[k] && '\r' !in expected[k]
  }

  // Every rendered line is a line of the text or an inserted runtime_state line.
  lemma {:induction false} RenderedLinesFrom(lines: seq<string>, inSources: bool, expected: States)
    ensures forall l | l in RenderLines(lines, inSources, expected) ::
              l in lines || exists k :: k in expected && l == StateLine(expected[k])
    decreases |lines|
  {
    if lines != [] {
      assert lines == [lines[0]] + lines[1..];
      if inSources && StartsEntry(lines[0]) {
        var n := Span(lines[1..]);
        var entry: Entry := lines[..1 + n];
        RenderedLinesFrom(lines[1 + n..], true, expected);
        EntryLinesFrom(entry, expected);
        assert lines == lines[..1 + n] + lines[1 + n..];
      } else {
        RenderedLinesFrom(lines[1..], if inSources then !LeavesSources(lines[0]) else lines[0] == SOURCES_LINE, expected);
      }
    }
  }

  lemma EntryLinesFrom(entry: Entry, expected: States)
    ensures forall l | l in RenderEntry(entry, expected) ::
              l in entry || exists k :: k in expected && l == StateLine(expected[k])
  {
    KeptMember(entry);
    KeptHead(entry);
    var body := Kept(entry);
    PlaceMember(body, Wanted(entry[0], expected));
    forall l | l in RenderEntry(entry, expected)
      ensures l in entry || exists k :: k in expected && l == StateLine(expected[k])
    {
      if l !in body { assert EntryKey(entry[0]).value in expected; }
    }
  }

  lemma PlaceMember(body: seq<string>, wanted: Option<string>)
    requires body != []
    ensures forall l | l in Place(body, wanted) :: l in body || (wanted.Some? && l == StateLine(wanted.value))
  {
  }

  lemma RenderedSingleLines(text: string, expected: States)
    requires SingleLineStates(expected)
    ensures forall l | l in RenderLines(Lines(text), false, expected) :: '\n' !in l
    ensures '\r' !in Normalise(text) ==>
              forall l | l in RenderLines(Lines(text), false, expected) :: '\r' !in l
  {
    RenderedLinesFrom(Lines(text), false, expected);
    JoinSplit(Normalise(text), '\n');
    JoinMember(Lines(text), '\n');
  }

  lemma {:induction false} JoinMember(parts: seq<string>, sep: char)
    requires parts != []
    ensures forall c :: c in Join(parts, sep) <==> (c == sep && |parts| > 1) || exists p :: p in parts && c in p
  {
    if |parts| > 1 {
      JoinMember(parts[1..], sep);
      assert parts == [parts[0]] + parts[1..];
    }
  }

  // The text that was written reads back as the rendered lines, which render to themselves.
  lemma RenderAgain(text: string, expected: States, again: string)
    requires SingleLineStates(expected) && RenderText(text, expected).Ok?
    requires Normalise(again) == RenderText(text, expected).value
    ensures RenderText(again, expected) == RenderText(text, expected)
  {
    var out := RenderLines(Lines(text), false, expected);
    RenderedSingleLines(text, expected);
    RenderLinesHead(Lines(text), false, expected);
    SplitJoin(out, '\n');
    LinesIdempotent(Lines(text), false, expected);
    RenderedEntriesCarry(Lines(text), expected);
  }

  // ---- rendering a text twice ------------------------------------------------------------------

  function Returns(s: string): nat
  {
    if s == "" then 0 else if s[0] == '\r' then 1 + Returns(s[1..]) else Returns(s[1..])
  }

  lemma {:induction false} ReturnsAppend(a: string, b: string)
    ensures Returns(a + b) == Returns(a) + Returns(b)
  {
    if a == "" {
      assert a + b == b;
    } else {
      ReturnsAppend(a[1..], b);
      assert (a + b)[0] == a[0] && (a + b)[1..] == a[1..] + b;
    }
  }

  lemma {:induction false} ReturnsAbsent(s: string)
    requires '\r' !in s
    ensures Returns(s) == 0
  {
    if s != "" { ReturnsAbsent(s[1..]); }
  }

  lemma {:induction false} NormaliseDropsReturns(s: string)
    ensures Returns(Normalise(s)) <= Returns(s)
    ensures HasCrlf(s) ==> Returns(Normalise(s)) < Returns(s)
    decreases |s|
  {
    if |s| >= 2 {
      if s[0] == '\r' && s[1] == '\n' {
        assert "\r\n" <= s;
        NormaliseDropsReturns(s[2..]);
        assert s[1..][1..] == s[2..];
        ReturnsAppend("\n", Normalise(s[2..]));
      } else {
        PrefixAt("\r\n", s, 0);
        PrefixAt("\r\n", s, 1);
        NormaliseDropsReturns(s[1..]);
        ReturnsAppend([s[0]], Normalise(s[1..]));
        ReturnsAppend([s[0]], s[1..]);
        assert s == [s[0]] + s[1..];
      }
    }
  }

  function ReturnsIn(lines: seq<string>): nat
  {
    if lines == [] then 0 else Returns(lines[0]) + ReturnsIn(lines[1..])
  }

  lemma {:induction false} ReturnsInAppend(a: seq<string>, b: seq<string>)
    ensures ReturnsIn(a + b) == ReturnsIn(a) + ReturnsIn(b)
  {
    if a == [] {
      assert a + b == b;
    } else {
      ReturnsInAppend(a[1..], b);
      assert (a + b)[0] == a[0] && (a + b)[1..] == a[1..] + b;
    }
  }

  lemma {:induction false} ReturnsJoin(lines: seq<string>)
    requires lines != []
    ensures Returns(Join(lines, '\n')) == ReturnsIn(lines)
  {
    if |lines| > 1 {
      ReturnsJoin(lines[1..]);
      ReturnsAppend(lines[0] + ['\n'], Join(lines[1..], '\n'));
      ReturnsAppend(lines[0], ['\n']);
    }
  }

  lemma {:induction false} ReturnsKept(lines: seq<string>)
    ensures ReturnsIn(Kept(lines)) <= ReturnsIn(lines)
  {
    if lines != [] {
      ReturnsKept(lines[1..]);
      KeptAppend([lines[0]], lines[1..]);
      assert lines == [lines[0]] + lines[1..];
      ReturnsInAppend(Kept([lines[0]]), Kept(lines[1..]));
      if IsStateLine(lines[0]) {
        FilterNone([lines[0]], line => !IsStateLine(line));
      } else {
        KeptFixed([lines[0]]);
      }
    }
  }

  lemma ReturnsEntry(entry: Entry, expected: States)
    requires SingleLineStates(expected)
    ensures ReturnsIn(RenderEntry(entry, expected)) <= ReturnsIn(entry)
  {
    ReturnsKept(entry);
    KeptHead(entry);
    ReturnsPlace(Kept(entry), Wanted(entry[0], expected));
  }

  lemma ReturnsPlace(body: seq<string>, wanted: Option<string>)
    requires body != [] && (wanted.Some? ==> '\r' !in wanted.value)
    ensures ReturnsIn(Place(body, wanted)) == ReturnsIn(body)
  {
    match wanted
    case None =>
    case Some(state) =>
      var at := Anchor(body) + 1;
      ReturnsInAppend(body[..at] + [StateLine(state)], body[at..]);
      ReturnsInAppend(body[..at], [StateLine(state)]);
      ReturnsInAppend(body[..at], body[at..]);
      assert body == body[..at] + body[at..];
      ReturnsAbsent(StateLine(state));
  }

  lemma {:induction false} ReturnsRendered(lines: seq<string>, inSources: bool, expected: States)
    requires SingleLineStates(expected)
    ensures ReturnsIn(RenderLines(lines, inSources, expected)) <= ReturnsIn(lines)
    decreases |lines|
  {
    if lines != [] {
      if inSources && StartsEntry(lines[0]) {
        var n := Span(lines[1..]);
        var entry: Entry := lines[..1 + n];
        ReturnsRendered(lines[1 + n..], true, expected);
        ReturnsEntry(entry, expected);
        ReturnsInAppend(RenderEntry(entry, expected), RenderLines(lines[1 + n..], true, expected));
        ReturnsInAppend(entry, lines[1 + n..]);
        assert lines == lines[..1 + n] + lines[1 + n..];
      } else {
        var next := if inSources then !LeavesSources(lines[0]) else lines[0] == SOURCES_LINE;
        ReturnsRendered(lines[1..], next, expected);
        ReturnsInAppend([lines[0]], RenderLines(lines[1..], next, expected));
      }
    }
  }

  // Rendering a rendered text changes nothing exactly when it contains no CRLF pair.
  lemma TextStable(text: string, expected: States)
    requires SingleLineStates(expected) && RenderText(text, expected).Ok?
    ensures var once := RenderText(text, expected).value;
            RenderText(once, expected) == Ok(once) <==> !HasCrlf(once)
  {
    var once := RenderText(text, expected).value;
    if !HasCrlf(once) {
      NormaliseFixed(once);
      RenderAgain(text, expected, once);
    } else {
      var lines := Lines(once);
      RenderLinesHead(lines, false, expected);
      NormaliseDropsReturns(once);
      JoinSplit(Normalise(once), '\n');
      ReturnsJoin(lines);
      ReturnsJoin(RenderLines(lines, false, expected));
      ReturnsRendered(lines, false, expected);
    }
  }

  lemma NoBareReturnNoCrlf(text: string, expected: States)
    requires SingleLineStates(expected) && RenderText(text, expected).Ok? && !HasBareReturn(text)
    ensures !HasCrlf(RenderText(text, expected).value)
  {
    NormaliseKeepsFeed(text);
    RenderedSingleLines(text, expected);
    var out := RenderLines(Lines(text), false, expected);
    RenderLinesHead(Lines(text), false, expected);
    JoinMember(out, '\n');
    CrlfNeedsReturn(RenderText(text, expected).value);
  }

  lemma {:induction false} CrlfNeedsReturn(s: string)
    ensures HasCrlf(s) ==> '\r' in s
  {
    if |s| >= 2 { CrlfNeedsReturn(s[1..]); }
  }

  // ---- rendering a file twice --------------------------------------------------------------------

  // The last line is the one after which the last entry's state is inserted.
  predicate EndsAtAnchor(lines: seq<string>, inSources: bool, expected: States)
  {
    if lines == [] then false
    else if !inSources then EndsAtAnchor(lines[1..], lines[0] == SOURCES_LINE, expected)
    else if StartsEntry(lines[0]) then
      var n := Span(lines[1..]);
      if 1 + n == |lines| then AnchorIsLast(lines, expected)
      else EndsAtAnchor(lines[1 + n..], true, expected)
    else EndsAtAnchor(lines[1..], !LeavesSources(lines[0]), expected)
  }

  predicate AnchorIsLast(entry: Entry, expected: States)
  {
    && Wanted(entry[0], expected).Some?
    && !IsStateLine(entry[|entry| - 1])
    && Anchor(Kept(entry)) + 1 == |Kept(entry)|
  }

  ghost predicate ReturnInside(lines: seq<string>)
  {
    exists i :: 0 <= i < |lines| - 1 && EndsInReturn(lines[i])
  }

  lemma {:induction false} JoinHasCrlf(lines: seq<string>)
    requires lines != [] && forall l | l in lines :: '\n' !in l
    ensures HasCrlf(Join(lines, '\n')) <==> ReturnInside(lines)
  {
    if |lines| == 1 {
      NoFeedNoCrlf(lines[0]);
    } else {
      var rest := lines[1..];
      JoinHasCrlf(rest);
      CrlfAtBreak(lines[0], Join(rest, '\n'));
      if ReturnInside(rest) {
        var i :| 0 <= i < |rest| - 1 && EndsInReturn(rest[i]);
        assert EndsInReturn(lines[i + 1]);
      }
      if ReturnInside(lines) {
        var i :| 0 <= i < |lines| - 1 && EndsInReturn(lines[i]);
        if i > 0 { assert EndsInReturn(rest[i - 1]); }
      }
      if EndsInReturn(lines[0]) { assert ReturnInside(lines); }
    }
  }

  lemma {:induction false} NoFeedNoCrlf(s: string)
    requires '\n' !in s
    ensures !HasCrlf(s)
  {
    if s != "" { NoFeedNoCrlf(s[1..]); }
  }

  lemma {:induction false} CrlfAtBreak(line: string, rest: string)
    requires '\n' !in line
    ensures HasCrlf(line + ['\n'] + rest) <==> EndsInReturn(line) || HasCrlf(rest)
  {
    var all := line + ['\n'] + rest;
    if line == "" {
      assert all == ['\n'] + rest && all[1..] == rest;
    } else {
      CrlfAtBreak(line[1..], rest);
      assert all[1..] == line[1..] + ['\n'] + rest && all[0] == line[0];
      assert |line| > 1 ==> all[1] == line[1];
      assert EndsInReturn(line) <==> if |line| == 1 then line[0] == '\r' else EndsInReturn(line[1..]);
    }
  }

  lemma PlaceReturn(body: seq<string>, wanted: Option<string>)
    requires body != [] && !ReturnInside(body)
    requires wanted.Some? ==> '\r' !in wanted.value
    ensures ReturnInside(Place(body, wanted))
       <==> wanted.Some? && EndsInReturn(body[|body| - 1]) && Anchor(body) + 1 == |body|
  {
    match wanted
    case None =>
    case Some(state) =>
      hide Anchor;
      var p := Anchor(body) + 1;
      var out := Place(body, wanted);
      assert out[p] == StateLine(state) && !EndsInReturn(out[p]);
      forall i | 0 <= i < p - 1 ensures !EndsInReturn(out[i]) { assert out[i] == body[i]; }
      forall i | p < i < |out| - 1 ensures !EndsInReturn(out[i]) { assert out[i] == body[i - 1]; }
      if EndsInReturn(body[|body| - 1]) && p == |body| { assert EndsInReturn(out[p - 1]); }
  }

  lemma {:induction false} KeptReturn(lines: seq<string>)
    requires !ReturnInside(lines)
    ensures !ReturnInside(Kept(lines))
    ensures lines != [] && Kept(lines) != [] ==>
              (EndsInReturn(Kept(lines)[|Kept(lines)| - 1])
               <==> EndsInReturn(lines[|lines| - 1]) && !IsStateLine(lines[|lines| - 1]))
  {
    if lines != [] {
      var front, last := lines[..|lines| - 1], lines[|lines| - 1];
      assert lines == front + [last];
      KeptAppend(front, [last]);
      KeptMember(front);
      KeptMember([last]);
      forall l | l in front ensures !EndsInReturn(l) {
        var i :| 0 <= i < |front| && front[i] == l;
        assert lines[i] == l;
      }
      if IsStateLine(last) {
        FilterNone([last], line => !IsStateLine(line));
      } else {
        KeptFixed([last]);
      }
      forall i | 0 <= i < |Kept(front)| ensures !EndsInReturn(Kept(lines)[i]) {
        assert Kept(lines)[i] in Kept(front);
      }
    }
  }

  // Below the only place where a carriage return can end up before a line break is after the anchor.
  lemma {:induction false} RenderedReturn(lines: seq<string>, inSources: bool, expected: States)
    requires lines != [] && !ReturnInside(lines) && SingleLineStates(expected)
    ensures ReturnInside(RenderLines(lines, inSources, expected))
       <==> EndsInReturn(lines[|lines| - 1]) && EndsAtAnchor(lines, inSources, expected)
    decreases |lines|
  {
    hide EntryKey, StartsWith, Place, Anchor, LeavesSources, Kept;
    if inSources && StartsEntry(lines[0]) {
      var n := Span(lines[1..]);
      var entry: Entry, rest: seq<string> := lines[..1 + n], lines[1 + n..];
      KeptHead(entry);
      KeptReturn(entry) by { SliceReturn(lines, 0, 1 + n); }
      PlaceReturn(Kept(entry), Wanted(entry[0], expected));
      if rest == [] {
        assert entry == lines;
        assert RenderLines(lines, true, expected) == RenderEntry(entry, expected);
      } else {
        SliceReturn(lines, 1 + n, |lines|);
        RenderedReturn(rest, true, expected);
        RenderLinesHead(rest, true, expected);
        EntryNoReturn(entry, expected) by {
          forall l | l in entry ensures !EndsInReturn(l) {
            var i :| 0 <= i < |entry| && entry[i] == l;
            assert lines[i] == l;
          }
        }
        ReturnInsideAppend(RenderEntry(entry, expected), RenderLines(rest, true, expected));
      }
    } else {
      var next := if inSources then !LeavesSources(lines[0]) else lines[0] == SOURCES_LINE;
      var rest := lines[1..];
      if rest != [] {
        SliceReturn(lines, 1, |lines|);
        RenderedReturn(rest, next, expected);
        RenderLinesHead(rest, next, expected);
        ReturnInsideAppend([lines[0]], RenderLines(rest, next, expected));
      }
    }
  }

  lemma SliceReturn(lines: seq<string>, lo: nat, hi: nat)
    requires lo <= hi <= |lines| && !ReturnInside(lines)
    ensures !ReturnInside(lines[lo..hi])
  {
    forall i | 0 <= i < hi - lo - 1 ensures !EndsInReturn(lines[lo..hi][i]) {
      assert lines[lo..hi][i] == lines[lo + i];
    }
  }

  lemma EntryNoReturn(entry: Entry, expected: States)
    requires SingleLineStates(expected) && forall l | l in entry :: !EndsInReturn(l)
    ensures forall l | l in RenderEntry(entry, expected) :: !EndsInReturn(l)
  {
    EntryLinesFrom(entry, expected);
  }

  lemma ReturnInsideAppend(front: seq<string>, back: seq<string>)
    requires back != [] && forall l | l in front :: !EndsInReturn(l)
    ensures ReturnInside(front + back) <==> ReturnInside(back)
  {
    var all := front + back;
    if ReturnInside(back) {
      var i :| 0 <= i < |back| - 1 && EndsInReturn(back[i]);
      assert all[|front| + i] == back[i];
    }
    forall i | 0 <= i < |front| ensures !EndsInReturn(all[i]) { assert all[i] in front; }
    if ReturnInside(all) {
      var i :| 0 <= i < |all| - 1 && EndsInReturn(all[i]);
      assert all[i] == back[i - |front|];
    }
  }

  // ---- rendering a text twice --------------------------------------------------------------------

  ghost predicate AnyReturn(lines: seq<string>)
  {
    exists i :: 0 <= i < |lines| && EndsInReturn(lines[i])
  }

  // A kept line of the last entry ends in a carriage return, and another line follows it: a kept
  // one, or the state that goes after it.
  ghost predicate ReturnPlaced(body: seq<string>, wanted: Option<string>)
    requires body != []
  {
    ReturnInside(body) || (wanted.Some? && EndsInReturn(body[|body| - 1]) && Anchor(body) + 1 == |body|)
  }

  // Some line that rendering keeps, and does not leave at the very end, ends in a carriage return.
  ghost predicate ReturnLeft(lines: seq<string>, inSources: bool, expected: States)
  {
    if lines == [] then false
    else if inSources && StartsEntry(lines[0]) then
      var n := Span(lines[1..]);
      var entry: Entry := lines[..1 + n];
      KeptHead(entry);
      if 1 + n == |lines| then ReturnPlaced(Kept(entry), Wanted(entry[0], expected))
      else AnyReturn(Kept(entry)) || ReturnLeft(lines[1 + n..], true, expected)
    else
      var next := if inSources then !LeavesSources(lines[0]) else lines[0] == SOURCES_LINE;
      (|lines| > 1 && EndsInReturn(lines[0])) || ReturnLeft(lines[1..], next, expected)
  }

  lemma ReturnAppend(front: seq<string>, back: seq<string>)
    requires back != []
    ensures ReturnInside(front + back) <==> AnyReturn(front) || ReturnInside(back)
  {
    var all := front + back;
    if AnyReturn(front) {
      var i :| 0 <= i < |front| && EndsInReturn(front[i]);
      assert EndsInReturn(all[i]);
    }
    if ReturnInside(back) {
      var i :| 0 <= i < |back| - 1 && EndsInReturn(back[i]);
      assert EndsInReturn(all[|front| + i]);
    }
    if ReturnInside(all) {
      var i :| 0 <= i < |all| - 1 && EndsInReturn(all[i]);
      if i < |front| { assert EndsInReturn(front[i]); } else { assert EndsInReturn(back[i - |front|]); }
    }
  }

  // Inserting a line that does not end in a return leaves every other one with a line behind it.
  lemma PlacedReturn(body: seq<string>, wanted: Option<string>)
    requires body != [] && (wanted.Some? ==> '\r' !in wanted.value)
    ensures ReturnInside(Place(body, wanted)) <==> ReturnPlaced(body, wanted)
    ensures AnyReturn(Place(body, wanted)) <==> AnyReturn(body)
  {
    match wanted
    case None =>
    case Some(state) =>
      hide Anchor, EndsInReturn;
      var p := Anchor(body) + 1;
      var out := Place(body, wanted);
      assert out[p] == StateLine(state) && !EndsInReturn(out[p]) by { StateLineNoReturn(state); }
      forall i | 0 <= i < p ensures out[i] == body[i] {}
      forall i | p <= i < |body| ensures out[i + 1] == body[i] {}
      InsertedReturn(body, p, out);
  }

  lemma StateLineNoReturn(state: string)
    requires '\r' !in state
    ensures !EndsInReturn(StateLine(state))
  {
  }

  lemma InsertedReturn(body: seq<string>, p: nat, out: seq<string>)
    requires 0 < p <= |body| && |out| == |body| + 1 && !EndsInReturn(out[p])
    requires forall i | 0 <= i < p :: out[i] == body[i]
    requires forall i | p <= i < |body| :: out[i + 1] == body[i]
    ensures ReturnInside(out) <==> ReturnInside(body) || (p == |body| && EndsInReturn(body[p - 1]))
    ensures AnyReturn(out) <==> AnyReturn(body)
  {
    hide EndsInReturn;
    if AnyReturn(body) {
      var i :| 0 <= i < |body| && EndsInReturn(body[i]);
      assert EndsInReturn(out[if i < p then i else i + 1]);
    }
    if AnyReturn(out) {
      var i :| 0 <= i < |out| && EndsInReturn(out[i]);
      assert EndsInReturn(body[if i < p then i else i - 1]);
    }
    if ReturnInside(body) {
      var i :| 0 <= i < |body| - 1 && EndsInReturn(body[i]);
      assert EndsInReturn(out[if i < p then i else i + 1]);
    }
    if ReturnInside(out) {
      var i :| 0 <= i < |out| - 1 && EndsInReturn(out[i]);
      assert EndsInReturn(body[if i < p then i else i - 1]);
    }
    if p == |body| && EndsInReturn(body[p - 1]) { assert EndsInReturn(out[p - 1]); }
  }

  lemma {:induction false} ReturnsLeft(lines: seq<string>, inSources: bool, expected: States)
    requires lines != [] && SingleLineStates(expected)
    ensures ReturnInside(RenderLines(lines, inSources, expected)) <==> ReturnLeft(lines, inSources, expected)
    decreases |lines|
  {
    hide EntryKey, StartsWith, Place, Anchor, LeavesSources, Kept, EndsInReturn;
    if inSources && StartsEntry(lines[0]) {
      var n := Span(lines[1..]);
      var entry: Entry, rest: seq<string> := lines[..1 + n], lines[1 + n..];
      KeptHead(entry);
      PlacedReturn(Kept(entry), Wanted(entry[0], expected));
      if rest == [] {
        assert entry == lines;
        assert RenderLines(lines, true, expected) == RenderEntry(entry, expected);
      } else {
        ReturnsLeft(rest, true, expected);
        RenderLinesHead(rest, true, expected);
        ReturnAppend(RenderEntry(entry, expected), RenderLines(rest, true, expected));
      }
    } else {
      var next := if inSources then !LeavesSources(lines[0]) else lines[0] == SOURCES_LINE;
      var rest := lines[1..];
      if rest != [] {
        ReturnsLeft(rest, next, expected);
        RenderLinesHead(rest, next, expected);
        ReturnAppend([lines[0]], RenderLines(rest, next, expected));
        assert AnyReturn([lines[0]]) <==> EndsInReturn(lines[0]) by {
          if EndsInReturn(lines[0]) { assert EndsInReturn([lines[0]][0]); }
        }
      }
    }
  }

  // Rendering a rendered text changes nothing, except exactly when a line that is kept, and that
  // the output does not end with, still ends in a carriage return after its line break was
  // normalised: its return and the next break are a pair again, which the second pass collapses.
  lemma TextIdempotent(text: string, expected: States)
    requires SingleLineStates(expected) && RenderText(text, expected).Ok?
    ensures var once := RenderText(text, expected).value;
            RenderText(once, expected) == Ok(once) <==> !ReturnLeft(Lines(text), false, expected)
    ensures !HasBareReturn(text) ==> !ReturnLeft(Lines(text), false, expected)
  {
    var lines := Lines(text);
    var out := RenderLines(lines, false, expected);
    RenderedSingleLines(text, expected);
    RenderLinesHead(lines, false, expected);
    hide ReturnLeft, RenderLines, SingleLineStates;
    TextStable(text, expected);
    ReturnsLeft(lines, false, expected);
    JoinHasCrlf(out);
    if !HasBareReturn(text) { NoBareReturnNoCrlf(text, expected); }
  }

  // The shortest such text.
  lemma TextDrifts()
    ensures var text, expected: States := "\r\r\n", map[];
            && RenderText(text, expected) == Ok("\r\n")
            && RenderText("\r\n", expected) == Ok("\n")
  {
    var a, b := "\r\r\n", "\r\n";
    assert a[1..] == b && b[2..] == "" && a[0] == '\r' && a[1] == '\r';
    PrefixAt("\r\n", a, 1);
    assert Normalise(b) == "\n" && Normalise(a) == "\r\n";
    var empty: States := map[];
    TwoLines("\r", empty);
    TwoLines("", empty);
    assert "\r" + "\n" == "\r\n" && "" + "\n" == "\n";
  }

  // A text of one line and a break, above any sources, is rendered as it is.
  lemma TwoLines(line: string, expected: States)
    requires '\n' !in line && line != SOURCES_LINE && expected == map[]
    ensures Split(line + "\n", '\n') == [line, ""]
    ensures RenderLines([line, ""], false, expected) == [line, ""] && Missing([line, ""], expected) == {}
    ensures Join([line, ""], '\n') == line + "\n"
  {
    SplitPrefix(line, "", '\n');
    assert line + ['\n'] + "" == line + "\n";
    var lines := [line, ""];
    assert lines[1..] == [""] && [""][1..] == [];
    assert "" != SOURCES_LINE by { assert |SOURCES_LINE| == 8; }
    assert RenderLines([""], false, expected) == [""] + RenderLines([], false, expected);
  }

  // Running the file renderer a second time changes nothing, except exactly when the file has no
  // CRLF pair, ends in a lone carriage return, and that carriage return ends the line after which
  // the last entry's state goes: inserting a line there makes the return half of a CRLF pair.
  lemma FileIdempotent(text: string, expected: States)
    requires SingleLineStates(expected) && RenderFile(text, expected).Ok?
    ensures var once := RenderFile(text, expected).value;
            RenderFile(once, expected) == Ok(once)
            <==> !(!HasCrlf(text) && EndsInReturn(text) && EndsAtAnchor(Lines(text), false, expected))
  {
    var lines := Lines(text);
    var out := RenderLines(lines, false, expected);
    var rendered := RenderText(text, expected).value;
    var once := RenderFile(text, expected).value;
    RenderedSingleLines(text, expected);
    RenderLinesHead(lines, false, expected);
    if HasCrlf(text) {
      NormaliseUndoesCrlf(rendered);
      RenderAgain(text, expected, once);
      ManyLines(text, expected);
      CrlfHasNoBareFeed(rendered);
    } else {
      NormaliseFixed(text);
      JoinSplit(text, '\n');
      JoinHasCrlf(lines);
      RenderedReturn(lines, false, expected);
      JoinHasCrlf(out);
      LastReturn(lines);
      if HasCrlf(once) {
        BareFeed(text, expected);
        if RenderText(once, expected).Ok? { CrlfHasNoBareFeed(RenderText(once, expected).value); }
      } else {
        NormaliseFixed(once);
        RenderAgain(text, expected, once);
      }
    }
  }

  lemma LastReturn(lines: seq<string>)
    requires lines != []
    ensures EndsInReturn(Join(lines, '\n')) <==> EndsInReturn(lines[|lines| - 1])
  {
    if |lines| > 1 {
      JoinAppend(lines[..|lines| - 1], lines[|lines| - 1..], '\n');
      assert lines == lines[..|lines| - 1] + lines[|lines| - 1..];
    }
  }

  lemma ManyLines(text: string, expected: States)
    requires HasCrlf(text) && RenderText(text, expected).Ok?
    ensures '\n' in RenderText(text, expected).value
  {
    var lines := Lines(text);
    NormaliseKeepsFeed(text);
    JoinSplit(Normalise(text), '\n');
    assert |lines| > 1;
    RenderLinesHead(lines[1..], lines[0] == SOURCES_LINE, expected);
    JoinMember(RenderLines(lines, false, expected), '\n');
  }

  // Without CRLF pairs the break after the first line stays a bare line feed.
  lemma BareFeed(text: string, expected: States)
    requires !HasCrlf(text) && RenderText(text, expected).Ok?
    requires |RenderLines(Lines(text), false, expected)| > 1
    ensures HasBareFeed(RenderText(text, expected).value)
  {
    var lines := Lines(text);
    var out := RenderLines(lines, false, expected);
    NormaliseFixed(text);
    JoinSplit(text, '\n');
    JoinHasCrlf(lines);
    assert |lines| > 1;
    assert !EndsInReturn(lines[0]);
    var rendered := RenderText(text, expected).value;
    assert out[0] == lines[0];
    assert rendered == out[0] + ['\n'] + Join(out[1..], '\n');
    assert rendered[|out[0]|] == '\n';
    assert out[0] != "" ==> rendered[|out[0]| - 1] == out[0][|out[0]| - 1];
  }
}
