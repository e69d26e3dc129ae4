/**
 * State kept in an HTML comment at the end of an issue body: the regular expressions, parsers and
 * printers of scripts/ci/local-source-watchdog-state.js (every match, last one wins) and
 * scripts/ci/route-alert-issue.js (first match only).
 *
 * A marker is the prefix, a payload that starts with a brace, and the suffix. The expression
 * PREFIX(\{[\s\S]*?\}) --> matches from the first opener to the first closer after it.
 */
module Marker {
  import opened Text

  const SUFFIX := " -->"
  const CLOSER := "} -->"

  // What both scripts' prefixes have in common.
  predicate IsPrefix(prefix: string)
  {
    prefix != "" && prefix[0] == '<' && '\n' !in prefix && '}' !in prefix
  }

  lemma AlertPrefix(prefix: string)
    requires prefix in {"<!-- dispatch-state: ", "<!-- alert-state: "}
    ensures IsPrefix(prefix)
  {
  }

  function Opener(prefix: string): string
  {
    prefix + "{"
  }

  datatype Match = Match(start: nat, end: nat)

  // The first match at or after a position.
  function FirstMatch(s: string, prefix: string, from: nat): (r: Option<Match>)
    ensures r.Some? ==> from <= r.value.start < r.value.start + |prefix| + 1 <= r.value.end - 5 && r.value.end <= |s|
  {
    match Find(s, Opener(prefix), from)
    case None => None
    case Some(i) =>
      match Find(s, CLOSER, i + |prefix| + 1)
      case None => None
      case Some(j) => Some(Match(i, j + 5))
  }

  function Payload(s: string, prefix: string, m: Match): string
    requires m.start + |prefix| + 4 <= m.end <= |s|
  {
    s[m.start + |prefix|..m.end - 4]
  }

  // The payload the watchdog reads: that of the last match.
  function LastPayload(s: string, prefix: string, from: nat): Option<string>
    requires from <= |s|
    decreases |s| - from
  {
    match FirstMatch(s, prefix, from)
    case None => None
    case Some(m) =>
      var later := LastPayload(s, prefix, m.end);
      if later.Some? then later else Some(Payload(s, prefix, m))
  }

  // The payload the route alert reads: that of the first match.
  function FirstPayload(s: string, prefix: string): Option<string>
  {
    match FirstMatch(s, prefix, 0)
    case None => None
    case Some(m) => Some(Payload(s, prefix, m))
  }

  function StripAll(s: string, prefix: string, from: nat): string
    requires from <= |s|
    decreases |s| - from
  {
    match FirstMatch(s, prefix, from)
    case None => s[from..]
    case Some(m) => s[from..m.start] + StripAll(s, prefix, m.end)
  }

  function StripFirst(s: string, prefix: string): string
  {
    match FirstMatch(s, prefix, 0)
    case None => s
    case Some(m) => s[..m.start] + s[m.end..]
  }

  // What String.prototype.trimEnd removes.
  predicate IsJsSpace(c: char)
  {
    || '\t' <= c <= '\r' || c == ' ' || c == '\U{a0}' || c == '\U{1680}' || '\U{2000}' <= c <= '\U{200a}'
    || c == '\U{2028}' || c == '\U{2029}' || c == '\U{202f}' || c == '\U{205f}' || c == '\U{3000}' || c == '\U{feff}'
  }

  function TrimEnd(s: string): (r: string)
    ensures r <= s && |r| <= |s|
  {
    TrimRight(s, IsJsSpace)
  }

  function CleanAll(body: string, prefix: string): string
  {
    TrimEnd(StripAll(body, prefix, 0))
  }

  function CleanFirst(body: string, prefix: string): string
  {
    TrimEnd(StripFirst(body, prefix))
  }

  function Tail(prefix: string, payload: string): string
  {
    "\n\n" + prefix + payload + SUFFIX
  }

  function WithMarker(text: string, prefix: string, payload: string): string
  {
    text + Tail(prefix, payload)
  }

  function RenderAll(body: string, prefix: string, payload: string): string
  {
    WithMarker(CleanAll(body, prefix), prefix, payload)
  }

  function RenderFirst(body: string, prefix: string, payload: string): string
  {
    WithMarker(CleanFirst(body, prefix), prefix, payload)
  }

  // ---- payloads --------------------------------------------------------------------------------

  // The JSON text of an object, printed on one line.
  predicate IsPayload(payload: string)
  {
    |payload| >= 2 && payload[0] == '{' && payload[|payload| - 1] == '}' && '\n' !in payload
  }

  // The first closer that follows the opening brace is the payload's own end.
  ghost predicate Closed(payload: string)
  {
    forall i | 1 <= i < |payload| - 1 :: !OccursAt(payload, CLOSER, i)
  }

  ghost predicate NoOpener(s: string, prefix: string)
  {
    forall i :: !OccursAt(s, Opener(prefix), i)
  }

  // ---- the marker at the end ---------------------------------------------------------------------

  lemma TailParts(prefix: string, payload: string)
    requires IsPrefix(prefix) && IsPayload(payload)
    ensures var tail, at := Tail(prefix, payload), 2 + |prefix|;
            && |tail| == at + |payload| + 4 && tail[0] == '\n' && tail[1] == '\n'
            && (forall k | 0 <= k < |prefix| :: tail[2 + k] == prefix[k])
            && (forall k | 0 <= k < |payload| :: tail[at + k] == payload[k])
            && tail[|tail| - 1] == '>' && tail[at..at + |payload|] == payload
            && OccursAt(tail, Opener(prefix), 2) && OccursAt(tail, CLOSER, |tail| - 5)
  {
    var tail, at := Tail(prefix, payload), 2 + |prefix|;
    assert tail[2..2 + |Opener(prefix)|] == Opener(prefix);
    assert tail[at..at + |payload|] == payload;
    assert tail[|tail| - 5..] == CLOSER;
    assert tail[|tail| - 5..|tail| - 5 + |CLOSER|] == CLOSER;
  }

  lemma CloserFirst(s: string, i: nat)
    ensures OccursAt(s, CLOSER, i) ==> i + 5 <= |s| && s[i] == '}' && forall j | i < j < i + 5 :: s[j] != '}'
  {
    if i + 5 <= |s| {
      var window := s[i..i + 5];
      assert forall j | i <= j < i + 5 :: s[j] == window[j - i];
      assert CLOSER[0] == '}' && CLOSER[1] == ' ' && CLOSER[2] == '-' && CLOSER[3] == '-' && CLOSER[4] == '>';
    }
  }

  // No closer stands before the payload's second character.
  lemma TailFront(prefix: string, payload: string, i: nat)
    requires IsPrefix(prefix) && IsPayload(payload) && i < 2 + |prefix| + 1
    ensures i < |Tail(prefix, payload)| && Tail(prefix, payload)[i] != '}'
  {
    TailParts(prefix, payload);
    if 2 <= i < 2 + |prefix| { assert prefix[i - 2] in prefix && Tail(prefix, payload)[2 + (i - 2)] == prefix[i - 2]; }
    if i == 2 + |prefix| { assert Tail(prefix, payload)[2 + |prefix| + 0] == payload[0]; }
  }

  // Where a closer stands in the marker: at its end, and wherever one stands in the payload.
  lemma TailClosers(prefix: string, payload: string, i: nat)
    requires IsPrefix(prefix) && IsPayload(payload)
    requires i < |Tail(prefix, payload)| - 5
    ensures OccursAt(Tail(prefix, payload), CLOSER, i)
       <==> i >= 2 + |prefix| + 1 && OccursAt(payload, CLOSER, i - 2 - |prefix|)
  {
    var tail, at := Tail(prefix, payload), 2 + |prefix|;
    TailShape(prefix, payload);
    CloserFirst(tail, i);
    if i < at + 1 {
      TailFront(prefix, payload, i);
    } else if i + 5 <= at + |payload| {
      SliceOf(tail, at, at + |payload|, i, i + 5);
    } else {
      TailPayloadEnd(prefix, payload);
    }
  }

  lemma SliceOf(s: string, a: nat, b: nat, i: nat, j: nat)
    requires a <= i <= j <= b <= |s|
    ensures s[a..b][i - a..j - a] == s[i..j]
  {
    var left, right := s[a..b][i - a..j - a], s[i..j];
    assert |left| == |right|;
    forall k | 0 <= k < |left| ensures left[k] == right[k] {
      assert left[k] == s[a..b][i - a + k] == s[i + k];
    }
  }

  lemma TailPayloadEnd(prefix: string, payload: string)
    requires IsPrefix(prefix) && IsPayload(payload)
    ensures var at := 2 + |prefix| + |payload| - 1;
            at < |Tail(prefix, payload)| && Tail(prefix, payload)[at] == '}'
  {
    TailParts(prefix, payload);
    assert Tail(prefix, payload)[2 + |prefix| + (|payload| - 1)] == payload[|payload| - 1];
  }

  lemma TailOpener(prefix: string, payload: string)
    requires IsPrefix(prefix) && IsPayload(payload)
    ensures Find(Tail(prefix, payload), Opener(prefix), 0) == Some(2)
  {
    TailParts(prefix, payload);
    var tail := Tail(prefix, payload);
    forall i | 0 <= i < 2 ensures !OccursAt(tail, Opener(prefix), i) {
      assert tail[i..i + |Opener(prefix)|][0] == tail[i];
    }
    FindIs(tail, Opener(prefix), 0, 2);
  }

  lemma TailShape(prefix: string, payload: string)
    requires IsPrefix(prefix) && IsPayload(payload)
    ensures var tail, at := Tail(prefix, payload), 2 + |prefix|;
            && |tail| == at + |payload| + 4 && |payload| >= 2 && tail[0] == '\n'
            && tail[at..at + |payload|] == payload && OccursAt(tail, CLOSER, |tail| - 5)
  {
    TailParts(prefix, payload);
  }

  // The closer that ends a match begun at, or before, the last marker.
  lemma TailCloser(prefix: string, payload: string, from: nat)
    requires IsPrefix(prefix) && IsPayload(payload)
    requires from <= 2 + |prefix| + 1
    ensures var r := Find(Tail(prefix, payload), CLOSER, from);
            && r.Some? && 2 + |prefix| + 1 <= r.value <= 2 + |prefix| + |payload| - 1
            && (r.value == 2 + |prefix| + |payload| - 1 <==> Closed(payload))
  {
    TailShape(prefix, payload);
    hide *;
    var tail, at := Tail(prefix, payload), 2 + |prefix|;
    var r := Find(tail, CLOSER, from);
    if r.value < |tail| - 5 {
      TailClosers(prefix, payload, r.value);
      NotClosed(payload, r.value - at);
    } else if !Closed(payload) {
      var i := ClosedEarly(payload);
      TailClosers(prefix, payload, at + i);
    }
  }

  lemma NotClosed(payload: string, i: nat)
    requires 1 <= i < |payload| - 1 && OccursAt(payload, CLOSER, i)
    ensures !Closed(payload)
  {
  }

  lemma ClosedEarly(payload: string) returns (i: nat)
    requires !Closed(payload)
    ensures 1 <= i < |payload| - 1 && OccursAt(payload, CLOSER, i)
  {
    i :| 1 <= i < |payload| - 1 && OccursAt(payload, CLOSER, i);
  }

  // ---- matches in a text that ends with a marker -------------------------------------------------

  lemma NewlineFree(prefix: string)
    requires IsPrefix(prefix)
    ensures '\n' !in Opener(prefix) && '\n' !in CLOSER && Opener(prefix) != "" && CLOSER != ""
  {
  }

  // A match within the text is still the first one when a marker is added.
  lemma MatchKept(s: string, prefix: string, payload: string, from: nat)
    requires IsPrefix(prefix) && IsPayload(payload) && from <= |s|
    requires FirstMatch(s, prefix, from).Some?
    ensures FirstMatch(WithMarker(s, prefix, payload), prefix, from) == FirstMatch(s, prefix, from)
  {
    hide *;
    NewlineFree(prefix);
    TailShape(prefix, payload);
    MarkedText(s, prefix, payload);
    MatchParts(s, prefix, from);
    var tail := Tail(prefix, payload);
    var i := Find(s, Opener(prefix), from).value;
    FindAcross(s, tail, Opener(prefix), from);
    FindAcross(s, tail, CLOSER, i + |prefix| + 1);
    MatchIs(s + tail, prefix, from, i, Find(s, CLOSER, i + |prefix| + 1).value);
  }

  lemma MatchParts(s: string, prefix: string, from: nat)
    requires FirstMatch(s, prefix, from).Some?
    ensures Find(s, Opener(prefix), from).Some?
    ensures var i := Find(s, Opener(prefix), from).value;
            && i + |prefix| + 1 <= |s| && Find(s, CLOSER, i + |prefix| + 1).Some?
            && FirstMatch(s, prefix, from) == Some(Match(i, Find(s, CLOSER, i + |prefix| + 1).value + 5))
  {
    hide OccursAt;
    FindBound(s, Opener(prefix), from);
  }

  // With no opener left in the text, the added marker is matched.
  lemma MatchAdded(s: string, prefix: string, payload: string, from: nat)
    requires IsPrefix(prefix) && IsPayload(payload) && from <= |s|
    requires Find(s, Opener(prefix), from) == None
    ensures var whole := WithMarker(s, prefix, payload);
            var r := FirstMatch(whole, prefix, from);
            && r.Some? && r.value.start == |s| + 2
            && (Closed(payload) ==> r.value.end == |whole| && Payload(whole, prefix, r.value) == payload)
            && (!Closed(payload) ==> r.value.end < |whole| && |Payload(whole, prefix, r.value)| < |payload|)
  {
    hide *;
    NewlineFree(prefix);
    TailShape(prefix, payload);
    MarkedText(s, prefix, payload);
    var tail := Tail(prefix, payload);
    FindAcross(s, tail, Opener(prefix), from);
    TailOpener(prefix, payload);
    TailCloser(prefix, payload, 2 + |prefix| + 1);
    FindLate(s, tail, CLOSER, 2 + |prefix| + 1);
    var j := Find(tail, CLOSER, 2 + |prefix| + 1).value;
    MatchIs(s + tail, prefix, from, |s| + 2, |s| + j);
    TailSlice(s, tail, 2 + |prefix|, j + 1);
  }

  lemma TailSlice(s: string, tail: string, i: nat, j: nat)
    requires i <= j <= |tail|
    ensures (s + tail)[|s| + i..|s| + j] == tail[i..j]
  {
  }

  // An opener that the text leaves unclosed swallows the added marker's own opener.
  lemma MatchSwallowed(s: string, prefix: string, payload: string, from: nat)
    requires IsPrefix(prefix) && IsPayload(payload) && from <= |s|
    requires FirstMatch(s, prefix, from) == None && Find(s, Opener(prefix), from).Some?
    ensures var whole := WithMarker(s, prefix, payload);
            var r := FirstMatch(whole, prefix, from);
            && r.Some? && r.value.start == Find(s, Opener(prefix), from).value && r.value.end > |s| + 2
            && '\n' in Payload(whole, prefix, r.value)
            && (Closed(payload) ==> r.value.end == |whole|)
  {
    hide *;
    NewlineFree(prefix);
    TailShape(prefix, payload);
    var tail := Tail(prefix, payload);
    var i := Find(s, Opener(prefix), from).value;
    MissingCloser(s, prefix, from, i);
    FindAcross(s, tail, Opener(prefix), from);
    FindAcross(s, tail, CLOSER, i + |prefix| + 1);
    TailCloser(prefix, payload, 0);
    var j := Find(tail, CLOSER, 0).value;
    MatchIs(s + tail, prefix, from, i, |s| + j);
    AcrossBreak(s, tail, i + |prefix|, |s| + j + 1);
    MarkedText(s, prefix, payload);
  }

  lemma MarkedText(s: string, prefix: string, payload: string)
    ensures WithMarker(s, prefix, payload) == s + Tail(prefix, payload)
  {
  }

  lemma MissingCloser(s: string, prefix: string, from: nat, i: nat)
    requires FirstMatch(s, prefix, from) == None && Find(s, Opener(prefix), from) == Some(i)
    ensures i + |prefix| + 1 <= |s| && Find(s, CLOSER, i + |prefix| + 1) == None
  {
  }

  lemma MatchIs(s: string, prefix: string, from: nat, i: nat, j: nat)
    requires Find(s, Opener(prefix), from) == Some(i) && Find(s, CLOSER, i + |prefix| + 1) == Some(j)
    ensures FirstMatch(s, prefix, from) == Some(Match(i, j + 5)) && j + 5 <= |s| && i + |prefix| + 1 <= j
    ensures Payload(s, prefix, Match(i, j + 5)) == s[i + |prefix|..j + 1]
  {
    hide OccursAt, Opener, Payload;
    FindBound(s, CLOSER, i + |prefix| + 1);
    PayloadIs(s, prefix, i, j);
  }

  lemma PayloadIs(s: string, prefix: string, i: nat, j: nat)
    requires i + |prefix| + 1 <= j && j + 5 <= |s|
    ensures Payload(s, prefix, Match(i, j + 5)) == s[i + |prefix|..j + 1]
  {
  }

  lemma AcrossBreak(s: string, tail: string, i: nat, j: nat)
    requires i <= |s| < j <= |s + tail| && tail[0] == '\n'
    ensures '\n' in (s + tail)[i..j]
  {
    assert (s + tail)[i..j][|s| - i] == '\n';
  }
}
