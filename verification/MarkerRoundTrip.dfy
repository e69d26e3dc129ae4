/**
 * What the two scripts read back of the markers they print, and what rendering over an already
 * rendered body does (scripts/ci/local-source-watchdog-state.js, scripts/ci/route-alert-issue.js).
 */
module MarkerRoundTrip {
  import opened Text
  import opened Marker

  // ---- round trips -------------------------------------------------------------------------------

  // An opener stands after the last complete match.
  predicate Unclosed(s: string, prefix: string, from: nat)
    requires from <= |s|
    decreases |s| - from
  {
    match FirstMatch(s, prefix, from)
    case None => Find(s, Opener(prefix), from).Some?
    case Some(m) => Unclosed(s, prefix, m.end)
  }

  // What is read from inside the added marker is shorter than its payload.
  lemma {:induction false} LaterShort(s: string, prefix: string, payload: string, from: nat)
    requires IsPrefix(prefix) && IsPayload(payload)
    requires |s| + 2 < from <= |WithMarker(s, prefix, payload)|
    ensures var r := LastPayload(WithMarker(s, prefix, payload), prefix, from);
            r.Some? ==> |r.value| < |payload|
    decreases |WithMarker(s, prefix, payload)| - from
  {
    var whole := WithMarker(s, prefix, payload);
    match FirstMatch(whole, prefix, from)
    case None =>
    case Some(m) => LaterShort(s, prefix, payload, m.end);
  }

  lemma {:induction false} LastRead(s: string, prefix: string, payload: string, from: nat)
    requires IsPrefix(prefix) && IsPayload(payload) && from <= |s|
    ensures LastPayload(WithMarker(s, prefix, payload), prefix, from).Some?
    ensures LastPayload(WithMarker(s, prefix, payload), prefix, from) == Some(payload)
       <==> Closed(payload) && !Unclosed(s, prefix, from)
    decreases |s| - from
  {
    hide Closed, Find, IsPrefix, IsPayload;
    var whole := WithMarker(s, prefix, payload);
    match FirstMatch(s, prefix, from)
    case Some(m) =>
      MatchKept(s, prefix, payload, from);
      LastRead(s, prefix, payload, m.end);
    case None =>
      if Find(s, Opener(prefix), from).Some? {
        MatchSwallowed(s, prefix, payload, from);
        var m := FirstMatch(whole, prefix, from).value;
        LaterShort(s, prefix, payload, m.end);
        assert '\n' !in payload by { PayloadOneLine(payload); }
      } else {
        MatchAdded(s, prefix, payload, from);
        var m := FirstMatch(whole, prefix, from).value;
        LaterShort(s, prefix, payload, m.end);
        if Closed(payload) { assert FirstMatch(whole, prefix, m.end) == None; }
      }
  }

  lemma PayloadOneLine(payload: string)
    requires IsPayload(payload)
    ensures '\n' !in payload
  {
  }

  // The watchdog reads back what it printed exactly when no opener is left unclosed.
  lemma RoundTripAll(body: string, prefix: string, payload: string)
    requires IsPrefix(prefix) && IsPayload(payload)
    ensures LastPayload(RenderAll(body, prefix, payload), prefix, 0) == Some(payload)
       <==> Closed(payload) && !Unclosed(CleanAll(body, prefix), prefix, 0)
  {
    LastRead(CleanAll(body, prefix), prefix, payload, 0);
  }

  lemma FirstRead(s: string, prefix: string, payload: string)
    requires IsPrefix(prefix) && IsPayload(payload)
    ensures FirstPayload(WithMarker(s, prefix, payload), prefix) == Some(payload)
       <==> (Closed(payload) && NoOpener(s, prefix)) || FirstPayload(s, prefix) == Some(payload)
  {
    NoOpenerFind(s, prefix);
    PayloadOneLine(payload);
    hide Closed, IsPrefix, IsPayload, NoOpener, OccursAt, Tail;
    match FirstMatch(s, prefix, 0)
    case Some(m) =>
      MatchKept(s, prefix, payload, 0);
      assert Payload(WithMarker(s, prefix, payload), prefix, m) == Payload(s, prefix, m);
    case None =>
      if Find(s, Opener(prefix), 0).Some? {
        MatchSwallowed(s, prefix, payload, 0);
      } else {
        MatchAdded(s, prefix, payload, 0);
      }
  }

  // The route alert reads back what it printed exactly when no opener is left at all, or the text
  // already holds the same payload.
  lemma RoundTripFirst(body: string, prefix: string, payload: string)
    requires IsPrefix(prefix) && IsPayload(payload)
    ensures FirstPayload(RenderFirst(body, prefix, payload), prefix) == Some(payload)
       <==> (Closed(payload) && NoOpener(CleanFirst(body, prefix), prefix))
            || FirstPayload(CleanFirst(body, prefix), prefix) == Some(payload)
  {
    FirstRead(CleanFirst(body, prefix), prefix, payload);
  }

  lemma NoOpenerFind(s: string, prefix: string)
    ensures NoOpener(s, prefix) <==> Find(s, Opener(prefix), 0) == None
  {
  }

  // ---- rendering over a rendered body ------------------------------------------------------------

  lemma CleanIsTrimmed(t: string)
    ensures TrimEnd(TrimEnd(t)) == TrimEnd(t)
  {
  }

  // With a closed payload, stripping every match takes the added marker away in any case.
  lemma {:induction false} StripShort(s: string, prefix: string, payload: string, from: nat)
    requires IsPrefix(prefix) && IsPayload(payload) && Closed(payload) && from <= |s|
    ensures |StripAll(WithMarker(s, prefix, payload), prefix, from)| <= |s| + 2 - from
    decreases |s| - from
  {
    var whole := WithMarker(s, prefix, payload);
    match FirstMatch(s, prefix, from)
    case Some(m) =>
      MatchKept(s, prefix, payload, from);
      StripShort(s, prefix, payload, m.end);
    case None =>
      if Find(s, Opener(prefix), from).Some? {
        MatchSwallowed(s, prefix, payload, from);
      } else {
        MatchAdded(s, prefix, payload, from);
      }
      assert FirstMatch(whole, prefix, |whole|) == None;
  }

  lemma SwallowedAll(s: string, prefix: string, payload: string)
    requires IsPrefix(prefix) && IsPayload(payload) && Closed(payload)
    requires FirstMatch(s, prefix, 0) == None && Find(s, Opener(prefix), 0).Some?
    ensures |CleanAll(WithMarker(s, prefix, payload), prefix)| < |s|
  {
    FindBound(s, Opener(prefix), 0);
    hide Closed, IsPrefix, IsPayload, Tail, Find, TrimRight;
    var whole := WithMarker(s, prefix, payload);
    MatchSwallowed(s, prefix, payload, 0);
    assert whole[..Find(s, Opener(prefix), 0).value] == s[..Find(s, Opener(prefix), 0).value];
    assert FirstMatch(whole, prefix, |whole|) == None by { FindBound(whole, Opener(prefix), |whole|); }
    assert StripAll(whole, prefix, |whole|) == "";
  }

  lemma CleanOverMarkerAll(s: string, prefix: string, payload: string)
    requires IsPrefix(prefix) && IsPayload(payload) && Closed(payload) && TrimEnd(s) == s
    ensures CleanAll(WithMarker(s, prefix, payload), prefix) == s <==> NoOpener(s, prefix)
  {
    var whole := WithMarker(s, prefix, payload);
    NoOpenerFind(s, prefix);
    hide Closed, IsPrefix, IsPayload, NoOpener, OccursAt, Tail;
    match FirstMatch(s, prefix, 0)
    case Some(m) =>
      MatchKept(s, prefix, payload, 0);
      StripShort(s, prefix, payload, m.end);
    case None =>
      if Find(s, Opener(prefix), 0).Some? {
        SwallowedAll(s, prefix, payload);
      } else {
        MatchAdded(s, prefix, payload, 0);
        MarkerBreak(s, prefix, payload);
        assert FirstMatch(whole, prefix, |whole|) == None;
        assert StripAll(whole, prefix, 0) == s + "\n\n";
      }
  }

  lemma MarkerBreak(s: string, prefix: string, payload: string)
    requires TrimEnd(s) == s
    ensures |WithMarker(s, prefix, payload)| >= |s| + 2
    ensures WithMarker(s, prefix, payload)[..|s| + 2] == s + "\n\n"
    ensures TrimEnd(s + "\n\n") == s
  {
    TrimRightExact(s, "\n\n", IsJsSpace);
  }

  // The watchdog: rendering over an already rendered body is rendering over the original body
  // exactly when no opener survives stripping.
  lemma RenderOverAll(body: string, prefix: string, payload: string, next: string)
    requires IsPrefix(prefix) && IsPayload(payload) && Closed(payload)
    ensures RenderAll(RenderAll(body, prefix, payload), prefix, next) == RenderAll(body, prefix, next)
       <==> NoOpener(CleanAll(body, prefix), prefix)
  {
    var s := CleanAll(body, prefix);
    CleanIsTrimmed(StripAll(body, prefix, 0));
    CleanOverMarkerAll(s, prefix, payload);
    SameText(CleanAll(RenderAll(body, prefix, payload), prefix), s, prefix, next);
  }

  lemma SameText(s: string, t: string, prefix: string, payload: string)
    ensures WithMarker(s, prefix, payload) == WithMarker(t, prefix, payload) <==> s == t
  {
    var tail := Tail(prefix, payload);
    if s + tail == t + tail {
      assert |s| == |t|;
      assert (s + tail)[..|s|] == s && (t + tail)[..|t|] == t;
    }
  }

  // Taking out a match of the text and adding a marker of the same length never gives the text back.
  lemma {:induction false} NoSwap(m: string, rest: string, tail: string)
    requires |m| == |tail| && |m| >= 5 && m[0] == '<' && tail[0] == '\n'
    requires OccursAt(m, CLOSER, |m| - 5)
    requires forall i | 0 <= i < |tail| - 5 :: !OccursAt(tail, CLOSER, i)
    ensures m + rest != rest + tail
    decreases |rest|
  {
    if m + rest == rest + tail {
      if |rest| >= |m| {
        var inner := rest[|m|..];
        assert rest == (rest + tail)[..|rest|] == (m + rest)[..|rest|] == m + inner by {
          assert (rest + tail)[..|m|] == (m + rest)[..|m|] == m;
          assert (rest + tail)[..|m|] == rest[..|m|];
        }
        assert (m + rest)[|m|..] == rest == m + inner;
        assert (rest + tail)[|m|..] == inner + tail;
        NoSwap(m, inner, tail);
      } else {
        NoSwapShort(m, rest, tail);
      }
    }
  }

  lemma NoSwapShort(m: string, rest: string, tail: string)
    requires |m| == |tail| && |m| >= 5 && m[0] == '<' && tail[0] == '\n' && |rest| < |m|
    requires OccursAt(m, CLOSER, |m| - 5)
    requires forall i | 0 <= i < |tail| - 5 :: !OccursAt(tail, CLOSER, i)
    ensures m + rest != rest + tail
  {
    var a, b := m + rest, rest + tail;
    var k := |rest|;
    assert k == 0 ==> a[0] == '<' && b[0] == '\n';
    assert b[k] == '\n';
    assert a[|m| - 5..|m|] == m[|m| - 5..|m|];
    if k >= |m| - 5 {
      assert a[|m| - 5..|m|][k - (|m| - 5)] == a[k];
    } else {
      assert b[|m| - 5..|m|] == tail[|m| - 5 - k..|m| - 5 - k + 5];
      assert !OccursAt(tail, CLOSER, |m| - 5 - k) || k == 0;
    }
  }

  lemma SwallowedFirst(s: string, prefix: string, payload: string)
    requires IsPrefix(prefix) && IsPayload(payload) && Closed(payload)
    requires FirstMatch(s, prefix, 0) == None && Find(s, Opener(prefix), 0).Some?
    ensures |CleanFirst(WithMarker(s, prefix, payload), prefix)| < |s|
  {
    FindBound(s, Opener(prefix), 0);
    hide Closed, IsPrefix, IsPayload, Tail, Find, TrimRight;
    var whole := WithMarker(s, prefix, payload);
    MatchSwallowed(s, prefix, payload, 0);
    assert whole[..Find(s, Opener(prefix), 0).value] == s[..Find(s, Opener(prefix), 0).value];
  }

  lemma CleanOverMarkerFirst(s: string, prefix: string, payload: string)
    requires IsPrefix(prefix) && IsPayload(payload) && Closed(payload) && TrimEnd(s) == s
    ensures CleanFirst(WithMarker(s, prefix, payload), prefix) == s <==> NoOpener(s, prefix)
  {
    var whole := WithMarker(s, prefix, payload);
    NoOpenerFind(s, prefix);
    hide Closed, IsPrefix, IsPayload, NoOpener, OccursAt, Tail;
    match FirstMatch(s, prefix, 0)
    case Some(m) =>
      MatchKept(s, prefix, payload, 0);
      FirstTakenOut(s, prefix, payload, m);
      assert whole[..m.start] == s[..m.start];
    case None =>
      if Find(s, Opener(prefix), 0).Some? {
        SwallowedFirst(s, prefix, payload);
      } else {
        MatchAdded(s, prefix, payload, 0);
        MarkerBreak(s, prefix, payload);
        assert StripFirst(whole, prefix) == s + "\n\n";
      }
  }

  lemma MatchShape(s: string, prefix: string, from: nat)
    requires IsPrefix(prefix)
    ensures var r := FirstMatch(s, prefix, from);
            r.Some? ==> var m := s[r.value.start..r.value.end];
                        |m| >= 5 && m[0] == '<' && OccursAt(m, CLOSER, |m| - 5)
  {
    var r := FirstMatch(s, prefix, from);
    if r.Some? {
      var m := s[r.value.start..r.value.end];
      assert Opener(prefix)[0] == '<' && s[r.value.start..r.value.start + |Opener(prefix)|] == Opener(prefix);
      assert s[r.value.start] == '<';
      assert m[|m| - 5..|m| - 5 + |CLOSER|] == s[r.value.end - 5..r.value.end];
    }
  }

  lemma ClosedTail(prefix: string, payload: string)
    requires IsPrefix(prefix) && IsPayload(payload) && Closed(payload)
    ensures var tail := Tail(prefix, payload);
            && |tail| >= 5 && tail[0] == '\n' && tail[|tail| - 1] == '>'
            && forall i | 0 <= i < |tail| - 5 :: !OccursAt(tail, CLOSER, i)
  {
    TailShape(prefix, payload);
    assert SUFFIX[3] == '>';
    hide IsPrefix, IsPayload, OccursAt;
    forall i | 0 <= i < |Tail(prefix, payload)| - 5 ensures !OccursAt(Tail(prefix, payload), CLOSER, i) {
      TailClosers(prefix, payload, i);
    }
  }

  lemma FirstTakenOut(s: string, prefix: string, payload: string, m: Match)
    requires IsPrefix(prefix) && IsPayload(payload) && Closed(payload)
    requires FirstMatch(s, prefix, 0) == Some(m)
    ensures TrimEnd(s[..m.start] + WithMarker(s, prefix, payload)[m.end..]) != s
  {
    ClosedTail(prefix, payload);
    MatchShape(s, prefix, 0);
    hide *;
    TakenOut(s[..m.start], s[m.start..m.end], s[m.end..], Tail(prefix, payload));
    assert s == s[..m.start] + s[m.start..m.end] + s[m.end..];
    MarkerTail(s, prefix, payload, m.end);
  }

  lemma MarkerTail(s: string, prefix: string, payload: string, k: nat)
    requires k <= |s|
    ensures |s| <= |WithMarker(s, prefix, payload)|
    ensures WithMarker(s, prefix, payload)[k..] == s[k..] + Tail(prefix, payload)
  {
    hide Tail;
  }

  lemma TakenOut(before: string, m: string, rest: string, tail: string)
    requires |m| >= 5 && m[0] == '<' && |tail| >= 5 && tail[0] == '\n' && tail[|tail| - 1] == '>'
    requires OccursAt(m, CLOSER, |m| - 5)
    requires forall i | 0 <= i < |tail| - 5 :: !OccursAt(tail, CLOSER, i)
    ensures TrimEnd(before + (rest + tail)) != before + m + rest
  {
    hide OccursAt;
    var left := before + (rest + tail);
    assert left[|left| - 1] == '>';
    assert TrimEnd(left) == left;
    if left == before + m + rest {
      assert left[|before|..] == rest + tail;
      assert (before + m + rest)[|before|..] == m + rest;
      NoSwap(m, rest, tail);
    }
  }

  // The route alert: the same condition.
  lemma RenderOverFirst(body: string, prefix: string, payload: string, next: string)
    requires IsPrefix(prefix) && IsPayload(payload) && Closed(payload)
    ensures RenderFirst(RenderFirst(body, prefix, payload), prefix, next) == RenderFirst(body, prefix, next)
       <==> NoOpener(CleanFirst(body, prefix), prefix)
  {
    var s := CleanFirst(body, prefix);
    CleanIsTrimmed(StripFirst(body, prefix));
    CleanOverMarkerFirst(s, prefix, payload);
    SameText(CleanFirst(RenderFirst(body, prefix, payload), prefix), s, prefix, next);
  }

  // ---- an opener left in the text ------------------------------------------------------------------

  // A text that is a bare opener: both forms read the opener's brace and what follows it, up to the
  // end of the added marker, instead of the payload.
  lemma LeftOpenerRead(prefix: string, payload: string)
    requires IsPrefix(prefix) && IsPayload(payload) && Closed(payload)
    ensures LastPayload(RenderAll(Opener(prefix), prefix, payload), prefix, 0) == Some("{\n\n" + prefix + payload)
    ensures FirstPayload(RenderFirst(Opener(prefix), prefix, payload), prefix) == Some("{\n\n" + prefix + payload)
  {
    hide *;
    LeftOpenerStays(prefix);
    RenderedFrom(Opener(prefix), prefix, payload);
    SwallowedText(prefix, payload);
    var whole := WithMarker(Opener(prefix), prefix, payload);
    MatchSwallowed(Opener(prefix), prefix, payload, 0);
    NothingAfter(whole, prefix);
    LastAtEnd(whole, prefix, FirstMatch(whole, prefix, 0).value);
  }

  lemma RenderedFrom(s: string, prefix: string, payload: string)
    requires CleanAll(s, prefix) == s == CleanFirst(s, prefix)
    ensures RenderAll(s, prefix, payload) == WithMarker(s, prefix, payload) == RenderFirst(s, prefix, payload)
  {
  }

  lemma NothingAfter(s: string, prefix: string)
    ensures FirstMatch(s, prefix, |s|) == None
  {
    FindBound(s, Opener(prefix), |s|);
  }

  lemma LastAtEnd(s: string, prefix: string, m: Match)
    requires FirstMatch(s, prefix, 0) == Some(m) && m.start == 0 && m.end == |s| >= |prefix| + 4
    requires FirstMatch(s, prefix, |s|) == None
    ensures LastPayload(s, prefix, 0) == Some(s[|prefix|..|s| - 4]) == FirstPayload(s, prefix)
  {
  }

  lemma LeftOpenerStays(prefix: string)
    requires IsPrefix(prefix)
    ensures CleanAll(Opener(prefix), prefix) == Opener(prefix) == CleanFirst(Opener(prefix), prefix)
    ensures Find(Opener(prefix), Opener(prefix), 0) == Some(0) && FirstMatch(Opener(prefix), prefix, 0) == None
  {
    var s := Opener(prefix);
    assert s[0..|s|] == s;
    FindIs(s, s, 0, 0);
    FindBound(s, CLOSER, |prefix| + 1);
    assert s[|s| - 1] == '{';
  }

  lemma SwallowedText(prefix: string, payload: string)
    ensures var whole := WithMarker(Opener(prefix), prefix, payload);
            |whole| >= |prefix| + 5 && whole[|prefix|..|whole| - 4] == "{\n\n" + prefix + payload
  {
    var whole := WithMarker(Opener(prefix), prefix, payload);
    assert whole == prefix + ("{\n\n" + prefix + payload) + SUFFIX;
  }

  lemma AfterBrace(prefix: string, text: string)
    requires IsPrefix(prefix)
    ensures "{\n\n" + prefix + text == "{\n\n<" + (prefix[1..] + text)
  {
    assert prefix[..1] == "<" && prefix == prefix[..1] + prefix[1..];
  }
}
