/**
 * The life of one alert issue, from the call that creates it to the call that closes it, whatever
 * calls for other titles come between (scripts/ci/route-alert-issue.js).
 */
module RouteLife {
  import opened Text
  import opened Marker
  import opened MarkerRoundTrip
  import opened Stamps
  import opened StateText
  import opened RouteAlert

  // ---- the state over the calls of one title -----------------------------------------------------

  function StateAfter(clock: Clock, calls: seq<Call>): State
    requires calls != []
  {
    if |calls| == 1 then FirstState(clock, calls[0])
    else NextState(clock, StateAfter(clock, calls[..|calls| - 1]), calls[|calls| - 1])
  }

  // Call k raises an alert: it opens the issue or comments on it.
  predicate Alerts(clock: Clock, calls: seq<Call>, k: nat)
    requires k < |calls|
  {
    k == 0 || ShouldComment(clock, StateAfter(clock, calls[..k]), calls[k])
  }

  lemma StateAfterNext(clock: Clock, calls: seq<Call>, k: nat)
    requires 0 < k < |calls|
    ensures StateAfter(clock, calls[..k + 1]) == NextState(clock, StateAfter(clock, calls[..k]), calls[k])
  {
    assert calls[..k + 1][..k] == calls[..k];
  }

  // Counters live as long as the issue: a new signature does not restart them.
  lemma {:induction false} LifeCounted(clock: Clock, calls: seq<Call>, n: nat)
    requires Faithful(clock) && 0 < n <= |calls|
    ensures var s := StateAfter(clock, calls[..n]);
            && s.occurrences == Some(n as int) && s.firstSeen == Some(clock.iso(calls[0].now))
            && s.lastSeen == Some(clock.iso(calls[n - 1].now)) && s.signature == Some(calls[n - 1].signature)
  {
    assert PrintsWell(clock, calls[0].now);
    if n > 1 {
      StateAfterNext(clock, calls, n - 1);
      LifeCounted(clock, calls, n - 1);
    }
  }

  lemma {:induction false} LastAlertKept(clock: Clock, calls: seq<Call>, j: nat, n: nat)
    requires j < n <= |calls| && Alerts(clock, calls, j) && forall k | j < k < n :: !Alerts(clock, calls, k)
    ensures StateAfter(clock, calls[..n]).lastAlert == Some(clock.iso(calls[j].now))
  {
    if n > 1 { StateAfterNext(clock, calls, n - 1); }
    if j < n - 1 {
      assert !Alerts(clock, calls, n - 1);
      LastAlertKept(clock, calls, j, n - 1);
    }
  }

  // A later call alerts exactly when its signature is not the one before it, or the last alert is
  // a backoff old.
  lemma AlertsExactly(clock: Clock, calls: seq<Call>, j: nat, k: nat)
    requires Faithful(clock) && j < k < |calls| && Alerts(clock, calls, j) && forall i | j < i < k :: !Alerts(clock, calls, i)
    ensures Alerts(clock, calls, k)
       <==> calls[k].signature != calls[k - 1].signature
            || calls[k].now - calls[j].now >= calls[k].backoffHours * 3_600_000
  {
    LastAlertKept(clock, calls, j, k);
    IsoClean(clock, calls[j].now);
    LifeCounted(clock, calls, k);
  }

  function AlertCount(clock: Clock, calls: seq<Call>, n: nat): nat
    requires n <= |calls|
  {
    if n == 0 then 0 else AlertCount(clock, calls, n - 1) + if Alerts(clock, calls, n - 1) then 1 else 0
  }

  function SignatureChanges(calls: seq<Call>, n: nat): nat
    requires n <= |calls|
  {
    if n <= 1 then 0
    else SignatureChanges(calls, n - 1) + if calls[n - 1].signature == calls[n - 2].signature then 0 else 1
  }

  ghost predicate Paced(calls: seq<Call>, backoffHours: int)
  {
    backoffHours > 0 && (forall call | call in calls :: call.backoffHours == backoffHours)
    && forall i, j | 0 <= i < j < |calls| :: calls[i].now <= calls[j].now
  }

  ghost predicate Spaced(clock: Clock, calls: seq<Call>, n: nat, t: int, backoff: int)
    requires 0 < n <= |calls|
  {
    calls[0].now <= t <= calls[n - 1].now && Read(clock, StateAfter(clock, calls[..n]).lastAlert) == Some(t)
    && (AlertCount(clock, calls, n) - 1 - SignatureChanges(calls, n)) * backoff <= t - calls[0].now
  }

  // What one more call adds to the counts and to the time of the last alert.
  lemma AlertStep(clock: Clock, calls: seq<Call>, n: nat)
    requires Faithful(clock) && 1 < n <= |calls|
    ensures var before, now := StateAfter(clock, calls[..n - 1]).lastAlert, StateAfter(clock, calls[..n]).lastAlert;
            && (Alerts(clock, calls, n - 1) ==> Read(clock, now) == Some(calls[n - 1].now))
            && (!Alerts(clock, calls, n - 1) && Read(clock, before).Some? ==> now == before)
            && (!Alerts(clock, calls, n - 1) ==> calls[n - 1].signature == calls[n - 2].signature)
            && (Alerts(clock, calls, n - 1) && calls[n - 1].signature == calls[n - 2].signature
                && Read(clock, before).Some? ==>
                  calls[n - 1].now - Read(clock, before).value >= calls[n - 1].backoffHours * MS_PER_HOUR)
  {
    StateAfterNext(clock, calls, n - 1);
    LifeCounted(clock, calls, n - 1);
    IsoClean(clock, calls[n - 1].now);
  }

  lemma SpacedNext(clock: Clock, calls: seq<Call>, backoffHours: int, n: nat, t: int)
    requires Faithful(clock) && 1 < n <= |calls| && Paced(calls, backoffHours)
    requires Spaced(clock, calls, n - 1, t, backoffHours * MS_PER_HOUR)
    ensures Spaced(clock, calls, n, if Alerts(clock, calls, n - 1) then calls[n - 1].now else t, backoffHours * MS_PER_HOUR)
  {
    var backoff := backoffHours * MS_PER_HOUR;
    AlertStep(clock, calls, n);
    assert calls[n - 1] in calls && calls[n - 2].now <= calls[n - 1].now;
    hide StateAfter, MS_PER_HOUR, Faithful, Alerts, Read;
    var excess := AlertCount(clock, calls, n - 1) - 1 - SignatureChanges(calls, n - 1);
    assert (excess + 1) * backoff == excess * backoff + backoff;
  }

  lemma {:induction false} SpacedAlerts(clock: Clock, calls: seq<Call>, backoffHours: int, n: nat)
    requires Faithful(clock) && 0 < n <= |calls| && Paced(calls, backoffHours)
    ensures exists t :: Spaced(clock, calls, n, t, backoffHours * MS_PER_HOUR)
  {
    if n == 1 {
      assert calls[..1] == [calls[0]];
      IsoClean(clock, calls[0].now);
      assert AlertCount(clock, calls, 0) == 0 && AlertCount(clock, calls, 1) == 1;
      assert Spaced(clock, calls, n, calls[0].now, backoffHours * MS_PER_HOUR);
    } else {
      SpacedAlerts(clock, calls, backoffHours, n - 1);
      var t :| Spaced(clock, calls, n - 1, t, backoffHours * MS_PER_HOUR);
      SpacedNext(clock, calls, backoffHours, n, t);
    }
  }

  // How many whole backoffs pass from the first call to the last.
  function WholeBackoffs(calls: seq<Call>, backoffHours: int): int
    requires calls != [] && backoffHours > 0
  {
    Quotient(calls[|calls| - 1].now - calls[0].now, backoffHours * MS_PER_HOUR)
  }

  function Quotient(n: int, d: int): int
    requires d > 0
  {
    n / d
  }

  // One alert, one for every change of signature, and one for every whole backoff that passes.
  lemma AlertsBounded(clock: Clock, calls: seq<Call>, backoffHours: int)
    requires Faithful(clock) && calls != [] && Paced(calls, backoffHours)
    ensures AlertCount(clock, calls, |calls|) <= 1 + SignatureChanges(calls, |calls|) + WholeBackoffs(calls, backoffHours)
  {
    hide StateAfter, AlertCount, SignatureChanges;
    var n, backoff := |calls|, backoffHours * MS_PER_HOUR;
    SpacedAlerts(clock, calls, backoffHours, n);
    var t :| Spaced(clock, calls, n, t, backoff);
    AtMostQuotient(AlertCount(clock, calls, n) - 1 - SignatureChanges(calls, n), calls[n - 1].now - calls[0].now, backoff);
  }

  // ---- the issue over all events -----------------------------------------------------------------

  ghost predicate CleanState(state: State)
  {
    CleanText(state.signature) && CleanText(state.firstSeen) && CleanText(state.lastSeen) && CleanText(state.lastAlert)
  }

  ghost predicate PrintsState(codec: Codec, state: State)
  {
    var text := codec.stringify(state);
    IsPayload(text) && Closed(text) && codec.parse(text) == Some(state)
  }

  // JSON allows no markup after an opening brace.
  ghost predicate Refuses(codec: Codec, rest: string)
  {
    codec.parse("{\n\n<" + rest) == None
  }

  // What the printers promise. Numbers are printed without angle brackets.
  ghost predicate Lawful(codec: Codec)
  {
    && Faithful(codec.clock)
    && (forall state | CleanState(state) :: PrintsState(codec, state))
    && (forall rest: string :: Refuses(codec, rest))
    && forall n: int :: '<' !in codec.decimal(n)
  }

  lemma LawfulClock(codec: Codec)
    requires Lawful(codec)
    ensures Faithful(codec.clock)
  {
  }

  // The text that JSON.stringify writes, with a reader for it.
  const KEYS := ["signature", "first_seen_at", "last_seen_at", "last_alert_at"]

  function Stringify(state: State): string
  {
    Print(KEYS, [state.signature, state.firstSeen, state.lastSeen, state.lastAlert], state.occurrences)
  }

  function ParseText(text: string): Option<State>
  {
    match Parse(KEYS, text)
    case None => None
    case Some((v, count)) => Some(State(v[0], v[1], v[2], v[3], count))
  }

  function ScriptCodec(clock: Clock): Codec
  {
    Codec(clock, Stringify, ParseText, Integer)
  }

  // Over any faithful clock that codec is lawful.
  lemma ScriptCodecLawful(clock: Clock)
    requires Faithful(clock)
    ensures Lawful(ScriptCodec(clock))
  {
    var codec := ScriptCodec(clock);
    forall state | CleanState(state) ensures PrintsState(codec, state) {
      ParsePrinted(KEYS, [state.signature, state.firstSeen, state.lastSeen, state.lastAlert], state.occurrences);
      StringifyClosed(state);
    }
    forall rest: string ensures Refuses(codec, rest) { ParseRefuses(KEYS, rest); }
    forall n: int ensures '<' !in codec.decimal(n) { IntegerParses(n); }
  }

  lemma StringifyClosed(state: State)
    requires CleanState(state)
    ensures IsPayload(Stringify(state)) && Closed(Stringify(state))
  {
    forall k | k in KEYS ensures PlainKey(k) {}
    PrintClosed(KEYS, [state.signature, state.firstSeen, state.lastSeen, state.lastAlert], state.occurrences);
  }

  ghost predicate PlainCall(call: Call)
  {
    NoOpener(call.body, PREFIX) && CleanText(Some(call.signature))
  }

  function Calls(events: seq<Event>, title: string): seq<Call>
  {
    if events == [] then []
    else
      var front, last := Calls(events[..|events| - 1], title), events[|events| - 1];
      if last.Routed? && last.call.title == title then front + [last.call] else front
  }

  // What a reader sees above the marker.
  function VisibleText(codec: Codec, calls: seq<Call>): string
    requires calls != []
  {
    if |calls| == 1 then TrimEnd(calls[0].body)
    else TrimEnd(Summary(codec, StateAfter(codec.clock, calls[..|calls| - 1]), calls[|calls| - 1]))
  }

  function CommentsAfter(clock: Clock, calls: seq<Call>): seq<string>
    requires calls != []
  {
    if |calls| == 1 then []
    else
      var front := CommentsAfter(clock, calls[..|calls| - 1]);
      if Alerts(clock, calls, |calls| - 1) then front + [CommentText(calls[|calls| - 1])] else front
  }

  function IssueAfter(codec: Codec, title: string, calls: seq<Call>): Issue
    requires calls != []
  {
    Issue(title, WithMarker(VisibleText(codec, calls), PREFIX, codec.stringify(StateAfter(codec.clock, calls))), true,
          CommentsAfter(codec.clock, calls))
  }

  lemma {:induction false} CommentsCounted(clock: Clock, calls: seq<Call>, n: nat)
    requires 0 < n <= |calls|
    ensures |CommentsAfter(clock, calls[..n])| + 1 == AlertCount(clock, calls, n)
  {
    if n == 1 {
      assert AlertCount(clock, calls, 0) == 0;
    } else {
      assert calls[..n][..n - 1] == calls[..n - 1];
      CommentsCounted(clock, calls, n - 1);
    }
  }

  // ---- no opener in the text ---------------------------------------------------------------------

  lemma NoOpenerWithoutBracket(line: string)
    requires '<' !in line
    ensures NoOpener(line, PREFIX)
  {
    forall i ensures !OccursAt(line, Opener(PREFIX), i) {
      assert Opener(PREFIX)[0] == '<';
      if 0 <= i && i + |Opener(PREFIX)| <= |line| {
        assert line[i..i + |Opener(PREFIX)|][0] == line[i];
      }
    }
  }

  lemma NoOpenerLines(a: string, b: string)
    requires NoOpener(a, PREFIX) && NoOpener(b, PREFIX)
    ensures NoOpener(a + "\n" + b, PREFIX)
  {
    AlertPrefix(PREFIX);
    NewlineFree(PREFIX);
    var tail := "\n" + b;
    assert a + "\n" + b == a + tail;
    forall i ensures !OccursAt(a + tail, Opener(PREFIX), i) {
      if 0 <= i <= |a| {
        OccursEarly(a, tail, Opener(PREFIX), i);
      } else if |a| < i {
        OccursLate(a, tail, Opener(PREFIX), i);
        OccursLate("\n", b, Opener(PREFIX), i - |a|);
      }
    }
  }

  lemma NoOpenerTrimmed(t: string)
    requires NoOpener(t, PREFIX)
    ensures NoOpener(TrimEnd(t), PREFIX) && CleanFirst(t, PREFIX) == TrimEnd(t) && TrimEnd(TrimEnd(t)) == TrimEnd(t)
  {
    NoOpenerFind(t, PREFIX);
    var s := TrimEnd(t);
    forall i ensures !OccursAt(s, Opener(PREFIX), i) {
      assert OccursAt(s, Opener(PREFIX), i) ==> OccursAt(t, Opener(PREFIX), i) by {
        if OccursAt(s, Opener(PREFIX), i) {
          assert t[i..i + |Opener(PREFIX)|] == s[i..i + |Opener(PREFIX)|];
        }
      }
    }
  }

  lemma PlainWords()
    ensures '<' !in SAME_FAILURE && '<' !in NEWEST
  {
  }

  lemma SummaryPlain(codec: Codec, previous: State, call: Call)
    requires Lawful(codec) && PlainCall(call)
    requires previous.firstSeen.Some? && previous.firstSeen.value != "" && '<' !in previous.firstSeen.value
    ensures NoOpener(Summary(codec, previous, call), PREFIX)
  {
    var state := NextState(codec.clock, previous, call);
    var recurring := RecurringLine(codec, state, call);
    PlainWords();
    assert PrintsWell(codec.clock, call.now);
    assert '<' !in recurring;
    assert '<' !in SuppressedLine(codec, call);
    NoOpenerWithoutBracket(recurring);
    NoOpenerWithoutBracket(SuppressedLine(codec, call));
    hide NoOpener, RecurringLine, SuppressedLine, ShouldComment;
    NoOpenerLines(call.body, recurring);
    var text := if call.body == "" then recurring else call.body + "\n" + recurring;
    NoOpenerLines(text, SuppressedLine(codec, call));
  }

  lemma VisiblePlain(codec: Codec, calls: seq<Call>)
    requires calls != [] && Lawful(codec) && forall call | call in calls :: PlainCall(call)
    ensures var text := if |calls| == 1 then calls[0].body
                        else Summary(codec, StateAfter(codec.clock, calls[..|calls| - 1]), calls[|calls| - 1]);
            NoOpener(text, PREFIX) && VisibleText(codec, calls) == TrimEnd(text)
  {
    assert PlainCall(calls[0]) && PlainCall(calls[|calls| - 1]);
    if |calls| > 1 {
      LifeCounted(codec.clock, calls, |calls| - 1);
      assert PrintsWell(codec.clock, calls[0].now);
      SummaryPlain(codec, StateAfter(codec.clock, calls[..|calls| - 1]), calls[|calls| - 1]);
    }
  }

  lemma StateClean(clock: Clock, calls: seq<Call>)
    requires Faithful(clock) && calls != [] && forall call | call in calls :: PlainCall(call)
    ensures CleanState(StateAfter(clock, calls))
  {
    var n := |calls|;
    assert calls[..n] == calls && PlainCall(calls[n - 1]);
    LifeCounted(clock, calls, n);
    IsoClean(clock, calls[0].now);
    IsoClean(clock, calls[n - 1].now);
    LastAlertAt(clock, calls, n);
  }

  lemma {:induction false} LastAlertAt(clock: Clock, calls: seq<Call>, n: nat)
    requires Faithful(clock) && 0 < n <= |calls|
    ensures var last := StateAfter(clock, calls[..n]).lastAlert;
            last.Some? && last.value != "" && CleanText(last)
  {
    IsoClean(clock, calls[n - 1].now);
    assert PrintsWell(clock, calls[n - 1].now);
    if n > 1 {
      StateAfterNext(clock, calls, n - 1);
      LastAlertAt(clock, calls, n - 1);
    }
  }

  // The state that the calls lead to is read back from the body they leave.
  lemma StateReadBack(codec: Codec, title: string, calls: seq<Call>)
    requires calls != [] && Lawful(codec) && forall call | call in calls :: PlainCall(call)
    ensures ParseState(codec, IssueAfter(codec, title, calls).body) == StateAfter(codec.clock, calls)
  {
    AlertPrefix(PREFIX);
    StateClean(codec.clock, calls);
    assert PrintsState(codec, StateAfter(codec.clock, calls));
    VisiblePlain(codec, calls);
    var text := if |calls| == 1 then calls[0].body
                else Summary(codec, StateAfter(codec.clock, calls[..|calls| - 1]), calls[|calls| - 1]);
    NoOpenerTrimmed(text);
    FirstRead(VisibleText(codec, calls), PREFIX, codec.stringify(StateAfter(codec.clock, calls)));
  }

  // ---- one issue among all ------------------------------------------------------------------------

  // Issue number i is the one open issue of this title.
  ghost predicate Only(issues: seq<Issue>, i: nat, title: string)
  {
    i < |issues| && OpenTitled(issues, i, title)
    && forall j | 0 <= j < |issues| && j != i :: !OpenTitled(issues, j, title)
  }

  lemma OnlyFound(issues: seq<Issue>, i: nat, title: string)
    requires Only(issues, i, title) && Small(issues)
    ensures Existing(issues, title) == Some(i)
  {
    SmallFinds(issues, title);
    var k := Existing(issues, title).value;
    assert OpenTitled(issues, k, title);
  }

  lemma OtherTitle(codec: Codec, issues: seq<Issue>, i: nat, title: string, event: Event)
    requires Only(issues, i, title)
    requires match event case Routed(call) => call.title != title case Resolved(other, _) => other != title
    ensures Only(Step(codec, issues, event), i, title) && Step(codec, issues, event)[i] == issues[i]
  {
    hide Existing, RenderBody, NextState, ShouldComment, Summary, ParseState, FirstState;
    var next := Step(codec, issues, event);
    assert |issues| <= |next| && next[i] == issues[i];
    forall j | 0 <= j < |next| && j != i ensures !OpenTitled(next, j, title) {
      if j < |issues| { assert !OpenTitled(issues, j, title); }
    }
  }

  lemma IssueGrows(codec: Codec, title: string, calls: seq<Call>, call: Call)
    requires Lawful(codec) && calls != [] && forall c | c in calls + [call] :: PlainCall(c)
    ensures IssueAfter(codec, title, calls + [call])
         == Issue(title,
                  RenderBody(codec, Summary(codec, StateAfter(codec.clock, calls), call), NextState(codec.clock, StateAfter(codec.clock, calls), call)),
                  true,
                  if ShouldComment(codec.clock, StateAfter(codec.clock, calls), call) then CommentsAfter(codec.clock, calls) + [CommentText(call)]
                  else CommentsAfter(codec.clock, calls))
  {
    var more := calls + [call];
    assert more[..|calls|] == calls;
    VisiblePlain(codec, more);
    NoOpenerTrimmed(Summary(codec, StateAfter(codec.clock, calls), call));
  }

  lemma SameTitle(codec: Codec, issues: seq<Issue>, title: string, i: nat, calls: seq<Call>, call: Call)
    requires Lawful(codec) && Small(issues) && Only(issues, i, title) && call.title == title
    requires calls != [] && forall c | c in calls + [call] :: PlainCall(c)
    requires issues[i] == IssueAfter(codec, title, calls)
    ensures var next := Route(codec, issues, call).issues;
            Only(next, i, title) && next[i] == IssueAfter(codec, title, calls + [call])
  {
    assert forall c | c in calls :: c in calls + [call];
    OnlyFound(issues, i, title);
    StateReadBack(codec, title, calls);
    IssueGrows(codec, title, calls, call);
    IssueComments(codec, title, calls);
    hide Summary, NextState, ShouldComment, ParseState, RenderBody, Lawful, PlainCall, Existing, Small, StateAfter,
         CommentText, CommentsAfter;
    OnlyReplaced(issues, i, title, Route(codec, issues, call).issues[i]);
  }

  lemma OnlyReplaced(issues: seq<Issue>, i: nat, title: string, issue: Issue)
    requires Only(issues, i, title) && issue.isOpen && issue.title == title
    ensures Only(issues[i := issue], i, title)
  {
    var next := issues[i := issue];
    forall j | 0 <= j < |issues| && j != i ensures !OpenTitled(next, j, title) {
      assert !OpenTitled(issues, j, title);
    }
  }

  // The events of one life: it starts with the call that creates the issue, and none closes it.
  ghost predicate Life(codec: Codec, issues: seq<Issue>, events: seq<Event>, title: string)
  {
    events != [] && Vacant(issues, title) && AlwaysSmall(codec, issues, events)
    && events[0].Routed? && events[0].call.title == title
    && (forall event | event in events :: event.Resolved? ==> event.title != title)
    && forall event | event in events :: event.Routed? && event.call.title == title ==> PlainCall(event.call)
  }

  lemma {:induction false} CallsPlain(codec: Codec, issues: seq<Issue>, events: seq<Event>, title: string)
    requires forall event | event in events :: event.Routed? && event.call.title == title ==> PlainCall(event.call)
    ensures forall call | call in Calls(events, title) :: PlainCall(call) && call.title == title
  {
    hide PlainCall;
    if events != [] {
      assert events[|events| - 1] in events;
      CallsPlain(codec, issues, events[..|events| - 1], title);
    }
  }

  lemma LifeBegins(codec: Codec, issues: seq<Issue>, call: Call)
    requires Vacant(issues, call.title) && Small(issues) && PlainCall(call) && Lawful(codec)
    ensures var next := Route(codec, issues, call).issues;
            Only(next, |issues|, call.title) && next[|issues|] == IssueAfter(codec, call.title, [call])
  {
    NoOpenerTrimmed(call.body);
    Created(codec, issues, call);
    hide Lawful, FirstState, Small, CleanFirst, Route, Only, Vacant;
  }

  // Through any interleaving, the issue is the only open one of its title, and its body and its
  // comments are those of the calls for that title alone.
  lemma {:induction false} IssueFollowsCalls(codec: Codec, issues: seq<Issue>, events: seq<Event>, title: string)
    requires Lawful(codec) && Life(codec, issues, events, title)
    ensures var now, calls := After(codec, issues, events), Calls(events, title);
            && calls != [] && calls[0] == events[0].call
            && Only(now, |issues|, title) && now[|issues|] == IssueAfter(codec, title, calls)
  {
    hide Lawful, PlainCall, Small, IssueAfter, Only, Step, Vacant, AlwaysSmall;
    var front, last := events[..|events| - 1], events[|events| - 1];
    assert last in events;
    AlwaysSmallFront(codec, issues, events);
    CallsPlain(codec, issues, events, title);
    if |events| == 1 {
      assert front == [] && Calls(front, title) == [] && events[0] == last;
      assert Calls(events, title) == [last.call];
      FirstEvent(codec, issues, last.call);
    } else {
      assert front[0] == events[0];
      assert forall event | event in front :: event in events;
      IssueFollowsCalls(codec, issues, front, title);
      NextEvent(codec, After(codec, issues, front), |issues|, title, Calls(front, title), last);
    }
  }

  lemma FirstEvent(codec: Codec, issues: seq<Issue>, call: Call)
    requires Vacant(issues, call.title) && Small(issues) && PlainCall(call) && Lawful(codec)
    ensures var next := Step(codec, issues, Routed(call));
            Only(next, |issues|, call.title) && next[|issues|] == IssueAfter(codec, call.title, [call])
  {
    LifeBegins(codec, issues, call);
  }

  lemma NextEvent(codec: Codec, issues: seq<Issue>, i: nat, title: string, calls: seq<Call>, event: Event)
    requires Lawful(codec) && Small(issues) && Only(issues, i, title) && calls != []
    requires forall c | c in calls :: PlainCall(c)
    requires issues[i] == IssueAfter(codec, title, calls)
    requires event.Resolved? ==> event.title != title
    requires event.Routed? && event.call.title == title ==> PlainCall(event.call)
    ensures var next := Step(codec, issues, event);
            Only(next, i, title)
            && next[i] == IssueAfter(codec, title, if event.Routed? && event.call.title == title then calls + [event.call] else calls)
  {
    hide Lawful, PlainCall, Small, IssueAfter, Only;
    if event.Routed? && event.call.title == title {
      SameTitle(codec, issues, title, i, calls, event.call);
    } else {
      OtherTitle(codec, issues, i, title, event);
    }
  }

  lemma LifePlain(codec: Codec, issues: seq<Issue>, events: seq<Event>, title: string)
    requires Life(codec, issues, events, title)
    ensures forall call | call in Calls(events, title) :: PlainCall(call)
  {
    CallsPlain(codec, issues, events, title);
  }

  lemma IssueComments(codec: Codec, title: string, calls: seq<Call>)
    requires calls != []
    ensures IssueAfter(codec, title, calls).comments == CommentsAfter(codec.clock, calls)
  {
  }

  // The issue at the end of its life so far: one run counted for every call, first seen when it was
  // created, and no more alerts than the backoff allows.
  lemma IssueLife(codec: Codec, issues: seq<Issue>, events: seq<Event>, title: string, backoffHours: int)
    requires Lawful(codec) && Life(codec, issues, events, title) && Paced(Calls(events, title), backoffHours)
    ensures var now, calls := After(codec, issues, events), Calls(events, title);
            && calls != [] && Only(now, |issues|, title)
            && var state := ParseState(codec, now[|issues|].body);
               && state.occurrences == Some(|calls| as int) && state.firstSeen == Some(codec.clock.iso(events[0].call.now))
               && |now[|issues|].comments|
                  <= SignatureChanges(calls, |calls|) + WholeBackoffs(calls, backoffHours)
  {
    hide *;
    LawfulClock(codec);
    var calls := Calls(events, title);
    LifePlain(codec, issues, events, title);
    IssueFollowsCalls(codec, issues, events, title);
    StateReadBack(codec, title, calls);
    assert calls[..|calls|] == calls;
    LifeCounted(codec.clock, calls, |calls|);
    IssueComments(codec, title, calls);
    CommentsCounted(codec.clock, calls, |calls|);
    AlertsBounded(codec.clock, calls, backoffHours);
  }

  // Closing ends the life: the issue keeps its body, and its title is free for a new one.
  lemma LifeEnds(issues: seq<Issue>, i: nat, title: string, body: string)
    requires Only(issues, i, title) && Small(issues)
    ensures var r := Close(issues, title, body);
            && r.action == ClosedIssue && r.number == i && Vacant(r.issues, title) && |r.issues| == |issues|
            && r.issues[i] == issues[i].(isOpen := false, comments := issues[i].comments + [body])
            && forall j | 0 <= j < |issues| && j != i :: r.issues[j] == issues[j]
  {
    hide Small, Existing;
    OnlyFound(issues, i, title);
    var next := Close(issues, title, body).issues;
    forall j | 0 <= j < |next| ensures !OpenTitled(next, j, title) {
      if j != i { assert !OpenTitled(issues, j, title); }
    }
  }

  // ---- an opener left in the text ------------------------------------------------------------------

  lemma LeftOpenerUnread(codec: Codec, state: State)
    requires PrintsState(codec, state) && forall rest: string :: Refuses(codec, rest)
    ensures ParseState(codec, RenderBody(codec, Opener(PREFIX), state)) == EMPTY
  {
    hide RenderFirst, FirstPayload, IsPayload, Closed, Opener, Parse, Print;
    AlertPrefix(PREFIX);
    var text := codec.stringify(state);
    LeftOpenerRead(PREFIX, text);
    AfterBrace(PREFIX, text);
    assert Refuses(codec, PREFIX[1..] + text);
  }

  lemma FirstStateClean(codec: Codec, call: Call)
    requires Lawful(codec) && CleanText(Some(call.signature))
    ensures PrintsState(codec, FirstState(codec.clock, call)) && forall rest: string :: Refuses(codec, rest)
  {
    IsoClean(codec.clock, call.now);
  }

  lemma Created(codec: Codec, issues: seq<Issue>, call: Call)
    requires Vacant(issues, call.title) && Small(issues)
    ensures var next := Route(codec, issues, call).issues;
            Only(next, |issues|, call.title)
            && next[|issues|] == Issue(call.title, RenderBody(codec, call.body, FirstState(codec.clock, call)), true, [])
  {
    SmallFinds(issues, call.title);
    hide FirstState, Small, Existing, RenderBody;
    var next := Route(codec, issues, call).issues;
    forall j | 0 <= j < |issues| ensures !OpenTitled(next, j, call.title) {
      assert !OpenTitled(issues, j, call.title);
    }
  }

  lemma EmptyComments(clock: Clock, call: Call)
    ensures ShouldComment(clock, EMPTY, call) && NextState(clock, EMPTY, call).occurrences == Some(1)
  {
  }

  // An alert whose body is a bare marker opener: the issue's state cannot be read back, so the next
  // call of the title comments at once, and counts from one again.
  lemma LeftOpenerForgets(codec: Codec, issues: seq<Issue>, call: Call, next: Call)
    requires Lawful(codec) && CleanText(Some(call.signature)) && call.body == Opener(PREFIX)
    requires Vacant(issues, call.title) && Small(issues) && next.title == call.title
    requires Small(Route(codec, issues, call).issues)
    ensures var created := Route(codec, issues, call).issues;
            && |created| == |issues| + 1
            && ParseState(codec, created[|issues|].body) == EMPTY != FirstState(codec.clock, call)
            && Route(codec, created, next).action == Commented
            && Route(codec, created, next).number == |issues| && Route(codec, created, next).occurrences == 1
  {
    Created(codec, issues, call);
    FirstStateClean(codec, call);
    LeftOpenerUnread(codec, FirstState(codec.clock, call));
    OnlyFound(Route(codec, issues, call).issues, |issues|, call.title);
    EmptyComments(codec.clock, next);
    assert FirstState(codec.clock, call).signature.Some?;
    hide Lawful, FirstState, Small, Existing, RenderBody, ParseState, ShouldComment, Summary, PrintsState, Refuses;
  }
}
