/**
 * What a reader of an alert issue sees: the text above the marker after every call of its life, and
 * the comments the calls add (scripts/ci/route-alert-issue.js).
 */
module RouteText {
  import opened Text
  import opened Marker
  import opened Stamps
  import opened StateText
  import opened RouteAlert
  import opened RouteLife

  // The line an issue shows from its second call on.
  function SeenLine(codec: Codec, calls: seq<Call>): string
    requires calls != []
  {
    "Recurring alert: seen " + codec.decimal(|calls|) + " time(s) since "
    + codec.clock.iso(calls[0].now) + "; latest run at " + codec.clock.iso(calls[|calls| - 1].now) + "."
  }

  // The line a call without a comment adds.
  function QuietLine(codec: Codec, call: Call): string
  {
    ("Comment suppressed: same " + "failure signature within the ") + codec.decimal(call.backoffHours)
    + ("h backoff window. " + "This body is the " + "newest state.")
  }

  // What stands above the marker: the last call's own body, the calls so far, and whether the last
  // one was told to anybody.
  function Shown(codec: Codec, calls: seq<Call>): string
    requires calls != []
  {
    var last := calls[|calls| - 1];
    if |calls| == 1 then TrimEnd(last.body)
    else
      (if last.body == "" then SeenLine(codec, calls) else last.body + "\n" + SeenLine(codec, calls))
      + (if Alerts(codec.clock, calls, |calls| - 1) then "" else "\n" + QuietLine(codec, last))
  }

  function SignedBody(call: Call): string
  {
    call.body + "\n\n<!-- alert-signature: " + call.signature + " -->"
  }

  // One comment for every later call that alerts, in order, each with that call's body and signature.
  ghost predicate TellsAlerts(clock: Clock, calls: seq<Call>, comments: seq<string>)
  {
    && |comments| + 1 == AlertCount(clock, calls, |calls|)
    && forall k | 1 <= k < |calls| && Alerts(clock, calls, k) ::
         var c := AlertCount(clock, calls, k) - 1;
         0 <= c < |comments| && comments[c] == SignedBody(calls[k])
  }

  lemma StopKept(line: string)
    requires line != "" && line[|line| - 1] == '.'
    ensures TrimEnd(line) == line
  {
  }

  lemma RecurringIs(codec: Codec, state: State, calls: seq<Call>)
    requires calls != [] && state.occurrences == Some(|calls| as int)
    requires state.firstSeen == Some(codec.clock.iso(calls[0].now))
    ensures RecurringLine(codec, state, calls[|calls| - 1]) == SeenLine(codec, calls)
  {
  }

  lemma QuietIs(codec: Codec, call: Call)
    ensures SuppressedLine(codec, call) == QuietLine(codec, call)
  {
  }

  lemma SummaryIs(codec: Codec, calls: seq<Call>)
    requires Faithful(codec.clock) && |calls| > 1
    ensures Summary(codec, StateAfter(codec.clock, calls[..|calls| - 1]), calls[|calls| - 1]) == Shown(codec, calls)
  {
    var n := |calls|;
    StateAfterNext(codec.clock, calls, n - 1);
    assert calls[..n] == calls;
    LifeCounted(codec.clock, calls, n);
    RecurringIs(codec, StateAfter(codec.clock, calls), calls);
    QuietIs(codec, calls[n - 1]);
    hide StateAfter, NextState, Faithful, ShouldComment, RecurringLine, SeenLine, SuppressedLine, QuietLine;
    var told := if calls[n - 1].body == "" then SeenLine(codec, calls)
                else calls[n - 1].body + "\n" + SeenLine(codec, calls);
    assert told + "" == told;
  }

  lemma ShownKept(codec: Codec, calls: seq<Call>)
    requires |calls| > 1
    ensures TrimEnd(Shown(codec, calls)) == Shown(codec, calls)
  {
    hide Alerts, TrimEnd;
    StopKept(Shown(codec, calls));
  }

  lemma ShownVisible(codec: Codec, calls: seq<Call>)
    requires Faithful(codec.clock) && calls != []
    ensures VisibleText(codec, calls) == Shown(codec, calls)
  {
    hide TrimEnd, Summary, Faithful, Alerts;
    if |calls| > 1 {
      SummaryIs(codec, calls);
      ShownKept(codec, calls);
    }
  }

  lemma AlertCountFront(clock: Clock, calls: seq<Call>, k: nat, n: nat)
    requires k <= n <= |calls|
    ensures AlertCount(clock, calls[..n], k) == AlertCount(clock, calls, k)
  {
    if k > 0 {
      AlertCountFront(clock, calls, k - 1, n);
      AlertsFront(clock, calls, k - 1, n);
    }
  }

  lemma AlertsFront(clock: Clock, calls: seq<Call>, k: nat, n: nat)
    requires k < n <= |calls|
    ensures Alerts(clock, calls[..n], k) == Alerts(clock, calls, k)
  {
    assert calls[..n][..k] == calls[..k];
  }

  lemma {:induction false} CommentsTell(clock: Clock, calls: seq<Call>)
    requires calls != []
    ensures TellsAlerts(clock, calls, CommentsAfter(clock, calls))
  {
    hide Alerts, AlertCount;
    var n := |calls|;
    assert calls[..n] == calls;
    CommentsCounted(clock, calls, n);
    if n > 1 {
      var front := calls[..n - 1];
      CommentsTell(clock, front);
      CommentsCounted(clock, calls, n - 1);
      var comments := CommentsAfter(clock, calls);
      forall k | 1 <= k < n && Alerts(clock, calls, k)
        ensures var c := AlertCount(clock, calls, k) - 1;
                0 <= c < |comments| && comments[c] == SignedBody(calls[k])
      {
        if k < n - 1 {
          AlertsFront(clock, calls, k, n - 1);
          AlertCountFront(clock, calls, k, n - 1);
          assert front[k] == calls[k];
        }
      }
    }
  }

  // After any events of its life an issue shows the body of its last call, how many calls there
  // were and since when, and the suppression line exactly when that call added no comment; its
  // comments are those of the calls that alerted.
  lemma IssueShows(codec: Codec, issues: seq<Issue>, events: seq<Event>, title: string)
    requires Lawful(codec) && Life(codec, issues, events, title)
    ensures var now, calls := After(codec, issues, events), Calls(events, title);
            && calls != [] && |issues| < |now|
            && now[|issues|].body == Shown(codec, calls)
               + ("\n\n" + "<!-- alert-state: " + codec.stringify(StateAfter(codec.clock, calls)) + " -->")
            && TellsAlerts(codec.clock, calls, now[|issues|].comments)
  {
    hide *;
    LawfulClock(codec);
    var calls := Calls(events, title);
    IssueFollowsCalls(codec, issues, events, title);
    OnlyBound(After(codec, issues, events), |issues|, title);
    ShownVisible(codec, calls);
    BodyIs(codec, title, calls);
    IssueComments(codec, title, calls);
    CommentsTell(codec.clock, calls);
  }

  lemma OnlyBound(issues: seq<Issue>, i: nat, title: string)
    requires Only(issues, i, title)
    ensures i < |issues|
  {
  }

  lemma BodyIs(codec: Codec, title: string, calls: seq<Call>)
    requires calls != []
    ensures IssueAfter(codec, title, calls).body == VisibleText(codec, calls)
         + ("\n\n" + "<!-- alert-state: " + codec.stringify(StateAfter(codec.clock, calls)) + " -->")
  {
    hide VisibleText, StateAfter, CommentsAfter;
  }

  // A call of any title on any issues: a comment holds the call's body and signature and nothing is
  // commented when the call is suppressed or opens the issue.
  lemma CommentAdded(codec: Codec, issues: seq<Issue>, call: Call)
    ensures var r := Route(codec, issues, call);
            && r.number < |r.issues| && r.issues[r.number].title == call.title && r.issues[r.number].isOpen
            && (r.action == Created ==> r.number == |issues| && r.issues[r.number].comments == [])
            && (r.action != Created ==>
                  r.number < |issues|
                  && r.issues[r.number].comments
                     == issues[r.number].comments + if r.action == Commented then [SignedBody(call)] else [])
            && forall i | 0 <= i < |issues| && i != r.number :: r.issues[i] == issues[i]
  {
    hide Existing, RenderBody, ShouldComment, Summary, ParseState, FirstState;
    match Existing(issues, call.title)
    case None =>
    case Some(i) => assert issues[i].comments + [] == issues[i].comments;
  }

  // Which field of the state stands under which name in the marker.
  lemma StateNames(state: State)
    ensures Stringify(state)
         == "{" + (MemberText("signature", state.signature) + (MemberText("first_seen_at", state.firstSeen)
            + (MemberText("last_seen_at", state.lastSeen) + (MemberText("last_alert_at", state.lastAlert)
            + (KeyText("occurrences") + (CountText(state.occurrences) + "}"))))))
  {
    PrintedInOrder(KEYS, [state.signature, state.firstSeen, state.lastSeen, state.lastAlert], state.occurrences);
    hide MemberText, KeyText, CountText, Print;
  }
}
