/**
 * Deduplicated alert issues (scripts/ci/route-alert-issue.js): one open issue per title, its state
 * in a marker at the end of its body, and a comment only for a new signature or after a backoff.
 */
module RouteAlert {
  import opened Text
  import opened Marker
  import opened Stamps

  const PREFIX := "<!-- alert-state: "
  const PER_PAGE := 100
  const MS_PER_HOUR := 60 * 60 * 1000

  datatype State = State(
    signature: Option<string>, firstSeen: Option<string>, lastSeen: Option<string>, lastAlert: Option<string>,
    occurrences: Option<int>)

  const EMPTY := State(None, None, None, None, None)

  // An issue's number is its place in the repository's list, which is in order of creation.
  datatype Issue = Issue(title: string, body: string, isOpen: bool, comments: seq<string>)

  datatype Call = Call(title: string, body: string, signature: string, now: Millis, backoffHours: int)

  datatype Action = Created | Commented | Suppressed | ClosedIssue | Noop

  datatype Outcome = Outcome(issues: seq<Issue>, action: Action, number: nat, occurrences: int)

  // toISOString and Date.parse, JSON.stringify, JSON.parse (None for text it refuses), and String.
  datatype Codec = Codec(
    clock: Clock, stringify: State -> string, parse: string -> Option<State>, decimal: int -> string)

  // ---- one decision ------------------------------------------------------------------------------

  predicate WithinBackoff(clock: Clock, lastAlert: Option<string>, now: Millis, backoffHours: int)
  {
    var last := Read(clock, lastAlert);
    last.Some? && now - last.value < backoffHours * MS_PER_HOUR
  }

  predicate ShouldComment(clock: Clock, previous: State, call: Call)
  {
    previous.signature != Some(call.signature)
    || !WithinBackoff(clock, previous.lastAlert, call.now, call.backoffHours)
  }

  function FirstState(clock: Clock, call: Call): State
  {
    var now := Some(clock.iso(call.now));
    State(Some(call.signature), now, now, now, Some(1))
  }

  function NextState(clock: Clock, previous: State, call: Call): State
  {
    var now := clock.iso(call.now);
    State(
      Some(call.signature),
      Or(previous.firstSeen, now),
      Some(now),
      if ShouldComment(clock, previous, call) then Some(now) else Or(previous.lastAlert, now),
      if previous.occurrences.Some? then Some(previous.occurrences.value + 1) else Some(1))
  }

  function ParseState(codec: Codec, body: string): State
  {
    match FirstPayload(body, PREFIX)
    case None => EMPTY
    case Some(payload) =>
      match codec.parse(payload)
      case None => EMPTY
      case Some(state) => state
  }

  function RenderBody(codec: Codec, body: string, state: State): string
  {
    RenderFirst(body, PREFIX, codec.stringify(state))
  }

  function RecurringLine(codec: Codec, state: State, call: Call): string
    requires state.firstSeen.Some? && state.occurrences.Some?
  {
    "Recurring alert: seen " + codec.decimal(state.occurrences.value) + " time(s) since "
    + state.firstSeen.value + "; latest run at " + codec.clock.iso(call.now) + "."
  }

  const SAME_FAILURE := "Comment suppressed: same " + "failure signature within the "
  const NEWEST := "h backoff window. " + "This body is the " + "newest state."

  function SuppressedLine(codec: Codec, call: Call): string
  {
    SAME_FAILURE + codec.decimal(call.backoffHours) + NEWEST
  }

  // The refreshed text: empty lines are left out.
  function Summary(codec: Codec, previous: State, call: Call): string
  {
    var recurring := RecurringLine(codec, NextState(codec.clock, previous, call), call);
    var text := if call.body == "" then recurring else call.body + "\n" + recurring;
    if ShouldComment(codec.clock, previous, call) then text else text + "\n" + SuppressedLine(codec, call)
  }

  function CommentText(call: Call): string
  {
    call.body + "\n\n<!-- alert-signature: " + call.signature + " -->"
  }

  // ---- the repository's issues -------------------------------------------------------------------

  // The open issues among the first n, newest first.
  function OpenNewest(issues: seq<Issue>, n: nat): (r: seq<nat>)
    requires n <= |issues|
    ensures forall k | 0 <= k < |r| :: r[k] < n && issues[r[k]].isOpen
  {
    if n == 0 then []
    else if issues[n - 1].isOpen then [n - 1] + OpenNewest(issues, n - 1)
    else OpenNewest(issues, n - 1)
  }

  lemma {:induction false} OpenListed(issues: seq<Issue>, n: nat)
    requires n <= |issues|
    ensures forall i | 0 <= i < n && issues[i].isOpen :: i in OpenNewest(issues, n)
  {
    if n > 0 { OpenListed(issues, n - 1); }
  }

  // One page of listForRepo.
  function Listed(issues: seq<Issue>): (r: seq<nat>)
    ensures forall k | 0 <= k < |r| :: r[k] < |issues| && issues[r[k]].isOpen
  {
    var all := OpenNewest(issues, |issues|);
    if |all| <= PER_PAGE then all else all[..PER_PAGE]
  }

  function FindTitle(issues: seq<Issue>, numbers: seq<nat>, title: string): (r: Option<nat>)
    requires forall k | 0 <= k < |numbers| :: numbers[k] < |issues|
    ensures r.Some? ==> r.value in numbers && issues[r.value].title == title
    ensures r.None? ==> forall k | 0 <= k < |numbers| :: issues[numbers[k]].title != title
  {
    if numbers == [] then None
    else if issues[numbers[0]].title == title then Some(numbers[0])
    else FindTitle(issues, numbers[1..], title)
  }

  function Existing(issues: seq<Issue>, title: string): (r: Option<nat>)
    ensures r.Some? ==> r.value < |issues| && issues[r.value].isOpen && issues[r.value].title == title
    ensures r.Some? ==> r.value in Listed(issues)
  {
    FindTitle(issues, Listed(issues), title)
  }

  function Route(codec: Codec, issues: seq<Issue>, call: Call): Outcome
  {
    match Existing(issues, call.title)
    case None =>
      Outcome(issues + [Issue(call.title, RenderBody(codec, call.body, FirstState(codec.clock, call)), true, [])],
              Created, |issues|, 1)
    case Some(i) =>
      var previous := ParseState(codec, issues[i].body);
      var next := NextState(codec.clock, previous, call);
      var body := RenderBody(codec, Summary(codec, previous, call), next);
      var comment := ShouldComment(codec.clock, previous, call);
      var comments := if comment then issues[i].comments + [CommentText(call)] else issues[i].comments;
      Outcome(issues[i := issues[i].(body := body, comments := comments)],
              if comment then Commented else Suppressed, i, next.occurrences.value)
  }

  function Close(issues: seq<Issue>, title: string, body: string): Outcome
  {
    match Existing(issues, title)
    case None => Outcome(issues, Noop, 0, 0)
    case Some(i) =>
      Outcome(issues[i := issues[i].(comments := issues[i].comments + [body], isOpen := false)], ClosedIssue, i, 0)
  }

  class Repository {
    var issues: seq<Issue>

    method Create(title: string, body: string) returns (number: nat)
      modifies this
      ensures number == |old(issues)| && issues == old(issues) + [Issue(title, body, true, [])]
    {
      number := |issues|;
      issues := issues + [Issue(title, body, true, [])];
    }

    method UpdateBody(number: nat, body: string)
      requires number < |issues|
      modifies this
      ensures issues == old(issues)[number := old(issues)[number].(body := body)]
    {
      issues := issues[number := issues[number].(body := body)];
    }

    method CreateComment(number: nat, body: string)
      requires number < |issues|
      modifies this
      ensures issues == old(issues)[number := old(issues)[number].(comments := old(issues)[number].comments + [body])]
    {
      issues := issues[number := issues[number].(comments := issues[number].comments + [body])];
    }

    method CloseIssue(number: nat)
      requires number < |issues|
      modifies this
      ensures issues == old(issues)[number := old(issues)[number].(isOpen := false)]
    {
      issues := issues[number := issues[number].(isOpen := false)];
    }

    method RouteAlertIssue(codec: Codec, call: Call) returns (action: Action, number: nat, occurrences: int)
      modifies this
      ensures Outcome(issues, action, number, occurrences) == Route(codec, old(issues), call)
    {
      hide Existing, RenderBody, ShouldComment, Summary, ParseState, FirstState, CommentText;
      var existing := Existing(issues, call.title);
      if existing.None? {
        number := Create(call.title, RenderBody(codec, call.body, FirstState(codec.clock, call)));
        return Created, number, 1;
      }
      number := existing.value;
      var previous := ParseState(codec, issues[number].body);
      var state := NextState(codec.clock, previous, call);
      occurrences := state.occurrences.value;
      UpdateBody(number, RenderBody(codec, Summary(codec, previous, call), state));
      if !ShouldComment(codec.clock, previous, call) {
        return Suppressed, number, occurrences;
      }
      CreateComment(number, CommentText(call));
      return Commented, number, occurrences;
    }

    method CloseAlertIssue(title: string, body: string) returns (action: Action, number: nat)
      modifies this
      ensures Outcome(issues, action, number, 0) == Close(old(issues), title, body)
    {
      var existing := Existing(issues, title);
      if existing.None? { return Noop, 0; }
      number := existing.value;
      CreateComment(number, body);
      CloseIssue(number);
      return ClosedIssue, number;
    }
  }

  // ---- one open issue per title ------------------------------------------------------------------

  datatype Event = Routed(call: Call) | Resolved(title: string, body: string)

  function Step(codec: Codec, issues: seq<Issue>, event: Event): seq<Issue>
  {
    match event
    case Routed(call) => Route(codec, issues, call).issues
    case Resolved(title, body) => Close(issues, title, body).issues
  }

  function After(codec: Codec, issues: seq<Issue>, events: seq<Event>): seq<Issue>
  {
    if events == [] then issues
    else Step(codec, After(codec, issues, events[..|events| - 1]), events[|events| - 1])
  }

  predicate OpenTitled(issues: seq<Issue>, i: nat, title: string)
    requires i < |issues|
  {
    issues[i].isOpen && issues[i].title == title
  }

  ghost predicate Vacant(issues: seq<Issue>, title: string)
  {
    forall i | 0 <= i < |issues| :: !OpenTitled(issues, i, title)
  }

  ghost predicate Unique(issues: seq<Issue>)
  {
    forall i, j | 0 <= i < j < |issues| && issues[i].isOpen :: !OpenTitled(issues, j, issues[i].title)
  }

  predicate Small(issues: seq<Issue>)
  {
    |OpenNewest(issues, |issues|)| <= 100
  }

  lemma SmallFinds(issues: seq<Issue>, title: string)
    requires Small(issues)
    ensures Existing(issues, title) == None <==> Vacant(issues, title)
  {
    OpenListed(issues, |issues|);
    var r := Existing(issues, title);
    if r.Some? { assert OpenTitled(issues, r.value, title); }
  }

  lemma UniqueAppend(issues: seq<Issue>, issue: Issue)
    requires Unique(issues) && issue.isOpen
    ensures Unique(issues + [issue]) <==> Vacant(issues, issue.title)
  {
    var next := issues + [issue];
    forall i | 0 <= i < |issues| ensures OpenTitled(next, i, issue.title) <==> OpenTitled(issues, i, issue.title) {
      assert next[i] == issues[i];
    }
    assert OpenTitled(next, |issues|, issue.title);
    forall i, j | 0 <= i < j < |issues| && next[i].isOpen ensures !OpenTitled(next, j, next[i].title) {
      assert next[i] == issues[i] && next[j] == issues[j];
      assert !OpenTitled(issues, j, issues[i].title);
    }
    if Vacant(issues, issue.title) {
      forall i | 0 <= i < |issues| && next[i].isOpen ensures !OpenTitled(next, |issues|, next[i].title) {
        assert !OpenTitled(issues, i, issue.title);
      }
    } else {
      var i :| 0 <= i < |issues| && OpenTitled(issues, i, issue.title);
      assert next[i].isOpen && OpenTitled(next, |issues|, next[i].title);
    }
  }

  lemma UniqueReplaced(issues: seq<Issue>, k: nat, issue: Issue)
    requires Unique(issues) && k < |issues| && issue.title == issues[k].title && issues[k].isOpen
    ensures Unique(issues[k := issue])
  {
    var next := issues[k := issue];
    forall i, j | 0 <= i < j < |next| && next[i].isOpen ensures !OpenTitled(next, j, next[i].title) {
      assert !OpenTitled(issues, j, issues[i].title);
    }
  }

  // A call leaves one open issue per title exactly when it does not create a second one, which
  // takes an open issue of that title that the first page does not show.
  lemma UniqueStep(codec: Codec, issues: seq<Issue>, event: Event)
    requires Unique(issues)
    ensures Unique(Step(codec, issues, event))
       <==> (event.Routed? && Existing(issues, event.call.title) == None ==> Vacant(issues, event.call.title))
  {
    hide Unique, Vacant, Existing, RenderBody, NextState, ShouldComment, Summary, ParseState, FirstState;
    match event
    case Routed(call) =>
      match Existing(issues, call.title) {
        case None => UniqueAppend(issues, Issue(call.title, RenderBody(codec, call.body, FirstState(codec.clock, call)), true, []));
        case Some(i) => UniqueReplaced(issues, i, Step(codec, issues, event)[i]);
      }
    case Resolved(title, body) =>
      match Existing(issues, title) {
        case None =>
        case Some(i) => UniqueReplaced(issues, i, Step(codec, issues, event)[i]);
      }
  }

  lemma {:induction false} AllOpenListed(issues: seq<Issue>, n: nat)
    requires n <= |issues| && forall i | 0 <= i < |issues| :: issues[i].isOpen
    ensures |OpenNewest(issues, n)| == n
    ensures forall k | 0 <= k < n :: OpenNewest(issues, n)[k] == n - 1 - k
  {
    if n > 0 { AllOpenListed(issues, n - 1); }
  }

  // One page and one more: the oldest issue is not seen, and a second one is opened for its title.
  function Crowd(title: string): seq<Issue>
  {
    seq(101, i requires 0 <= i => Issue(title + seq(i, _ => 'x'), "", true, []))
  }

  lemma HiddenIssueDuplicated(codec: Codec, call: Call)
    ensures Unique(Crowd(call.title)) && !Unique(Route(codec, Crowd(call.title), call).issues)
  {
    var issues := Crowd(call.title);
    AllOpenListed(issues, |issues|);
    forall i, j | 0 <= i < j < |issues| ensures issues[i].title != issues[j].title {
      assert |issues[i].title| == |call.title| + i && |issues[j].title| == |call.title| + j;
    }
    assert issues[0].title == call.title;
    assert OpenTitled(issues, 0, call.title);
    forall i | i in Listed(issues) ensures issues[i].title != call.title {
      assert |issues[i].title| == |call.title| + i;
    }
    UniqueStep(codec, issues, Routed(call));
  }

  // Before each event at most one page of issues is open.
  ghost predicate AlwaysSmall(codec: Codec, issues: seq<Issue>, events: seq<Event>)
  {
    forall k | 0 <= k < |events| :: Small(After(codec, issues, events[..k]))
  }

  lemma AlwaysSmallFront(codec: Codec, issues: seq<Issue>, events: seq<Event>)
    requires events != [] && AlwaysSmall(codec, issues, events)
    ensures AlwaysSmall(codec, issues, events[..|events| - 1])
    ensures Small(After(codec, issues, events[..|events| - 1]))
  {
    var front := events[..|events| - 1];
    forall k | 0 <= k < |front| ensures Small(After(codec, issues, front[..k])) {
      assert front[..k] == events[..k];
    }
  }

  lemma {:induction false} UniqueAfter(codec: Codec, issues: seq<Issue>, events: seq<Event>)
    requires Unique(issues) && AlwaysSmall(codec, issues, events)
    ensures Unique(After(codec, issues, events))
  {
    hide Unique, Small, Step, AlwaysSmall;
    if events != [] {
      var front, event := events[..|events| - 1], events[|events| - 1];
      AlwaysSmallFront(codec, issues, events);
      UniqueAfter(codec, issues, front);
      UniqueStep(codec, After(codec, issues, front), event);
      if event.Routed? { SmallFinds(After(codec, issues, front), event.call.title); }
    }
  }
}
