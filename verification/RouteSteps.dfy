/**
 * Alert calls request by request (scripts/ci/route-alert-issue.js): the listing, the create or
 * update, and the comment of several calls may interleave, and a comment request may fail.
 */
module RouteSteps {
  import opened Text
  import opened Marker
  import opened Stamps
  import opened RouteAlert
  import opened RouteLife

  type Caller = nat

  // Where a call stands. A listing keeps the number and the body it saw.
  datatype Pending =
    | Listed(call: Call, seen: Option<(nat, string)>, count: nat)
    | ToComment(call: Call, number: nat)

  datatype System = System(issues: seq<Issue>, pending: map<Caller, Pending>)

  datatype Request =
    | ListIssues(c: Caller, call: Call)
    | Write(c: Caller)
    | Comment(c: Caller)
    | CommentFails(c: Caller)
    | Resolve(title: string, body: string)   // closeAlertIssue, in one step

  // The issue that a listing finds, with its body.
  function Seen(issues: seq<Issue>, title: string): Option<(nat, string)>
  {
    match Existing(issues, title)
    case None => None
    case Some(i) => Some((i, issues[i].body))
  }

  function Forget(pending: map<Caller, Pending>, c: Caller): map<Caller, Pending>
  {
    map k | k in pending && k != c :: pending[k]
  }

  function Step(codec: Codec, s: System, r: Request): Option<System>
  {
    match r
    case ListIssues(c, call) =>
      if c in s.pending then None
      else Some(s.(pending := s.pending[c := Listed(call, Seen(s.issues, call.title), |s.issues|)]))
    case Write(c) =>
      if c in s.pending && s.pending[c].Listed? then Some(Written(codec, s, c)) else None
    case Comment(c) =>
      if c in s.pending && s.pending[c].ToComment? && s.pending[c].number < |s.issues| then
        var i := s.pending[c].number;
        var text := CommentText(s.pending[c].call);
        Some(System(s.issues[i := s.issues[i].(comments := s.issues[i].comments + [text])], Forget(s.pending, c)))
      else None
    case CommentFails(c) =>
      if c in s.pending && s.pending[c].ToComment? then Some(s.(pending := Forget(s.pending, c))) else None
    case Resolve(title, body) => Some(s.(issues := Close(s.issues, title, body).issues))
  }

  // The create or the update of a call that has listed.
  function Written(codec: Codec, s: System, c: Caller): System
    requires c in s.pending && s.pending[c].Listed?
  {
    var call := s.pending[c].call;
    match s.pending[c].seen
    case None =>
      System(s.issues + [Issue(call.title, RenderBody(codec, call.body, FirstState(codec.clock, call)), true, [])],
             Forget(s.pending, c))
    case Some((i, seen)) =>
      var previous := ParseState(codec, seen);
      var body := RenderBody(codec, Summary(codec, previous, call), NextState(codec.clock, previous, call));
      var issues := if i < |s.issues| then s.issues[i := s.issues[i].(body := body)] else s.issues;
      System(issues,
             if ShouldComment(codec.clock, previous, call) then s.pending[c := ToComment(call, i)]
             else Forget(s.pending, c))
  }

  // ---- one call alone ------------------------------------------------------------------------------

  // Without other requests in between, the requests of a call are the call.
  lemma AloneIsRoute(codec: Codec, s: System, c: Caller, call: Call)
    requires c !in s.pending
    ensures var listed := Step(codec, s, ListIssues(c, call)).value;
            var written := Step(codec, listed, Write(c)).value;
            var done := if c in written.pending then Step(codec, written, Comment(c)) else Some(written);
            && done.Some? && done.value.issues == Route(codec, s.issues, call).issues
            && done.value.pending == s.pending
  {
    hide Existing, RenderBody, FirstState, NextState, ShouldComment, Summary, ParseState, CommentText;
    var pending := s.pending[c := Listed(call, Seen(s.issues, call.title), |s.issues|)];
    assert Forget(pending, c) == s.pending;
    match Existing(s.issues, call.title)
    case None =>
    case Some(i) => assert Forget(pending[c := ToComment(call, i)], c) == s.pending;
  }

  // ---- runs ----------------------------------------------------------------------------------------

  datatype Run = Run(states: seq<System>, requests: seq<Request>)

  ghost predicate IsRun(codec: Codec, run: Run)
  {
    |run.states| == |run.requests| + 1 && run.states[0].pending == map[]
    && forall k | 0 <= k < |run.requests| :: Step(codec, run.states[k], run.requests[k]) == Some(run.states[k + 1])
  }

  // Every listing sees all open issues.
  ghost predicate SmallListings(run: Run)
    requires |run.states| == |run.requests| + 1
  {
    forall k | 0 <= k < |run.requests| && run.requests[k].ListIssues? :: Small(run.states[k].issues)
  }

  // No issue is ever opened again, and issues keep their titles.
  ghost predicate Older(a: seq<Issue>, b: seq<Issue>)
  {
    |a| <= |b| && forall i | 0 <= i < |a| :: a[i].title == b[i].title && (b[i].isOpen ==> a[i].isOpen)
  }

  lemma StepOlder(codec: Codec, s: System, r: Request)
    requires Step(codec, s, r).Some?
    ensures Older(s.issues, Step(codec, s, r).value.issues)
  {
    hide Existing, RenderBody, FirstState, NextState, ShouldComment, Summary, ParseState, CommentText;
  }

  // A call that saw no issue of its title: there was none when it listed, so an open one now is one
  // that was created since.
  ghost predicate Since(s: System)
  {
    forall c | c in s.pending && s.pending[c].Listed? && s.pending[c].seen.None? ::
      CreatedSince(s.issues, s.pending[c].count, s.pending[c].call.title)
  }

  ghost predicate CreatedSince(issues: seq<Issue>, count: nat, title: string)
  {
    count <= |issues| && forall i | 0 <= i < count :: !OpenTitled(issues, i, title)
  }

  lemma OlderSince(a: seq<Issue>, b: seq<Issue>, count: nat, title: string)
    requires Older(a, b) && CreatedSince(a, count, title)
    ensures CreatedSince(b, count, title)
  {
    forall i | 0 <= i < count ensures !OpenTitled(b, i, title) {
      assert !OpenTitled(a, i, title);
    }
  }

  lemma ListSince(issues: seq<Issue>, title: string)
    requires Small(issues) && Seen(issues, title).None?
    ensures CreatedSince(issues, |issues|, title)
  {
    SmallFinds(issues, title);
  }

  lemma StepSince(codec: Codec, s: System, r: Request)
    requires Step(codec, s, r).Some? && Since(s) && (r.ListIssues? ==> Small(s.issues))
    ensures Since(Step(codec, s, r).value)
  {
    var n := Step(codec, s, r).value;
    StepOlder(codec, s, r);
    StepPending(codec, s, r);
    hide Step, Small, Older, CreatedSince, Seen;
    forall c | c in n.pending && n.pending[c].Listed? && n.pending[c].seen.None?
      ensures CreatedSince(n.issues, n.pending[c].count, n.pending[c].call.title) {
      if c in s.pending && n.pending[c] == s.pending[c] {
        OlderSince(s.issues, n.issues, n.pending[c].count, n.pending[c].call.title);
      } else {
        ListSince(s.issues, n.pending[c].call.title);
      }
    }
  }

  // A listed call has listed before, or by this request.
  lemma StepPending(codec: Codec, s: System, r: Request)
    requires Step(codec, s, r).Some?
    ensures var n := Step(codec, s, r).value;
            forall c | c in n.pending && n.pending[c].Listed? ::
              (c in s.pending && n.pending[c] == s.pending[c])
              || (r.ListIssues? && n.issues == s.issues && n.pending[c].count == |s.issues|
                  && n.pending[c].seen == Seen(s.issues, n.pending[c].call.title))
  {
    hide Existing, RenderBody, FirstState, NextState, ShouldComment, Summary, ParseState, CommentText;
  }

  lemma RunStep(codec: Codec, run: Run, k: nat)
    requires IsRun(codec, run) && k < |run.requests|
    ensures Step(codec, run.states[k], run.requests[k]) == Some(run.states[k + 1])
  {
    hide Step;
  }

  lemma {:induction false} RunSince(codec: Codec, run: Run, k: nat)
    requires IsRun(codec, run) && SmallListings(run) && k < |run.states|
    ensures Since(run.states[k])
  {
    hide Step, Small;
    if k > 0 {
      RunSince(codec, run, k - 1);
      RunStep(codec, run, k - 1);
      StepSince(codec, run.states[k - 1], run.requests[k - 1]);
    }
  }

  // The request creates an issue although one of its title, created after the caller listed, is open.
  predicate Overtaken(s: System, r: Request)
  {
    r.Write? && r.c in s.pending && s.pending[r.c].Listed? && s.pending[r.c].seen.None?
    && exists i: nat :: s.pending[r.c].count <= i < |s.issues| && OpenTitled(s.issues, i, s.pending[r.c].call.title)
  }

  lemma StepUnique(codec: Codec, s: System, r: Request)
    requires Step(codec, s, r).Some? && Since(s) && Unique(s.issues)
    ensures Unique(Step(codec, s, r).value.issues) <==> !Overtaken(s, r)
  {
    var n := Step(codec, s, r).value;
    StepOlder(codec, s, r);
    if r.Write? && s.pending[r.c].seen.None? {
      var call := s.pending[r.c].call;
      UniqueAppend(s.issues, Issue(call.title, RenderBody(codec, call.body, FirstState(codec.clock, call)), true, []));
      assert CreatedSince(s.issues, s.pending[r.c].count, call.title);
      VacantSince(s.issues, s.pending[r.c].count, call.title);
    } else {
      StepLength(codec, s, r);
      UniqueOlder(s.issues, n.issues);
    }
  }

  lemma VacantSince(issues: seq<Issue>, count: nat, title: string)
    requires CreatedSince(issues, count, title)
    ensures Vacant(issues, title) <==> !exists i: nat :: count <= i < |issues| && OpenTitled(issues, i, title)
  {
    if !Vacant(issues, title) {
      var i :| 0 <= i < |issues| && OpenTitled(issues, i, title);
      assert i >= count;
    }
  }

  lemma StepLength(codec: Codec, s: System, r: Request)
    requires Step(codec, s, r).Some? && !(r.Write? && s.pending[r.c].seen.None?)
    ensures |Step(codec, s, r).value.issues| == |s.issues|
  {
    hide Existing, RenderBody, FirstState, NextState, ShouldComment, Summary, ParseState, CommentText;
  }

  lemma UniqueOlder(a: seq<Issue>, b: seq<Issue>)
    requires Unique(a) && Older(a, b) && |a| == |b|
    ensures Unique(b)
  {
    forall i, j | 0 <= i < j < |b| && b[i].isOpen ensures !OpenTitled(b, j, b[i].title) {
      assert !OpenTitled(a, j, a[i].title);
    }
  }

  // Over any interleaving of requests: there is one open issue per title at every point if and only
  // if no call creates one while another call's, created after the first one listed, is open.
  lemma UniqueExactly(codec: Codec, run: Run)
    requires IsRun(codec, run) && SmallListings(run) && Unique(run.states[0].issues)
    ensures (forall k | 0 <= k < |run.states| :: Unique(run.states[k].issues))
       <==> forall k | 0 <= k < |run.requests| :: !Overtaken(run.states[k], run.requests[k])
  {
    hide Step, Unique, Overtaken, Small;
    if forall k | 0 <= k < |run.states| :: Unique(run.states[k].issues) {
      forall k | 0 <= k < |run.requests| ensures !Overtaken(run.states[k], run.requests[k]) {
        RunSince(codec, run, k);
        RunStep(codec, run, k);
        StepUnique(codec, run.states[k], run.requests[k]);
        assert Unique(run.states[k + 1].issues);
      }
    }
    if forall k | 0 <= k < |run.requests| :: !Overtaken(run.states[k], run.requests[k]) {
      forall k | 0 <= k < |run.states| ensures Unique(run.states[k].issues) { UniqueUpTo(codec, run, k); }
    }
  }

  lemma {:induction false} UniqueUpTo(codec: Codec, run: Run, k: nat)
    requires IsRun(codec, run) && SmallListings(run) && Unique(run.states[0].issues) && k < |run.states|
    requires forall k | 0 <= k < |run.requests| :: !Overtaken(run.states[k], run.requests[k])
    ensures Unique(run.states[k].issues)
  {
    hide Step, Unique, Overtaken, Small;
    if k > 0 {
      UniqueUpTo(codec, run, k - 1);
      RunSince(codec, run, k - 1);
      RunStep(codec, run, k - 1);
      StepUnique(codec, run.states[k - 1], run.requests[k - 1]);
    }
  }

  // ---- two calls at once ---------------------------------------------------------------------------

  function Twice(call: Call): seq<Request>
  {
    [ListIssues(0, call), ListIssues(1, call), Write(0), Write(1)]
  }

  // Both calls list before either creates: both create.
  lemma RaceDuplicates(codec: Codec, call: Call)
    ensures var s0 := System([], map[]);
            exists run :: IsRun(codec, run) && SmallListings(run) && run.states[0] == s0
                          && run.requests == Twice(call) && Unique(run.states[3].issues)
                          && !Unique(run.states[4].issues)
  {
    hide RenderBody, FirstState;
    var issue := Issue(call.title, RenderBody(codec, call.body, FirstState(codec.clock, call)), true, []);
    var listed := Listed(call, None, 0);
    var s0, s1, s2 := System([], map[]), System([], map[0 := listed]), System([], map[0 := listed, 1 := listed]);
    var s3, s4 := System([issue], map[1 := listed]), System([issue, issue], map[]);
    assert Small([]) && Existing([], call.title) == None;
    assert map[][0 := listed] == map[0 := listed] && map[0 := listed][1 := listed] == s2.pending;
    assert Forget(s2.pending, 0) == s3.pending && Forget(s3.pending, 1) == map[];
    assert [] + [issue] == [issue] && [issue] + [issue] == [issue, issue];
    var run := Run([s0, s1, s2, s3, s4], Twice(call));
    assert Step(codec, s0, run.requests[0]) == Some(s1) && Step(codec, s1, run.requests[1]) == Some(s2);
    assert Step(codec, s2, run.requests[2]) == Some(s3) && Step(codec, s3, run.requests[3]) == Some(s4);
    assert OpenTitled(s4.issues, 1, s4.issues[0].title);
    assert IsRun(codec, run);
  }

  // ---- a comment that is not posted ----------------------------------------------------------------

  // List, update, and a comment request that fails.
  function Unposted(codec: Codec, s: System, c: Caller, call: Call): Option<System>
  {
    match Step(codec, s, ListIssues(c, call))
    case None => None
    case Some(listed) =>
      match Step(codec, listed, Write(c))
      case None => None
      case Some(written) => Step(codec, written, CommentFails(c))
  }

  lemma UnpostedBody(codec: Codec, s: System, c: Caller, call: Call, i: nat)
    requires c !in s.pending && Existing(s.issues, call.title) == Some(i)
    requires ShouldComment(codec.clock, ParseState(codec, s.issues[i].body), call)
    ensures var previous := ParseState(codec, s.issues[i].body);
            var failed := Unposted(codec, s, c, call);
            && failed.Some? && |failed.value.issues| == |s.issues|
            && failed.value.issues[i].comments == s.issues[i].comments
            && failed.value.issues[i].body
               == RenderBody(codec, Summary(codec, previous, call), NextState(codec.clock, previous, call))
  {
    hide Existing, RenderBody, FirstState, NextState, ShouldComment, Summary, ParseState, CommentText;
  }

  lemma AlertRecorded(clock: Clock, previous: State, call: Call, next: Call)
    requires Faithful(clock) && ShouldComment(clock, previous, call)
    requires next.signature == call.signature && next.now - call.now < next.backoffHours * MS_PER_HOUR
    ensures NextState(clock, previous, call).lastAlert == Some(clock.iso(call.now))
    ensures !ShouldComment(clock, NextState(clock, previous, call), next)
  {
    IsoClean(clock, call.now);
  }

  // The update has recorded the alert when its comment request fails: no comment is there, and the
  // next call of the same signature within the backoff adds none either.
  lemma LostAlert(codec: Codec, s: System, c: Caller, calls: seq<Call>, call: Call, next: Call, i: nat)
    requires Lawful(codec) && c !in s.pending && calls != [] && Small(s.issues) && Only(s.issues, i, call.title)
    requires s.issues[i] == IssueAfter(codec, call.title, calls) && forall x | x in calls + [call] :: PlainCall(x)
    requires ShouldComment(codec.clock, StateAfter(codec.clock, calls), call)
    requires next.signature == call.signature && next.now - call.now < next.backoffHours * MS_PER_HOUR
    ensures var failed := Unposted(codec, s, c, call);
            && failed.Some? && |failed.value.issues| == |s.issues|
            && failed.value.issues[i].comments == s.issues[i].comments
            && var state := ParseState(codec, failed.value.issues[i].body);
               state.lastAlert == Some(codec.clock.iso(call.now)) && !ShouldComment(codec.clock, state, next)
  {
    hide *;
    assert forall x | x in calls :: x in calls + [call];
    OnlyIndex(s.issues, i, call.title);
    OnlyFound(s.issues, i, call.title);
    StateReadBack(codec, call.title, calls);
    UnpostedBody(codec, s, c, call, i);
    IssueGrows(codec, call.title, calls, call);
    StateReadBack(codec, call.title, calls + [call]);
    LawfulClock(codec);
    StateGrows(codec.clock, calls, call);
    AlertRecorded(codec.clock, StateAfter(codec.clock, calls), call, next);
  }

  lemma OnlyIndex(issues: seq<Issue>, i: nat, title: string)
    requires Only(issues, i, title)
    ensures i < |issues|
  {
  }

  lemma StateGrows(clock: Clock, calls: seq<Call>, call: Call)
    requires calls != []
    ensures StateAfter(clock, calls + [call]) == NextState(clock, StateAfter(clock, calls), call)
  {
    assert (calls + [call])[..|calls|] == calls;
  }
}
