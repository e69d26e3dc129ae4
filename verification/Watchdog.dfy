/**
 * The dispatch watchdog's backed-off comments (scripts/ci/local-source-watchdog-state.js,
 * decideDispatchComment): one decision, then whole runs with the issue body threaded through.
 */
module Watchdog {
  import opened Text
  import opened Marker
  import opened MarkerRoundTrip
  import opened Stamps
  import opened StateText

  const PREFIX := "<!-- dispatch-state: "

  // The state as JSON.parse leaves it. None stands for a field that is missing or, for
  // occurrences, not a finite number.
  datatype State = State(
    digest: Option<string>, firstSeen: Option<string>, lastSeen: Option<string>, lastComment: Option<string>,
    occurrences: Option<int>)

  const EMPTY := State(None, None, None, None, None)

  datatype Reason = DigestChanged | BackoffElapsed | Suppressed

  datatype Decision = Decision(reason: Reason, state: State)

  // One run; report is the freshly composed text, if the caller passes one.
  datatype Run = Run(digest: string, now: Millis, report: Option<string>)

  predicate Same(previous: State, digest: string)
  {
    previous.digest == Some(digest) && digest != ""
  }

  predicate Due(clock: Clock, lastComment: Option<string>, now: Millis, backoff: int)
  {
    var last := Read(clock, lastComment);
    last.None? || now - last.value >= backoff
  }

  function Decide(clock: Clock, previous: State, run: Run, backoff: int): Decision
  {
    var same := Same(previous, run.digest);
    var reason := if !same then DigestChanged
                  else if Due(clock, previous.lastComment, run.now, backoff) then BackoffElapsed
                  else Suppressed;
    var now := clock.iso(run.now);
    Decision(reason, State(
      Some(run.digest),
      if same then Or(previous.firstSeen, now) else Some(now),
      Some(now),
      if reason != Suppressed then Some(now) else Or(previous.lastComment, now),
      if same && previous.occurrences.Some? then Some(previous.occurrences.value + 1) else Some(1)))
  }

  // ---- runs over the state ---------------------------------------------------------------------

  function After(clock: Clock, start: State, runs: seq<Run>, backoff: int): State
  {
    if runs == [] then start
    else Decide(clock, After(clock, start, runs[..|runs| - 1], backoff), runs[|runs| - 1], backoff).state
  }

  function ReasonAt(clock: Clock, start: State, runs: seq<Run>, backoff: int, k: nat): Reason
    requires k < |runs|
  {
    Decide(clock, After(clock, start, runs[..k], backoff), runs[k], backoff).reason
  }

  predicate Comments(clock: Clock, start: State, runs: seq<Run>, backoff: int, k: nat)
    requires k < |runs|
  {
    ReasonAt(clock, start, runs, backoff, k) != Suppressed
  }

  // Run k reports the digest of the run before it; an empty digest never counts.
  predicate Continues(start: State, runs: seq<Run>, k: nat)
    requires k < |runs|
  {
    runs[k].digest != "" && Some(runs[k].digest) == if k == 0 then start.digest else Some(runs[k - 1].digest)
  }

  lemma AfterLast(clock: Clock, start: State, runs: seq<Run>, backoff: int, k: nat)
    requires k < |runs|
    ensures After(clock, start, runs[..k + 1], backoff) == Decide(clock, After(clock, start, runs[..k], backoff), runs[k], backoff).state
  {
    assert runs[..k + 1][..k] == runs[..k];
  }

  lemma DigestAfter(clock: Clock, start: State, runs: seq<Run>, backoff: int, k: nat)
    requires k < |runs|
    ensures Same(After(clock, start, runs[..k], backoff), runs[k].digest) <==> Continues(start, runs, k)
  {
    if k > 0 { AfterLast(clock, start, runs, backoff, k - 1); }
  }

  // The time of the last comment is in the state.
  lemma {:induction false} LastCommentKept(clock: Clock, start: State, runs: seq<Run>, backoff: int, j: nat, n: nat)
    requires j < n <= |runs| && Comments(clock, start, runs, backoff, j)
    requires forall k | j < k < n :: !Comments(clock, start, runs, backoff, k)
    ensures After(clock, start, runs[..n], backoff).lastComment == Some(clock.iso(runs[j].now))
  {
    AfterLast(clock, start, runs, backoff, n - 1);
    if j < n - 1 {
      LastCommentKept(clock, start, runs, backoff, j, n - 1);
      assert !Comments(clock, start, runs, backoff, n - 1);
    }
  }

  lemma {:induction false} NoCommentYet(clock: Clock, start: State, runs: seq<Run>, backoff: int, n: nat)
    requires n <= |runs| && forall k | 0 <= k < n :: !Comments(clock, start, runs, backoff, k)
    ensures After(clock, start, runs[..n], backoff).lastComment == start.lastComment
  {
    if n > 0 {
      AfterLast(clock, start, runs, backoff, n - 1);
      NoCommentYet(clock, start, runs, backoff, n - 1);
      assert !Comments(clock, start, runs, backoff, n - 1);
    }
  }

  // A run comments exactly when its digest is new or the last comment is a backoff old: no
  // suppressed run is that late, and no other run comments.
  lemma CommentsExactly(clock: Clock, start: State, runs: seq<Run>, backoff: int, j: nat, k: nat)
    requires Faithful(clock) && j < k < |runs| && Comments(clock, start, runs, backoff, j)
    requires forall i | j < i < k :: !Comments(clock, start, runs, backoff, i)
    ensures Comments(clock, start, runs, backoff, k)
       <==> !Continues(start, runs, k) || runs[k].now - runs[j].now >= backoff
  {
    LastCommentKept(clock, start, runs, backoff, j, k);
    IsoClean(clock, runs[j].now);
    DigestAfter(clock, start, runs, backoff, k);
  }

  lemma FirstCommentExactly(clock: Clock, start: State, runs: seq<Run>, backoff: int, k: nat)
    requires k < |runs| && forall i | 0 <= i < k :: !Comments(clock, start, runs, backoff, i)
    ensures Comments(clock, start, runs, backoff, k) <==> !Continues(start, runs, k) || Due(clock, start.lastComment, runs[k].now, backoff)
  {
    NoCommentYet(clock, start, runs, backoff, k);
    DigestAfter(clock, start, runs, backoff, k);
  }

  // Every run's reason, by its digest and the time since the last comment.
  lemma ReasonsExactly(clock: Clock, start: State, runs: seq<Run>, backoff: int, j: nat, k: nat)
    requires Faithful(clock) && j < k < |runs| && Comments(clock, start, runs, backoff, j)
    requires forall i | j < i < k :: !Comments(clock, start, runs, backoff, i)
    ensures ReasonAt(clock, start, runs, backoff, k) == DigestChanged <==> !Continues(start, runs, k)
    ensures ReasonAt(clock, start, runs, backoff, k) == BackoffElapsed
       <==> Continues(start, runs, k) && runs[k].now - runs[j].now >= backoff
    ensures ReasonAt(clock, start, runs, backoff, k) == Suppressed
       <==> Continues(start, runs, k) && runs[k].now - runs[j].now < backoff
  {
    LastCommentKept(clock, start, runs, backoff, j, k);
    IsoClean(clock, runs[j].now);
    DigestAfter(clock, start, runs, backoff, k);
  }

  // Before the first comment the time in the starting state counts; none, or one that is not read,
  // has elapsed.
  lemma FirstReasonsExactly(clock: Clock, start: State, runs: seq<Run>, backoff: int, k: nat)
    requires k < |runs| && forall i | 0 <= i < k :: !Comments(clock, start, runs, backoff, i)
    ensures var last := Read(clock, start.lastComment);
            && (ReasonAt(clock, start, runs, backoff, k) == DigestChanged <==> !Continues(start, runs, k))
            && (ReasonAt(clock, start, runs, backoff, k) == BackoffElapsed
                <==> Continues(start, runs, k) && (last == None || runs[k].now - last.value >= backoff))
            && (ReasonAt(clock, start, runs, backoff, k) == Suppressed
                <==> Continues(start, runs, k) && last.Some? && runs[k].now - last.value < backoff)
  {
    NoCommentYet(clock, start, runs, backoff, k);
    DigestAfter(clock, start, runs, backoff, k);
  }

  // What one run does to the counters.
  lemma CountersStep(clock: Clock, start: State, runs: seq<Run>, backoff: int, k: nat)
    requires Faithful(clock) && k < |runs|
    ensures var before, now := After(clock, start, runs[..k], backoff), After(clock, start, runs[..k + 1], backoff);
            && now.digest == Some(runs[k].digest) && now.lastSeen == Some(clock.iso(runs[k].now))
            && (!Continues(start, runs, k) ==> now.occurrences == Some(1) && now.firstSeen == Some(clock.iso(runs[k].now)))
            && (Continues(start, runs, k) ==>
                  && now.occurrences == Some(1 + if before.occurrences.Some? then before.occurrences.value else 0)
                  && now.firstSeen == Or(before.firstSeen, clock.iso(runs[k].now)))
  {
    AfterLast(clock, start, runs, backoff, k);
    DigestAfter(clock, start, runs, backoff, k);
  }

  lemma OrKeeps(clock: Clock, t: Millis, y: string)
    requires Faithful(clock)
    ensures Or(Some(clock.iso(t)), y) == Some(clock.iso(t))
  {
    assert PrintsWell(clock, t);
  }

  // The counters describe the streak of equal digests that began with run j.
  lemma {:induction false} StreakCounted(clock: Clock, start: State, runs: seq<Run>, backoff: int, j: nat, n: nat)
    requires Faithful(clock) && j < n <= |runs| && !Continues(start, runs, j)
    requires forall k | j < k < n :: Continues(start, runs, k)
    ensures var s := After(clock, start, runs[..n], backoff);
            && s.occurrences == Some(n - j) && s.firstSeen == Some(clock.iso(runs[j].now))
            && s.lastSeen == Some(clock.iso(runs[n - 1].now)) && s.digest == Some(runs[j].digest)
  {
    hide *;
    CountersStep(clock, start, runs, backoff, n - 1);
    if j < n - 1 {
      StreakCounted(clock, start, runs, backoff, j, n - 1);
      OrKeeps(clock, runs[j].now, clock.iso(runs[n - 1].now));
      SameAsBefore(start, runs, n - 1);
      CountersStep(clock, start, runs, backoff, n - 2);
    }
  }

  lemma SameAsBefore(start: State, runs: seq<Run>, k: nat)
    requires 0 < k < |runs| && Continues(start, runs, k)
    ensures runs[k].digest == runs[k - 1].digest
  {
  }

  // A streak that the starting state was already in.
  lemma {:induction false} StreakInherited(clock: Clock, start: State, runs: seq<Run>, backoff: int, n: nat)
    requires Faithful(clock) && 0 < n <= |runs| && forall k | 0 <= k < n :: Continues(start, runs, k)
    ensures var s := After(clock, start, runs[..n], backoff);
            && s.occurrences == Some(n + if start.occurrences.Some? then start.occurrences.value else 0)
            && s.firstSeen == Or(start.firstSeen, clock.iso(runs[0].now))
            && s.lastSeen == Some(clock.iso(runs[n - 1].now)) && s.digest == start.digest
  {
    hide *;
    CountersStep(clock, start, runs, backoff, n - 1);
    assert Continues(start, runs, n - 1);
    if n == 1 {
      NoRunYet(clock, start, runs, backoff);
    } else {
      StreakInherited(clock, start, runs, backoff, n - 1);
      OrTwice(clock, start.firstSeen, runs[0].now, clock.iso(runs[n - 1].now));
      SameAsBefore(start, runs, n - 1);
      CountersStep(clock, start, runs, backoff, n - 2);
    }
  }

  lemma NoRunYet(clock: Clock, start: State, runs: seq<Run>, backoff: int)
    requires runs != [] && Continues(start, runs, 0)
    ensures After(clock, start, runs[..0], backoff) == start && start.digest == Some(runs[0].digest)
  {
    assert runs[..0] == [];
  }

  lemma OrTwice(clock: Clock, x: Option<string>, t: Millis, y: string)
    requires Faithful(clock)
    ensures Or(Or(x, clock.iso(t)), y) == Or(x, clock.iso(t))
  {
    assert PrintsWell(clock, t);
  }

  // ---- how many comments -----------------------------------------------------------------------

  function CommentCount(clock: Clock, start: State, runs: seq<Run>, backoff: int, n: nat): nat
    requires n <= |runs|
  {
    if n == 0 then 0
    else CommentCount(clock, start, runs, backoff, n - 1) + if Comments(clock, start, runs, backoff, n - 1) then 1 else 0
  }

  // The runs after the first that do not continue the digest before them.
  function Changes(start: State, runs: seq<Run>, n: nat): nat
    requires n <= |runs|
  {
    if n <= 1 then 0 else Changes(start, runs, n - 1) + if Continues(start, runs, n - 1) then 0 else 1
  }

  ghost predicate NonDecreasing(runs: seq<Run>)
  {
    forall i, j | 0 <= i < j < |runs| :: runs[i].now <= runs[j].now
  }

  // The time of the last comment, as the state after n runs has it.
  function LastTime(clock: Clock, start: State, runs: seq<Run>, backoff: int, n: nat): Option<Millis>
    requires n <= |runs|
  {
    Read(clock, After(clock, start, runs[..n], backoff).lastComment)
  }

  // Comments that no change explains stand a backoff apart.
  ghost predicate Spaced(clock: Clock, start: State, runs: seq<Run>, backoff: int, n: nat, t: int)
    requires 0 < n <= |runs|
  {
    runs[0].now <= t <= runs[n - 1].now
    && (CommentCount(clock, start, runs, backoff, n) - 1 - Changes(start, runs, n)) * backoff <= t - runs[0].now
  }

  lemma {:induction false} SpacedComments(clock: Clock, start: State, runs: seq<Run>, backoff: int, n: nat)
    requires Faithful(clock) && 0 < n <= |runs| && NonDecreasing(runs) && backoff > 0
    ensures CommentCount(clock, start, runs, backoff, n) == 0 ==> Changes(start, runs, n) == 0
    ensures CommentCount(clock, start, runs, backoff, n) > 0 ==>
              LastTime(clock, start, runs, backoff, n).Some?
              && Spaced(clock, start, runs, backoff, n, LastTime(clock, start, runs, backoff, n).value)
    decreases n
  {
    hide *;
    CountStep(clock, start, runs, backoff, n);
    CommentStep(clock, start, runs, backoff, n - 1);
    if n > 1 { SpacedComments(clock, start, runs, backoff, n - 1); }
    if n == 1 || CommentCount(clock, start, runs, backoff, n - 1) == 0 {
      if Comments(clock, start, runs, backoff, n - 1) { FirstSpaced(clock, start, runs, backoff, n); }
    } else {
      NextSpaced(clock, start, runs, backoff, n, LastTime(clock, start, runs, backoff, n - 1).value);
    }
  }

  // What one run adds to the two counts.
  lemma CountStep(clock: Clock, start: State, runs: seq<Run>, backoff: int, n: nat)
    requires 0 < n <= |runs|
    ensures CommentCount(clock, start, runs, backoff, n)
         == CommentCount(clock, start, runs, backoff, n - 1) + if Comments(clock, start, runs, backoff, n - 1) then 1 else 0
    ensures n == 1 ==> CommentCount(clock, start, runs, backoff, n - 1) == 0 && Changes(start, runs, n) == 0
    ensures n > 1 && Continues(start, runs, n - 1) ==> Changes(start, runs, n) == Changes(start, runs, n - 1)
  {
    hide Comments, Continues;
  }

  lemma FirstSpaced(clock: Clock, start: State, runs: seq<Run>, backoff: int, n: nat)
    requires 0 < n <= |runs| && NonDecreasing(runs) && backoff > 0
    requires Comments(clock, start, runs, backoff, n - 1) && CommentCount(clock, start, runs, backoff, n) == 1
    ensures Spaced(clock, start, runs, backoff, n, runs[n - 1].now)
  {
    hide Decide, Comments, Continues;
    Later(runs, 0, n - 1);
    assert (0 - Changes(start, runs, n)) * backoff <= 0;
  }

  lemma NextSpaced(clock: Clock, start: State, runs: seq<Run>, backoff: int, n: nat, t: Millis)
    requires Faithful(clock) && 1 < n <= |runs| && NonDecreasing(runs) && backoff > 0
    requires LastTime(clock, start, runs, backoff, n - 1) == Some(t) && Spaced(clock, start, runs, backoff, n - 1, t)
    ensures Spaced(clock, start, runs, backoff, n, if Comments(clock, start, runs, backoff, n - 1) then runs[n - 1].now else t)
  {
    CommentStep(clock, start, runs, backoff, n - 1);
    hide Decide, Comments, Continues, After, Faithful;
    Later(runs, n - 2, n - 1);
    var excess := CommentCount(clock, start, runs, backoff, n - 1) - 1 - Changes(start, runs, n - 1);
    assert (excess + 1) * backoff == excess * backoff + backoff;
  }

  lemma Later(runs: seq<Run>, i: nat, j: nat)
    requires NonDecreasing(runs) && i <= j < |runs|
    ensures runs[i].now <= runs[j].now
  {
  }

  lemma CommentStep(clock: Clock, start: State, runs: seq<Run>, backoff: int, k: nat)
    requires Faithful(clock) && k < |runs|
    ensures var before, now := LastTime(clock, start, runs, backoff, k), LastTime(clock, start, runs, backoff, k + 1);
            && (Comments(clock, start, runs, backoff, k) ==> now == Some(runs[k].now))
            && (!Comments(clock, start, runs, backoff, k) ==> now == before && Continues(start, runs, k))
            && (Comments(clock, start, runs, backoff, k) && Continues(start, runs, k) && before.Some? ==>
                  runs[k].now - before.value >= backoff)
  {
    AfterLast(clock, start, runs, backoff, k);
    DigestAfter(clock, start, runs, backoff, k);
    IsoClean(clock, runs[k].now);
  }

  // From any starting state: one comment, one for every change of digest, and one for every
  // whole backoff that passes.
  lemma CommentsBounded(clock: Clock, start: State, runs: seq<Run>, backoff: int)
    requires Faithful(clock) && runs != [] && NonDecreasing(runs) && backoff > 0
    ensures CommentCount(clock, start, runs, backoff, |runs|)
         <= 1 + Changes(start, runs, |runs|) + (runs[|runs| - 1].now - runs[0].now) / backoff
  {
    hide *;
    var n := |runs|;
    var c, elapsed := CommentCount(clock, start, runs, backoff, n), runs[n - 1].now - runs[0].now;
    SpacedComments(clock, start, runs, backoff, n);
    Later(runs, 0, n - 1);
    if c > 0 {
      SpacedFits(clock, start, runs, backoff, n, LastTime(clock, start, runs, backoff, n).value);
      AtMostQuotient(c - 1 - Changes(start, runs, n), elapsed, backoff);
    } else {
      AtMostQuotient(0, elapsed, backoff);
    }
  }

  lemma SpacedFits(clock: Clock, start: State, runs: seq<Run>, backoff: int, n: nat, t: int)
    requires 0 < n <= |runs| && Spaced(clock, start, runs, backoff, n, t)
    ensures (CommentCount(clock, start, runs, backoff, n) - 1 - Changes(start, runs, n)) * backoff
         <= runs[n - 1].now - runs[0].now
  {
    hide CommentCount, Changes;
  }

  // The bound is reached: runs of one digest, each a backoff after the one before, all comment.
  ghost predicate Metronome(runs: seq<Run>, backoff: int)
  {
    forall i | 0 <= i < |runs| :: runs[i].digest == runs[0].digest && runs[i].now == runs[0].now + i * backoff
  }

  lemma {:induction false} AllComment(clock: Clock, runs: seq<Run>, backoff: int, n: nat)
    requires Faithful(clock) && n <= |runs| && runs != [] && backoff > 0 && Metronome(runs, backoff) && runs[0].digest != ""
    ensures CommentCount(clock, EMPTY, runs, backoff, n) == n && Changes(EMPTY, runs, n) == 0
    ensures n > 0 ==> Comments(clock, EMPTY, runs, backoff, n - 1)
  {
    hide *;
    if n == 0 {
      NothingCounted(clock, EMPTY, runs, backoff);
    } else {
      AllComment(clock, runs, backoff, n - 1);
      CountStep(clock, EMPTY, runs, backoff, n);
      BeatAt(runs, backoff, n - 1);
      if n == 1 {
        FirstCommentExactly(clock, EMPTY, runs, backoff, 0);
      } else {
        CommentsExactly(clock, EMPTY, runs, backoff, n - 2, n - 1);
      }
    }
  }

  lemma NothingCounted(clock: Clock, start: State, runs: seq<Run>, backoff: int)
    ensures CommentCount(clock, start, runs, backoff, 0) == 0 && Changes(start, runs, 0) == 0
  {
  }

  // The first run starts the streak; each later one continues it, a backoff after the one before.
  lemma BeatAt(runs: seq<Run>, backoff: int, k: nat)
    requires k < |runs| && Metronome(runs, backoff) && runs[0].digest != ""
    ensures k == 0 ==> !Continues(EMPTY, runs, k)
    ensures k > 0 ==> Continues(EMPTY, runs, k) && runs[k].now - runs[k - 1].now == backoff
  {
    if k > 0 { assert k * backoff - (k - 1) * backoff == backoff; }
  }

  lemma BoundReached(clock: Clock, runs: seq<Run>, backoff: int)
    requires Faithful(clock) && runs != [] && backoff > 0 && Metronome(runs, backoff) && runs[0].digest != ""
    ensures CommentCount(clock, EMPTY, runs, backoff, |runs|)
         == 1 + Changes(EMPTY, runs, |runs|) + (runs[|runs| - 1].now - runs[0].now) / backoff
  {
    AllComment(clock, runs, backoff, |runs|);
    var k := |runs| - 1;
    assert runs[k].now - runs[0].now == k * backoff;
    Whole(k, backoff);
  }

  lemma Whole(k: nat, d: int)
    requires d > 0
    ensures (k * d) / d == k
  {
    AtMostQuotient(k, k * d, d);
    var q := (k * d) / d;
    assert q * d <= k * d;
    assert q > k ==> (q - k) * d > 0;
    assert (q - k) * d == q * d - k * d;
  }

  // ---- runs over the issue body ------------------------------------------------------------------

  // toISOString and Date.parse, JSON.stringify, and JSON.parse with None for text it refuses.
  datatype Codec = Codec(clock: Clock, stringify: State -> string, parse: string -> Option<State>)

  // No string of the state holds the text that closes a marker.
  ghost predicate Clean(state: State)
  {
    CleanText(state.digest) && CleanText(state.firstSeen) && CleanText(state.lastSeen) && CleanText(state.lastComment)
  }

  ghost predicate PrintsState(codec: Codec, state: State)
  {
    var text := codec.stringify(state);
    IsPayload(text) && Closed(text) && codec.parse(text) == Some(state)
  }

  // JSON allows no markup after an opening brace.
  ghost predicate Refuses(codec: Codec, rest: string)
  {
    codec.parse("{\n\n<" + rest) == None
  }

  ghost predicate Lawful(codec: Codec)
  {
    Faithful(codec.clock) && (forall state | Clean(state) :: PrintsState(codec, state))
    && forall rest: string :: Refuses(codec, rest)
  }

  // The text that JSON.stringify writes, with a reader for it.
  const KEYS := ["digest", "first_seen_at", "last_seen_at", "last_comment_at"]

  function Stringify(state: State): string
  {
    Print(KEYS, [state.digest, state.firstSeen, state.lastSeen, state.lastComment], state.occurrences)
  }

  function ParseText(text: string): Option<State>
  {
    match Parse(KEYS, text)
    case None => None
    case Some((v, count)) => Some(State(v[0], v[1], v[2], v[3], count))
  }

  function ScriptCodec(clock: Clock): Codec
  {
    Codec(clock, Stringify, ParseText)
  }

  // Over any faithful clock that codec is lawful.
  lemma ScriptCodecLawful(clock: Clock)
    requires Faithful(clock)
    ensures Lawful(ScriptCodec(clock))
  {
    var codec := ScriptCodec(clock);
    forall state | Clean(state) ensures PrintsState(codec, state) {
      ParsePrinted(KEYS, [state.digest, state.firstSeen, state.lastSeen, state.lastComment], state.occurrences);
      StringifyClosed(state);
    }
    forall rest: string ensures Refuses(codec, rest) { ParseRefuses(KEYS, rest); }
  }

  // Which field of the state stands under which name in the marker.
  lemma StateNames(state: State)
    ensures Stringify(state)
         == "{" + (MemberText("digest", state.digest) + (MemberText("first_seen_at", state.firstSeen)
            + (MemberText("last_seen_at", state.lastSeen) + (MemberText("last_comment_at", state.lastComment)
            + (KeyText("occurrences") + (CountText(state.occurrences) + "}"))))))
  {
    PrintedInOrder(KEYS, [state.digest, state.firstSeen, state.lastSeen, state.lastComment], state.occurrences);
    hide MemberText, KeyText, CountText, Print;
  }

  lemma StringifyClosed(state: State)
    requires Clean(state)
    ensures IsPayload(Stringify(state)) && Closed(Stringify(state))
  {
    forall k | k in KEYS ensures PlainKey(k) {}
    PrintClosed(KEYS, [state.digest, state.firstSeen, state.lastSeen, state.lastComment], state.occurrences);
  }

  function ParseState(codec: Codec, body: string): State
  {
    match LastPayload(body, PREFIX, 0)
    case None => EMPTY
    case Some(payload) =>
      match codec.parse(payload)
      case None => EMPTY
      case Some(state) => state
  }

  function RenderBody(codec: Codec, body: string, state: State): string
  {
    RenderAll(body, PREFIX, codec.stringify(state))
  }

  function DecideDispatchComment(codec: Codec, body: string, run: Run, backoff: int): (Decision, string)
  {
    var decision := Decide(codec.clock, ParseState(codec, body), run, backoff);
    var content := match run.report case None => CleanAll(body, PREFIX) case Some(report) => report;
    (decision, RenderBody(codec, content, decision.state))
  }

  // The body after the runs, each written back before the next one starts.
  function BodyAfter(codec: Codec, body: string, runs: seq<Run>, backoff: int): string
  {
    if runs == [] then body
    else DecideDispatchComment(codec, BodyAfter(codec, body, runs[..|runs| - 1], backoff), runs[|runs| - 1], backoff).1
  }

  // What stands above the marker after the runs: the last report, or else what the first body held.
  function Visible(body: string, runs: seq<Run>): string
  {
    if runs == [] then CleanAll(body, PREFIX)
    else
      match runs[|runs| - 1].report
      case Some(report) => CleanAll(report, PREFIX)
      case None => Visible(body, runs[..|runs| - 1])
  }

  // Nothing that ends up above the marker holds an opener.
  ghost predicate PlainInputs(body: string, runs: seq<Run>)
  {
    NoOpener(CleanAll(body, PREFIX), PREFIX)
    && forall run | run in runs ::
         CleanText(Some(run.digest)) && (run.report.Some? ==> NoOpener(CleanAll(run.report.value, PREFIX), PREFIX))
  }

  lemma CleanTwice(t: string)
    requires NoOpener(CleanAll(t, PREFIX), PREFIX)
    ensures CleanAll(CleanAll(t, PREFIX), PREFIX) == CleanAll(t, PREFIX)
  {
    var s := CleanAll(t, PREFIX);
    NoOpenerFind(s, PREFIX);
    CleanIsTrimmed(StripAll(t, PREFIX, 0));
    assert StripAll(s, PREFIX, 0) == s;
  }

  lemma DecideClean(clock: Clock, previous: State, run: Run, backoff: int)
    requires Faithful(clock) && Clean(previous) && CleanText(Some(run.digest))
    ensures Clean(Decide(clock, previous, run, backoff).state)
  {
    IsoClean(clock, run.now);
  }

  lemma LawfulClock(codec: Codec)
    requires Lawful(codec)
    ensures Faithful(codec.clock)
  {
  }

  // One run on a body that the previous run wrote.
  lemma ReadBack(codec: Codec, s: string, state: State)
    requires Lawful(codec) && Clean(state) && NoOpener(s, PREFIX) && TrimEnd(s) == s
    ensures ParseState(codec, WithMarker(s, PREFIX, codec.stringify(state))) == state
    ensures CleanAll(WithMarker(s, PREFIX, codec.stringify(state)), PREFIX) == s
  {
    AlertPrefix(PREFIX);
    NoOpenerFind(s, PREFIX);
    assert PrintsState(codec, state);
    LastRead(s, PREFIX, codec.stringify(state), 0);
    CleanOverMarkerAll(s, PREFIX, codec.stringify(state));
  }

  lemma {:induction false} VisiblePlain(body: string, runs: seq<Run>)
    requires PlainInputs(body, runs)
    ensures NoOpener(Visible(body, runs), PREFIX) && TrimEnd(Visible(body, runs)) == Visible(body, runs)
    ensures CleanAll(Visible(body, runs), PREFIX) == Visible(body, runs)
  {
    hide CleanAll, NoOpener, TrimEnd, CleanText;
    if runs == [] {
      VisibleText(body);
    } else {
      var run := runs[|runs| - 1];
      assert run in runs;
      match run.report
      case Some(report) => VisibleText(report);
      case None => VisiblePlain(body, runs[..|runs| - 1]);
    }
  }

  lemma VisibleText(t: string)
    requires NoOpener(CleanAll(t, PREFIX), PREFIX)
    ensures TrimEnd(CleanAll(t, PREFIX)) == CleanAll(t, PREFIX)
    ensures CleanAll(CleanAll(t, PREFIX), PREFIX) == CleanAll(t, PREFIX)
  {
    CleanTwice(t);
    CleanIsTrimmed(StripAll(t, PREFIX, 0));
  }

  // The issue body carries the state from run to run: what is written holds one marker, with the
  // state that the runs lead to, below the text that is to be seen.
  lemma {:induction false} BodyCarriesState(codec: Codec, body: string, runs: seq<Run>, backoff: int)
    requires Lawful(codec) && PlainInputs(body, runs) && Clean(ParseState(codec, body))
    ensures var state := After(codec.clock, ParseState(codec, body), runs, backoff);
            && Clean(state)
            && ParseState(codec, BodyAfter(codec, body, runs, backoff)) == state
            && CleanAll(BodyAfter(codec, body, runs, backoff), PREFIX) == Visible(body, runs)
            && (runs != [] ==>
                  BodyAfter(codec, body, runs, backoff) == WithMarker(Visible(body, runs), PREFIX, codec.stringify(state)))
  {
    LawfulClock(codec);
    hide CleanAll, NoOpener, Decide, Clean, Lawful, CleanText, WithMarker, LastPayload, Faithful;
    if runs != [] {
      var front, run := runs[..|runs| - 1], runs[|runs| - 1];
      assert run in runs;
      BodyCarriesState(codec, body, front, backoff);
      var before := After(codec.clock, ParseState(codec, body), front, backoff);
      DecideClean(codec.clock, before, run, backoff);
      VisiblePlain(body, front);
      VisiblePlain(body, runs);
      ReadBack(codec, Visible(body, runs), After(codec.clock, ParseState(codec, body), runs, backoff));
    }
  }

  // So every decision taken on the body is the decision taken on the state.
  lemma DecisionsOnBody(codec: Codec, body: string, runs: seq<Run>, backoff: int, k: nat)
    requires Lawful(codec) && PlainInputs(body, runs) && Clean(ParseState(codec, body)) && k < |runs|
    ensures DecideDispatchComment(codec, BodyAfter(codec, body, runs[..k], backoff), runs[k], backoff).0.reason
         == ReasonAt(codec.clock, ParseState(codec, body), runs, backoff, k)
  {
    assert forall run | run in runs[..k] :: run in runs;
    BodyCarriesState(codec, body, runs[..k], backoff);
  }

  lemma LeftOpenerUnread(codec: Codec, state: State)
    requires PrintsState(codec, state) && forall rest: string :: Refuses(codec, rest)
    ensures ParseState(codec, RenderBody(codec, Opener(PREFIX), state)) == EMPTY
  {
    hide RenderAll, LastPayload, IsPayload, Closed, Opener, Parse, Print;
    AlertPrefix(PREFIX);
    var text := codec.stringify(state);
    LeftOpenerRead(PREFIX, text);
    AfterBrace(PREFIX, text);
    assert Refuses(codec, PREFIX[1..] + text);
  }

  lemma LawfulPrints(codec: Codec, state: State)
    requires Lawful(codec) && Clean(state)
    ensures Faithful(codec.clock) && PrintsState(codec, state) && forall rest: string :: Refuses(codec, rest)
  {
  }

  lemma EmptyChanges(clock: Clock, run: Run, backoff: int)
    ensures Decide(clock, EMPTY, run, backoff).reason == DigestChanged
  {
  }

  // A marker opener left in a report: the state that is written cannot be read back, so the next
  // run comments again, on the same digest and within the backoff.
  lemma LeftOpenerForgets(codec: Codec, body: string, run: Run, next: Run, backoff: int)
    requires Lawful(codec) && Clean(ParseState(codec, body)) && CleanText(Some(run.digest))
    requires run.report == Some(Opener(PREFIX))
    ensures var (decision, written) := DecideDispatchComment(codec, body, run, backoff);
            && ParseState(codec, written) == EMPTY != decision.state
            && DecideDispatchComment(codec, written, next, backoff).0.reason == DigestChanged
  {
    LawfulClock(codec);
    var previous := ParseState(codec, body);
    var state := Decide(codec.clock, previous, run, backoff).state;
    assert state.digest.Some?;
    DecideClean(codec.clock, previous, run, backoff);
    hide Lawful, Clean, Decide, PrintsState, Refuses, RenderBody, ParseState, Faithful, CleanText;
    LawfulPrints(codec, state);
    LeftOpenerUnread(codec, state);
    EmptyChanges(codec.clock, next, backoff);
  }
}
