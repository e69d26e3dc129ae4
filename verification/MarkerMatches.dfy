/**
 * What the two scripts' marker expression matches, by the meaning of the expression: leftmost, with
 * the shortest payload, and one match after another for the global form
 * (scripts/ci/local-source-watchdog-state.js, scripts/ci/route-alert-issue.js).
 */
module MarkerMatches {
  import opened Text
  import opened Marker

  // The expression matches s from start to end: the prefix and a brace, anything, a brace and " -->".
  ghost predicate IsMatch(s: string, prefix: string, m: Match)
  {
    && m.start + |prefix| + 1 + 5 <= m.end <= |s|
    && s[m.start..m.start + |prefix| + 1] == prefix + "{"
    && s[m.end - 5..m.end] == "} -->"
  }

  // The match an engine takes at or after a position: the first one, and the shortest from there.
  ghost predicate Leftmost(s: string, prefix: string, from: nat, m: Match)
  {
    && IsMatch(s, prefix, m) && from <= m.start
    && forall n: Match | IsMatch(s, prefix, n) && from <= n.start ::
         m.start < n.start || (m.start == n.start && m.end <= n.end)
  }

  ghost predicate NoMatch(s: string, prefix: string, from: nat)
  {
    forall n: Match :: IsMatch(s, prefix, n) ==> n.start < from
  }

  lemma MatchOccurs(s: string, prefix: string, m: Match)
    ensures IsMatch(s, prefix, m)
       <==> OccursAt(s, Opener(prefix), m.start) && OccursAt(s, CLOSER, m.end - 5)
            && m.start + |prefix| + 1 <= m.end - 5
  {
  }

  lemma FirstMatchExactly(s: string, prefix: string, from: nat, m: Match)
    ensures FirstMatch(s, prefix, from) == Some(m) <==> Leftmost(s, prefix, from, m)
    ensures FirstMatch(s, prefix, from) == None <==> NoMatch(s, prefix, from)
  {
    hide IsMatch, FirstMatch;
    FirstMatchIs(s, prefix, from);
  }

  lemma FirstMatchIs(s: string, prefix: string, from: nat)
    ensures match FirstMatch(s, prefix, from)
            case Some(m) => Leftmost(s, prefix, from, m)
            case None => NoMatch(s, prefix, from)
  {
    hide IsMatch;
    forall n: Match ensures IsMatch(s, prefix, n)
       <==> OccursAt(s, Opener(prefix), n.start) && OccursAt(s, CLOSER, n.end - 5)
            && n.start + |prefix| + 1 <= n.end - 5 {
      MatchOccurs(s, prefix, n);
    }
    hide OccursAt;
  }

  // ---- one match after another ---------------------------------------------------------------------

  function Behind(from: nat, ms: seq<Match>, k: int): nat
    requires k <= |ms|
  {
    if k <= 0 then from else ms[k - 1].end
  }

  // The matches a global search goes through.
  ghost predicate Scan(s: string, prefix: string, from: nat, ms: seq<Match>)
  {
    && (forall k | 0 <= k < |ms| :: Leftmost(s, prefix, Behind(from, ms, k), ms[k]))
    && NoMatch(s, prefix, Behind(from, ms, |ms|))
  }

  ghost predicate Apart(s: string, from: nat, ms: seq<Match>)
  {
    from <= |s| && forall k | 0 <= k < |ms| :: Behind(from, ms, k) <= ms[k].start <= ms[k].end <= |s|
  }

  // The text between the matches.
  ghost function Between(s: string, from: nat, ms: seq<Match>): string
    requires Apart(s, from, ms)
    decreases |ms|
  {
    if ms == [] then s[from..]
    else
      ApartRest(s, from, ms);
      s[from..ms[0].start] + Between(s, ms[0].end, ms[1..])
  }

  lemma ApartRest(s: string, from: nat, ms: seq<Match>)
    requires Apart(s, from, ms) && ms != []
    ensures from <= ms[0].start <= ms[0].end <= |s| && Apart(s, ms[0].end, ms[1..])
  {
    assert Behind(from, ms, 0) <= ms[0].start <= ms[0].end <= |s|;
    forall k | 0 <= k < |ms[1..]|
      ensures Behind(ms[0].end, ms[1..], k) <= ms[1..][k].start <= ms[1..][k].end <= |s| {
      assert Behind(from, ms, k + 1) <= ms[k + 1].start;
    }
  }

  lemma ApartCons(s: string, from: nat, m: Match, rest: seq<Match>)
    requires from <= m.start <= m.end <= |s| && Apart(s, m.end, rest)
    ensures Apart(s, from, [m] + rest)
    ensures Between(s, from, [m] + rest) == s[from..m.start] + Between(s, m.end, rest)
  {
    var ms := [m] + rest;
    forall k | 0 <= k < |ms| ensures Behind(from, ms, k) <= ms[k].start <= ms[k].end <= |s| {
      if k > 0 { assert Behind(m.end, rest, k - 1) <= rest[k - 1].start; }
    }
    assert ms[1..] == rest;
  }

  lemma ScanCons(s: string, prefix: string, from: nat, m: Match, rest: seq<Match>)
    requires Leftmost(s, prefix, from, m) && Scan(s, prefix, m.end, rest)
    ensures Scan(s, prefix, from, [m] + rest)
  {
    hide Leftmost, NoMatch;
    var ms := [m] + rest;
    assert Behind(from, ms, |ms|) == Behind(m.end, rest, |rest|);
    forall k | 0 <= k < |ms| ensures Leftmost(s, prefix, Behind(from, ms, k), ms[k]) {
      if k > 0 {
        assert Behind(from, ms, k) == Behind(m.end, rest, k - 1);
        assert Leftmost(s, prefix, Behind(m.end, rest, k - 1), rest[k - 1]);
      }
    }
  }

  // The global form goes through the matches in turn: the payload that is read is the last one's, and
  // what is left of the text is all that lies between them.
  lemma {:induction false} GlobalExactly(s: string, prefix: string, from: nat) returns (ms: seq<Match>)
    requires from <= |s|
    ensures Scan(s, prefix, from, ms) && Apart(s, from, ms)
    ensures StripAll(s, prefix, from) == Between(s, from, ms)
    ensures if ms == [] then LastPayload(s, prefix, from) == None
            else ms[|ms| - 1].start + |prefix| + 6 <= ms[|ms| - 1].end <= |s|
                 && LastPayload(s, prefix, from)
                    == Some(s[ms[|ms| - 1].start + |prefix|..ms[|ms| - 1].end - 4])
    decreases |s| - from
  {
    hide Leftmost, NoMatch, IsMatch, Find, Scan, Between, Apart;
    FirstMatchIs(s, prefix, from);
    match FirstMatch(s, prefix, from)
    case None =>
      ms := [];
      NothingLeft(s, prefix, from);
    case Some(m) =>
      MatchBounds(s, prefix, from, m);
      var rest := GlobalExactly(s, prefix, m.end);
      ScanCons(s, prefix, from, m, rest);
      ApartCons(s, from, m, rest);
      ms := [m] + rest;
  }

  lemma NothingLeft(s: string, prefix: string, from: nat)
    requires from <= |s| && NoMatch(s, prefix, from)
    ensures Scan(s, prefix, from, []) && Apart(s, from, []) && Between(s, from, []) == s[from..]
  {
  }

  lemma MatchBounds(s: string, prefix: string, from: nat, m: Match)
    requires Leftmost(s, prefix, from, m)
    ensures from <= m.start < m.start + |prefix| + 6 <= m.end <= |s|
  {
  }

  // The single form reads and removes the first match alone.
  lemma SingleExactly(s: string, prefix: string)
    ensures forall m | Leftmost(s, prefix, 0, m) ::
              && m.start + |prefix| + 6 <= m.end <= |s|
              && FirstPayload(s, prefix) == Some(s[m.start + |prefix|..m.end - 4])
              && StripFirst(s, prefix) == s[..m.start] + s[m.end..]
    ensures NoMatch(s, prefix, 0) ==> FirstPayload(s, prefix) == None && StripFirst(s, prefix) == s
  {
    hide Leftmost, NoMatch, IsMatch, FirstMatch;
    forall m | Leftmost(s, prefix, 0, m)
      ensures FirstMatch(s, prefix, 0) == Some(m) && m.start + |prefix| + 6 <= m.end <= |s|
    {
      FirstMatchExactly(s, prefix, 0, m);
      MatchBounds(s, prefix, 0, m);
    }
    FirstMatchExactly(s, prefix, 0, Match(0, 0));
  }
}
