/**
 * A runner on its own (infra/scripts/apply_migrations.py): from any state with a free lock it can
 * run to the end, so no crash leaves the database stuck.
 */
module MigrationSolo {
  import opened Text
  import opened Migrations
  import opened MigrationProtocol

  lemma Extend(s: System, r: nat, a: Action, rest: Schedule)
    requires Enabled(s, r, a) && CanRun(Step(s, r, a), rest)
    ensures CanRun(s, [(r, a)] + rest) && After(s, [(r, a)] + rest) == After(Step(s, r, a), rest)
  {
    assert ([(r, a)] + rest)[1..] == rest;
  }

  // The loop from wherever the runner is to its end.
  lemma {:induction false} SoloLoop(s: System, r: nat) returns (schedule: Schedule)
    requires Inv(s) && r in s.runners && s.runners[r].pc.Applying?
    ensures CanRun(s, schedule)
    ensures var s' := After(s, schedule); var x := s.runners[r];
            && r in s'.runners && s'.runners[r].pc.Finished?
            && s'.runners[r].local == x.local && s'.runners[r].fetched == x.fetched
            && FilesOf(s'.effects) == FilesOf(s.effects) + Pending(x.local[x.next..], ManifestOf(x.fetched))
    decreases |s.runners[r].local| - s.runners[r].next
  {
    hide RunnerInv, ManifestOf, Matches, DistinctRows, Records, Own, Names, Present, Pending;
    var x := s.runners[r];
    RunnerNext(x, s.rows, Own(s.effects, r));
    PendingAt(x.local, x.next, ManifestOf(x.fetched));
    if x.next == |x.local| {
      schedule := [(r, Finish)];
      Extend(s, r, Finish, []);
      assert FilesOf(s.effects) + [] == FilesOf(s.effects);
    } else if !NextPending(x) {
      StepInv(s, r, Skip);
      var rest := SoloLoop(Step(s, r, Skip), r);
      schedule := [(r, Skip)] + rest;
      Extend(s, r, Skip, rest);
    } else {
      var t := ApplyOne(s, r);
      var rest := SoloLoop(t, r);
      schedule := ApplySteps(r) + rest;
      Concat(s, ApplySteps(r), rest);
    }
  }

  function ApplySteps(r: nat): Schedule
  {
    [(r, Execute), (r, Insert), (r, Commit)]
  }

  // One pending migration: its SQL, its row and the commit.
  lemma ApplyOne(s: System, r: nat) returns (t: System)
    requires Inv(s) && r in s.runners && s.runners[r].pc.Applying?
    requires s.runners[r].next < |s.runners[r].local| && NextPending(s.runners[r])
    ensures CanRun(s, ApplySteps(r)) && t == After(s, ApplySteps(r)) && Inv(t)
    ensures var x := s.runners[r];
            && r in t.runners && t.runners[r].pc.Applying? && t.runners[r].next == x.next + 1
            && t.runners[r].local == x.local && t.runners[r].fetched == x.fetched
            && FilesOf(t.effects) == FilesOf(s.effects) + [x.local[x.next]]
  {
    hide Inv, ManifestOf;
    var s1 := Step(s, r, Execute);
    StepInv(s, r, Execute);
    var s2 := Step(s1, r, Insert);
    StepInv(s1, r, Insert);
    t := Step(s2, r, Commit);
    StepInv(s2, r, Commit);
    Extend(s2, r, Commit, []);
    Extend(s1, r, Insert, [(r, Commit)]);
    Extend(s, r, Execute, [(r, Insert), (r, Commit)]);
    FilesTagged(s.effects, s.runners[r].local[s.runners[r].next], r);
  }

  lemma {:induction false} Concat(s: System, first: Schedule, rest: Schedule)
    requires CanRun(s, first) && CanRun(After(s, first), rest)
    ensures CanRun(s, first + rest) && After(s, first + rest) == After(After(s, first), rest)
    decreases |first|
  {
    hide Enabled, Step;
    if first == [] {
      assert first + rest == rest;
    } else {
      Concat(Step(s, first[0].0, first[0].1), first[1..], rest);
      assert (first + rest)[1..] == first[1..] + rest;
    }
  }

  lemma RunnerNext(x: Runner, rows: seq<Record>, own: seq<MigrationFile>)
    requires RunnerInv(x, rows, own)
    ensures x.next <= |x.local|
  {
  }

  lemma PendingAt(local: seq<MigrationFile>, n: nat, recorded: Manifest)
    requires n <= |local|
    ensures Pending(local[n..], recorded)
         == if n == |local| then []
            else if local[n].version in recorded then Pending(local[n + 1..], recorded)
            else [local[n]] + Pending(local[n + 1..], recorded)
  {
    if n < |local| { assert local[n..][1..] == local[n + 1..]; }
  }

  // A new runner takes the free lock, reads the rows and finds no drift.
  lemma SoloStart(s: System, r: nat, local: seq<MigrationFile>) returns (schedule: Schedule, t: System)
    requires Inv(s) && s.lock.None? && r !in s.runners && DistinctFiles(local)
    ensures CanRun(s, schedule) && t == After(s, schedule) && Inv(t)
    ensures r in t.runners && t.runners[r].pc.Locked? && t.runners[r].local == local && t.runners[r].next == 0
    ensures t.rows == s.rows && t.effects == s.effects && t.lock == Some(r)
  {
    hide Inv, ManifestOf;
    var s1 := Step(s, r, Start(local));
    StepInv(s, r, Start(local));
    t := Step(s1, r, Acquire);
    StepInv(s1, r, Acquire);
    Extend(s1, r, Acquire, []);
    Extend(s, r, Start(local), [(r, Acquire)]);
    schedule := [(r, Start(local)), (r, Acquire)];
  }

  lemma SoloRead(s: System, r: nat) returns (schedule: Schedule, t: System)
    requires Inv(s) && r in s.runners && s.runners[r].pc.Locked? && s.runners[r].next == 0
    requires Matches(s.runners[r].local, ManifestOf(s.rows))
    ensures CanRun(s, schedule) && t == After(s, schedule) && Inv(t)
    ensures r in t.runners && t.runners[r].pc.Applying? && t.runners[r].next == 0
    ensures t.runners[r].local == s.runners[r].local && t.runners[r].fetched == s.rows
    ensures t.rows == s.rows && t.effects == s.effects
  {
    hide Inv, ManifestOf, Matches;
    var s1 := Step(s, r, Ensure);
    StepInv(s, r, Ensure);
    var s2 := Step(s1, r, Read);
    StepInv(s1, r, Read);
    t := Step(s2, r, Validate);
    StepInv(s2, r, Validate);
    Extend(s2, r, Validate, []);
    Extend(s1, r, Read, [(r, Validate)]);
    Extend(s, r, Ensure, [(r, Read), (r, Validate)]);
    schedule := [(r, Ensure), (r, Read), (r, Validate)];
  }

  // From any state with the lock free, a new runner whose checkout matches the rows can run to the
  // end on its own, and adds exactly what was pending.
  lemma SoloRun(s: System, r: nat, local: seq<MigrationFile>) returns (schedule: Schedule)
    requires Inv(s) && s.lock.None? && r !in s.runners && DistinctFiles(local)
    requires Matches(local, ManifestOf(s.rows))
    ensures CanRun(s, schedule)
    ensures var s' := After(s, schedule);
            && r in s'.runners && s'.runners[r].pc.Finished? && s'.runners[r].local == local
            && s'.rows == s.rows + Records(Pending(local, ManifestOf(s.rows)))
            && FilesOf(s'.effects) == FilesOf(s.effects) + Pending(local, ManifestOf(s.rows))
  {
    hide *;
    var start, t1 := SoloStart(s, r, local);
    var read, t2 := SoloRead(t1, r);
    var loop := SoloLoop(t2, r);
    assert local[0..] == local;
    Concat(t1, read, loop);
    Concat(s, start, read + loop);
    schedule := start + (read + loop);
    RunInv(t2, loop);
    FinishedRows(After(s, schedule), r);
  }

  lemma FinishedRows(s: System, r: nat)
    requires Inv(s) && r in s.runners && s.runners[r].pc.Finished?
    ensures var x := s.runners[r]; s.rows == x.fetched + Records(Pending(x.local, ManifestOf(x.fetched)))
  {
    var x := s.runners[r];
    assert x.local[..|x.local|] == x.local;
  }
}
