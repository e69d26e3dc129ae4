/**
 * Whether the pool a lookup returns is open (apps/api/app/core/db.py): exactly when it is, and a run
 * in which it is not.
 */
module PoolReturns {
  import opened Text
  import opened PoolCache

  ghost predicate Closes(run: Run, k: nat, url: Url)
  {
    k < |run.steps| && run.steps[k].CloseOne? && run.steps[k].url == url
  }

  // Step d - 1 is the read, or the store, at which thread t gets pool id.
  ghost predicate Decides(run: Run, t: Thread, url: Url, id: nat, d: nat)
  {
    && 0 < d <= |run.steps| && |run.states| == |run.steps| + 1
    && (run.steps[d - 1] == FirstRead(t) || run.steps[d - 1] == SecondRead(t) || run.steps[d - 1] == Store(t))
    && (PcOf(run.states[d], t) == Done(url, id) || PcOf(run.states[d], t) == Leaving(url, id))
  }

  // A pool of the URL is closed by the close-all in progress at d, up to d, or by a later one, up to j.
  ghost predicate ClosedFor(run: Run, url: Url, d: nat, j: nat)
    requires d <= j <= |run.steps|
  {
    exists k :: 0 <= k < j && Closes(run, k, url) && (d <= k || NoClear(run, k, d))
  }

  // ---- a pool in the dictionary --------------------------------------------------------------------

  lemma CloseNeedsEntry(s: State, step: Step)
    requires step.CloseOne? && Next(s, step).Some?
    ensures step.url in s.cache
  {
  }

  lemma OpenUnchanged(s: State, step: Step, id: nat)
    requires Inv(s) && Next(s, step).Some? && id < |s.pools|
    ensures var n := Next(s, step).value;
            && id < |n.pools| && n.pools[id].url == s.pools[id].url
            && n.pools[id].isOpen == (s.pools[id].isOpen && !(step.CloseOne? && step.url in s.cache && s.cache[step.url] == id))
  {
    assert Critical(PcOf(s, step.t)) <==> s.lock == Some(step.t);
  }

  lemma ClearClosed(s: State, step: Step)
    requires Inv(s) && Next(s, step).Some? && step.Clear?
    ensures forall url | url in s.cache && s.cache[url] < |s.pools| :: !s.pools[s.cache[url]].isOpen
  {
    assert Critical(PcOf(s, step.t)) <==> s.lock == Some(step.t);
  }


  lemma NoClearSplit(run: Run, k: nat, m: nat)
    requires k < m <= |run.steps|
    ensures NoClear(run, k, m) <==> NoClear(run, k, m - 1) && !run.steps[m - 1].Clear?
  {
  }

  // A pool in the dictionary is open exactly when it was not closed since the last clear; and a URL
  // that is not in the dictionary had none closed since.
  lemma {:induction false} CachedSince(run: Run, url: Url, m: nat)
    requires IsRun(run) && m <= |run.steps|
    ensures |run.states| == |run.steps| + 1
    ensures var s := run.states[m];
            && (url in s.cache ==>
                  s.cache[url] < |s.pools| && (s.pools[s.cache[url]].isOpen <==> !ClosedFor(run, url, m, m)))
            && (url !in s.cache ==> !ClosedFor(run, url, m, m))
  {
    if m > 0 {
      CachedSince(run, url, m - 1);
      RunStep(run, m - 1);
      ClosedStep(run, url, m);
      hide ClosedFor, IsRun, Inv, Next, Closes;
      CachedStep(run.states[m - 1], run.steps[m - 1], url);
    }
  }

  // What one step does to what is in the dictionary for the URL.
  lemma CachedStep(s: State, step: Step, url: Url)
    requires Inv(s) && Next(s, step).Some? && (url in s.cache ==> s.cache[url] < |s.pools|)
    ensures var n := Next(s, step).value;
            && (url in n.cache ==> n.cache[url] < |n.pools|)
            && (step.Clear? ==> url !in n.cache)
            && (!step.Clear? && url in s.cache ==> url in n.cache && n.cache[url] == s.cache[url])
            && (url in s.cache && url in n.cache ==>
                 (n.pools[n.cache[url]].isOpen <==> s.pools[s.cache[url]].isOpen && !(step.CloseOne? && step.url == url)))
            && (url !in s.cache && url in n.cache ==> n.pools[n.cache[url]].isOpen)
            && (step.CloseOne? && step.url == url ==> url in s.cache)
            && (url in s.cache && url in n.cache ==> !step.Clear?)
  {
    assert Critical(PcOf(s, step.t)) <==> s.lock == Some(step.t);
  }

  lemma ClosedStep(run: Run, url: Url, m: nat)
    requires 0 < m <= |run.steps|
    ensures ClosedFor(run, url, m, m)
       <==> !run.steps[m - 1].Clear? && (Closes(run, m - 1, url) || ClosedFor(run, url, m - 1, m - 1))
  {
    if ClosedFor(run, url, m, m) {
      var k :| 0 <= k < m && Closes(run, k, url) && NoClear(run, k, m);
      NoClearSplit(run, k, m);
    }
    if !run.steps[m - 1].Clear? && ClosedFor(run, url, m - 1, m - 1) {
      var k :| 0 <= k < m - 1 && Closes(run, k, url) && NoClear(run, k, m - 1);
      NoClearSplit(run, k, m);
    }
    if !run.steps[m - 1].Clear? && Closes(run, m - 1, url) {
      assert NoClear(run, m - 1, m);
    }
  }

  // ---- after the decision --------------------------------------------------------------------------

  lemma ClosedLater(run: Run, url: Url, d: nat, m: nat)
    requires d < m <= |run.steps|
    ensures ClosedFor(run, url, d, m) <==> Closes(run, m - 1, url) || ClosedFor(run, url, d, m - 1)
  {
  }

  // The pool that the dictionary had at d is open at j exactly when nothing closed it; and while it
  // is open, the dictionary has it.
  lemma {:induction false} OpenSince(run: Run, url: Url, id: nat, d: nat, j: nat)
    requires IsRun(run) && d <= j <= |run.steps| && |run.states| == |run.steps| + 1
    requires url in run.states[d].cache && run.states[d].cache[url] == id
    ensures var s := run.states[j];
            && id < |s.pools| && s.pools[id].url == url
            && (s.pools[id].isOpen <==> !ClosedFor(run, url, d, j))
            && (s.pools[id].isOpen ==> url in s.cache && s.cache[url] == id)
    decreases j
  {
    hide ClosedFor, IsRun, Next, Inv;
    if d == j {
      CachedSince(run, url, d);
      RunInv(run, d);
      EntryUrl(run.states[d], url);
    } else {
      OpenSince(run, url, id, d, j - 1);
      RunStep(run, j - 1);
      ClosedLater(run, url, d, j);
      SinceStep(run.states[j - 1], run.steps[j - 1], url, id);
    }
  }

  lemma SinceStep(s: State, step: Step, url: Url, id: nat)
    requires Inv(s) && Next(s, step).Some? && id < |s.pools| && s.pools[id].url == url
    requires s.pools[id].isOpen ==> url in s.cache && s.cache[url] == id
    ensures var n := Next(s, step).value;
            && id < |n.pools| && n.pools[id].url == url
            && (n.pools[id].isOpen <==> s.pools[id].isOpen && !(step.CloseOne? && step.url == url))
            && (n.pools[id].isOpen ==> url in n.cache && n.cache[url] == id)
  {
    OpenUnchanged(s, step, id);
    if s.pools[id].isOpen {
      CachedStep(s, step, url);
      if step.Clear? { ClearClosed(s, step); }
      if step.CloseOne? { CloseNeedsEntry(s, step); EntryUrl(s, step.url); }
    }
  }

  lemma EntryUrl(s: State, url: Url)
    requires Inv(s) && url in s.cache
    ensures s.cache[url] < |s.pools| && s.pools[s.cache[url]].url == url
  {
  }

  // ---- the lookup ----------------------------------------------------------------------------------

  lemma DecidedCached(run: Run, t: Thread, url: Url, id: nat, d: nat)
    requires IsRun(run) && Decides(run, t, url, id, d)
    ensures url in run.states[d].cache && run.states[d].cache[url] == id
  {
    RunStep(run, d - 1);
  }

  predicate Undecided(pc: Pc, url: Url)
  {
    || NotLooking(pc) || pc == Started(url) || pc == Missed(url) || pc == Entered(url) || pc == Absent(url)
    || (pc.Built? && pc.url == url) || pc == Failed(url)
  }

  predicate Got(pc: Pc, url: Url, id: nat)
  {
    pc == Done(url, id) || pc == Leaving(url, id)
  }

  lemma LookupStep(s: State, step: Step, t: Thread, url: Url)
    requires Next(s, step).Some? && step != Return(t) && !(step.Begin? && step.t == t)
    ensures var n := Next(s, step).value;
            && (Undecided(PcOf(s, t), url) && !Undecided(PcOf(n, t), url) ==>
                 && (PcOf(n, t).Done? || PcOf(n, t).Leaving?) && PcOf(n, t).url == url
                 && (step == FirstRead(t) || step == SecondRead(t) || step == Store(t)))
            && (forall id: nat :: Got(PcOf(s, t), url, id) ==> Got(PcOf(n, t), url, id))
  {
    StepPcs(s, step);
  }

  // What is known of a lookup at state k: nothing yet, or a pool and where it was decided.
  ghost predicate Known(run: Run, t: Thread, url: Url, i: nat, k: nat)
    requires k < |run.states|
  {
    var pc := PcOf(run.states[k], t);
    Undecided(pc, url)
    || ((pc.Done? || pc.Leaving?) && pc.url == url && exists d :: i < d <= k && Decides(run, t, url, pc.id, d))
  }

  lemma JustBegun(s: State, t: Thread, url: Url)
    requires Next(s, Begin(t, url)).Some?
    ensures Undecided(PcOf(Next(s, Begin(t, url)).value, t), url)
  {
  }

  lemma LookupStepAt(run: Run, t: Thread, url: Url, id: nat, i: nat, j: nat, k: nat)
    requires Lookup(run, t, url, id, i, j) && i <= k < j
    ensures if k == i then run.steps[k] == Begin(t, url)
            else run.steps[k] != Return(t) && !(run.steps[k].Begin? && run.steps[k].t == t)
  {
  }

  lemma KnownStep(run: Run, t: Thread, url: Url, i: nat, k: nat)
    requires i + 1 < k <= |run.steps| && |run.states| == |run.steps| + 1
    requires Next(run.states[k - 1], run.steps[k - 1]) == Some(run.states[k]) && Known(run, t, url, i, k - 1)
    requires run.steps[k - 1] != Return(t) && !(run.steps[k - 1].Begin? && run.steps[k - 1].t == t)
    ensures Known(run, t, url, i, k)
  {
    var s := run.states[k - 1];
    LookupStep(s, run.steps[k - 1], t, url);
    hide Next, Undecided;
    var pc := PcOf(run.states[k], t);
    if Undecided(PcOf(s, t), url) {
      if !Undecided(pc, url) { assert Decides(run, t, url, pc.id, k); }
    } else {
      var id := PcOf(s, t).id;
      var d :| i < d <= k - 1 && Decides(run, t, url, id, d);
      assert Got(PcOf(s, t), url, id);
      assert Got(pc, url, id);
    }
  }

  lemma {:induction false} LookupKnown(run: Run, t: Thread, url: Url, id: nat, i: nat, j: nat, k: nat)
    requires IsRun(run) && Lookup(run, t, url, id, i, j) && i < k <= j
    ensures k < |run.states| && Known(run, t, url, i, k)
  {
    hide IsRun, Inv, Next, Undecided;
    RunStep(run, k - 1);
    LookupStepAt(run, t, url, id, i, j, k - 1);
    if k == i + 1 {
      JustBegun(run.states[i], t, url);
    } else {
      LookupKnown(run, t, url, id, i, j, k - 1);
      KnownStep(run, t, url, i, k);
    }
  }

  // Every lookup that returns a pool has a step at which it got it.
  lemma LookupDecides(run: Run, t: Thread, url: Url, id: nat, i: nat, j: nat)
    requires IsRun(run) && Lookup(run, t, url, id, i, j)
    ensures exists d :: i < d <= j && Decides(run, t, url, id, d)
  {
    LookupKnown(run, t, url, id, i, j, j);
  }

  // The pool a lookup returns is one of its URL, and is open exactly when no pool of the URL was
  // closed by the close-all in progress at the deciding step, up to it, nor by any from it up to the
  // return.
  lemma ReturnsOpen(run: Run, t: Thread, url: Url, id: nat, i: nat, j: nat, d: nat)
    requires IsRun(run) && Lookup(run, t, url, id, i, j) && i < d <= j && Decides(run, t, url, id, d)
    ensures id < |run.states[j].pools| && run.states[j].pools[id] == Pool(url, !ClosedFor(run, url, d, j))
  {
    DecidedCached(run, t, url, id, d);
    OpenSince(run, url, id, d, j);
  }

  // ---- a closed pool is returned -------------------------------------------------------------------

  // Thread 0 builds the pool; thread 1 closes it and has not cleared the dictionary when thread 2
  // reads it there, without the lock.
  function StaleSteps(url: Url): seq<Step>
  {
    [Begin(0, url), FirstRead(0), Acquire(0), SecondRead(0), Construct(0), Store(0), Release(0),
     BeginClose(1), Acquire(1), CloseOne(1, url), Begin(2, url), FirstRead(2), Return(2)]
  }

  function One(a: Pc): map<Thread, Pc> { map[0 := a] }

  function Two(a: Pc, b: Pc): map<Thread, Pc> { map[0 := a, 1 := b] }

  function Three(a: Pc, b: Pc, c: Pc): map<Thread, Pc> { map[0 := a, 1 := b, 2 := c] }

  function Live(url: Url): seq<Pool> { [Pool(url, true)] }

  function Shut(url: Url): seq<Pool> { [Pool(url, false)] }

  // The states the steps go through.
  function StaleState(url: Url, k: nat): State
    requires k <= 13
  {
    match k
    case 0 => INITIAL
    case 1 => State([], map[], None, One(Started(url)))
    case 2 => State([], map[], None, One(Missed(url)))
    case 3 => State([], map[], Some(0), One(Entered(url)))
    case 4 => State([], map[], Some(0), One(Absent(url)))
    case 5 => State(Live(url), map[], Some(0), One(Built(url, 0)))
    case 6 => State(Live(url), map[url := 0], Some(0), One(Leaving(url, 0)))
    case 7 => State(Live(url), map[url := 0], None, One(Done(url, 0)))
    case 8 => State(Live(url), map[url := 0], None, Two(Done(url, 0), CloseWaiting))
    case 9 => State(Live(url), map[url := 0], Some(1), Two(Done(url, 0), Closing({url})))
    case 10 => State(Shut(url), map[url := 0], Some(1), Two(Done(url, 0), Closing({})))
    case 11 => State(Shut(url), map[url := 0], Some(1), Three(Done(url, 0), Closing({}), Started(url)))
    case 12 => State(Shut(url), map[url := 0], Some(1), Three(Done(url, 0), Closing({}), Done(url, 0)))
    case _ => State(Shut(url), map[url := 0], Some(1), Three(Done(url, 0), Closing({}), Idle))
  }

  lemma OneUpdate(a: Pc, b: Pc)
    ensures One(a)[0 := b] == One(b) && One(a)[1 := b] == Two(a, b) && map[][0 := b] == One(b)
  {
  }

  lemma TwoUpdate(a: Pc, b: Pc, c: Pc)
    ensures Two(a, b)[1 := c] == Two(a, c) && Two(a, b)[2 := c] == Three(a, b, c)
  {
  }

  lemma Stale0(url: Url)
    ensures Next(StaleState(url, 0), Begin(0, url)) == Some(StaleState(url, 1))
  {
    OneUpdate(Idle, Started(url));
  }

  lemma Stale1(url: Url)
    ensures Next(StaleState(url, 1), FirstRead(0)) == Some(StaleState(url, 2))
  {
    OneUpdate(Started(url), Missed(url));
  }

  lemma Stale2(url: Url)
    ensures Next(StaleState(url, 2), Acquire(0)) == Some(StaleState(url, 3))
  {
    OneUpdate(Missed(url), Entered(url));
  }

  lemma Stale3(url: Url)
    ensures Next(StaleState(url, 3), SecondRead(0)) == Some(StaleState(url, 4))
  {
    OneUpdate(Entered(url), Absent(url));
  }

  lemma Stale4(url: Url)
    ensures Next(StaleState(url, 4), Construct(0)) == Some(StaleState(url, 5))
  {
    OneUpdate(Absent(url), Built(url, 0));
    assert [] + Live(url) == Live(url);
  }

  lemma Stale5(url: Url)
    ensures Next(StaleState(url, 5), Store(0)) == Some(StaleState(url, 6))
  {
    OneUpdate(Built(url, 0), Leaving(url, 0));
  }

  lemma Stale6(url: Url)
    ensures Next(StaleState(url, 6), Release(0)) == Some(StaleState(url, 7))
  {
    OneUpdate(Leaving(url, 0), Done(url, 0));
  }

  lemma Stale7(url: Url)
    ensures Next(StaleState(url, 7), BeginClose(1)) == Some(StaleState(url, 8))
  {
    OneUpdate(Done(url, 0), CloseWaiting);
  }

  lemma Stale8(url: Url)
    ensures Next(StaleState(url, 8), Acquire(1)) == Some(StaleState(url, 9))
  {
    TwoUpdate(Done(url, 0), CloseWaiting, Closing({url}));
    var dict: map<Url, nat> := map[url := 0];
    assert dict.Keys == {url};
  }

  lemma Stale9(url: Url)
    ensures Next(StaleState(url, 9), CloseOne(1, url)) == Some(StaleState(url, 10))
  {
    TwoUpdate(Done(url, 0), Closing({url}), Closing({}));
    assert {url} - {url} == {};
    assert Live(url)[0 := Pool(url, false)] == Shut(url);
  }

  lemma Stale10(url: Url)
    ensures Next(StaleState(url, 10), Begin(2, url)) == Some(StaleState(url, 11))
  {
    TwoUpdate(Done(url, 0), Closing({}), Started(url));
  }

  lemma Stale11(url: Url)
    ensures Next(StaleState(url, 11), FirstRead(2)) == Some(StaleState(url, 12))
  {
    assert Three(Done(url, 0), Closing({}), Started(url))[2 := Done(url, 0)] == Three(Done(url, 0), Closing({}), Done(url, 0));
  }

  lemma Stale12(url: Url)
    ensures Next(StaleState(url, 12), Return(2)) == Some(StaleState(url, 13))
  {
    assert Three(Done(url, 0), Closing({}), Done(url, 0))[2 := Idle] == Three(Done(url, 0), Closing({}), Idle);
  }

  function StaleStates(url: Url): seq<State>
  {
    seq(14, k requires 0 <= k < 14 => StaleState(url, k))
  }

  lemma StaleStep(url: Url, k: nat)
    requires k < 13
    ensures Next(StaleState(url, k), StaleSteps(url)[k]) == Some(StaleState(url, k + 1))
  {
    hide Next, StaleState;
    match k
    case 0 => Stale0(url);
    case 1 => Stale1(url);
    case 2 => Stale2(url);
    case 3 => Stale3(url);
    case 4 => Stale4(url);
    case 5 => Stale5(url);
    case 6 => Stale6(url);
    case 7 => Stale7(url);
    case 8 => Stale8(url);
    case 9 => Stale9(url);
    case 10 => Stale10(url);
    case 11 => Stale11(url);
    case _ => Stale12(url);
  }

  lemma StaleRun(url: Url)
    ensures IsRun(Run(StaleStates(url), StaleSteps(url)))
  {
    assert StaleState(url, 0) == INITIAL;
    hide Next, StaleState;
    forall k | 0 <= k < 13 ensures Next(StaleState(url, k), StaleSteps(url)[k]) == Some(StaleState(url, k + 1)) {
      StaleStep(url, k);
    }
  }

  // The run is one of the protocol, and its last lookup returns the closed pool.
  lemma StaleReturn(url: Url)
    ensures var run := Run(StaleStates(url), StaleSteps(url));
            && IsRun(run) && Lookup(run, 2, url, 0, 10, 12)
            && run.states[12].pools == [Pool(url, false)]
  {
    StaleRun(url);
    hide IsRun;
    assert PcOf(StaleState(url, 12), 2) == Done(url, 0);
    assert StaleState(url, 12).pools == Shut(url);
    hide StaleState;
  }
}
