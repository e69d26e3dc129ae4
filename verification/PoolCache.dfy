/**
 * The process-wide connection pools (apps/api/app/core/db.py): a double-checked lookup whose first
 * read takes no lock, and a close-all, run by any number of threads in any interleaving.
 *
 * A step is one access to the shared dictionary, the lock or a pool. A pool's number is its place
 * in the order of creation.
 */
module PoolCache {
  import opened Text

  type Url = string
  type Thread = nat

  datatype Pool = Pool(url: Url, isOpen: bool)

  datatype Pc =
    | Idle
    // _get_pool
    | Started(url: Url)             // before the unlocked read
    | Missed(url: Url)              // waits for the lock
    | Entered(url: Url)             // holds the lock, before the second read
    | Absent(url: Url)              // holds the lock, before the constructor
    | Built(url: Url, id: nat)      // holds the lock, before the dictionary is filled
    | Leaving(url: Url, id: nat)    // holds the lock, before it is freed
    | Failed(url: Url)              // holds the lock, the constructor has raised
    | Done(url: Url, id: nat)       // about to return
    // close_all_pools
    | CloseWaiting
    | Closing(left: set<Url>)       // holds the lock; the pools still to be closed
    | Cleared                       // holds the lock, before it is freed

  datatype State = State(pools: seq<Pool>, cache: map<Url, nat>, lock: Option<Thread>, threads: map<Thread, Pc>)

  datatype Step =
    | Begin(t: Thread, url: Url)
    | FirstRead(t: Thread)
    | Acquire(t: Thread)
    | SecondRead(t: Thread)
    | Construct(t: Thread)
    | ConstructFails(t: Thread)
    | Store(t: Thread)
    | Release(t: Thread)
    | Return(t: Thread)
    | BeginClose(t: Thread)
    | CloseOne(t: Thread, url: Url)
    | Clear(t: Thread)

  function PcOf(s: State, t: Thread): Pc
  {
    if t in s.threads then s.threads[t] else Idle
  }

  function At(s: State, t: Thread, pc: Pc): State
  {
    s.(threads := s.threads[t := pc])
  }

  // One step; None when the step is not enabled.
  function Next(s: State, step: Step): Option<State>
  {
    match step
    case Begin(t, url) =>
      if PcOf(s, t).Idle? then Some(At(s, t, Started(url))) else None
    case FirstRead(t) => NextFirstRead(s, t)
    case Acquire(t) => NextAcquire(s, t)
    case SecondRead(t) => NextSecondRead(s, t)
    case Construct(t) => NextConstruct(s, t)
    case ConstructFails(t) =>
      if PcOf(s, t).Absent? then Some(At(s, t, Failed(PcOf(s, t).url))) else None
    case Store(t) => NextStore(s, t)
    case Release(t) => NextRelease(s, t)
    case Return(t) =>
      if PcOf(s, t).Done? then Some(At(s, t, Idle)) else None
    case BeginClose(t) =>
      if PcOf(s, t).Idle? then Some(At(s, t, CloseWaiting)) else None
    case CloseOne(t, url) => NextCloseOne(s, t, url)
    case Clear(t) =>
      if PcOf(s, t) == Closing({}) then Some(At(s, t, Cleared).(cache := map[])) else None
  }

  function NextFirstRead(s: State, t: Thread): Option<State>
  {
    match PcOf(s, t)
    case Started(url) =>
      Some(At(s, t, if url in s.cache then Done(url, s.cache[url]) else Missed(url)))
    case _ => None
  }

  function NextAcquire(s: State, t: Thread): Option<State>
  {
    if s.lock.Some? then None
    else
      match PcOf(s, t)
      case Missed(url) => Some(At(s, t, Entered(url)).(lock := Some(t)))
      case CloseWaiting => Some(At(s, t, Closing(s.cache.Keys)).(lock := Some(t)))
      case _ => None
  }

  function NextSecondRead(s: State, t: Thread): Option<State>
  {
    match PcOf(s, t)
    case Entered(url) =>
      Some(At(s, t, if url in s.cache then Leaving(url, s.cache[url]) else Absent(url)))
    case _ => None
  }

  function NextConstruct(s: State, t: Thread): Option<State>
  {
    match PcOf(s, t)
    case Absent(url) => Some(At(s, t, Built(url, |s.pools|)).(pools := s.pools + [Pool(url, true)]))
    case _ => None
  }

  function NextStore(s: State, t: Thread): Option<State>
  {
    match PcOf(s, t)
    case Built(url, id) => Some(At(s, t, Leaving(url, id)).(cache := s.cache[url := id]))
    case _ => None
  }

  function NextRelease(s: State, t: Thread): Option<State>
  {
    match PcOf(s, t)
    case Leaving(url, id) => Some(At(s, t, Done(url, id)).(lock := None))
    case Failed(_) => Some(At(s, t, Idle).(lock := None))
    case Cleared => Some(At(s, t, Idle).(lock := None))
    case _ => None
  }

  function NextCloseOne(s: State, t: Thread, url: Url): Option<State>
  {
    match PcOf(s, t)
    case Closing(left) =>
      if url in left && url in s.cache && s.cache[url] < |s.pools| then
        Some(At(s, t, Closing(left - {url})).(pools := s.pools[s.cache[url] := s.pools[s.cache[url]].(isOpen := false)]))
      else None
    case _ => None
  }

  // ---- the invariant -----------------------------------------------------------------------------

  predicate Critical(pc: Pc)
  {
    pc.Entered? || pc.Absent? || pc.Built? || pc.Leaving? || pc.Failed? || pc.Closing? || pc.Cleared?
  }

  // Only the thread that holds the lock is inside.
  ghost predicate Locked(s: State)
  {
    forall t: Thread :: Critical(PcOf(s, t)) <==> s.lock == Some(t)
  }

  // A dictionary entry is a pool of its URL.
  ghost predicate Cached(s: State)
  {
    forall url | url in s.cache :: s.cache[url] < |s.pools| && s.pools[s.cache[url]].url == url
  }

  // The pc of the thread inside, Idle when the lock is free.
  function Holder(s: State): Pc
  {
    if s.lock.Some? then PcOf(s, s.lock.value) else Idle
  }

  // An open pool is in the dictionary, unless the thread inside has just built it.
  ghost predicate OpenCached(s: State)
  {
    forall id | 0 <= id < |s.pools| && s.pools[id].isOpen ::
      (s.pools[id].url in s.cache && s.cache[s.pools[id].url] == id)
      || Holder(s) == Built(s.pools[id].url, id)
  }

  // A pool in the dictionary is open, unless the thread inside is closing and is past it.
  ghost predicate CachedOpen(s: State)
  {
    forall url | url in s.cache && s.cache[url] < |s.pools| ::
      s.pools[s.cache[url]].isOpen <==> !(Holder(s).Closing? && url !in Holder(s).left)
  }

  // What the thread inside has seen still holds.
  predicate HolderOk(s: State)
  {
    match Holder(s)
    case Absent(url) => url !in s.cache
    case Built(url, id) => url !in s.cache && id < |s.pools| && s.pools[id] == Pool(url, true)
    case Leaving(url, id) => url in s.cache && s.cache[url] == id
    case Closing(left) => left <= s.cache.Keys
    case Cleared => s.cache == map[]
    case _ => true
  }

  ghost predicate Inv(s: State)
  {
    Locked(s) && Cached(s) && OpenCached(s) && CachedOpen(s) && HolderOk(s)
  }

  const INITIAL := State([], map[], None, map[])

  lemma InitInv()
    ensures Inv(INITIAL)
  {
  }

  lemma PcAt(s: State, t: Thread, pc: Pc)
    ensures forall u: Thread :: PcOf(At(s, t, pc), u) == if u == t then pc else PcOf(s, u)
  {
  }

  lemma StepInv(s: State, step: Step)
    requires Inv(s) && Next(s, step).Some?
    ensures Inv(Next(s, step).value)
  {
    var n := Next(s, step).value;
    var t := step.t;
    PcAt(s, t, PcOf(n, t));
    StepPcs(s, step);
    StepLocked(s, step);
    StepCached(s, step);
    StepOpenCached(s, step);
    StepCachedOpen(s, step);
  }

  // A step moves its own thread only.
  lemma StepPcs(s: State, step: Step)
    requires Next(s, step).Some?
    ensures forall u: Thread | u != step.t :: PcOf(Next(s, step).value, u) == PcOf(s, u)
  {
  }

  lemma StepLocked(s: State, step: Step)
    requires Inv(s) && Next(s, step).Some?
    ensures Locked(Next(s, step).value) && HolderOk(Next(s, step).value)
  {
    var n := Next(s, step).value;
    StepPcs(s, step);
    assert Critical(PcOf(s, step.t)) <==> s.lock == Some(step.t);
    assert Critical(PcOf(n, step.t)) <==> n.lock == Some(step.t);
  }

  lemma StepCached(s: State, step: Step)
    requires Inv(s) && Next(s, step).Some?
    ensures Cached(Next(s, step).value)
  {
    assert Critical(PcOf(s, step.t)) <==> s.lock == Some(step.t);
  }

  lemma StepOpenCached(s: State, step: Step)
    requires Inv(s) && Next(s, step).Some?
    ensures OpenCached(Next(s, step).value)
  {
    assert Critical(PcOf(s, step.t)) <==> s.lock == Some(step.t);
  }

  lemma StepCachedOpen(s: State, step: Step)
    requires Inv(s) && Next(s, step).Some?
    ensures CachedOpen(Next(s, step).value)
  {
    assert Critical(PcOf(s, step.t)) <==> s.lock == Some(step.t);
  }

  // ---- runs --------------------------------------------------------------------------------------

  // states[k] is left by steps[k] for states[k + 1].
  datatype Run = Run(states: seq<State>, steps: seq<Step>)

  ghost predicate IsRun(run: Run)
  {
    |run.states| == |run.steps| + 1 && run.states[0] == INITIAL
    && forall k | 0 <= k < |run.steps| :: Next(run.states[k], run.steps[k]) == Some(run.states[k + 1])
  }

  lemma {:induction false} RunInv(run: Run, k: nat)
    requires IsRun(run) && k < |run.states|
    ensures Inv(run.states[k])
  {
    if k == 0 {
      InitInv();
    } else {
      RunInv(run, k - 1);
      assert Next(run.states[k - 1], run.steps[k - 1]) == Some(run.states[k]);
      StepInv(run.states[k - 1], run.steps[k - 1]);
    }
  }

  // In every reachable state a URL has at most one open pool.
  lemma OneOpenPool(run: Run, k: nat, i: nat, j: nat)
    requires IsRun(run) && k < |run.states|
    requires i < |run.states[k].pools| && j < |run.states[k].pools|
    requires run.states[k].pools[i].isOpen && run.states[k].pools[j].isOpen
    requires run.states[k].pools[i].url == run.states[k].pools[j].url
    ensures i == j
  {
    RunInv(run, k);
  }

  // While the lock is free, the open pools are exactly the pools in the dictionary.
  lemma OpenExactlyCached(run: Run, k: nat)
    requires IsRun(run) && k < |run.states| && run.states[k].lock == None
    ensures var s := run.states[k];
            && (forall id | 0 <= id < |s.pools| ::
                  s.pools[id].isOpen <==> s.pools[id].url in s.cache && s.cache[s.pools[id].url] == id)
            && (forall url | url in s.cache :: s.cache[url] < |s.pools| && s.pools[s.cache[url]] == Pool(url, true))
  {
    RunInv(run, k);
  }

  // Two threads are never inside together.
  lemma MutualExclusion(run: Run, k: nat, t: Thread, u: Thread)
    requires IsRun(run) && k < |run.states|
    requires Critical(PcOf(run.states[k], t)) && Critical(PcOf(run.states[k], u))
    ensures t == u
  {
    RunInv(run, k);
  }

  // The thread inside can always take another step, so the lock is never stuck.
  lemma HolderMoves(run: Run, k: nat)
    requires IsRun(run) && k < |run.states| && run.states[k].lock.Some?
    ensures exists step: Step :: step.t == run.states[k].lock.value && Next(run.states[k], step).Some?
  {
    RunInv(run, k);
    var s := run.states[k];
    var t := s.lock.value;
    assert Critical(PcOf(s, t));
    match PcOf(s, t) {
      case Entered(_) => assert Next(s, SecondRead(t)).Some?;
      case Absent(_) => assert Next(s, Construct(t)).Some?;
      case Built(_, _) => assert Next(s, Store(t)).Some?;
      case Closing(left) =>
        if left == {} {
          assert Next(s, Clear(t)).Some?;
        } else {
          var url :| url in left;
          assert Next(s, CloseOne(t, url)).Some?;
        }
      case Failed(_) => assert Next(s, Release(t)).Some?;
      case Leaving(_, _) => assert Next(s, Release(t)).Some?;
      case Cleared => assert Next(s, Release(t)).Some?;
    }
  }

  // ---- lookups -------------------------------------------------------------------------------------

  // Thread t begins a lookup at step i and returns pool id at step j.
  ghost predicate Lookup(run: Run, t: Thread, url: Url, id: nat, i: nat, j: nat)
  {
    |run.states| == |run.steps| + 1 && i < j < |run.steps|
    && run.steps[i] == Begin(t, url) && run.steps[j] == Return(t)
    && PcOf(run.states[j], t) == Done(url, id)
    && forall k | i < k < j :: run.steps[k] != Return(t) && !(run.steps[k].Begin? && run.steps[k].t == t)
  }

  // No close-all clears the dictionary from step i up to step j.
  ghost predicate NoClear(run: Run, i: nat, j: nat)
    requires j <= |run.steps|
  {
    forall k | i <= k < j :: !run.steps[k].Clear?
  }

  // What a thread in a lookup of this URL knows about the dictionary.
  predicate Knows(s: State, t: Thread, url: Url)
  {
    match PcOf(s, t)
    case Started(u) => u == url
    case Missed(u) => u == url
    case Entered(u) => u == url
    case Absent(u) => u == url
    case Built(u, _) => u == url
    case Failed(u) => u == url
    case Leaving(u, id) => u == url && url in s.cache && s.cache[url] == id
    case Done(u, id) => u == url && url in s.cache && s.cache[url] == id
    case _ => false
  }

  // Without a clear, entries of the dictionary stay.
  lemma StepKeeps(s: State, step: Step)
    requires Inv(s) && Next(s, step).Some? && !step.Clear?
    ensures forall url | url in s.cache :: url in Next(s, step).value.cache && Next(s, step).value.cache[url] == s.cache[url]
  {
    assert Critical(PcOf(s, step.t)) <==> s.lock == Some(step.t);
  }

  // A lookup whose constructor fails ends without a pool.
  lemma StepKnows(s: State, step: Step, t: Thread, url: Url)
    requires Inv(s) && Next(s, step).Some? && !step.Clear? && step != Return(t)
    requires Knows(s, t, url)
    ensures Knows(Next(s, step).value, t, url) || PcOf(Next(s, step).value, t).Idle?
  {
    StepPcs(s, step);
    StepKeeps(s, step);
    assert Critical(PcOf(s, step.t)) <==> s.lock == Some(step.t);
  }

  lemma {:induction false} LookupKnows(run: Run, t: Thread, url: Url, id: nat, i: nat, j: nat, k: nat)
    requires IsRun(run) && Lookup(run, t, url, id, i, j) && NoClear(run, i, j) && i < k <= j
    ensures Knows(run.states[k], t, url) || NotLooking(PcOf(run.states[k], t))
  {
    RunInv(run, k - 1);
    var s, step := run.states[k - 1], run.steps[k - 1];
    assert Next(s, step) == Some(run.states[k]);
    if k > i + 1 {
      LookupKnows(run, t, url, id, i, j, k - 1);
      if Knows(s, t, url) { StepKnows(s, step, t, url); } else { StepNotLooking(s, step, t); }
    }
  }

  predicate NotLooking(pc: Pc)
  {
    pc.Idle? || pc.CloseWaiting? || pc.Closing? || pc.Cleared?
  }

  lemma StepNotLooking(s: State, step: Step, t: Thread)
    requires Next(s, step).Some? && NotLooking(PcOf(s, t)) && !(step.Begin? && step.t == t)
    ensures NotLooking(PcOf(Next(s, step).value, t))
  {
    StepPcs(s, step);
  }

  lemma RunStep(run: Run, k: nat)
    requires IsRun(run) && k < |run.steps|
    ensures |run.states| == |run.steps| + 1 && Inv(run.states[k])
    ensures Next(run.states[k], run.steps[k]) == Some(run.states[k + 1])
  {
    RunInv(run, k);
  }

  lemma NoClearAt(run: Run, i: nat, j: nat, k: nat)
    requires j <= |run.steps| && NoClear(run, i, j) && i <= k < j
    ensures !run.steps[k].Clear? && NoClear(run, i, k)
  {
  }

  lemma {:induction false} CacheKept(run: Run, url: Url, i: nat, j: nat)
    requires |run.states| == |run.steps| + 1
    requires IsRun(run) && i <= j <= |run.steps| && NoClear(run, i, j) && url in run.states[i].cache
    ensures url in run.states[j].cache && run.states[j].cache[url] == run.states[i].cache[url]
    decreases j
  {
    hide *;
    if i < j {
      NoClearAt(run, i, j, j - 1);
      CacheKept(run, url, i, j - 1);
      RunStep(run, j - 1);
      StepKeeps(run.states[j - 1], run.steps[j - 1]);
    }
  }

  lemma LookupCached(run: Run, t: Thread, url: Url, id: nat, i: nat, j: nat)
    requires IsRun(run) && Lookup(run, t, url, id, i, j) && NoClear(run, i, j)
    ensures url in run.states[j].cache && run.states[j].cache[url] == id
  {
    LookupKnows(run, t, url, id, i, j, j);
  }

  // Two lookups of one URL return the same pool when no close-all clears the dictionary from the
  // first of their beginnings to the last of their returns, unlocked first read or not.
  lemma SamePool(run: Run, t: Thread, u: Thread, url: Url, a: nat, b: nat, i: nat, j: nat, k: nat, l: nat)
    requires IsRun(run) && Lookup(run, t, url, a, i, j) && Lookup(run, u, url, b, k, l)
    requires NoClear(run, if i < k then i else k, if j < l then l else j)
    ensures a == b
  {
    LookupCached(run, t, url, a, i, j);
    LookupCached(run, u, url, b, k, l);
    if j < l { CacheKept(run, url, j, l); } else { CacheKept(run, url, l, j); }
  }
}
