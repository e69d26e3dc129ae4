/**
 * Any number of migration runners against one database, interleaved step by step, each of which
 * may crash at any point (infra/scripts/apply_migrations.py).
 *
 * The database keeps its manifest rows in a plain list: no primary key is assumed. What makes
 * every migration run at most once is the session lock and the fact that the manifest is read
 * after the lock is taken.
 */
module MigrationProtocol {
  import opened Lists
  import opened Text
  import opened Migrations

  datatype Pc =
    | Connected   // session open, timeouts set
    | Locked      // advisory lock granted
    | Prepared    // schema_migrations exists
    | Fetched     // manifest rows read
    | Applying    // manifest validated; at the head of the loop
    | Executed    // inside the transaction, after the file's SQL
    | Inserted    // inside the transaction, after the manifest row
    | Finished    // loop done, session still open
    | Drifted     // validation failed, session still open
    | Returned | Refused | Crashed  // session closed

  datatype Runner = Runner(
    pc: Pc,
    local: seq<MigrationFile>,
    fetched: seq<Record>,
    next: nat,
    applied: seq<string>,
    skipped: seq<string>,
    txSql: seq<MigrationFile>,
    txRows: seq<Record>)

  // A committed execution of a file's SQL, by a runner of this history or before it.
  datatype Effect = Effect(runner: Option<nat>, file: MigrationFile)

  datatype System = System(
    lock: Option<nat>,
    table: bool,
    rows: seq<Record>,
    effects: seq<Effect>,
    runners: map<nat, Runner>)

  datatype Action =
    | Start(local: seq<MigrationFile>)
    | Acquire | Ensure | Read | Validate | Skip | Execute | Insert | Commit | Finish | Disconnect | Crash

  predicate Open(pc: Pc)
  {
    !pc.Returned? && !pc.Refused? && !pc.Crashed?
  }

  predicate Holding(pc: Pc)
  {
    Open(pc) && !pc.Connected?
  }

  ghost predicate Enabled(s: System, r: nat, a: Action)
  {
    if a.Start? then r !in s.runners && DistinctFiles(a.local)
    else r in s.runners && Ready(s, s.runners[r], a)
  }

  // What the runner needs to be at, and what it needs of the lock and the table, to take a step.
  ghost predicate Ready(s: System, x: Runner, a: Action)
  {
    match a
    case Start(_) => false
    case Acquire => x.pc.Connected? && s.lock.None?
    case Ensure => x.pc.Locked?
    case Read => x.pc.Prepared? && s.table
    case Validate => x.pc.Fetched?
    case Skip => x.pc.Applying? && x.next < |x.local| && !NextPending(x)
    case Execute => x.pc.Applying? && x.next < |x.local| && NextPending(x)
    case Insert => x.pc.Executed? && x.next < |x.local|
    case Commit => x.pc.Inserted? && x.next < |x.local|
    case Finish => x.pc.Applying? && x.next == |x.local|
    case Disconnect => x.pc.Finished? || x.pc.Drifted?
    case Crash => Open(x.pc)
  }

  predicate NextPending(x: Runner)
    requires x.next < |x.local|
  {
    x.local[x.next].version !in ManifestOf(x.fetched)
  }

  // What one step does to the runner itself.
  ghost function Move(x: Runner, rows: seq<Record>, a: Action): Runner
    requires a.Skip? || a.Execute? || a.Insert? || a.Commit? ==> x.next < |x.local|
  {
    match a
    case Start(local) => Runner(Connected, local, [], 0, [], [], [], [])
    case Acquire => x.(pc := Locked)
    case Ensure => x.(pc := Prepared)
    case Read => x.(pc := Fetched, fetched := rows)
    case Validate => x.(pc := if Matches(x.local, ManifestOf(x.fetched)) then Applying else Drifted)
    case Skip => x.(next := x.next + 1, skipped := x.skipped + [x.local[x.next].filename])
    case Execute => x.(pc := Executed, txSql := [x.local[x.next]])
    case Insert => x.(pc := Inserted, txRows := [RecordOf(x.local[x.next])])
    case Commit => x.(pc := Applying, next := x.next + 1, applied := x.applied + [x.local[x.next].filename],
                      txSql := [], txRows := [])
    case Finish => x.(pc := Finished)
    case Disconnect => x.(pc := if x.pc.Finished? then Returned else Refused)
    case Crash => x.(pc := Crashed, txSql := [], txRows := [])
  }

  const NOBODY := Runner(Connected, [], [], 0, [], [], [], [])

  ghost function Step(s: System, r: nat, a: Action): System
    requires Enabled(s, r, a)
  {
    var x := if r in s.runners then s.runners[r] else NOBODY;
    var s' := s.(runners := s.runners[r := Move(x, s.rows, a)]);
    match a
    case Acquire => s'.(lock := Some(r))
    case Ensure => s'.(table := true)
    case Commit => s'.(rows := s.rows + x.txRows, effects := s.effects + Tagged(x.txSql, r))
    case Disconnect => s'.(lock := None)
    case Crash => s'.(lock := if s.lock == Some(r) then None else s.lock)
    case _ => s'
  }

  function Tagged(files: seq<MigrationFile>, r: nat): seq<Effect>
  {
    Map(files, f => Effect(Some(r), f))
  }

  function FilesOf(effects: seq<Effect>): seq<MigrationFile>
  {
    Map(effects, (e: Effect) => e.file)
  }

  // The files whose SQL runner r has committed, in order.
  function Own(effects: seq<Effect>, r: nat): seq<MigrationFile>
  {
    FilesOf(Filter(effects, (e: Effect) => e.runner == Some(r)))
  }

  // ---- runs ----------------------------------------------------------------------------------

  type Schedule = seq<(nat, Action)>

  ghost predicate CanRun(s: System, schedule: Schedule)
    decreases |schedule|
  {
    schedule == [] ||
    (Enabled(s, schedule[0].0, schedule[0].1)
     && CanRun(Step(s, schedule[0].0, schedule[0].1), schedule[1..]))
  }

  ghost function After(s: System, schedule: Schedule): System
    requires CanRun(s, schedule)
    decreases |schedule|
  {
    if schedule == [] then s else After(Step(s, schedule[0].0, schedule[0].1), schedule[1..])
  }

  // A database that was only ever written by this protocol, and nobody connected.
  ghost predicate Initial(s: System)
  {
    && s.lock.None? && s.runners == map[]
    && (!s.table ==> s.rows == [])
    && DistinctRows(s.rows)
    && s.rows == Records(FilesOf(s.effects))
    && forall e | e in s.effects :: e.runner.None?
  }

  // ---- the invariant -------------------------------------------------------------------------

  // What a runner knows and has staged, by program counter.
  ghost predicate RunnerInv(x: Runner, rows: seq<Record>, own: seq<MigrationFile>)
  {
    && DistinctFiles(x.local)
    && x.next <= |x.local|
    && var recorded, done := ManifestOf(x.fetched), x.local[..x.next];
    && own == Pending(done, recorded)
    && x.applied == Names(Pending(done, recorded))
    && x.skipped == Names(Present(done, recorded))
    && (x.pc in {Connected, Locked, Prepared, Fetched, Drifted, Refused} ==> x.next == 0)
    && (x.pc in {Fetched, Drifted} ==> rows == x.fetched)
    && (x.pc in {Drifted, Refused} ==> !Matches(x.local, recorded))
    && (x.pc in {Applying, Executed, Inserted, Finished, Returned} ==> Matches(x.local, recorded))
    && (x.pc in {Applying, Executed, Inserted, Finished} ==> rows == x.fetched + Records(Pending(done, recorded)))
    && (x.pc in {Finished, Returned} ==> x.next == |x.local|)
    && (x.pc in {Executed, Inserted} ==>
          x.next < |x.local| && x.local[x.next].version !in recorded && x.txSql == [x.local[x.next]])
    && (x.pc !in {Executed, Inserted} ==> x.txSql == [])
    && x.txRows == if x.pc.Inserted? then [RecordOf(x.local[x.next])] else []
  }

  ghost predicate Inv(s: System)
  {
    && (forall r | r in s.runners :: RunnerInv(s.runners[r], s.rows, Own(s.effects, r)))
    && (forall r | r in s.runners :: Holding(s.runners[r].pc) <==> s.lock == Some(r))
    && (s.lock.Some? ==> s.lock.value in s.runners)
    && (forall e | e in s.effects && e.runner.Some? :: e.runner.value in s.runners)
    && DistinctRows(s.rows)
    && s.rows == Records(FilesOf(s.effects))
  }

  lemma InitialInv(s: System)
    requires Initial(s)
    ensures Inv(s)
  {
  }

  lemma OwnNone(effects: seq<Effect>, r: nat)
    requires forall e | e in effects :: e.runner != Some(r)
    ensures Own(effects, r) == []
  {
    FilterNone(effects, (e: Effect) => e.runner == Some(r));
  }

  lemma OwnAppend(effects: seq<Effect>, files: seq<MigrationFile>, author: nat, r: nat)
    ensures Own(effects + Tagged(files, author), r) == Own(effects, r) + (if author == r then files else [])
  {
    var mine := (e: Effect) => e.runner == Some(r);
    FilterAppend(effects, Tagged(files, author), mine);
    if author == r {
      FilterAll(Tagged(files, author), mine);
      assert FilesOf(Tagged(files, author)) == files;
    } else {
      FilterNone(Tagged(files, author), mine);
    }
    assert FilesOf(Filter(effects, mine) + Filter(Tagged(files, author), mine))
        == FilesOf(Filter(effects, mine)) + FilesOf(Filter(Tagged(files, author), mine));
  }

  lemma PendingNone(local: seq<MigrationFile>)
    ensures forall recorded :: Pending(local[..0], recorded) == [] && Present(local[..0], recorded) == []
    ensures Names([]) == [] && Records([]) == []
  {
  }

  lemma StartKeeps(local: seq<MigrationFile>, rows: seq<Record>)
    requires DistinctFiles(local)
    ensures RunnerInv(Move(NOBODY, rows, Start(local)), rows, [])
  {
    PendingNone(local);
  }

  lemma ReadKeeps(x: Runner, rows: seq<Record>, own: seq<MigrationFile>)
    requires RunnerInv(x, rows, own) && x.pc.Prepared?
    ensures RunnerInv(Move(x, rows, Read), rows, own)
  {
    hide ManifestOf, Matches, Pending, Present, DistinctFiles, Names;
    PendingNone(x.local);
  }

  lemma SkipKeeps(x: Runner, rows: seq<Record>, own: seq<MigrationFile>)
    requires RunnerInv(x, rows, own) && x.pc.Applying? && x.next < |x.local| && !NextPending(x)
    ensures RunnerInv(Move(x, rows, Skip), rows, own)
  {
    hide ManifestOf, Matches, Pending, Present, DistinctFiles, Names;
    PendingStep(x.local, x.next, ManifestOf(x.fetched));
    NamesAppend(Present(x.local[..x.next], ManifestOf(x.fetched)), x.local[x.next]);
  }

  // The other steps that commit nothing leave local, fetched and next as they are.
  lemma QuietKeeps(s: System, x: Runner, rows: seq<Record>, own: seq<MigrationFile>, a: Action)
    requires RunnerInv(x, rows, own) && Ready(s, x, a)
    requires !a.Start? && !a.Read? && !a.Skip? && !a.Commit?
    ensures RunnerInv(Move(x, rows, a), rows, own)
  {
    hide ManifestOf, Matches, Pending, Present, DistinctFiles, Names, Records;
    PendingNone(x.local);
    assert Records(Pending(x.local[..0], ManifestOf(x.fetched))) == [];
    assert rows + [] == rows;
  }

  lemma CommitKeeps(x: Runner, rows: seq<Record>, own: seq<MigrationFile>)
    requires RunnerInv(x, rows, own) && x.pc.Inserted? && x.next < |x.local|
    ensures RunnerInv(Move(x, rows, Commit), rows + x.txRows, own + x.txSql)
  {
    hide ManifestOf, Matches, Pending, Present, DistinctFiles, Names, Records;
    PendingStep(x.local, x.next, ManifestOf(x.fetched));
    NamesAppend(Pending(x.local[..x.next], ManifestOf(x.fetched)), x.local[x.next]);
  }

  // A step of a runner keeps what the runner knows.
  lemma MoveInv(s: System, r: nat, a: Action)
    requires Inv(s) && Enabled(s, r, a)
    ensures var s' := Step(s, r, a); RunnerInv(s'.runners[r], s'.rows, Own(s'.effects, r))
  {
    hide RunnerInv, Move, Own, Records;
    var own := Own(s.effects, r);
    match a
    case Start(local) =>
      OwnNone(s.effects, r);
      StartMove(local, s.rows);
      StartKeeps(local, s.rows);
    case Read => ReadKeeps(s.runners[r], s.rows, own);
    case Skip => SkipKeeps(s.runners[r], s.rows, own);
    case Commit =>
      OwnAppend(s.effects, s.runners[r].txSql, r, r);
      CommitKeeps(s.runners[r], s.rows, own);
    case _ => QuietKeeps(s, s.runners[r], s.rows, own, a);
  }

  lemma StartMove(local: seq<MigrationFile>, rows: seq<Record>)
    ensures forall x :: Move(x, rows, Start(local)) == Move(NOBODY, rows, Start(local))
  {
  }

  lemma NamesAppend(files: seq<MigrationFile>, file: MigrationFile)
    ensures Names(files + [file]) == Names(files) + [file.filename]
    ensures Records(files + [file]) == Records(files) + [RecordOf(file)]
  {
  }

  lemma RowsInv(s: System, r: nat, a: Action)
    requires Inv(s) && Enabled(s, r, a)
    ensures DistinctRows(Step(s, r, a).rows) && Step(s, r, a).rows == Records(FilesOf(Step(s, r, a).effects))
  {
    hide Matches, ManifestOf, Pending, Present, DistinctFiles, Move;
    if a.Commit? {
      var x := s.runners[r];
      var file := x.local[x.next];
      assert x.txSql == [file] && x.txRows == [RecordOf(file)];
      assert FilesOf(s.effects + Tagged([file], r)) == FilesOf(s.effects) + [file];
      NamesAppend(FilesOf(s.effects), file);
      NewVersion(x.fetched, x.local, x.next);
      AddRow(s.rows, RecordOf(file));
    }
  }

  lemma AddRow(rows: seq<Record>, row: Record)
    requires DistinctRows(rows) && forall other | other in rows :: other.version != row.version
    ensures DistinctRows(rows + [row])
  {
  }

  // The next pending version is in no row: neither among the fetched ones nor among those the
  // runner has added since.
  lemma NewVersion(fetched: seq<Record>, local: seq<MigrationFile>, n: nat)
    requires n < |local| && DistinctFiles(local) && local[n].version !in ManifestOf(fetched)
    ensures forall row | row in fetched + Records(Pending(local[..n], ManifestOf(fetched))) ::
              row.version != local[n].version
  {
    var pending := Pending(local[..n], ManifestOf(fetched));
    ManifestMember(fetched);
    PendingMember(local[..n], ManifestOf(fetched));
    forall row | row in Records(pending) ensures row.version != local[n].version {
      var i :| 0 <= i < |pending| && Records(pending)[i] == row;
      assert pending[i] in local[..n];
    }
  }

  lemma OtherInv(s: System, r: nat, a: Action, q: nat)
    requires Inv(s) && Enabled(s, r, a) && q in s.runners && q != r
    ensures var s' := Step(s, r, a);
            q in s'.runners && RunnerInv(s'.runners[q], s'.rows, Own(s'.effects, q))
  {
    hide RunnerInv, Move, Own, Records;
    if a.Commit? {
      OwnAppend(s.effects, s.runners[r].txSql, r, q);
      HolderOnly(s, r, q);
      Idle(s.runners[q], s.rows, s.rows + s.runners[r].txRows, Own(s.effects, q));
      assert Own(s.effects, q) + [] == Own(s.effects, q);
    }
  }

  lemma StepInv(s: System, r: nat, a: Action)
    requires Inv(s) && Enabled(s, r, a)
    ensures Inv(Step(s, r, a))
  {
    hide RunnerInv, Move, Own, Records, DistinctRows, FilesOf;
    MoveInv(s, r, a);
    forall q | q in s.runners && q != r { OtherInv(s, r, a, q); }
    RowsInv(s, r, a);
    LockInv(s, r, a);
    EffectsInv(s, r, a);
  }

  lemma HolderOnly(s: System, r: nat, q: nat)
    requires Inv(s) && r in s.runners && q in s.runners && q != r && Holding(s.runners[r].pc)
    ensures !Holding(s.runners[q].pc)
  {
  }

  // A runner that does not hold the lock knows nothing about the rows.
  lemma Idle(x: Runner, rows: seq<Record>, rows': seq<Record>, own: seq<MigrationFile>)
    requires RunnerInv(x, rows, own) && !Holding(x.pc)
    ensures RunnerInv(x, rows', own)
  {
  }

  lemma MoveHolding(s: System, x: Runner, a: Action)
    requires Ready(s, x, a)
    ensures Holding(Move(x, s.rows, a).pc) <==> a.Acquire? || (Holding(x.pc) && !a.Disconnect? && !a.Crash?)
    ensures a.Acquire? || a.Crash? || Holding(x.pc)
  {
    hide Matches, ManifestOf, NextPending;
  }

  lemma LockInv(s: System, r: nat, a: Action)
    requires Inv(s) && Enabled(s, r, a)
    ensures var s' := Step(s, r, a);
            && (forall q | q in s'.runners :: Holding(s'.runners[q].pc) <==> s'.lock == Some(q))
            && (s'.lock.Some? ==> s'.lock.value in s'.runners)
  {
    hide RunnerInv, Own, Records, NextPending, FilesOf, Tagged, Move, DistinctRows;
    var s' := Step(s, r, a);
    if a.Start? {
      StartMove(a.local, s.rows);
      assert Move(NOBODY, s.rows, a).pc == Connected by { StartConnected(a.local, s.rows); }
      assert s.lock != Some(r);
    } else {
      MoveHolding(s, s.runners[r], a);
    }
    forall q | q in s'.runners && q != r ensures s'.runners[q] == s.runners[q] {}
  }

  lemma StartConnected(local: seq<MigrationFile>, rows: seq<Record>)
    ensures Move(NOBODY, rows, Start(local)).pc == Connected
  {
  }

  lemma EffectsInv(s: System, r: nat, a: Action)
    requires Inv(s) && Enabled(s, r, a)
    ensures forall e | e in Step(s, r, a).effects && e.runner.Some? :: e.runner.value in Step(s, r, a).runners
  {
    hide RunnerInv, Own, Records, ManifestOf, Matches;
    if a.Commit? {
      forall e | e in Tagged(s.runners[r].txSql, r) ensures e.runner == Some(r) {}
    }
  }

  lemma {:induction false} RunInv(s: System, schedule: Schedule)
    requires Inv(s) && CanRun(s, schedule)
    ensures Inv(After(s, schedule))
    decreases |schedule|
  {
    if schedule != [] {
      StepInv(s, schedule[0].0, schedule[0].1);
      RunInv(Step(s, schedule[0].0, schedule[0].1), schedule[1..]);
    }
  }

  // ---- safety of every run -------------------------------------------------------------------

  // In every reachable state at most one runner is between taking the lock and closing its
  // session, no version's SQL is committed twice, and rows and effects correspond one for one.
  lemma Safety(s0: System, schedule: Schedule)
    requires Initial(s0) && CanRun(s0, schedule)
    ensures var s := After(s0, schedule);
            && (forall q, r | q in s.runners && r in s.runners && Holding(s.runners[q].pc) && Holding(s.runners[r].pc) ::
                  q == r)
            && (forall i, j | 0 <= i < j < |s.effects| ::
                  s.effects[i].file.version != s.effects[j].file.version)
            && s.rows == Records(FilesOf(s.effects))
  {
    InitialInv(s0);
    RunInv(s0, schedule);
    var s := After(s0, schedule);
    forall i, j | 0 <= i < j < |s.effects|
      ensures s.effects[i].file.version != s.effects[j].file.version
    {
      assert s.rows[i] == RecordOf(s.effects[i].file) && s.rows[j] == RecordOf(s.effects[j].file);
    }
  }

  // A runner's summary is truthful in every reachable state: `applied` names exactly the files
  // whose SQL this runner committed. A runner that met drift has committed nothing.
  lemma Truthful(s0: System, schedule: Schedule, r: nat)
    requires Initial(s0) && CanRun(s0, schedule) && r in After(s0, schedule).runners
    ensures var s := After(s0, schedule); var x := s.runners[r];
            && x.applied == Names(Own(s.effects, r))
            && (x.pc.Drifted? || x.pc.Refused? ==> Own(s.effects, r) == [] && !Matches(x.local, ManifestOf(x.fetched)))
  {
    InitialInv(s0);
    RunInv(s0, schedule);
    var x := After(s0, schedule).runners[r];
    PendingNone(x.local);
  }

  // ---- what a finished runner leaves behind ----------------------------------------------------

  ghost predicate SoundFiles(files: seq<MigrationFile>)
  {
    forall f | f in files :: f.checksum == Sha256(f.sql)
  }

  // When a runner has finished, the manifest holds exactly its local migrations, and since the
  // checksums match, the SQL ever committed is exactly their SQL. Applied and skipped split the
  // local files.
  lemma FinishedExact(s0: System, schedule: Schedule, r: nat)
    requires Initial(s0) && CanRun(s0, schedule)
    requires r in After(s0, schedule).runners && After(s0, schedule).runners[r].pc.Finished?
    ensures var s := After(s0, schedule); var x := s.runners[r];
            && (forall row :: row in s.rows <==> row in Records(x.local))
            && (SoundFiles(x.local) && SoundFiles(FilesOf(s.effects)) ==>
                  forall f :: f in FilesOf(s.effects) <==> f in x.local)
            && x.applied == Names(Pending(x.local, ManifestOf(x.fetched)))
            && x.skipped == Names(Present(x.local, ManifestOf(x.fetched)))
  {
    InitialInv(s0);
    RunInv(s0, schedule);
    var s := After(s0, schedule);
    var x := s.runners[r];
    assert x.local[..|x.local|] == x.local;
    RowsAreLocal(x.fetched, x.local);
    if SoundFiles(x.local) && SoundFiles(FilesOf(s.effects)) {
      SameRecordsSameFiles(FilesOf(s.effects), x.local);
    }
  }

  lemma RowsAreLocal(fetched: seq<Record>, local: seq<MigrationFile>)
    requires DistinctFiles(local) && Matches(local, ManifestOf(fetched))
    requires DistinctRows(fetched + Records(Pending(local, ManifestOf(fetched))))
    ensures forall row :: row in fetched + Records(Pending(local, ManifestOf(fetched))) <==> row in Records(local)
  {
    var recorded := ManifestOf(fetched);
    var pending := Pending(local, recorded);
    var rows := fetched + Records(pending);
    assert DistinctRows(fetched) by {
      assert forall i | 0 <= i < |fetched| :: rows[i] == fetched[i];
    }
    PendingMember(local, recorded);
    ManifestMember(fetched);
    forall row | row in fetched ensures row in Records(local) {
      ManifestDistinct(fetched, row);
      var f :| f in local && f.version == row.version && RecordOf(f) == recorded[row.version];
      RecordsMember(local, f);
    }
    forall row | row in Records(pending) ensures row in Records(local) {
      var i :| 0 <= i < |pending| && Records(pending)[i] == row;
      RecordsMember(local, pending[i]);
    }
    forall row | row in Records(local) ensures row in rows {
      var i :| 0 <= i < |local| && Records(local)[i] == row;
      var f := local[i];
      if f.version in recorded {
        var g :| g in local && g.version == f.version && RecordOf(g) == recorded[f.version];
        var j :| 0 <= j < |local| && local[j] == g;
        assert i == j;
      } else {
        RecordsMember(pending, f);
      }
    }
  }

  lemma RecordsMember(files: seq<MigrationFile>, f: MigrationFile)
    requires f in files
    ensures RecordOf(f) in Records(files)
  {
    var i :| 0 <= i < |files| && files[i] == f;
    assert Records(files)[i] == RecordOf(f);
  }

  lemma SameRecordsSameFiles(a: seq<MigrationFile>, b: seq<MigrationFile>)
    requires SoundFiles(a) && SoundFiles(b)
    requires forall row :: row in Records(a) <==> row in Records(b)
    ensures forall f :: f in a <==> f in b
  {
    forall f ensures f in a ==> f in b {
      if f in a {
        RecordsMember(a, f);
        var i :| 0 <= i < |b| && Records(b)[i] == RecordOf(f);
        assert b[i] in b && b[i] == f;
      }
    }
    forall f ensures f in b ==> f in a {
      if f in b {
        RecordsMember(b, f);
        var i :| 0 <= i < |a| && Records(a)[i] == RecordOf(f);
        assert a[i] in a && a[i] == f;
      }
    }
  }

  // ---- checkouts of one append-only manifest ---------------------------------------------------

  // The rows and the committed SQL are the first migrations of the master list, in its order, and
  // every checkout is a prefix of the master list.
  ghost predicate Lineage(s: System, master: seq<MigrationFile>)
  {
    && DistinctFiles(master)
    && FilesOf(s.effects) <= master
    && forall r | r in s.runners :: s.runners[r].local <= master
  }

  ghost predicate FromMaster(schedule: Schedule, master: seq<MigrationFile>)
  {
    forall i | 0 <= i < |schedule| && schedule[i].1.Start? :: schedule[i].1.local <= master
  }

  // The versions recorded by the first k master rows are exactly those of the first k files.
  lemma PrefixRecorded(master: seq<MigrationFile>, k: nat, i: nat)
    requires DistinctFiles(master) && k <= |master| && i < |master|
    ensures master[i].version in ManifestOf(Records(master[..k])) <==> i < k
  {
    var rows := Records(master[..k]);
    ManifestMember(rows);
    if i < k {
      assert rows[i] in rows;
    } else {
      forall row | row in rows ensures row.version != master[i].version {
        var j :| 0 <= j < k && rows[j] == row;
      }
    }
  }

  // What is pending of a prefix, when the rows are a prefix too: the part beyond the rows.
  lemma {:induction false} PendingBeyond(master: seq<MigrationFile>, k: nat, local: seq<MigrationFile>, n: nat)
    requires DistinctFiles(master) && local <= master && k <= |local| && n <= |local|
    ensures Pending(local[..n], ManifestOf(Records(master[..k]))) == if n <= k then [] else local[k..n]
  {
    hide ManifestOf, Records, Pending, Present, DistinctFiles;
    if n == 0 {
      PendingNone(local);
    } else {
      PendingBeyond(master, k, local, n - 1);
      PendingStep(local, n - 1, ManifestOf(Records(master[..k])));
      PrefixRecorded(master, k, n - 1);
      if n > k + 1 { assert local[k..n - 1] + [local[n - 1]] == local[k..n]; }
    }
  }

  // A checkout shorter than the recorded prefix fails validation.
  lemma ShortCheckout(master: seq<MigrationFile>, k: nat, local: seq<MigrationFile>)
    requires DistinctFiles(master) && local <= master && |local| < k <= |master|
    ensures !Matches(local, ManifestOf(Records(master[..k])))
  {
    PrefixRecorded(master, k, |local|);
    forall f | f in local ensures f.version != master[|local|].version {
      var j :| 0 <= j < |local| && local[j] == f;
    }
  }

  lemma PrefixRows(master: seq<MigrationFile>, fetched: seq<Record>, local: seq<MigrationFile>, next: nat,
                   files: seq<MigrationFile>)
    requires DistinctFiles(master) && local <= master && files <= master && next <= |local|
    requires Matches(local, ManifestOf(fetched))
    requires Records(files) == fetched + Records(Pending(local[..next], ManifestOf(fetched)))
    ensures |fetched| <= |local| && files == local[..Max(|fetched|, next)]
    ensures fetched == Records(master[..|fetched|])
  {
    hide ManifestOf, Pending, Matches, DistinctFiles;
    var k := |fetched|;
    assert k <= |files|;
    assert fetched == Records(master[..k]) by {
      assert forall i | 0 <= i < k :: Records(files)[i] == fetched[i];
    }
    if |local| < k { ShortCheckout(master, k, local); }
    PendingBeyond(master, k, local, next);
    assert |Records(files)| == Max(k, next);
  }

  // Where an applying runner stands: the first max(fetched, next) master migrations are recorded.
  lemma ApplyingRows(s: System, master: seq<MigrationFile>, r: nat)
    requires Inv(s) && Lineage(s, master) && r in s.runners
    requires s.runners[r].pc in {Applying, Executed, Inserted, Finished}
    ensures var x := s.runners[r];
            && |x.fetched| <= |x.local| && x.next <= |x.local|
            && FilesOf(s.effects) == x.local[..Max(|x.fetched|, x.next)]
            && |x.fetched| <= |master| && x.fetched == Records(master[..|x.fetched|])
  {
    hide ManifestOf, Pending, Matches, DistinctFiles, Records, Own, FilesOf, DistinctRows;
    var x := s.runners[r];
    PrefixRows(master, x.fetched, x.local, x.next, FilesOf(s.effects));
  }

  lemma LineageStep(s: System, r: nat, a: Action, master: seq<MigrationFile>)
    requires Inv(s) && Lineage(s, master) && Enabled(s, r, a)
    requires a.Start? ==> a.local <= master
    ensures Lineage(Step(s, r, a), master)
  {
    hide ManifestOf, Matches, DistinctRows, Records, Own, RunnerInv, FilesOf, DistinctFiles, NextPending;
    if a.Commit? { CommitsInOrder(s, r, master); }
  }

  // The next migration committed is always the next one of the master list.
  lemma CommitsInOrder(s: System, r: nat, master: seq<MigrationFile>)
    requires Inv(s) && Lineage(s, master) && Enabled(s, r, Commit)
    ensures |s.effects| < |master|
    ensures FilesOf(Step(s, r, Commit).effects) == master[..|s.effects| + 1]
  {
    hide *;
    CommitEffects(s, r);
    var x := s.runners[r];
    NextCommitted(s, r, master);
    FilesTagged(s.effects, x.local[x.next], r);
    assert master[..|s.effects| + 1] == master[..|s.effects|] + [master[|s.effects|]];
  }

  lemma CommitEffects(s: System, r: nat)
    requires Enabled(s, r, Commit)
    ensures r in s.runners && Step(s, r, Commit).effects == s.effects + Tagged(s.runners[r].txSql, r)
  {
    hide Tagged, Move;
  }

  // The file a runner is about to commit is the next of the master list.
  lemma NextCommitted(s: System, r: nat, master: seq<MigrationFile>)
    requires Inv(s) && Lineage(s, master) && Enabled(s, r, Commit)
    ensures var x := s.runners[r];
            && |s.effects| < |master| && x.next < |x.local|
            && x.txSql == [x.local[x.next]] && x.local[x.next] == master[|s.effects|]
            && FilesOf(s.effects) == master[..|s.effects|]
  {
    hide ManifestOf, Pending, Matches, DistinctRows, Records, Own, Tagged, Step;
    var x := s.runners[r];
    ApplyingRows(s, master, r);
    assert x.local[x.next].version !in ManifestOf(x.fetched);
    PrefixRecorded(master, |x.fetched|, x.next);
    assert FilesOf(s.effects) == x.local[..x.next];
  }

  lemma FilesTagged(effects: seq<Effect>, file: MigrationFile, r: nat)
    ensures FilesOf(effects + Tagged([file], r)) == FilesOf(effects) + [file]
  {
  }

  lemma {:induction false} LineageRun(s: System, schedule: Schedule, master: seq<MigrationFile>)
    requires Inv(s) && Lineage(s, master) && CanRun(s, schedule) && FromMaster(schedule, master)
    ensures Inv(After(s, schedule)) && Lineage(After(s, schedule), master)
    decreases |schedule|
  {
    if schedule != [] {
      var (r, a) := schedule[0];
      StepInv(s, r, a);
      LineageStep(s, r, a, master);
      forall i | 0 <= i < |schedule[1..]| && schedule[1..][i].1.Start?
        ensures schedule[1..][i].1.local <= master
      {
        assert schedule[1..][i] == schedule[i + 1];
      }
      LineageRun(Step(s, r, a), schedule[1..], master);
    }
  }

  // In every reachable state of a run whose checkouts are prefixes of one list, the recorded rows
  // are a prefix of it, so effects commit in increasing version order when the list increases.
  lemma RecordedPrefix(s0: System, schedule: Schedule, master: seq<MigrationFile>)
    requires Initial(s0) && Lineage(s0, master) && CanRun(s0, schedule) && FromMaster(schedule, master)
    ensures var s := After(s0, schedule);
            && FilesOf(s.effects) <= master
            && |s.rows| <= |master| && s.rows == Records(master[..|s.rows|])
            && (Increasing(master) ==> Increasing(FilesOf(s.effects)))
  {
    InitialInv(s0);
    LineageRun(s0, schedule, master);
  }

  // When the common list is what a directory with ASCII-numbered names loads as, SQL commits in
  // increasing version order.
  lemma VersionsIncrease(s0: System, schedule: Schedule, dir: seq<SqlFile>, digits: DigitTable,
                         master: seq<MigrationFile>)
    requires Initial(s0) && Lineage(s0, master) && CanRun(s0, schedule) && FromMaster(schedule, master)
    requires IsDigitTable(digits) && Acceptable(dir, digits) && forall f | f in dir :: AsciiNumbered(f.name)
    requires |master| == |dir| && LoadedFrom(master, ByName(dir), digits)
    ensures Increasing(FilesOf(After(s0, schedule).effects))
  {
    LoadedIncreasing(dir, digits, master);
    RecordedPrefix(s0, schedule, master);
  }

  // A finished runner leaves exactly its own checkout, in order, whatever the others did before:
  // however many runners crashed where, two histories that end with a runner of the same checkout
  // finishing end with the same rows and the same SQL committed in the same order.
  lemma CrashesLeaveNoTrace(s0: System, schedule: Schedule, r: nat, other: Schedule, q: nat,
                            master: seq<MigrationFile>)
    requires Initial(s0) && Lineage(s0, master)
    requires CanRun(s0, schedule) && FromMaster(schedule, master)
    requires CanRun(s0, other) && FromMaster(other, master)
    requires r in After(s0, schedule).runners && After(s0, schedule).runners[r].pc.Finished?
    requires q in After(s0, other).runners && After(s0, other).runners[q].pc.Finished?
    requires After(s0, schedule).runners[r].local == After(s0, other).runners[q].local
    ensures After(s0, schedule).rows == After(s0, other).rows == Records(After(s0, schedule).runners[r].local)
    ensures FilesOf(After(s0, schedule).effects) == FilesOf(After(s0, other).effects)
         == After(s0, schedule).runners[r].local
  {
    FinishedLineage(s0, schedule, r, master);
    FinishedLineage(s0, other, q, master);
  }

  lemma FinishedLineage(s0: System, schedule: Schedule, r: nat, master: seq<MigrationFile>)
    requires Initial(s0) && Lineage(s0, master) && CanRun(s0, schedule) && FromMaster(schedule, master)
    requires r in After(s0, schedule).runners && After(s0, schedule).runners[r].pc.Finished?
    ensures var s := After(s0, schedule);
            s.rows == Records(s.runners[r].local) && FilesOf(s.effects) == s.runners[r].local
  {
    InitialInv(s0);
    LineageRun(s0, schedule, master);
    var s := After(s0, schedule);
    var x := s.runners[r];
    ApplyingRows(s, master, r);
    assert x.local[..|x.local|] == x.local;
  }
}
