/**
 * One call of apply_migrations against a database (infra/scripts/apply_migrations.py), with a
 * migration's SQL allowed to fail. What it leaves when nothing fails is what MigrationSolo.SoloRun
 * reaches.
 */
module MigrationRun {
  import Lists
  import opened Text
  import opened Migrations

  datatype Drift =
    | InvalidRow(index: nat)
    | InvalidVersion(index: nat)
    | MissingVersions(versions: set<nat>)
    | FilenameDrift(version: nat)
    | ChecksumDrift(version: nat)

  datatype Failure = DriftError(drift: Drift) | SqlError(version: nat)

  datatype Summary = Summary(applied: seq<string>, skipped: seq<string>)

  class Database {
    var locked: bool
    var table: bool
    var rows: seq<Record>
    var effects: seq<MigrationFile>

    constructor ()
      ensures !locked && !table && rows == [] && effects == []
    {
      locked, table, rows, effects := false, false, [], [];
    }
  }

  // A row as the driver hands it over: of three columns with an integer in front, or not.
  datatype FetchedRow = WrongLength | NoVersion | Row(record: Record)

  function RecordsIn(fetched: seq<FetchedRow>): seq<Record>
    requires forall row | row in fetched :: row.Row?
  {
    seq(|fetched|, i requires 0 <= i < |fetched| => assert fetched[i] in fetched; fetched[i].record)
  }

  predicate FirstInvalid(fetched: seq<FetchedRow>, i: nat)
  {
    i < |fetched| && !fetched[i].Row? && forall j | 0 <= j < i :: fetched[j].Row?
  }

  // The rows by version, or the first row that is not one.
  method RecordedMigrations(fetched: seq<FetchedRow>) returns (r: Result<Manifest, Drift>)
    ensures r.Ok? <==> forall row | row in fetched :: row.Row?
    ensures r.Ok? ==> r.value == ManifestOf(RecordsIn(fetched))
    ensures r.Err? ==> exists i: nat ::
              && FirstInvalid(fetched, i)
              && r.error == if fetched[i].WrongLength? then InvalidRow(i) else InvalidVersion(i)
  {
    var recorded: Manifest := map[];
    ghost var records: seq<Record> := [];
    var i := 0;
    while i < |fetched|
      invariant i <= |fetched| && |records| == i && recorded == ManifestOf(records)
      invariant forall j | 0 <= j < i :: fetched[j].Row? && records[j] == fetched[j].record
    {
      match fetched[i] {
        case WrongLength =>
          assert fetched[i] in fetched && FirstInvalid(fetched, i);
          return Err(InvalidRow(i));
        case NoVersion =>
          assert fetched[i] in fetched && FirstInvalid(fetched, i);
          return Err(InvalidVersion(i));
        case Row(record) =>
          recorded := recorded[record.version := record];
          assert (records + [record])[..i] == records;
          records := records + [record];
      }
      i := i + 1;
    }
    assert records == RecordsIn(fetched);
    return Ok(recorded);
  }

  // The local migration with the version, if any.
  function LocalOf(local: seq<MigrationFile>, version: nat): (r: Option<MigrationFile>)
    ensures r.Some? ==> r.value in local && r.value.version == version
    ensures r.None? ==> forall f | f in local :: f.version != version
  {
    if local == [] then None
    else if local[0].version == version then Some(local[0])
    else LocalOf(local[1..], version)
  }

  predicate Agrees(local: seq<MigrationFile>, record: Record)
  {
    var f := LocalOf(local, record.version);
    f.Some? && RecordOf(f.value) == record
  }

  predicate FirstDrift(local: seq<MigrationFile>, fetched: seq<Record>, i: nat)
  {
    i < |fetched| && !Agrees(local, fetched[i]) && forall j | 0 <= j < i :: Agrees(local, fetched[j])
  }

  // The dictionary is filled in row order, so the rows give the order in which it is checked.
  method ValidateRecorded(local: seq<MigrationFile>, fetched: seq<Record>, recorded: Manifest)
    returns (r: Option<Drift>)
    requires DistinctFiles(local) && DistinctRows(fetched) && recorded == ManifestOf(fetched)
    ensures r.None? <==> Matches(local, recorded)
    ensures r.Some? && r.value.MissingVersions? <==> exists v :: v in recorded && LocalOf(local, v).None?
    ensures r.Some? && r.value.MissingVersions? ==>
              r.value.versions == set v | v in recorded && LocalOf(local, v).None?
    ensures r.Some? && !r.value.MissingVersions? ==>
              && (r.value.FilenameDrift? || r.value.ChecksumDrift?)
              && exists i: nat :: FirstDrift(local, fetched, i) && fetched[i].version == r.value.version
    ensures r.Some? && r.value.FilenameDrift? ==>
              r.value.version in recorded && LocalOf(local, r.value.version).Some?
              && LocalOf(local, r.value.version).value.filename != recorded[r.value.version].filename
    ensures r.Some? && r.value.ChecksumDrift? ==>
              r.value.version in recorded && LocalOf(local, r.value.version).Some?
              && LocalOf(local, r.value.version).value.filename == recorded[r.value.version].filename
              && LocalOf(local, r.value.version).value.checksum != recorded[r.value.version].checksum
  {
    var missing := set v | v in recorded && LocalOf(local, v).None?;
    if missing != {} {
      var v :| v in missing;
      return Some(MissingVersions(missing));
    }
    assert forall v | v in recorded :: v !in missing;
    ManifestMember(fetched);
    var i := 0;
    while i < |fetched|
      invariant i <= |fetched|
      invariant forall j | 0 <= j < i :: Agrees(local, fetched[j])
    {
      var record := fetched[i];
      assert record in fetched;
      ManifestDistinct(fetched, record);
      var migration := LocalOf(local, record.version).value;
      if record.filename != migration.filename {
        OnlyLocal(local, migration);
        assert FirstDrift(local, fetched, i);
        return Some(FilenameDrift(record.version));
      }
      if record.checksum != migration.checksum {
        OnlyLocal(local, migration);
        assert FirstDrift(local, fetched, i);
        return Some(ChecksumDrift(record.version));
      }
      i := i + 1;
    }
    AllAgree(local, fetched);
    return None;
  }

  lemma AllAgree(local: seq<MigrationFile>, fetched: seq<Record>)
    requires DistinctFiles(local) && DistinctRows(fetched) && forall j | 0 <= j < |fetched| :: Agrees(local, fetched[j])
    ensures Matches(local, ManifestOf(fetched))
  {
    var recorded := ManifestOf(fetched);
    ManifestMember(fetched);
    forall v | v in recorded
      ensures exists f :: f in local && f.version == v && RecordOf(f) == recorded[v]
    {
      var j :| 0 <= j < |fetched| && fetched[j] == recorded[v];
      var f := LocalOf(local, v).value;
      assert Agrees(local, fetched[j]);
      assert f in local && RecordOf(f) == recorded[v];
    }
  }

  lemma OnlyLocal(local: seq<MigrationFile>, f: MigrationFile)
    requires DistinctFiles(local) && f in local
    ensures forall g | g in local && g.version == f.version :: g == f
  {
    forall g | g in local && g.version == f.version ensures g == f {
      var i :| 0 <= i < |local| && local[i] == f;
      var j :| 0 <= j < |local| && local[j] == g;
    }
  }

  // The pending migrations before the first whose SQL fails.
  function Succeeding(pending: seq<MigrationFile>, broken: set<nat>): (r: seq<MigrationFile>)
    ensures r <= pending
  {
    if pending == [] || pending[0].version in broken then []
    else [pending[0]] + Succeeding(pending[1..], broken)
  }

  lemma {:induction false} SucceedingAppend(a: seq<MigrationFile>, b: seq<MigrationFile>, broken: set<nat>)
    requires Succeeding(a, broken) == a
    ensures Succeeding(a + b, broken) == a + Succeeding(b, broken)
  {
    if a == [] {
      assert a + b == b;
    } else {
      assert Succeeding(a, broken) == [a[0]] + Succeeding(a[1..], broken);
      assert a == [a[0]] + a[1..];
      SucceedingAppend(a[1..], b, broken);
      assert (a + b)[1..] == a[1..] + b;
    }
  }

  // What the loop has done after the first migrations, starting from the given rows and effects.
  ghost predicate Progress(rows0: seq<Record>, effects0: seq<MigrationFile>, first: seq<MigrationFile>,
                           recorded: Manifest, broken: set<nat>,
                           rows: seq<Record>, effects: seq<MigrationFile>, applied: seq<string>, skipped: seq<string>)
  {
    var done := Pending(first, recorded);
    && Succeeding(done, broken) == done
    && rows == rows0 + Records(done)
    && effects == effects0 + done
    && applied == Names(done) && skipped == Names(Present(first, recorded))
  }

  // What the call leaves behind, given the rows and effects it found.
  ghost predicate Outcome(rows0: seq<Record>, effects0: seq<MigrationFile>, migrations: seq<MigrationFile>,
                          broken: set<nat>, rows: seq<Record>, effects: seq<MigrationFile>,
                          r: Result<Summary, Failure>)
  {
    var recorded := ManifestOf(rows0);
    if !Matches(migrations, recorded) then
      r.Err? && r.error.DriftError? && rows == rows0 && effects == effects0
    else
      var pending := Pending(migrations, recorded);
      var done := Succeeding(pending, broken);
      && rows == rows0 + Records(done)
      && effects == effects0 + done
      && r == if done == pending then Ok(Summary(Names(pending), Names(Present(migrations, recorded))))
              else Err(SqlError(pending[|done|].version))
  }

  method ApplyMigrations(db: Database, migrations: seq<MigrationFile>, broken: set<nat>)
    returns (r: Result<Summary, Failure>)
    requires !db.locked && DistinctFiles(migrations) && DistinctRows(db.rows)
    modifies db
    ensures !db.locked && db.table
    ensures Outcome(old(db.rows), old(db.effects), migrations, broken, db.rows, db.effects, r)
  {
    hide Pending, Present, Names, Records, Succeeding, ManifestOf, Matches, Progress;
    db.locked := true;
    db.table := true;
    var fetched := db.rows;
    ghost var effects0 := db.effects;
    var read := RecordedMigrations(Lists.Map(fetched, (record: Record) => Row(record)));
    var recorded := read.value;
    assert RecordsIn(Lists.Map(fetched, (record: Record) => Row(record))) == fetched;
    var drift := ValidateRecorded(migrations, fetched, recorded);
    if drift.Some? {
      db.locked := false;
      return Err(DriftError(drift.value));
    }
    var applied: seq<string>, skipped: seq<string> := [], [];
    ProgressStart(fetched, effects0, migrations, recorded, broken);
    var i := 0;
    while i < |migrations|
      invariant i <= |migrations|
      invariant db.table
      invariant Progress(fetched, effects0, migrations[..i], recorded, broken, db.rows, db.effects, applied, skipped)
    {
      var migration := migrations[i];
      ProgressStep(fetched, effects0, migrations, i, recorded, broken, db.rows, db.effects, applied, skipped);
      i := i + 1;
      if migration.version in recorded {
        skipped := skipped + [migration.filename];
        continue;
      }
      // The transaction: the SQL and the row are kept together or rolled back together.
      var rows, effects := db.rows, db.effects;
      db.effects := db.effects + [migration];
      if migration.version in broken {
        db.rows, db.effects := rows, effects;
        db.locked := false;
        return Err(SqlError(migration.version));
      }
      db.rows := db.rows + [RecordOf(migration)];
      applied := applied + [migration.filename];
    }
    assert migrations[..i] == migrations;
    db.locked := false;
    r := Ok(Summary(applied, skipped));
    ProgressEnd(fetched, effects0, migrations, recorded, broken, db.rows, db.effects, applied, skipped);
  }

  lemma ProgressStart(rows0: seq<Record>, effects0: seq<MigrationFile>, migrations: seq<MigrationFile>,
                      recorded: Manifest, broken: set<nat>)
    ensures Progress(rows0, effects0, migrations[..0], recorded, broken, rows0, effects0, [], [])
  {
    assert rows0 + [] == rows0 && effects0 + [] == effects0;
  }

  lemma ProgressEnd(rows0: seq<Record>, effects0: seq<MigrationFile>, migrations: seq<MigrationFile>,
                    recorded: Manifest, broken: set<nat>, rows: seq<Record>, effects: seq<MigrationFile>,
                    applied: seq<string>, skipped: seq<string>)
    requires recorded == ManifestOf(rows0) && Matches(migrations, recorded)
    requires Progress(rows0, effects0, migrations, recorded, broken, rows, effects, applied, skipped)
    ensures Outcome(rows0, effects0, migrations, broken, rows, effects, Ok(Summary(applied, skipped)))
  {
  }

  lemma ProgressStep(rows0: seq<Record>, effects0: seq<MigrationFile>, migrations: seq<MigrationFile>, i: nat,
                     recorded: Manifest, broken: set<nat>, rows: seq<Record>, effects: seq<MigrationFile>,
                     applied: seq<string>, skipped: seq<string>)
    requires i < |migrations| && recorded == ManifestOf(rows0) && Matches(migrations, recorded)
    requires Progress(rows0, effects0, migrations[..i], recorded, broken, rows, effects, applied, skipped)
    ensures var f := migrations[i];
            if f.version in recorded then
              Progress(rows0, effects0, migrations[..i + 1], recorded, broken, rows, effects,
                       applied, skipped + [f.filename])
            else if f.version in broken then
              Outcome(rows0, effects0, migrations, broken, rows, effects, Err(SqlError(f.version)))
            else
              Progress(rows0, effects0, migrations[..i + 1], recorded, broken, rows + [RecordOf(f)],
                       effects + [f], applied + [f.filename], skipped)
  {
    hide Pending, Present, ManifestOf, Matches, Succeeding;
    var f, done := migrations[i], Pending(migrations[..i], recorded);
    PendingStep(migrations, i, recorded);
    PendingSplit(migrations, i, recorded);
    if f.version in recorded {
    } else if f.version in broken {
      var rest := [f] + Pending(migrations[i + 1..], recorded);
      SucceedingAppend(done, rest, broken);
      SucceedingHead(f, Pending(migrations[i + 1..], recorded), broken);
      assert done + rest == Pending(migrations, recorded);
      assert done + [] == done;
    } else {
      SucceedingHead(f, [], broken);
      SucceedingAppend(done, [f], broken);
    }
  }

  lemma SucceedingHead(f: MigrationFile, rest: seq<MigrationFile>, broken: set<nat>)
    ensures f.version in broken ==> Succeeding([f] + rest, broken) == []
    ensures f.version !in broken ==> Succeeding([f], broken) == [f]
  {
    assert [f][1..] == [];
  }

  lemma PendingSplit(files: seq<MigrationFile>, i: nat, recorded: Manifest)
    requires i < |files|
    ensures Pending(files, recorded) == Pending(files[..i], recorded)
          + (if files[i].version in recorded then [] else [files[i]]) + Pending(files[i + 1..], recorded)
  {
    PendingStep(files, i, recorded);
    PendingJoin(files[..i + 1], files[i + 1..], recorded);
    assert files == files[..i + 1] + files[i + 1..];
  }

  lemma PendingJoin(a: seq<MigrationFile>, b: seq<MigrationFile>, recorded: Manifest)
    ensures Pending(a + b, recorded) == Pending(a, recorded) + Pending(b, recorded)
  {
    Lists.FilterAppend(a, b, (f: MigrationFile) => f.version !in recorded);
  }
}
