/**
 * The files and the manifest of the migration runner (infra/scripts/apply_migrations.py).
 */
module Migrations {
  import opened Lists
  import opened Sorting
  import opened Text

  // SHA-256 as an injective function: two texts have one checksum only when they are the same.
  datatype Checksum = Sha256(text: string)

  datatype MigrationFile = MigrationFile(version: nat, filename: string, sql: string, checksum: Checksum)

  datatype Record = Record(version: nat, filename: string, checksum: Checksum)

  function RecordOf(file: MigrationFile): Record
  {
    Record(file.version, file.filename, file.checksum)
  }

  function Records(files: seq<MigrationFile>): (r: seq<Record>)
    ensures |r| == |files| && forall i | 0 <= i < |files| :: r[i] == RecordOf(files[i])
  {
    Map(files, RecordOf)
  }

  predicate DistinctFiles(files: seq<MigrationFile>)
  {
    forall i, j | 0 <= i < j < |files| :: files[i].version != files[j].version
  }

  predicate DistinctRows(rows: seq<Record>)
  {
    forall i, j | 0 <= i < j < |rows| :: rows[i].version != rows[j].version
  }

  predicate Increasing(files: seq<MigrationFile>)
  {
    forall i, j | 0 <= i < j < |files| :: files[i].version < files[j].version
  }

  // ---- the recorded manifest -----------------------------------------------------------------

  type Manifest = map<nat, Record>

  // A later row with the same version overwrites an earlier one.
  function ManifestOf(rows: seq<Record>): Manifest
  {
    if rows == [] then map[]
    else
      var last := rows[|rows| - 1];
      ManifestOf(rows[..|rows| - 1])[last.version := last]
  }

  lemma {:induction false} ManifestMember(rows: seq<Record>)
    ensures forall v | v in ManifestOf(rows) :: ManifestOf(rows)[v] in rows && ManifestOf(rows)[v].version == v
    ensures forall row | row in rows :: row.version in ManifestOf(rows)
  {
    if rows != [] {
      var front, last := rows[..|rows| - 1], rows[|rows| - 1];
      ManifestMember(front);
      assert forall row :: row in rows <==> row in front || row == last;
    }
  }

  lemma ManifestDistinct(rows: seq<Record>, row: Record)
    requires DistinctRows(rows) && row in rows
    ensures row.version in ManifestOf(rows) && ManifestOf(rows)[row.version] == row
  {
    ManifestMember(rows);
    var other := ManifestOf(rows)[row.version];
    var i :| 0 <= i < |rows| && rows[i] == row;
    var j :| 0 <= j < |rows| && rows[j] == other;
  }

  // Every recorded migration is, unchanged, one of the local ones.
  ghost predicate Matches(local: seq<MigrationFile>, recorded: Manifest)
  {
    forall v | v in recorded :: exists f :: f in local && f.version == v && RecordOf(f) == recorded[v]
  }

  function Pending(files: seq<MigrationFile>, recorded: Manifest): seq<MigrationFile>
  {
    Filter(files, (f: MigrationFile) => f.version !in recorded)
  }

  function Present(files: seq<MigrationFile>, recorded: Manifest): seq<MigrationFile>
  {
    Filter(files, (f: MigrationFile) => f.version in recorded)
  }

  function Names(files: seq<MigrationFile>): seq<string>
  {
    Map(files, (f: MigrationFile) => f.filename)
  }

  lemma PendingStep(files: seq<MigrationFile>, n: nat, recorded: Manifest)
    requires n < |files|
    ensures files[n].version !in recorded ==>
              && Pending(files[..n + 1], recorded) == Pending(files[..n], recorded) + [files[n]]
              && Present(files[..n + 1], recorded) == Present(files[..n], recorded)
    ensures files[n].version in recorded ==>
              && Pending(files[..n + 1], recorded) == Pending(files[..n], recorded)
              && Present(files[..n + 1], recorded) == Present(files[..n], recorded) + [files[n]]
  {
    assert files[..n + 1] == files[..n] + [files[n]];
    FilterAppend(files[..n], [files[n]], (f: MigrationFile) => f.version !in recorded);
    FilterAppend(files[..n], [files[n]], (f: MigrationFile) => f.version in recorded);
  }

  lemma PendingMember(files: seq<MigrationFile>, recorded: Manifest)
    ensures forall f :: f in Pending(files, recorded) <==> f in files && f.version !in recorded
    ensures forall f :: f in Present(files, recorded) <==> f in files && f.version in recorded
  {
    FilterMember(files, (f: MigrationFile) => f.version !in recorded);
    FilterMember(files, (f: MigrationFile) => f.version in recorded);
  }

  // ---- reading the migration directory -------------------------------------------------------

  datatype SqlFile = SqlFile(name: string, content: string)

  datatype ManifestError = NoFiles | BadName(name: string) | DuplicateVersion(version: nat)

  // The characters that \d accepts, with the digit int() reads each of them as.
  type DigitTable = map<char, nat>

  const ASCII_DIGITS: DigitTable := map c: char | '0' <= c <= '9' :: c as nat - '0' as nat

  // The Unicode decimal digits: the ASCII ones and possibly others above them.
  predicate IsDigitTable(digits: DigitTable)
  {
    && (forall c | c in digits :: digits[c] < 10 && (c <= '9' ==> c in ASCII_DIGITS))
    && forall c | c in ASCII_DIGITS :: c in digits && digits[c] == ASCII_DIGITS[c]
  }

  predicate IsWordChar(c: char)
  {
    'a' <= c <= 'z' || '0' <= c <= '9' || c == '_'
  }

  // ^\d{4}_[a-z0-9_]+\.sql$
  predicate MatchesName(name: string, digits: DigitTable)
  {
    && |name| >= 10
    && (forall i | 0 <= i < 4 :: name[i] in digits)
    && name[4] == '_'
    && (forall i | 5 <= i < |name| - 4 :: IsWordChar(name[i]))
    && name[|name| - 4..] == ".sql"
  }

  function Version(name: string, digits: DigitTable): nat
    requires MatchesName(name, digits)
  {
    1000 * digits[name[0]] + 100 * digits[name[1]] + 10 * digits[name[2]] + digits[name[3]]
  }

  function Loaded(file: SqlFile, digits: DigitTable): MigrationFile
    requires MatchesName(file.name, digits)
  {
    var sql := Strip(file.content);
    MigrationFile(Version(file.name, digits), file.name, sql, Sha256(sql))
  }

  function ByName(dir: seq<SqlFile>): seq<SqlFile>
  {
    Sort(dir, (f: SqlFile) => [f.name])
  }

  ghost predicate Acceptable(dir: seq<SqlFile>, digits: DigitTable)
  {
    && dir != []
    && (forall f | f in dir :: MatchesName(f.name, digits))
    && forall i, j | 0 <= i < j < |ByName(dir)| && MatchesName(ByName(dir)[i].name, digits)
                     && MatchesName(ByName(dir)[j].name, digits) ::
         Version(ByName(dir)[i].name, digits) != Version(ByName(dir)[j].name, digits)
  }

  ghost function VersionsOf(files: seq<MigrationFile>): set<nat>
  {
    set f | f in files :: f.version
  }

  ghost predicate LoadedFrom(files: seq<MigrationFile>, paths: seq<SqlFile>, digits: DigitTable)
  {
    |files| <= |paths| && forall i | 0 <= i < |files| ::
      MatchesName(paths[i].name, digits) && files[i] == Loaded(paths[i], digits)
  }

  method MigrationFiles(dir: seq<SqlFile>, digits: DigitTable)
    returns (r: Result<seq<MigrationFile>, ManifestError>)
    ensures r.Ok? <==> Acceptable(dir, digits)
    ensures r.Ok? ==> DistinctFiles(r.value)
    ensures r.Ok? ==> |r.value| == |dir| && LoadedFrom(r.value, ByName(dir), digits)
    ensures r.Ok? && IsDigitTable(digits) && (forall f | f in dir :: AsciiNumbered(f.name)) ==> Increasing(r.value)
  {
    hide MatchesName, Version, Sort, StrLe, Strip, IsDigitTable, AsciiNumbered, Increasing;
    var paths := ByName(dir);
    SameFiles(dir);
    if paths == [] { return Err(NoFiles); }
    var migrations: seq<MigrationFile> := [];
    var seen: set<nat> := {};
    var i := 0;
    while i < |paths|
      invariant i <= |paths| && |migrations| == i
      invariant LoadedFrom(migrations, paths, digits)
      invariant seen == VersionsOf(migrations)
      invariant DistinctFiles(migrations)
    {
      var path := paths[i];
      if !MatchesName(path.name, digits) {
        assert path in dir;
        return Err(BadName(path.name));
      }
      var file := Loaded(path, digits);
      if file.version in seen {
        var j :| 0 <= j < i && migrations[j].version == file.version;
        return Err(DuplicateVersion(file.version));
      }
      forall j | 0 <= j < i ensures migrations[j].version != file.version {
        assert migrations[j] in migrations;
      }
      seen := seen + {file.version};
      migrations := migrations + [file];
      i := i + 1;
    }
    forall f | f in dir ensures MatchesName(f.name, digits) {
      var j :| 0 <= j < |paths| && paths[j] == f;
    }
    if IsDigitTable(digits) && forall f | f in dir :: AsciiNumbered(f.name) {
      LoadedIncreasing(dir, digits, migrations);
    }
    return Ok(migrations);
  }

  lemma SameFiles(dir: seq<SqlFile>)
    ensures |ByName(dir)| == |dir|
    ensures forall f :: f in dir <==> f in ByName(dir)
  {
    SortSorted(dir, (f: SqlFile) => [f.name]);
    assert |multiset(dir)| == |multiset(ByName(dir))|;
    forall f ensures f in dir <==> f in ByName(dir) {
      assert f in multiset(dir) <==> f in multiset(ByName(dir));
    }
  }

  // ---- file name order and version order -------------------------------------------------------

  lemma AsciiOrder(a: string, b: string)
    requires MatchesName(a, ASCII_DIGITS) && MatchesName(b, ASCII_DIGITS) && StrLe(a, b)
    ensures Version(a, ASCII_DIGITS) <= Version(b, ASCII_DIGITS)
  {
    LexStep(a, b, 0);
    if a[0] == b[0] {
      LexStep(a, b, 1);
      if a[1] == b[1] {
        LexStep(a, b, 2);
        if a[2] == b[2] { LexStep(a, b, 3); }
      }
    }
  }

  lemma {:induction false} LexStep(a: string, b: string, n: nat)
    requires StrLe(a, b) && n < |a| && n < |b| && a[..n] == b[..n]
    ensures a[n] <= b[n]
  {
    if n > 0 {
      assert a[0] == a[..n][0] == b[0];
      assert a[1..][..n - 1] == a[..n][1..] == b[1..][..n - 1];
      LexStep(a[1..], b[1..], n - 1);
    }
  }

  ghost predicate GivesIncreasingVersions(digits: DigitTable)
  {
    forall dir: seq<SqlFile> | Acceptable(dir, digits) :: IncreasingNames(ByName(dir), digits)
  }

  ghost predicate IncreasingNames(paths: seq<SqlFile>, digits: DigitTable)
  {
    forall i, j | 0 <= i < j < |paths| && MatchesName(paths[i].name, digits) && MatchesName(paths[j].name, digits) ::
      Version(paths[i].name, digits) < Version(paths[j].name, digits)
  }

  // Sorting by file name puts the versions of every accepted directory in increasing order exactly
  // when \d accepts no digits but the ASCII ones. Python's \d accepts others.
  lemma NameOrderIsVersionOrder(digits: DigitTable)
    requires IsDigitTable(digits)
    ensures GivesIncreasingVersions(digits) <==> digits.Keys == ASCII_DIGITS.Keys
  {
    if digits.Keys == ASCII_DIGITS.Keys {
      assert digits == ASCII_DIGITS;
      forall dir: seq<SqlFile> | Acceptable(dir, digits) ensures IncreasingNames(ByName(dir), digits) {
        AcceptedIncreasing(dir);
      }
    } else {
      var c :| c in digits && c !in ASCII_DIGITS;
      OtherDigitBreaksOrder(digits, c);
    }
  }

  lemma AcceptedIncreasing(dir: seq<SqlFile>)
    requires Acceptable(dir, ASCII_DIGITS)
    ensures IncreasingNames(ByName(dir), ASCII_DIGITS)
  {
    var key := (f: SqlFile) => [f.name];
    var paths := ByName(dir);
    SortSorted(dir, key);
    forall i, j | 0 <= i < j < |paths| && MatchesName(paths[i].name, ASCII_DIGITS)
                  && MatchesName(paths[j].name, ASCII_DIGITS)
      ensures Version(paths[i].name, ASCII_DIGITS) < Version(paths[j].name, ASCII_DIGITS)
    {
      assert KeyLe(key(paths[i]), key(paths[j]));
      AsciiOrder(paths[i].name, paths[j].name);
    }
  }

  // The four characters a name must start with are ASCII digits.
  predicate AsciiNumbered(name: string)
  {
    |name| >= 4 && forall i | 0 <= i < 4 :: name[i] in ASCII_DIGITS
  }

  lemma AsciiMatches(name: string, digits: DigitTable)
    requires IsDigitTable(digits) && AsciiNumbered(name) && MatchesName(name, digits)
    ensures MatchesName(name, ASCII_DIGITS) && Version(name, ASCII_DIGITS) == Version(name, digits)
  {
  }

  // Whatever else \d accepts, a directory whose names start with ASCII digits loads in increasing
  // order of versions.
  lemma LoadedIncreasing(dir: seq<SqlFile>, digits: DigitTable, files: seq<MigrationFile>)
    requires IsDigitTable(digits) && Acceptable(dir, digits) && forall f | f in dir :: AsciiNumbered(f.name)
    requires |files| == |dir| && LoadedFrom(files, ByName(dir), digits)
    ensures Increasing(files)
  {
    hide MatchesName, Version, AsciiNumbered, IsDigitTable, Strip;
    var paths := ByName(dir);
    SameFiles(dir);
    forall f | f in dir
      ensures MatchesName(f.name, ASCII_DIGITS) && Version(f.name, ASCII_DIGITS) == Version(f.name, digits) {
      AsciiMatches(f.name, digits);
    }
    forall i | 0 <= i < |paths| ensures paths[i] in dir {}
    assert Acceptable(dir, ASCII_DIGITS);
    AcceptedIncreasing(dir);
    forall i, j | 0 <= i < j < |files| ensures files[i].version < files[j].version {
      assert files[i] == Loaded(paths[i], digits) && files[j] == Loaded(paths[j], digits);
    }
  }

  // A name that starts with a digit beyond ASCII.
  function BeyondName(c: char): string
  {
    [c] + "000_a.sql"
  }

  const NINES := "9999_a.sql"

  lemma NinesMatch(digits: DigitTable)
    requires IsDigitTable(digits)
    ensures MatchesName(NINES, digits) && Version(NINES, digits) == 9999
  {
    assert NINES[|NINES| - 4..] == ".sql";
  }

  lemma BeyondMatches(digits: DigitTable, c: char)
    requires IsDigitTable(digits) && c in digits && c !in ASCII_DIGITS
    ensures MatchesName(BeyondName(c), digits) && Version(BeyondName(c), digits) == 1000 * digits[c]
    ensures digits[c] < 10 && StrLe(NINES, BeyondName(c))
  {
    var name := BeyondName(c);
    assert name[|name| - 4..] == ".sql";
    assert name[0] == c && name[1] == '0' && name[2] == '0' && name[3] == '0' && name[4] == '_';
  }

  lemma TwoByName(a: SqlFile, b: SqlFile)
    requires StrLe(a.name, b.name)
    ensures ByName([a, b]) == [a, b]
  {
    hide StrLe;
    var key := (f: SqlFile) => [f.name];
    assert [a, b][1..] == [b] && [b][1..] == [];
    assert Sort([b], key) == [b];
    assert KeyLe(key(a), key(b));
  }

  // "9999_a.sql" sorts before a name that starts with a digit beyond ASCII, whatever its value.
  lemma OtherDigitBreaksOrder(digits: DigitTable, c: char)
    requires IsDigitTable(digits) && c in digits && c !in ASCII_DIGITS
    ensures !GivesIncreasingVersions(digits)
  {
    var a, b := SqlFile(NINES, ""), SqlFile(BeyondName(c), "");
    NinesMatch(digits);
    BeyondMatches(digits, c);
    TwoByName(a, b);
    hide *;
    PairBreaks(a, b, digits);
  }

  lemma PairBreaks(a: SqlFile, b: SqlFile, digits: DigitTable)
    requires MatchesName(a.name, digits) && MatchesName(b.name, digits) && ByName([a, b]) == [a, b]
    requires Version(a.name, digits) > Version(b.name, digits)
    ensures !GivesIncreasingVersions(digits)
  {
    hide MatchesName, Version, ByName;
    var dir := [a, b];
    assert forall f | f in dir :: f == a || f == b;
    assert Acceptable(dir, digits);
    assert ByName(dir)[0] == a && ByName(dir)[1] == b;
    assert !IncreasingNames(ByName(dir), digits);
  }

  // ---- what a file name and a loaded file are ------------------------------------------------------

  predicate IsWord(word: string)
  {
    word != "" && forall c | c in word :: 'a' <= c <= 'z' || '0' <= c <= '9' || c == '_'
  }

  function NameOf(number: string, word: string): string
  {
    number + "_" + word + ".sql"
  }

  // A name has the form exactly when it is four digits, an underscore, a word and the suffix.
  lemma NameExactly(name: string, digits: DigitTable)
    ensures MatchesName(name, digits)
       <==> exists number, word :: |number| == 4 && (forall c | c in number :: c in digits) && IsWord(word)
                                   && name == NameOf(number, word)
  {
    hide IsWord;
    if MatchesName(name, digits) {
      var number, word := name[..4], name[5..|name| - 4];
      assert name == NameOf(number, word);
      WordInside(name, digits);
    }
    if number, word :| |number| == 4 && (forall c | c in number :: c in digits) && IsWord(word)
                       && name == NameOf(number, word) {
      NameMatches(number, word, digits);
    }
  }

  lemma WordInside(name: string, digits: DigitTable)
    requires MatchesName(name, digits)
    ensures IsWord(name[5..|name| - 4])
  {
    var word := name[5..|name| - 4];
    forall c | c in word ensures 'a' <= c <= 'z' || '0' <= c <= '9' || c == '_' {
      var i :| 0 <= i < |word| && word[i] == c;
      assert IsWordChar(name[5 + i]);
    }
  }

  lemma NameMatches(number: string, word: string, digits: DigitTable)
    requires |number| == 4 && (forall c | c in number :: c in digits) && IsWord(word)
    ensures MatchesName(NameOf(number, word), digits)
  {
    var name := NameOf(number, word);
    forall i | 0 <= i < 4 ensures name[i] in digits { assert name[i] == number[i] && number[i] in number; }
    forall i | 5 <= i < |name| - 4 ensures IsWordChar(name[i]) {
      assert name[i] == word[i - 5] && word[i - 5] in word;
    }
  }

  // A loaded file keeps its name, its text without the white space around it and that text's
  // checksum; its version is the number its name starts with.
  lemma LoadedFields(file: SqlFile, digits: DigitTable)
    requires IsDigitTable(digits) && MatchesName(file.name, digits)
    ensures var m := Loaded(file, digits);
            && m.filename == file.name && m.sql == Strip(file.content) && m.checksum == Sha256(Strip(file.content))
            && (AsciiNumbered(file.name) ==> m.version == ParseNat(file.name[..4]))
  {
    var name := file.name;
    if AsciiNumbered(name) {
      assert name[..4][..3] == name[..3] && name[..3][..2] == name[..2] && name[..2][..1] == name[..1];
      assert name[..1] == [name[0]] && [name[0]][..0] == "";
      assert ParseNat(name[..1]) == digits[name[0]];
      assert ParseNat(name[..2]) == 10 * digits[name[0]] + digits[name[1]];
      assert ParseNat(name[..3]) == 100 * digits[name[0]] + 10 * digits[name[1]] + digits[name[2]];
    }
  }
}
