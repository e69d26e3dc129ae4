/**
 * Evidence manifests: what the validators of scripts/signal_family_evidence.py and
 * scripts/source_contract_evidence.py accept, the artifacts they build and the templates they write.
 *
 * The two scripts are one algorithm for two kinds of key, described by a Shape.
 */
module Evidence {
  import opened Text
  import opened Lists
  import opened Sorting
  import opened Json

  // The second half of a key is any non-blank text, or one of a list of gates.
  datatype Shape = Shape(
    section: string, second: string, schema: string, refPath: string, gates: Option<seq<string>>,
    statuses: set<string>)

  // A county and its signal type or gate.
  type Key2 = (string, string)

  function SignalFamily(statuses: set<string>): Shape
  {
    Shape("signal_family_gap_evidence", "signal_type", "signal-family-evidence-input/v1", "signal-gap", None,
          statuses)
  }

  function SourceContract(statuses: set<string>): Shape
  {
    Shape("source_contract_evidence", "gate", "source-contract-evidence-input/v1", "source-contract",
          Some(["authorization_request", "metadata_release_monitor", "public_api_contract_review"]), statuses)
  }

  datatype Failure =
    | WrongSchema
    | NoCapturedAt
    | NotArray
    | NotObject(index: nat)
    | NoCounty(index: nat)
    | BadSecond(index: nat)
    | BadStatus(index: nat)
    | NoEvidenceRef(index: nat)
    | NoReviewedAt(index: nat)
    | NotRequired(index: nat, key: Key2)
    | Duplicate(index: nat, key: Key2)
    | Missing(key: Key2)

  predicate NonBlank(v: Json)
  {
    v.Str? && !IsBlank(v.text)
  }

  predicate SecondOk(shape: Shape, v: Json)
  {
    if shape.gates.Some? then v.Str? && v.text in shape.gates.value else NonBlank(v)
  }

  predicate StatusOk(shape: Shape, v: Json)
  {
    v.Str? && v.text in shape.statuses
  }

  function EntryKey(shape: Shape, item: Dict): Option<Key2>
  {
    var county, second := Get(item, "county"), Get(item, shape.second);
    if NonBlank(county) && (if shape.gates.Some? then second.Str? else NonBlank(second))
    then Some((Strip(county.text), Strip(second.text)))
    else None
  }

  predicate EntryIsAccepted(shape: Shape, item: Dict)
  {
    EntryKey(shape, item).Some? && StatusOk(shape, Get(item, "status"))
    && NonBlank(Get(item, "evidence_ref")) && NonBlank(Get(item, "reviewed_at"))
  }

  // ---- the validator -----------------------------------------------------------------------------

  function When(condition: bool, failure: Failure): seq<Failure>
  {
    if condition then [failure] else []
  }

  function EntryFailures(shape: Shape, item: Dict, index: nat, required: set<Key2>): seq<Failure>
  {
    var key := EntryKey(shape, item);
    When(!NonBlank(Get(item, "county")), NoCounty(index))
    + When(!SecondOk(shape, Get(item, shape.second)), BadSecond(index))
    + When(!StatusOk(shape, Get(item, "status")), BadStatus(index))
    + When(!NonBlank(Get(item, "evidence_ref")), NoEvidenceRef(index))
    + When(!NonBlank(Get(item, "reviewed_at")), NoReviewedAt(index))
    + if key.Some? && key.value !in required then [NotRequired(index, key.value)] else []
  }

  function KeyOfEntry(shape: Shape, entry: Json): Option<Key2>
  {
    if entry.Obj? then EntryKey(shape, entry.fields) else None
  }

  function SeenKeys(shape: Shape, entries: seq<Json>): set<Key2>
  {
    set e | e in entries && KeyOfEntry(shape, e).Some? :: KeyOfEntry(shape, e).value
  }

  function AcceptedKeys(shape: Shape, entries: seq<Json>): set<Key2>
  {
    set e | e in entries && e.Obj? && EntryIsAccepted(shape, e.fields) :: EntryKey(shape, e.fields).value
  }

  // What entry number index adds, after the entries before it.
  function StepFailures(shape: Shape, entries: seq<Json>, index: nat, required: set<Key2>): seq<Failure>
    requires index < |entries|
  {
    var entry := entries[index];
    if !entry.Obj? then [NotObject(index)]
    else
      var key := EntryKey(shape, entry.fields);
      var own := EntryFailures(shape, entry.fields, index, required);
      if key.Some? && key.value in SeenKeys(shape, entries[..index]) then own + [Duplicate(index, key.value)] else own
  }

  function FailuresUpTo(shape: Shape, entries: seq<Json>, n: nat, required: set<Key2>): seq<Failure>
    requires n <= |entries|
  {
    if n == 0 then []
    else FailuresUpTo(shape, entries, n - 1, required) + StepFailures(shape, entries, n - 1, required)
  }

  // The missing keys in order of their second part, then of their county.
  function SortedKeys(keys: set<Key2>): seq<Key2>
  {
    WithSeconds(keys, SortedSet(set k | k in keys :: k.1))
  }

  function WithSeconds(keys: set<Key2>, seconds: seq<string>): seq<Key2>
  {
    if seconds == [] then []
    else
      Map(SortedSet(set k | k in keys && k.1 == seconds[0] :: k.0), (county: string) => (county, seconds[0]))
      + WithSeconds(keys, seconds[1..])
  }

  function HeaderFailures(shape: Shape, manifest: Dict): seq<Failure>
  {
    When(Get(manifest, "schema_version") != Str(shape.schema), WrongSchema)
    + When(!NonBlank(Get(manifest, "captured_at")), NoCapturedAt)
  }

  function Failures(shape: Shape, manifest: Dict, required: set<Key2>): seq<Failure>
  {
    match Get(manifest, shape.section)
    case Arr(entries) =>
      HeaderFailures(shape, manifest)
      + FailuresUpTo(shape, entries, |entries|, required)
      + Map(SortedKeys(required - AcceptedKeys(shape, entries)), (key: Key2) => Missing(key))
    case _ => HeaderFailures(shape, manifest) + [NotArray]
  }

  // An entry goes through without a failure exactly when it is valid by itself and its key is required.
  method ValidateEntry(shape: Shape, item: Dict, index: nat, required: set<Key2>) returns (failures: seq<Failure>)
    ensures failures == [] <==>
              EntryValid(shape, Obj(item)) && EntryKey(shape, item).Some? && EntryKey(shape, item).value in required
    ensures failures == EntryFailures(shape, item, index, required)
  {
    EntryFailuresNone(shape, item, index, required);
    hide NonBlank, SecondOk, StatusOk, EntryKey;
    failures := [];
    if !NonBlank(Get(item, "county")) { failures := failures + [NoCounty(index)]; }
    ghost var expected := When(!NonBlank(Get(item, "county")), NoCounty(index));
    assert failures == expected;
    if !SecondOk(shape, Get(item, shape.second)) { failures := failures + [BadSecond(index)]; }
    expected := expected + When(!SecondOk(shape, Get(item, shape.second)), BadSecond(index));
    assert failures == expected;
    if !StatusOk(shape, Get(item, "status")) { failures := failures + [BadStatus(index)]; }
    expected := expected + When(!StatusOk(shape, Get(item, "status")), BadStatus(index));
    assert failures == expected;
    if !NonBlank(Get(item, "evidence_ref")) { failures := failures + [NoEvidenceRef(index)]; }
    expected := expected + When(!NonBlank(Get(item, "evidence_ref")), NoEvidenceRef(index));
    assert failures == expected;
    if !NonBlank(Get(item, "reviewed_at")) { failures := failures + [NoReviewedAt(index)]; }
    expected := expected + When(!NonBlank(Get(item, "reviewed_at")), NoReviewedAt(index));
    assert failures == expected;
    hide When;
    var key := EntryKey(shape, item);
    if key.Some? && key.value !in required { failures := failures + [NotRequired(index, key.value)]; }
  }

  lemma SeenAppend(shape: Shape, entries: seq<Json>, i: nat)
    requires i < |entries|
    ensures SeenKeys(shape, entries[..i + 1])
         == SeenKeys(shape, entries[..i])
            + if KeyOfEntry(shape, entries[i]).Some? then {KeyOfEntry(shape, entries[i]).value} else {}
    ensures AcceptedKeys(shape, entries[..i + 1])
         == AcceptedKeys(shape, entries[..i])
            + if entries[i].Obj? && EntryIsAccepted(shape, entries[i].fields)
              then {EntryKey(shape, entries[i].fields).value} else {}
  {
    hide EntryKey, StatusOk, NonBlank;
    assert entries[..i + 1] == entries[..i] + [entries[i]];
  }

  // One turn of the validator's loop, with the keys it has seen.
  method ValidateItem(shape: Shape, entries: seq<Json>, index: nat, required: set<Key2>, seen: set<Key2>)
    returns (failures: seq<Failure>, key: Option<Key2>)
    requires index < |entries| && seen == SeenKeys(shape, entries[..index])
    ensures failures == StepFailures(shape, entries, index, required)
    ensures key == KeyOfEntry(shape, entries[index])
  {
    hide EntryFailures, EntryKey, SeenKeys;
    if !entries[index].Obj? { return [NotObject(index)], None; }
    var item := entries[index].fields;
    key := EntryKey(shape, item);
    failures := ValidateEntry(shape, item, index, required);
    if key.Some? && key.value in seen { failures := failures + [Duplicate(index, key.value)]; }
  }

  method ValidateManifest(shape: Shape, manifest: Dict, required: set<Key2>) returns (failures: seq<Failure>)
    ensures failures == Failures(shape, manifest, required)
  {
    hide StepFailures, EntryKey, KeyOfEntry, EntryIsAccepted, NonBlank, SeenKeys, AcceptedKeys, SortedKeys;
    failures := [];
    if Get(manifest, "schema_version") != Str(shape.schema) { failures := failures + [WrongSchema]; }
    if !NonBlank(Get(manifest, "captured_at")) { failures := failures + [NoCapturedAt]; }
    ghost var header := failures;
    assert header == HeaderFailures(shape, manifest);
    hide HeaderFailures;
    var section := Get(manifest, shape.section);
    if !section.Arr? { return failures + [NotArray]; }
    var entries := section.items;
    var accepted: set<Key2>, seen: set<Key2> := {}, {};
    NothingSeen(shape);
    assert entries[..0] == [];
    for i := 0 to |entries|
      invariant failures == header + FailuresUpTo(shape, entries, i, required)
      invariant seen == SeenKeys(shape, entries[..i]) && accepted == AcceptedKeys(shape, entries[..i])
    {
      SeenAppend(shape, entries, i);
      KeyNeeded(shape, entries[i]);
      var own, key := ValidateItem(shape, entries, i, required, seen);
      failures := failures + own;
      if key.None? { continue; }
      seen := seen + {key.value};
      if EntryIsAccepted(shape, entries[i].fields) { accepted := accepted + {key.value}; }
    }
    assert entries[..|entries|] == entries;
    failures := failures + Map(SortedKeys(required - accepted), (key: Key2) => Missing(key));
  }

  lemma NothingSeen(shape: Shape)
    ensures SeenKeys(shape, []) == {} && AcceptedKeys(shape, []) == {}
  {
  }

  lemma KeyNeeded(shape: Shape, entry: Json)
    ensures KeyOfEntry(shape, entry).Some? ==> entry.Obj? && KeyOfEntry(shape, entry) == EntryKey(shape, entry.fields)
    ensures entry.Obj? && EntryIsAccepted(shape, entry.fields) ==> KeyOfEntry(shape, entry).Some?
  {
  }

  // ---- what it means to pass ---------------------------------------------------------------------

  // An entry that is valid by itself.
  predicate EntryValid(shape: Shape, entry: Json)
  {
    && entry.Obj?
    && NonBlank(Get(entry.fields, "county")) && SecondOk(shape, Get(entry.fields, shape.second))
    && StatusOk(shape, Get(entry.fields, "status"))
    && NonBlank(Get(entry.fields, "evidence_ref")) && NonBlank(Get(entry.fields, "reviewed_at"))
  }

  lemma ValidHasKey(shape: Shape, entry: Json)
    requires EntryValid(shape, entry)
    ensures KeyOfEntry(shape, entry).Some? && EntryIsAccepted(shape, entry.fields)
  {
  }

  // Every entry is valid, no key comes twice, and the keys are the required ones.
  ghost predicate EntriesPass(shape: Shape, entries: seq<Json>, required: set<Key2>)
  {
    && (forall i | 0 <= i < |entries| :: EntryValid(shape, entries[i]))
    && (forall i, j | 0 <= i < j < |entries| :: KeyOfEntry(shape, entries[i]) != KeyOfEntry(shape, entries[j]))
    && SeenKeys(shape, entries) == required
  }

  ghost predicate Passes(shape: Shape, manifest: Dict, required: set<Key2>)
  {
    && Get(manifest, "schema_version") == Str(shape.schema)
    && NonBlank(Get(manifest, "captured_at"))
    && Get(manifest, shape.section).Arr?
    && EntriesPass(shape, Get(manifest, shape.section).items, required)
  }

  lemma EntryFailuresNone(shape: Shape, item: Dict, index: nat, required: set<Key2>)
    ensures EntryFailures(shape, item, index, required) == []
       <==> EntryValid(shape, Obj(item)) && EntryKey(shape, item).Some? && EntryKey(shape, item).value in required
  {
  }

  lemma {:induction false} FailuresUpToNone(shape: Shape, entries: seq<Json>, n: nat, required: set<Key2>)
    requires n <= |entries|
    ensures FailuresUpTo(shape, entries, n, required) == []
       <==> forall i | 0 <= i < n :: StepFailures(shape, entries, i, required) == []
  {
    hide StepFailures;
    if n > 0 { FailuresUpToNone(shape, entries, n - 1, required); }
  }

  lemma StepFailuresNone(shape: Shape, entries: seq<Json>, i: nat, required: set<Key2>)
    requires i < |entries|
    ensures StepFailures(shape, entries, i, required) == []
       <==> EntryValid(shape, entries[i]) && KeyOfEntry(shape, entries[i]).Some?
            && KeyOfEntry(shape, entries[i]).value in required
            && KeyOfEntry(shape, entries[i]).value !in SeenKeys(shape, entries[..i])
  {
    hide EntryFailures, EntryKey, SeenKeys, NonBlank, SecondOk, StatusOk;
    var entry := entries[i];
    if entry.Obj? {
      EntryFailuresNone(shape, entry.fields, i, required);
      assert entry == Obj(entry.fields);
    }
  }

  lemma SeenKey(shape: Shape, entries: seq<Json>, i: nat)
    requires i < |entries| && KeyOfEntry(shape, entries[i]).Some?
    ensures KeyOfEntry(shape, entries[i]).value in SeenKeys(shape, entries)
  {
    assert entries[i] in entries;
  }

  lemma SeenBefore(shape: Shape, entries: seq<Json>, key: Key2) returns (i: nat)
    requires key in SeenKeys(shape, entries)
    ensures i < |entries| && KeyOfEntry(shape, entries[i]) == Some(key)
  {
    var e :| e in entries && KeyOfEntry(shape, e) == Some(key);
    i :| 0 <= i < |entries| && entries[i] == e;
  }

  // With every entry valid, the keys seen are the keys accepted.
  lemma ValidAccepted(shape: Shape, entries: seq<Json>)
    requires forall i | 0 <= i < |entries| :: EntryValid(shape, entries[i])
    ensures AcceptedKeys(shape, entries) == SeenKeys(shape, entries)
  {
    hide EntryValid, EntryKey, EntryIsAccepted;
    forall e | e in entries ensures e.Obj? && EntryIsAccepted(shape, e.fields) && EntryKey(shape, e.fields).Some? {
      var i :| 0 <= i < |entries| && entries[i] == e;
      ValidObject(shape, e);
      ValidHasKey(shape, e);
    }
  }

  lemma ValidObject(shape: Shape, entry: Json)
    requires EntryValid(shape, entry)
    ensures entry.Obj? && EntryKey(shape, entry.fields).Some?
  {
  }

  lemma {:induction false} WithSecondsMember(keys: set<Key2>, seconds: seq<string>)
    ensures forall k :: k in WithSeconds(keys, seconds) <==> k in keys && k.1 in seconds
  {
    if seconds != [] {
      WithSecondsMember(keys, seconds[1..]);
      var counties := SortedSet(set k | k in keys && k.1 == seconds[0] :: k.0);
      var first := Map(counties, (county: string) => (county, seconds[0]));
      forall k ensures k in first <==> k in keys && k.1 == seconds[0] {
        if k in keys && k.1 == seconds[0] {
          assert k.0 in counties;
          var i :| 0 <= i < |counties| && counties[i] == k.0;
          assert first[i] == k;
        }
        if k in first {
          var i :| 0 <= i < |first| && first[i] == k;
          assert counties[i] in counties;
        }
      }
      assert seconds == [seconds[0]] + seconds[1..];
    }
  }

  lemma SortedKeysMember(keys: set<Key2>)
    ensures forall k :: k in SortedKeys(keys) <==> k in keys
    ensures SortedKeys(keys) == [] <==> keys == {}
  {
    var seconds := SortedSet(set k | k in keys :: k.1);
    WithSecondsMember(keys, seconds);
    forall k ensures k in SortedKeys(keys) <==> k in keys {
    }
    if SortedKeys(keys) != [] { assert SortedKeys(keys)[0] in SortedKeys(keys); }
    if keys != {} {
      var k :| k in keys;
      assert k in SortedKeys(keys);
    }
  }

  function ReportKey(key: Key2): Key { [key.1, key.0] }

  // They are reported in order of their second part, then of their county, each once.
  lemma SortedKeysOrdered(keys: set<Key2>)
    ensures Sorted(SortedKeys(keys), ReportKey)
    ensures forall i, j | 0 <= i < j < |SortedKeys(keys)| :: SortedKeys(keys)[i] != SortedKeys(keys)[j]
  {
    var seconds := set k | k in keys :: k.1;
    SortedSetOrdered(seconds);
    WithSecondsOrdered(keys, SortedSet(seconds));
  }

  ghost predicate Ordered(keys: seq<Key2>)
  {
    Sorted(keys, ReportKey) && forall i, j | 0 <= i < j < |keys| :: keys[i] != keys[j]
  }

  lemma {:induction false} WithSecondsOrdered(keys: set<Key2>, seconds: seq<string>)
    requires Ascending(seconds)
    ensures Ordered(WithSeconds(keys, seconds))
  {
    hide StrLe, KeyLe, Ordered;
    if seconds == [] {
      NoKeysOrdered();
    } else {
      var counties := SortedSet(set k | k in keys && k.1 == seconds[0] :: k.0);
      var rest := WithSeconds(keys, seconds[1..]);
      SortedSetOrdered(set k | k in keys && k.1 == seconds[0] :: k.0);
      WithSecondsOrdered(keys, seconds[1..]);
      WithSecondsMember(keys, seconds[1..]);
      forall k | k in rest ensures StrLe(seconds[0], k.1) && seconds[0] != k.1 {
        var i :| 0 <= i < |seconds[1..]| && seconds[1..][i] == k.1;
        assert seconds[i + 1] == k.1;
      }
      CountiesOrdered(counties, seconds[0]);
      OrderedAppend(Map(counties, (county: string) => (county, seconds[0])), rest, seconds[0]);
    }
  }

  lemma NoKeysOrdered()
    ensures Ordered([])
  {
  }

  lemma CountiesOrdered(counties: seq<string>, second: string)
    requires Ascending(counties)
    ensures Ordered(Map(counties, (county: string) => (county, second)))
  {
    hide StrLe, KeyLe;
    var keys := Map(counties, (county: string) => (county, second));
    StrLeReflexive(second);
    forall i, j | 0 <= i < j < |keys| ensures KeyLe(ReportKey(keys[i]), ReportKey(keys[j])) && keys[i] != keys[j] {
      PairOrder(second, counties[i], second, counties[j]);
    }
  }

  lemma OrderedAppend(first: seq<Key2>, rest: seq<Key2>, second: string)
    requires Ordered(first) && Ordered(rest) && forall i | 0 <= i < |first| :: first[i].1 == second
    requires forall k | k in rest :: StrLe(second, k.1) && second != k.1
    ensures Ordered(first + rest)
  {
    hide StrLe, KeyLe;
    forall i, j | 0 <= i < |first| && 0 <= j < |rest|
      ensures KeyLe(ReportKey(first[i]), ReportKey(rest[j])) && first[i] != rest[j] {
      assert rest[j] in rest;
      PairOrder(second, first[i].0, rest[j].1, rest[j].0);
    }
  }

  lemma PairOrder(a: string, x: string, b: string, y: string)
    requires StrLe(a, b) && (a == b ==> StrLe(x, y))
    ensures KeyLe([a, x], [b, y])
  {
    hide StrLe;
    assert [a, x][1..] == [x] && [b, y][1..] == [y];
    assert [x][1..] == [] && KeyLe([], [y][1..]);
  }

  lemma EntriesPassExactly(shape: Shape, entries: seq<Json>, required: set<Key2>)
    ensures FailuresUpTo(shape, entries, |entries|, required) == [] && required <= AcceptedKeys(shape, entries)
       <==> EntriesPass(shape, entries, required)
  {
    hide *;
    FailuresUpToNone(shape, entries, |entries|, required);
    if FailuresUpTo(shape, entries, |entries|, required) == [] && required <= AcceptedKeys(shape, entries) {
      NoFailuresPass(shape, entries, required);
    }
    if EntriesPass(shape, entries, required) { PassNoFailures(shape, entries, required); }
  }

  lemma NoFailuresPass(shape: Shape, entries: seq<Json>, required: set<Key2>)
    requires forall i | 0 <= i < |entries| :: StepFailures(shape, entries, i, required) == []
    requires required <= AcceptedKeys(shape, entries)
    ensures EntriesPass(shape, entries, required)
  {
    hide EntryValid, KeyOfEntry, StepFailures, SeenKeys, AcceptedKeys;
    forall i | 0 <= i < |entries| ensures EntryValid(shape, entries[i]) {
      StepFailuresNone(shape, entries, i, required);
    }
    ValidAccepted(shape, entries);
    forall k | k in SeenKeys(shape, entries) ensures k in required {
      var i := SeenBefore(shape, entries, k);
      StepFailuresNone(shape, entries, i, required);
    }
    forall i, j | 0 <= i < j < |entries| ensures KeyOfEntry(shape, entries[i]) != KeyOfEntry(shape, entries[j]) {
      StepFailuresNone(shape, entries, i, required);
      StepFailuresNone(shape, entries, j, required);
      assert entries[..j][i] == entries[i];
      SeenKey(shape, entries[..j], i);
    }
  }

  lemma PassNoFailures(shape: Shape, entries: seq<Json>, required: set<Key2>)
    requires EntriesPass(shape, entries, required)
    ensures forall i | 0 <= i < |entries| :: StepFailures(shape, entries, i, required) == []
    ensures required <= AcceptedKeys(shape, entries)
  {
    hide EntryValid, EntryKey, StepFailures, SeenKeys, AcceptedKeys;
    ValidAccepted(shape, entries);
    forall i | 0 <= i < |entries| ensures StepFailures(shape, entries, i, required) == [] {
      ValidHasKey(shape, entries[i]);
      SeenKey(shape, entries, i);
      if KeyOfEntry(shape, entries[i]).value in SeenKeys(shape, entries[..i]) {
        var j := SeenBefore(shape, entries[..i], KeyOfEntry(shape, entries[i]).value);
      }
      StepFailuresNone(shape, entries, i, required);
    }
  }

  lemma NoneLeft(a: set<Key2>, b: set<Key2>)
    ensures a - b == {} <==> a <= b
  {
    if a - b == {} {
      forall k | k in a ensures k in b {
        assert k !in a - b;
      }
    }
  }

  // The validator finds nothing exactly when the manifest passes.
  lemma FailuresExactly(shape: Shape, manifest: Dict, required: set<Key2>)
    ensures Failures(shape, manifest, required) == [] <==> Passes(shape, manifest, required)
  {
    var section := Get(manifest, shape.section);
    if section.Arr? {
      var entries := section.items;
      EntriesPassExactly(shape, entries, required);
      SortedKeysMember(required - AcceptedKeys(shape, entries));
      NoneLeft(required, AcceptedKeys(shape, entries));
      hide NonBlank, FailuresUpTo, EntriesPass, SortedKeys, AcceptedKeys;
    }
  }
}
