/**
 * Every kind of failure the evidence validators report, and for which manifests: the header, each
 * entry, repeated keys and missing keys (scripts/signal_family_evidence.py and
 * scripts/source_contract_evidence.py).
 */
module EvidenceFailures {
  import opened Text
  import opened Lists
  import opened Json
  import opened Evidence

  // Entry i is an object, and its own fields give the predicate.
  predicate ObjectAt(entries: seq<Json>, i: int)
  {
    0 <= i < |entries| && entries[i].Obj?
  }

  // The stripped county and second part of an entry, when both are there.
  predicate HasKey(shape: Shape, entry: Json, key: Key2)
  {
    && entry.Obj?
    && NonBlank(Get(entry.fields, "county")) && Get(entry.fields, shape.second).Str?
    && (shape.gates.None? ==> NonBlank(Get(entry.fields, shape.second)))
    && key == (Strip(Get(entry.fields, "county").text), Strip(Get(entry.fields, shape.second).text))
  }

  // An entry that settles a required key.
  predicate Settles(shape: Shape, entry: Json, key: Key2)
  {
    && HasKey(shape, entry, key)
    && Get(entry.fields, "status").Str? && Get(entry.fields, "status").text in shape.statuses
    && NonBlank(Get(entry.fields, "evidence_ref")) && NonBlank(Get(entry.fields, "reviewed_at"))
  }

  // What a failure of entry i says of the entries.
  ghost predicate EntryFault(shape: Shape, entries: seq<Json>, required: set<Key2>, f: Failure)
  {
    match f
    case NotObject(i) => i < |entries| && !entries[i].Obj?
    case NoCounty(i) => ObjectAt(entries, i) && !NonBlank(Get(entries[i].fields, "county"))
    case BadSecond(i) =>
      ObjectAt(entries, i)
      && (var second := Get(entries[i].fields, shape.second);
          if shape.gates.Some? then !(second.Str? && second.text in shape.gates.value) else !NonBlank(second))
    case BadStatus(i) =>
      ObjectAt(entries, i)
      && (var status := Get(entries[i].fields, "status"); !(status.Str? && status.text in shape.statuses))
    case NoEvidenceRef(i) => ObjectAt(entries, i) && !NonBlank(Get(entries[i].fields, "evidence_ref"))
    case NoReviewedAt(i) => ObjectAt(entries, i) && !NonBlank(Get(entries[i].fields, "reviewed_at"))
    case NotRequired(i, key) => i < |entries| && HasKey(shape, entries[i], key) && key !in required
    case Duplicate(i, key) =>
      i < |entries| && HasKey(shape, entries[i], key) && exists j :: 0 <= j < i && HasKey(shape, entries[j], key)
    case _ => false
  }

  // What any failure says of the manifest.
  ghost predicate Fault(shape: Shape, manifest: Dict, required: set<Key2>, f: Failure)
  {
    var section := Get(manifest, shape.section);
    match f
    case WrongSchema => Get(manifest, "schema_version") != Str(shape.schema)
    case NoCapturedAt => !NonBlank(Get(manifest, "captured_at"))
    case NotArray => !section.Arr?
    case Missing(key) =>
      section.Arr? && key in required && forall e | e in section.items :: !Settles(shape, e, key)
    case _ => section.Arr? && EntryFault(shape, section.items, required, f)
  }

  function IndexOf(f: Failure): Option<nat>
  {
    match f
    case WrongSchema => None
    case NoCapturedAt => None
    case NotArray => None
    case Missing(_) => None
    case NotObject(i) => Some(i)
    case NoCounty(i) => Some(i)
    case BadSecond(i) => Some(i)
    case BadStatus(i) => Some(i)
    case NoEvidenceRef(i) => Some(i)
    case NoReviewedAt(i) => Some(i)
    case NotRequired(i, _) => Some(i)
    case Duplicate(i, _) => Some(i)
  }

  lemma KeyExactly(shape: Shape, entry: Json, key: Key2)
    ensures KeyOfEntry(shape, entry) == Some(key) <==> HasKey(shape, entry, key)
  {
    hide IsBlank, Strip;
  }

  lemma SettlesExactly(shape: Shape, entry: Json, key: Key2)
    ensures Settles(shape, entry, key)
       <==> entry.Obj? && EntryIsAccepted(shape, entry.fields) && EntryKey(shape, entry.fields) == Some(key)
  {
    hide IsBlank, Strip;
  }

  lemma InWhen(condition: bool, failure: Failure, f: Failure)
    ensures f in When(condition, failure) <==> condition && f == failure
  {
  }

  lemma OwnFault(shape: Shape, item: Dict, index: nat, required: set<Key2>, f: Failure)
    ensures f in EntryFailures(shape, item, index, required)
       <==> match f
            case NoCounty(i) => i == index && !NonBlank(Get(item, "county"))
            case BadSecond(i) => i == index && !SecondOk(shape, Get(item, shape.second))
            case BadStatus(i) => i == index && !StatusOk(shape, Get(item, "status"))
            case NoEvidenceRef(i) => i == index && !NonBlank(Get(item, "evidence_ref"))
            case NoReviewedAt(i) => i == index && !NonBlank(Get(item, "reviewed_at"))
            case NotRequired(i, key) => i == index && EntryKey(shape, item) == Some(key) && key !in required
            case _ => false
  {
    hide NonBlank, SecondOk, StatusOk, EntryKey;
    InWhen(!NonBlank(Get(item, "county")), NoCounty(index), f);
    InWhen(!SecondOk(shape, Get(item, shape.second)), BadSecond(index), f);
    InWhen(!StatusOk(shape, Get(item, "status")), BadStatus(index), f);
    InWhen(!NonBlank(Get(item, "evidence_ref")), NoEvidenceRef(index), f);
    InWhen(!NonBlank(Get(item, "reviewed_at")), NoReviewedAt(index), f);
    hide When;
  }

  lemma SeenExactly(shape: Shape, entries: seq<Json>, n: nat, key: Key2)
    requires n <= |entries|
    ensures key in SeenKeys(shape, entries[..n]) <==> exists j :: 0 <= j < n && HasKey(shape, entries[j], key)
  {
    hide HasKey, KeyOfEntry;
    if key in SeenKeys(shape, entries[..n]) {
      var j := SeenBefore(shape, entries[..n], key);
      KeyExactly(shape, entries[j], key);
    }
    if j :| 0 <= j < n && HasKey(shape, entries[j], key) {
      KeyExactly(shape, entries[j], key);
      assert entries[..n][j] == entries[j];
      SeenKey(shape, entries[..n], j);
    }
  }

  // What the turn of one entry reports.
  lemma StepExactly(shape: Shape, entries: seq<Json>, i: nat, required: set<Key2>, f: Failure)
    requires i < |entries|
    ensures f in StepFailures(shape, entries, i, required)
       <==> IndexOf(f) == Some(i) && EntryFault(shape, entries, required, f)
  {
    var entry := entries[i];
    if entry.Obj? {
      OwnFault(shape, entry.fields, i, required, f);
      if f.NotRequired? { KeyExactly(shape, entry, f.key); }
      if f.Duplicate? {
        KeyExactly(shape, entry, f.key);
        SeenExactly(shape, entries, i, f.key);
      }
    }
    hide NonBlank, EntryKey, EntryFailures, SeenKeys, HasKey;
  }

  lemma {:induction false} UpToExactly(shape: Shape, entries: seq<Json>, n: nat, required: set<Key2>, f: Failure)
    requires n <= |entries|
    ensures f in FailuresUpTo(shape, entries, n, required)
       <==> IndexOf(f).Some? && IndexOf(f).value < n && EntryFault(shape, entries, required, f)
  {
    hide StepFailures, EntryFault;
    if n > 0 {
      UpToExactly(shape, entries, n - 1, required, f);
      StepExactly(shape, entries, n - 1, required, f);
    }
  }

  lemma FaultInside(shape: Shape, entries: seq<Json>, required: set<Key2>, f: Failure)
    requires EntryFault(shape, entries, required, f)
    ensures IndexOf(f).Some? && IndexOf(f).value < |entries|
  {
    hide HasKey, NonBlank;
  }

  lemma MissingExactly(shape: Shape, entries: seq<Json>, required: set<Key2>, f: Failure)
    ensures f in Map(SortedKeys(required - AcceptedKeys(shape, entries)), (key: Key2) => Missing(key))
       <==> f.Missing? && f.key in required && forall e | e in entries :: !Settles(shape, e, f.key)
  {
    var absent := required - AcceptedKeys(shape, entries);
    var keys := SortedKeys(absent);
    var all := Map(keys, (key: Key2) => Missing(key));
    SortedKeysMember(absent);
    hide SortedKeys;
    if f.Missing? {
      AcceptedExactly(shape, entries, f.key);
      hide Settles, AcceptedKeys;
      if f.key in keys {
        var i :| 0 <= i < |keys| && keys[i] == f.key;
        assert all[i] == f;
      }
    }
    if f in all {
      var i :| 0 <= i < |all| && all[i] == f;
      assert keys[i] in keys;
    }
  }

  lemma AcceptedExactly(shape: Shape, entries: seq<Json>, key: Key2)
    ensures key in AcceptedKeys(shape, entries) <==> exists e :: e in entries && Settles(shape, e, key)
  {
    forall e: Json ensures Settles(shape, e, key)
       <==> e.Obj? && EntryIsAccepted(shape, e.fields) && EntryKey(shape, e.fields) == Some(key) {
      SettlesExactly(shape, e, key);
    }
    hide Settles, EntryKey, StatusOk, NonBlank;
  }

  lemma HeaderExactly(shape: Shape, manifest: Dict, f: Failure)
    ensures f in HeaderFailures(shape, manifest)
       <==> (f == WrongSchema && Get(manifest, "schema_version") != Str(shape.schema))
            || (f == NoCapturedAt && !NonBlank(Get(manifest, "captured_at")))
  {
    hide NonBlank;
    InWhen(Get(manifest, "schema_version") != Str(shape.schema), WrongSchema, f);
    InWhen(!NonBlank(Get(manifest, "captured_at")), NoCapturedAt, f);
    hide When;
  }

  // A failure is reported exactly when the manifest has that fault.
  lemma ReportedExactly(shape: Shape, manifest: Dict, required: set<Key2>, f: Failure)
    ensures f in Failures(shape, manifest, required) <==> Fault(shape, manifest, required, f)
  {
    hide HeaderFailures, EntryFault, FailuresUpTo, SortedKeys, AcceptedKeys, Settles, NonBlank;
    HeaderExactly(shape, manifest, f);
    var section := Get(manifest, shape.section);
    if section.Arr? {
      UpToExactly(shape, section.items, |section.items|, required, f);
      MissingExactly(shape, section.items, required, f);
      if EntryFault(shape, section.items, required, f) { FaultInside(shape, section.items, required, f); }
    }
  }
}
