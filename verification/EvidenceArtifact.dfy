/**
 * What is built from a manifest: the normalised artifact
 * (scripts/signal_family_evidence.py and scripts/source_contract_evidence.py).
 */
module EvidenceArtifact {
  import opened Text
  import opened Lists
  import opened Json
  import opened Evidence

  // ---- the artifact ------------------------------------------------------------------------------

  function AllowedKeys(shape: Shape): seq<string>
  {
    ["county", shape.second, "status", "evidence_ref", "reviewed_at", "reviewer"]
  }

  // Blank strings and foreign fields are dropped.
  function Normalised(shape: Shape, item: Dict): Dict
  {
    map key | key in item && key in AllowedKeys(shape) && (NonBlank(item[key]) || !item[key].Str?) :: item[key]
  }

  function NormalisedList(shape: Shape, entries: seq<Json>): seq<Json>
  {
    if entries == [] then []
    else if entries[0].Obj? then [Obj(Normalised(shape, entries[0].fields))] + NormalisedList(shape, entries[1..])
    else NormalisedList(shape, entries[1..])
  }

  function NormalisedEntries(shape: Shape, manifest: Dict): seq<Json>
  {
    match Get(manifest, shape.section)
    case Arr(entries) => NormalisedList(shape, entries)
    case _ => []
  }

  // The fields of the artifact that depend on the manifest.
  datatype Artifact = Artifact(passed: bool, requiredCount: nat, entries: seq<Json>, targets: seq<nat>)

  method BuildEvidenceArtifact(shape: Shape, manifest: Dict, required: set<Key2>)
    returns (artifact: Artifact, failures: seq<Failure>)
    ensures failures == Failures(shape, manifest, required)
    ensures artifact.passed <==> Passes(shape, manifest, required)
    ensures artifact.entries == NormalisedEntries(shape, manifest)
    ensures artifact.passed ==> |artifact.entries| == artifact.requiredCount == |required|
    ensures artifact.targets == if artifact.passed then [|required|] else []
  {
    hide Passes, Failures;
    failures := ValidateManifest(shape, manifest, required);
    FailuresExactly(shape, manifest, required);
    artifact := Artifact(failures == [], |required|, NormalisedEntries(shape, manifest),
                         if failures == [] then [|required|] else []);
    if artifact.passed { PassedCount(shape, manifest, required); }
  }

  lemma {:induction false} NormalisedAt(shape: Shape, entries: seq<Json>)
    requires forall i | 0 <= i < |entries| :: entries[i].Obj?
    ensures |NormalisedList(shape, entries)| == |entries|
    ensures forall i | 0 <= i < |entries| ::
              NormalisedList(shape, entries)[i] == Obj(Normalised(shape, entries[i].fields))
  {
    hide Normalised;
    if entries != [] { NormalisedAt(shape, entries[1..]); }
  }

  // What the two shapes have in common.
  ghost predicate ShapeOk(shape: Shape)
  {
    && shape.second !in ["county", "status", "accepted_statuses", "evidence_ref", "reviewed_at", "reviewer"]
    && shape.section !in ["schema_version", "captured_at", "template_status"]
    && (shape.gates.Some? ==> forall g | g in shape.gates.value :: !IsBlank(g) && Strip(g) == g)
    && (forall s | s in shape.statuses :: !IsBlank(s))
  }

  lemma SignalFamilyOk(statuses: set<string>)
    requires forall s | s in statuses :: !IsBlank(s)
    ensures ShapeOk(SignalFamily(statuses))
  {
    var shape := SignalFamily(statuses);
    assert shape.second[0] == 's' && shape.second[1] == 'i';
    assert shape.section[0] == 's' && shape.section[1] == 'i';
  }

  lemma GateNames(g: string)
    requires g in ["authorization_request", "metadata_release_monitor", "public_api_contract_review"]
    ensures !IsBlank(g) && Strip(g) == g
  {
    assert g[0] in ['a', 'm', 'p'] && g[|g| - 1] in ['t', 'r', 'w'];
    StripEnds(g);
  }

  lemma SourceContractOk(statuses: set<string>)
    requires forall s | s in statuses :: !IsBlank(s)
    ensures ShapeOk(SourceContract(statuses))
  {
    var shape := SourceContract(statuses);
    forall g | g in shape.gates.value ensures !IsBlank(g) && Strip(g) == g { GateNames(g); }
    assert shape.second[0] == 'g';
    assert shape.section[0] == 's' && shape.section[1] == 'o';
  }

  // A string that is not blank is kept.
  lemma StringKept(shape: Shape, item: Dict, key: string)
    requires key in AllowedKeys(shape)
    ensures NonBlank(Get(item, key)) ==> Get(Normalised(shape, item), key) == Get(item, key)
  {
  }

  lemma Allowed(shape: Shape)
    ensures forall key | key in ["county", shape.second, "status", "evidence_ref", "reviewed_at"] ::
              key in AllowedKeys(shape)
  {
    var names := AllowedKeys(shape);
    assert names[0] == "county" && names[1] == shape.second && names[2] == "status" && names[3] == "evidence_ref"
      && names[4] == "reviewed_at";
  }

  // A valid entry keeps its key and stays valid.
  lemma NormalisedValid(shape: Shape, entry: Json)
    requires ShapeOk(shape) && EntryValid(shape, entry)
    ensures var next := Obj(Normalised(shape, entry.fields));
            EntryValid(shape, next) && KeyOfEntry(shape, next) == KeyOfEntry(shape, entry)
  {
    var item := entry.fields;
    Allowed(shape);
    assert NonBlank(Get(item, shape.second)) && NonBlank(Get(item, "status"));
    hide AllowedKeys, Normalised, IsBlank, ShapeOk;
    StringKept(shape, item, "county");
    StringKept(shape, item, shape.second);
    StringKept(shape, item, "status");
    StringKept(shape, item, "evidence_ref");
    StringKept(shape, item, "reviewed_at");
  }

  // As many keys as entries, when no key comes twice.
  lemma {:induction false} KeysCounted(shape: Shape, entries: seq<Json>)
    requires forall i | 0 <= i < |entries| :: KeyOfEntry(shape, entries[i]).Some?
    requires forall i, j | 0 <= i < j < |entries| :: KeyOfEntry(shape, entries[i]) != KeyOfEntry(shape, entries[j])
    ensures |SeenKeys(shape, entries)| == |entries|
  {
    hide KeyOfEntry, SeenKeys;
    if entries == [] {
      NothingSeen(shape);
    } else {
      var front, last := entries[..|entries| - 1], entries[|entries| - 1];
      KeysCounted(shape, front);
      SeenLast(shape, entries);
      LastUnseen(shape, front, last);
    }
  }

  lemma SeenLast(shape: Shape, entries: seq<Json>)
    requires entries != [] && KeyOfEntry(shape, entries[|entries| - 1]).Some?
    ensures SeenKeys(shape, entries)
         == SeenKeys(shape, entries[..|entries| - 1]) + {KeyOfEntry(shape, entries[|entries| - 1]).value}
  {
    assert entries[..|entries|] == entries;
    SeenAppend(shape, entries, |entries| - 1);
  }

  lemma LastUnseen(shape: Shape, front: seq<Json>, last: Json)
    requires KeyOfEntry(shape, last).Some?
    requires forall i | 0 <= i < |front| :: KeyOfEntry(shape, front[i]) != KeyOfEntry(shape, last)
    ensures KeyOfEntry(shape, last).value !in SeenKeys(shape, front)
  {
  }

  lemma PassedKeys(shape: Shape, entries: seq<Json>, required: set<Key2>)
    requires EntriesPass(shape, entries, required)
    ensures |entries| == |required| && forall i | 0 <= i < |entries| :: entries[i].Obj?
  {
    forall i | 0 <= i < |entries| ensures KeyOfEntry(shape, entries[i]).Some? && entries[i].Obj? {
      ValidHasKey(shape, entries[i]);
    }
    KeysCounted(shape, entries);
  }

  // A passed artifact has as many entries as keys are required.
  lemma PassedCount(shape: Shape, manifest: Dict, required: set<Key2>)
    requires Passes(shape, manifest, required)
    ensures |NormalisedEntries(shape, manifest)| == |required|
  {
    var entries := Get(manifest, shape.section).items;
    PassedKeys(shape, entries, required);
    NormalisedAt(shape, entries);
  }

  lemma NormalisedListPasses(shape: Shape, entries: seq<Json>, required: set<Key2>)
    requires ShapeOk(shape) && EntriesPass(shape, entries, required)
    ensures EntriesPass(shape, NormalisedList(shape, entries), required)
  {
    hide EntryValid, KeyOfEntry, SeenKeys, Normalised, NormalisedList, ShapeOk;
    var next := NormalisedList(shape, entries);
    PassedKeys(shape, entries, required);
    NormalisedAt(shape, entries);
    forall i | 0 <= i < |entries|
      ensures EntryValid(shape, next[i]) && KeyOfEntry(shape, next[i]) == KeyOfEntry(shape, entries[i]) {
      NormalisedValid(shape, entries[i]);
    }
    SameKeysSeen(shape, entries, next);
  }

  // What a passed manifest hands on passes again: normalising loses nothing that is checked.
  lemma NormalisedPasses(shape: Shape, manifest: Dict, required: set<Key2>)
    requires ShapeOk(shape) && Passes(shape, manifest, required)
    ensures Passes(shape, manifest[shape.section := Arr(NormalisedEntries(shape, manifest))], required)
  {
    NormalisedListPasses(shape, Get(manifest, shape.section).items, required);
    var names := ["schema_version", "captured_at", "template_status"];
    assert names[0] == "schema_version" && names[1] == "captured_at";
    hide EntriesPass, NonBlank, NormalisedList, ShapeOk;
  }

  lemma SameKeysSeen(shape: Shape, a: seq<Json>, b: seq<Json>)
    requires |a| == |b| && forall i | 0 <= i < |a| :: KeyOfEntry(shape, a[i]) == KeyOfEntry(shape, b[i])
    ensures SeenKeys(shape, a) == SeenKeys(shape, b)
  {
    hide KeyOfEntry, SeenKeys;
    forall k ensures k in SeenKeys(shape, a) <==> k in SeenKeys(shape, b) {
      if k in SeenKeys(shape, a) {
        var i := SeenBefore(shape, a, k);
        SeenKey(shape, b, i);
      }
      if k in SeenKeys(shape, b) {
        var i := SeenBefore(shape, b, k);
        SeenKey(shape, a, i);
      }
    }
  }

  // ---- what an artifact entry holds ----------------------------------------------------------------

  predicate AllowedName(shape: Shape, key: string)
  {
    key == "county" || key == shape.second || key == "status" || key == "evidence_ref" || key == "reviewed_at"
    || key == "reviewer"
  }

  // An entry of the artifact has exactly the raw entry's values of the allowed names, but for blank
  // strings.
  lemma NormalisedExactly(shape: Shape, item: Dict, key: string)
    ensures key in Normalised(shape, item)
       <==> key in item && AllowedName(shape, key) && !(item[key].Str? && IsBlank(item[key].text))
    ensures key in Normalised(shape, item) ==> Normalised(shape, item)[key] == item[key]
  {
    hide IsBlank;
    AllowedExactly(shape, key);
    hide AllowedKeys, AllowedName;
  }

  lemma AllowedExactly(shape: Shape, key: string)
    ensures key in AllowedKeys(shape) <==> AllowedName(shape, key)
  {
    var names := AllowedKeys(shape);
    assert names[0] == "county" && names[1] == shape.second && names[2] == "status";
    assert names[3] == "evidence_ref" && names[4] == "reviewed_at" && names[5] == "reviewer";
  }

  // The artifact has one entry for each object of the manifest's section, in their order.
  lemma {:induction false} ArtifactEntries(shape: Shape, entries: seq<Json>) returns (places: seq<nat>)
    ensures var out := NormalisedList(shape, entries);
            && Places(entries, (e: Json) => e.Obj?, places) && |out| == |places|
            && forall i | 0 <= i < |places| ::
                 places[i] < |entries| && entries[places[i]].Obj?
                 && out[i] == Obj(Normalised(shape, entries[places[i]].fields))
  {
    hide Normalised;
    var objects := (e: Json) => e.Obj?;
    places := FilterPlaces(entries, objects);
    FilterMember(entries, objects);
    var kept := Filter(entries, objects);
    OnlyObjects(shape, entries);
    NormalisedAt(shape, kept);
  }

  lemma {:induction false} OnlyObjects(shape: Shape, entries: seq<Json>)
    ensures NormalisedList(shape, entries) == NormalisedList(shape, Filter(entries, (e: Json) => e.Obj?))
  {
    hide Normalised;
    if entries != [] {
      OnlyObjects(shape, entries[1..]);
      var rest := Filter(entries[1..], (e: Json) => e.Obj?);
      assert ([entries[0]] + rest)[1..] == rest;
    }
  }

  // ---- the two manifests, by their field names -----------------------------------------------------

  // The fields of an evidence entry, after its county and its second part.
  function EntryOf(county: string, second: string, value: string, status: string, ref: string, reviewed: string): Json
  {
    Obj(map["county" := Str(county), second := Str(value), "status" := Str(status), "evidence_ref" := Str(ref),
            "reviewed_at" := Str(reviewed)])
  }

  predicate EntryFilled(county: string, status: string, ref: string, reviewed: string, statuses: set<string>)
  {
    !IsBlank(county) && status in statuses && !IsBlank(ref) && !IsBlank(reviewed)
  }

  lemma OneEntry(shape: Shape, captured: string, county: string, value: string, status: string, ref: string,
                 reviewed: string, manifest: Dict)
    requires shape.second != "county" && shape.second != "status"
    requires shape.second != "evidence_ref" && shape.second != "reviewed_at"
    requires Get(manifest, "schema_version") == Str(shape.schema) && Get(manifest, "captured_at") == Str(captured)
    requires Get(manifest, shape.section) == Arr([EntryOf(county, shape.second, value, status, ref, reviewed)])
    ensures Failures(shape, manifest, {(Strip(county), Strip(value))}) == []
       <==> !IsBlank(captured) && EntryFilled(county, status, ref, reviewed, shape.statuses)
            && (if shape.gates.Some? then value in shape.gates.value else !IsBlank(value))
  {
    var key, entry := (Strip(county), Strip(value)), EntryOf(county, shape.second, value, status, ref, reviewed);
    EntryChecked(shape, county, value, status, ref, reviewed);
    OnePasses(shape, entry, key);
    FailuresExactly(shape, manifest, {key});
    hide Strip, IsBlank, EntryOf, EntryFilled, Failures, EntryValid, EntriesPass;
  }

  lemma EntryChecked(shape: Shape, county: string, value: string, status: string, ref: string, reviewed: string)
    requires shape.second != "county" && shape.second != "status"
    requires shape.second != "evidence_ref" && shape.second != "reviewed_at"
    ensures var entry := EntryOf(county, shape.second, value, status, ref, reviewed);
            && (EntryValid(shape, entry)
                <==> EntryFilled(county, status, ref, reviewed, shape.statuses)
                     && (if shape.gates.Some? then value in shape.gates.value else !IsBlank(value)))
            && (EntryValid(shape, entry) ==> KeyOfEntry(shape, entry) == Some((Strip(county), Strip(value))))
  {
    EntryFields(county, shape.second, value, status, ref, reviewed);
    hide Strip, IsBlank;
  }

  lemma OnePasses(shape: Shape, entry: Json, key: Key2)
    requires EntryValid(shape, entry) ==> KeyOfEntry(shape, entry) == Some(key)
    ensures EntriesPass(shape, [entry], {key}) <==> EntryValid(shape, entry)
  {
    assert [entry][0] == entry;
    OneSeen(shape, entry, key);
    hide EntryValid, KeyOfEntry, SeenKeys;
  }

  lemma EntryFields(county: string, second: string, value: string, status: string, ref: string, reviewed: string)
    requires second != "county" && second != "status" && second != "evidence_ref" && second != "reviewed_at"
    ensures var item := EntryOf(county, second, value, status, ref, reviewed).fields;
            && Get(item, "county") == Str(county) && Get(item, second) == Str(value) && Get(item, "status") == Str(status)
            && Get(item, "evidence_ref") == Str(ref) && Get(item, "reviewed_at") == Str(reviewed)
  {
  }

  lemma OneSeen(shape: Shape, entry: Json, key: Key2)
    ensures KeyOfEntry(shape, entry) == Some(key) ==> SeenKeys(shape, [entry]) == {key}
  {
    hide KeyOfEntry;
    assert entry in [entry];
  }

  // The signal-family manifest, written out.
  function SignalInput(captured: string, entries: seq<Json>): Dict
  {
    map["schema_version" := Str("signal-family-evidence-input/v1"), "captured_at" := Str(captured),
        "signal_family_gap_evidence" := Arr(entries)]
  }

  // The source-contract manifest, written out.
  function ContractInput(captured: string, entries: seq<Json>): Dict
  {
    map["schema_version" := Str("source-contract-evidence-input/v1"), "captured_at" := Str(captured),
        "source_contract_evidence" := Arr(entries)]
  }

  // One signal entry settles its key exactly when every field is filled in.
  lemma SignalManifest(statuses: set<string>, captured: string, county: string, signal: string, status: string,
                       ref: string, reviewed: string)
    ensures Failures(SignalFamily(statuses),
                     SignalInput(captured, [EntryOf(county, "signal_type", signal, status, ref, reviewed)]),
                     {(Strip(county), Strip(signal))}) == []
       <==> !IsBlank(captured) && EntryFilled(county, status, ref, reviewed, statuses) && !IsBlank(signal)
  {
    SignalFields(captured, [EntryOf(county, "signal_type", signal, status, ref, reviewed)]);
    hide Failures, Strip, IsBlank, EntryOf, EntryFilled, SignalInput;
    OneEntry(SignalFamily(statuses), captured, county, signal, status, ref, reviewed,
             SignalInput(captured, [EntryOf(county, "signal_type", signal, status, ref, reviewed)]));
  }

  lemma SignalFields(captured: string, entries: seq<Json>)
    ensures var manifest := SignalInput(captured, entries);
            && Get(manifest, "schema_version") == Str("signal-family-evidence-input/v1")
            && Get(manifest, "captured_at") == Str(captured)
            && Get(manifest, "signal_family_gap_evidence") == Arr(entries)
    ensures "signal_type" != "county" && "signal_type" != "status" && "signal_type" != "evidence_ref"
            && "signal_type" != "reviewed_at"
  {
    assert "signal_family_gap_evidence"[1] == 'i' && "schema_version"[1] == 'c' && "captured_at"[0] == 'c';
    assert "signal_type"[0] == 's' && "signal_type"[1] == 'i' && "status"[1] == 't';
  }

  // One contract entry settles its key exactly when its gate is one of the three and the rest is
  // filled in.
  lemma ContractManifest(statuses: set<string>, captured: string, county: string, gate: string, status: string,
                         ref: string, reviewed: string)
    ensures Failures(SourceContract(statuses),
                     ContractInput(captured, [EntryOf(county, "gate", gate, status, ref, reviewed)]),
                     {(Strip(county), Strip(gate))}) == []
       <==> !IsBlank(captured) && EntryFilled(county, status, ref, reviewed, statuses)
            && gate in ["authorization_request", "metadata_release_monitor", "public_api_contract_review"]
  {
    ContractFields(captured, [EntryOf(county, "gate", gate, status, ref, reviewed)]);
    hide Failures, Strip, IsBlank, EntryOf, EntryFilled, ContractInput;
    OneEntry(SourceContract(statuses), captured, county, gate, status, ref, reviewed,
             ContractInput(captured, [EntryOf(county, "gate", gate, status, ref, reviewed)]));
  }

  lemma ContractFields(captured: string, entries: seq<Json>)
    ensures var manifest := ContractInput(captured, entries);
            && Get(manifest, "schema_version") == Str("source-contract-evidence-input/v1")
            && Get(manifest, "captured_at") == Str(captured)
            && Get(manifest, "source_contract_evidence") == Arr(entries)
    ensures "gate" != "county" && "gate" != "status" && "gate" != "evidence_ref" && "gate" != "reviewed_at"
  {
    assert "source_contract_evidence"[1] == 'o' && "schema_version"[1] == 'c' && "captured_at"[0] == 'c';
    assert "gate"[0] == 'g';
  }
}
