/**
 * What a manifest is built from: the template, filled in entry by entry
 * (scripts/signal_family_evidence.py and scripts/source_contract_evidence.py).
 */
module EvidenceTemplate {
  import opened Text
  import opened Lists
  import opened Sorting
  import opened Json
  import opened Evidence
  import opened EvidenceArtifact

  function Required(ordered: seq<Key2>): set<Key2>
  {
    set k | k in ordered
  }

  ghost predicate Distinct(ordered: seq<Key2>)
  {
    forall i, j | 0 <= i < j < |ordered| :: ordered[i] != ordered[j]
  }

  // ---- entries that carry the ordered keys ---------------------------------------------------------

  // The entry names this key; whatever else it holds is the operator's.
  predicate Names(shape: Shape, entry: Json, key: Key2)
  {
    entry.Obj? && Get(entry.fields, "county") == Str(key.0) && Get(entry.fields, shape.second) == Str(key.1)
  }

  ghost predicate Fills(shape: Shape, entries: seq<Json>, ordered: seq<Key2>)
  {
    |entries| == |ordered| && forall i | 0 <= i < |ordered| :: Names(shape, entries[i], ordered[i])
  }

  // What the operator has to supply for an entry.
  predicate Evidenced(shape: Shape, entry: Json)
    requires entry.Obj?
  {
    StatusOk(shape, Get(entry.fields, "status"))
    && NonBlank(Get(entry.fields, "evidence_ref")) && NonBlank(Get(entry.fields, "reviewed_at"))
  }

  // A key that is acceptable, and already stripped.
  predicate KeyOk(shape: Shape, key: Key2)
  {
    KeyAccepted(shape, key) && Strip(key.0) == key.0 && Strip(key.1) == key.1
  }

  predicate KeyAccepted(shape: Shape, key: Key2)
  {
    !IsBlank(key.0) && if shape.gates.Some? then key.1 in shape.gates.value else !IsBlank(key.1)
  }

  lemma NamedValid(shape: Shape, entry: Json, key: Key2)
    requires Names(shape, entry, key)
    ensures EntryValid(shape, entry) <==> KeyAccepted(shape, key) && Evidenced(shape, entry)
    ensures KeyAccepted(shape, key) ==> KeyOfEntry(shape, entry) == Some((Strip(key.0), Strip(key.1)))
  {
    hide IsBlank, Strip;
  }

  lemma GoodFillingPasses(shape: Shape, entries: seq<Json>, ordered: seq<Key2>)
    requires Fills(shape, entries, ordered) && Distinct(ordered)
    requires forall i | 0 <= i < |ordered| :: KeyOk(shape, ordered[i]) && Evidenced(shape, entries[i])
    ensures EntriesPass(shape, entries, Required(ordered))
  {
    hide KeyAccepted, Evidenced, EntryValid, KeyOfEntry, SeenKeys, Strip;
    forall i | 0 <= i < |ordered|
      ensures EntryValid(shape, entries[i]) && KeyOfEntry(shape, entries[i]) == Some(ordered[i]) {
      NamedValid(shape, entries[i], ordered[i]);
    }
    forall k ensures k in SeenKeys(shape, entries) <==> k in Required(ordered) {
      if k in SeenKeys(shape, entries) {
        var i := SeenBefore(shape, entries, k);
      }
      if k in ordered {
        var i :| 0 <= i < |ordered| && ordered[i] == k;
        SeenKey(shape, entries, i);
      }
    }
  }

  lemma PassedFillingGood(shape: Shape, entries: seq<Json>, ordered: seq<Key2>)
    requires Fills(shape, entries, ordered) && EntriesPass(shape, entries, Required(ordered))
    ensures Distinct(ordered)
    ensures forall i | 0 <= i < |ordered| :: KeyOk(shape, ordered[i]) && Evidenced(shape, entries[i])
  {
    hide KeyAccepted, Evidenced, EntryValid, KeyOfEntry, SeenKeys, Strip;
    forall i | 0 <= i < |ordered|
      ensures KeyAccepted(shape, ordered[i]) && Evidenced(shape, entries[i])
      ensures KeyOfEntry(shape, entries[i]) == Some((Strip(ordered[i].0), Strip(ordered[i].1))) {
      NamedValid(shape, entries[i], ordered[i]);
    }
    forall i | 0 <= i < |ordered| ensures KeyOk(shape, ordered[i]) {
      assert ordered[i] in Required(ordered);
      var j := SeenBefore(shape, entries, ordered[i]);
      StripTwice(ordered[j].0);
      StripTwice(ordered[j].1);
    }
  }

  // A manifest whose entries name the ordered keys passes if and only if its header is right, the
  // keys are distinct, acceptable and already stripped, and each entry has an accepted status, a
  // reference and a date of its own.
  lemma FilledPassesExactly(shape: Shape, manifest: Dict, entries: seq<Json>, ordered: seq<Key2>)
    requires Get(manifest, shape.section) == Arr(entries) && Fills(shape, entries, ordered)
    ensures Passes(shape, manifest, Required(ordered))
       <==> && Get(manifest, "schema_version") == Str(shape.schema) && NonBlank(Get(manifest, "captured_at"))
            && Distinct(ordered)
            && forall i | 0 <= i < |ordered| :: KeyOk(shape, ordered[i]) && Evidenced(shape, entries[i])
  {
    if Distinct(ordered) && forall i | 0 <= i < |ordered| :: KeyOk(shape, ordered[i]) && Evidenced(shape, entries[i]) {
      GoodFillingPasses(shape, entries, ordered);
    }
    if EntriesPass(shape, entries, Required(ordered)) { PassedFillingGood(shape, entries, ordered); }
    hide EntriesPass, NonBlank, KeyOk, Evidenced, Names, Distinct, Required;
  }

  // ---- the template that is written ----------------------------------------------------------------

  const PENDING := "pending"
  const NO_DATE := "REPLACE_WITH_REVIEWED_AT"
  const NO_REVIEWER := "REPLACE_WITH_REVIEWER_OR_TEAM"

  function Placeholder(shape: Shape, key: Key2): string
  {
    "private-ops://local-source/" + shape.refPath + "/" + key.0 + "/" + key.1
  }

  // The fields that do not name the key.
  function Placeholders(shape: Shape, key: Key2): Dict
  {
    map[
      "status" := Str(PENDING),
      "accepted_statuses" := Arr(Map(SortedSet(shape.statuses), (s: string) => Str(s))),
      "evidence_ref" := Str(Placeholder(shape, key)),
      "reviewed_at" := Str(NO_DATE),
      "reviewer" := Str(NO_REVIEWER)
    ]
  }

  function TemplateEntry(shape: Shape, key: Key2): Dict
  {
    Placeholders(shape, key)["county" := Str(key.0)][shape.second := Str(key.1)]
  }

  function Header(shape: Shape, capturedAt: string, entries: seq<Json>): Dict
  {
    map[
      "schema_version" := Str(shape.schema),
      "captured_at" := Str(capturedAt),
      "template_status" := Str("pending_official_evidence"),
      shape.section := Arr(entries)
    ]
  }

  function Template(shape: Shape, capturedAt: string, ordered: seq<Key2>): Dict
  {
    Header(shape, capturedAt, Map(ordered, (key: Key2) => Obj(TemplateEntry(shape, key))))
  }

  // One operator's entries: a status, a reference and a date for each key.
  datatype Fill = Fill(status: string, evidenceRef: string, reviewedAt: string)

  function Filled(shape: Shape, key: Key2, fill: Fill): Dict
  {
    TemplateEntry(shape, key)["status" := Str(fill.status)]["evidence_ref" := Str(fill.evidenceRef)]
      ["reviewed_at" := Str(fill.reviewedAt)]
  }

  function FilledTemplate(shape: Shape, capturedAt: string, ordered: seq<Key2>, fills: seq<Fill>): Dict
    requires |fills| == |ordered|
  {
    Header(shape, capturedAt, seq(|ordered|, i requires 0 <= i < |ordered| => Obj(Filled(shape, ordered[i], fills[i]))))
  }

  lemma Apart(shape: Shape)
    requires ShapeOk(shape)
    ensures shape.second != "county" && shape.second != "status" && shape.second != "evidence_ref"
         && shape.second != "reviewed_at" && shape.second != "accepted_statuses" && shape.second != "reviewer"
    ensures shape.section != "schema_version" && shape.section != "captured_at" && shape.section != "template_status"
  {
    var names := ["county", "status", "accepted_statuses", "evidence_ref", "reviewed_at", "reviewer"];
    assert names[0] == "county" && names[1] == "status" && names[2] == "accepted_statuses"
      && names[3] == "evidence_ref" && names[4] == "reviewed_at" && names[5] == "reviewer";
    var headers := ["schema_version", "captured_at", "template_status"];
    assert headers[0] == "schema_version" && headers[1] == "captured_at" && headers[2] == "template_status";
  }

  lemma GetUpdate(d: Dict, field: string, value: Json)
    ensures forall f :: Get(d[field := value], f) == if f == field then value else Get(d, f)
  {
    var next := d[field := value];
    forall f ensures Get(next, f) == if f == field then value else Get(d, f) {
      assert f in next <==> f == field || f in d;
    }
  }

  lemma FieldNames()
    ensures "county" != "status" && "county" != "evidence_ref" && "county" != "reviewed_at"
    ensures "status" != "evidence_ref" && "status" != "reviewed_at" && "evidence_ref" != "reviewed_at"
  {
    assert |"county"| == 6 && |"status"| == 6 && |"evidence_ref"| == 12 && |"reviewed_at"| == 11;
    assert "county"[0] != "status"[0];
  }

  lemma TemplateKey(shape: Shape, key: Key2)
    requires ShapeOk(shape)
    ensures Names(shape, Obj(TemplateEntry(shape, key)), key)
  {
    Apart(shape);
    hide ShapeOk, Placeholders, Get;
    var base := Placeholders(shape, key);
    GetUpdate(base, "county", Str(key.0));
    GetUpdate(base["county" := Str(key.0)], shape.second, Str(key.1));
  }

  lemma FilledFields(shape: Shape, key: Key2, fill: Fill)
    requires ShapeOk(shape)
    ensures var d := Filled(shape, key, fill);
            && Get(d, "status") == Str(fill.status) && Get(d, "evidence_ref") == Str(fill.evidenceRef)
            && Get(d, "reviewed_at") == Str(fill.reviewedAt)
            && Get(d, "county") == Str(key.0) && Get(d, shape.second) == Str(key.1)
  {
    Apart(shape);
    FieldNames();
    TemplateKey(shape, key);
    hide ShapeOk, TemplateEntry, Get;
    var base := TemplateEntry(shape, key);
    GetUpdate(base, "status", Str(fill.status));
    var one := base["status" := Str(fill.status)];
    GetUpdate(one, "evidence_ref", Str(fill.evidenceRef));
    GetUpdate(one["evidence_ref" := Str(fill.evidenceRef)], "reviewed_at", Str(fill.reviewedAt));
  }

  lemma FilledEntry(shape: Shape, key: Key2, fill: Fill)
    requires ShapeOk(shape)
    ensures Names(shape, Obj(Filled(shape, key, fill)), key)
    ensures Evidenced(shape, Obj(Filled(shape, key, fill)))
       <==> fill.status in shape.statuses && !IsBlank(fill.evidenceRef) && !IsBlank(fill.reviewedAt)
  {
    hide ShapeOk, IsBlank, Filled, Get;
    FilledFields(shape, key, fill);
  }

  lemma HeaderFields(shape: Shape, capturedAt: string, entries: seq<Json>)
    requires ShapeOk(shape)
    ensures var m := Header(shape, capturedAt, entries);
            && Get(m, "schema_version") == Str(shape.schema) && Get(m, "captured_at") == Str(capturedAt)
            && Get(m, shape.section) == Arr(entries)
  {
    Apart(shape);
    hide ShapeOk;
  }

  // A template filled in entry by entry.
  lemma TemplatePassesExactly(shape: Shape, capturedAt: string, ordered: seq<Key2>, fills: seq<Fill>)
    requires ShapeOk(shape) && |fills| == |ordered|
    ensures Passes(shape, FilledTemplate(shape, capturedAt, ordered, fills), Required(ordered))
       <==> && !IsBlank(capturedAt) && Distinct(ordered)
            && forall i | 0 <= i < |ordered| ::
                 && KeyOk(shape, ordered[i]) && fills[i].status in shape.statuses
                 && !IsBlank(fills[i].evidenceRef) && !IsBlank(fills[i].reviewedAt)
  {
    var entries := seq(|ordered|, i requires 0 <= i < |ordered| => Obj(Filled(shape, ordered[i], fills[i])));
    HeaderFields(shape, capturedAt, entries);
    hide ShapeOk, Passes, Header, Filled, Names, Evidenced, IsBlank, KeyOk, Distinct, Required;
    forall i | 0 <= i < |ordered|
      ensures Names(shape, entries[i], ordered[i])
      ensures Evidenced(shape, entries[i])
         <==> fills[i].status in shape.statuses && !IsBlank(fills[i].evidenceRef) && !IsBlank(fills[i].reviewedAt) {
      FilledEntry(shape, ordered[i], fills[i]);
    }
    FilledPassesExactly(shape, FilledTemplate(shape, capturedAt, ordered, fills), entries, ordered);
  }

  lemma PlaceholdersNotBlank(shape: Shape, key: Key2)
    ensures !IsBlank(Placeholder(shape, key)) && !IsBlank(NO_DATE)
  {
    assert Placeholder(shape, key)[0] == 'p' && NO_DATE[0] == 'R';
    StripEnds(Placeholder(shape, key));
    StripEnds(NO_DATE);
  }

  // A template in which only the status is filled in.
  function StatusFills(shape: Shape, ordered: seq<Key2>, status: string): (r: seq<Fill>)
    ensures |r| == |ordered|
  {
    Map(ordered, (key: Key2) => Fill(status, Placeholder(shape, key), NO_DATE))
  }

  // The placeholder reference and date pass for values: of what has to be filled in, the status is
  // all that is checked.
  lemma StatusAlonePasses(shape: Shape, capturedAt: string, ordered: seq<Key2>, status: string)
    requires ShapeOk(shape) && ordered != []
    ensures Passes(shape, FilledTemplate(shape, capturedAt, ordered, StatusFills(shape, ordered, status)), Required(ordered))
       <==> && !IsBlank(capturedAt) && Distinct(ordered) && status in shape.statuses
            && forall i | 0 <= i < |ordered| :: KeyOk(shape, ordered[i])
  {
    hide *;
    TemplatePassesExactly(shape, capturedAt, ordered, StatusFills(shape, ordered, status));
    forall i | 0 <= i < |ordered| ensures StatusFill(shape, ordered, status, i) {
      StatusFillAt(shape, ordered, status, i);
    }
    StatusFillUsed(shape, ordered, status);
  }

  // The filling of entry i: the placeholders are not blank.
  predicate StatusFill(shape: Shape, ordered: seq<Key2>, status: string, i: nat)
    requires i < |ordered|
  {
    var f := StatusFills(shape, ordered, status)[i];
    f.status == status && !IsBlank(f.evidenceRef) && !IsBlank(f.reviewedAt)
  }

  lemma StatusFillAt(shape: Shape, ordered: seq<Key2>, status: string, i: nat)
    requires i < |ordered|
    ensures StatusFill(shape, ordered, status, i)
  {
    PlaceholdersNotBlank(shape, ordered[i]);
    hide IsBlank, Placeholder, NO_DATE;
  }

  lemma StatusFillUsed(shape: Shape, ordered: seq<Key2>, status: string)
    requires ordered != [] && forall i | 0 <= i < |ordered| :: StatusFill(shape, ordered, status, i)
    ensures var fills := StatusFills(shape, ordered, status);
            (forall i | 0 <= i < |ordered| ::
                 && KeyOk(shape, ordered[i]) && fills[i].status in shape.statuses
                 && !IsBlank(fills[i].evidenceRef) && !IsBlank(fills[i].reviewedAt))
            <==> status in shape.statuses && forall i | 0 <= i < |ordered| :: KeyOk(shape, ordered[i])
  {
    hide IsBlank, KeyOk, StatusFills;
    assert StatusFill(shape, ordered, status, 0);
    var fills := StatusFills(shape, ordered, status);
    forall i | 0 <= i < |ordered|
      ensures fills[i].status == status && !IsBlank(fills[i].evidenceRef) && !IsBlank(fills[i].reviewedAt) {
      assert StatusFill(shape, ordered, status, i);
    }
    if forall i | 0 <= i < |ordered| :: KeyOk(shape, ordered[i]) && fills[i].status in shape.statuses {
      assert KeyOk(shape, ordered[0]) && fills[0].status in shape.statuses;
    }
  }

  lemma UnfilledIsPending(shape: Shape, capturedAt: string, ordered: seq<Key2>)
    requires ShapeOk(shape)
    ensures Template(shape, capturedAt, ordered)
         == FilledTemplate(shape, capturedAt, ordered, StatusFills(shape, ordered, PENDING))
  {
    var fills := StatusFills(shape, ordered, PENDING);
    forall i | 0 <= i < |ordered| ensures Filled(shape, ordered[i], fills[i]) == TemplateEntry(shape, ordered[i]) {
      SameEntry(shape, ordered[i]);
    }
    hide TemplateEntry, Filled, Header;
    assert Map(ordered, (key: Key2) => Obj(TemplateEntry(shape, key)))
        == seq(|ordered|, i requires 0 <= i < |ordered| => Obj(Filled(shape, ordered[i], fills[i])));
  }

  lemma SameEntry(shape: Shape, key: Key2)
    requires ShapeOk(shape)
    ensures Filled(shape, key, Fill(PENDING, Placeholder(shape, key), NO_DATE)) == TemplateEntry(shape, key)
  {
    Apart(shape);
    hide ShapeOk, Placeholder;
    var d := TemplateEntry(shape, key);
    UpdateSame(d, "status", Str(PENDING));
    UpdateSame(d, "evidence_ref", Str(Placeholder(shape, key)));
    UpdateSame(d, "reviewed_at", Str(NO_DATE));
  }

  lemma UpdateSame(d: Dict, field: string, value: Json)
    ensures field in d && d[field] == value ==> d[field := value] == d
  {
  }

  // The template as it is written is refused whenever anything is required.
  lemma UnfilledFails(shape: Shape, capturedAt: string, ordered: seq<Key2>)
    requires ShapeOk(shape) && PENDING !in shape.statuses && !IsBlank(capturedAt)
    ensures Failures(shape, Template(shape, capturedAt, ordered), Required(ordered)) == [] <==> ordered == []
  {
    FailuresExactly(shape, Template(shape, capturedAt, ordered), Required(ordered));
    UnfilledIsPending(shape, capturedAt, ordered);
    TemplatePassesExactly(shape, capturedAt, ordered, StatusFills(shape, ordered, PENDING));
    hide ShapeOk, Passes, KeyOk, Template, FilledTemplate, IsBlank, Failures;
  }
}
