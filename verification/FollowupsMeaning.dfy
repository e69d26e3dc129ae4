/**
 * What a follow-up report and a sanitised overlay hold, read off the raw overlays
 * (scripts/local-source-request-followups.py).
 */
module FollowupsMeaning {
  import opened Json
  import opened Lists
  import opened Sorting
  import opened Text
  import opened Followups
  import opened FollowupsProof

  const SIGNALS := "signal_family_gap_evidence"
  const CONTRACTS := "source_contract_evidence"

  function EntriesIn(value: Json): seq<Json>
  {
    if value.Arr? then value.items else []
  }

  // The raw entries of a section, overlay by overlay.
  function Raw(overlays: seq<Dict>, name: string): seq<Json>
  {
    if overlays == [] then [] else EntriesIn(Get(overlays[0], name)) + Raw(overlays[1..], name)
  }

  // The text is str(item.get(field, "")).
  predicate TextIs(item: Dict, field: string, text: string, ctx: Context)
  {
    if field !in item then text == ""
    else if item[field].Str? then text == item[field].text
    else text == ctx.repr(item[field])
  }

  predicate HasStatus(entry: Json, status: string)
  {
    entry.Obj? && Get(entry.fields, "status") == Str(status)
  }

  predicate IsDispatched(entry: Json)
  {
    HasStatus(entry, "request_dispatched")
  }

  // ---- what the sanitiser keeps --------------------------------------------------------------------

  predicate IsKept(entry: Json, accepted: set<string>)
  {
    IsDispatched(entry) || exists s :: s in accepted && HasStatus(entry, s)
  }

  // A string is copied, anything else is not.
  predicate CopiesString(item: Dict, out: Dict, field: string)
  {
    if Get(item, field).Str? then Get(out, field) == Get(item, field) else field !in out
  }

  predicate IsTextOf(item: Dict, out: Dict, field: string, ctx: Context)
  {
    Get(out, field).Str? && TextIs(item, field, Get(out, field).text, ctx)
  }

  // The entry that is written for an item: its county, kind and status, a redacted reference, and
  // the dates of its kind of item, and nothing else.
  predicate WrittenFor(item: Dict, entry: Json, kind: string, ctx: Context)
  {
    && entry.Obj?
    && IsTextOf(item, entry.fields, "county", ctx) && IsTextOf(item, entry.fields, kind, ctx)
    && Get(entry.fields, "status") == Get(item, "status")
    && Get(entry.fields, "evidence_ref") == Str("private-ops://" + "redacted/local-source-request" + "-dispatch")
    && entry.fields.Keys
       <= {"county", kind, "status", "evidence_ref", "dispatched_at", "follow_up_due_at", "reviewed_at"}
    && if IsDispatched(Obj(item)) then
         && CopiesString(item, entry.fields, "dispatched_at") && CopiesString(item, entry.fields, "follow_up_due_at")
         && "reviewed_at" !in entry.fields
       else
         && "dispatched_at" !in entry.fields && "follow_up_due_at" !in entry.fields
         && Get(item, "reviewed_at").Str?
         && Get(entry.fields, "reviewed_at") == Str(Strip(Get(item, "reviewed_at").text))
  }

  // One entry is written, in order, for exactly the raw entries that are kept.
  ghost predicate WrittenInOrder(raw: seq<Json>, out: seq<Json>, kind: string, accepted: set<string>, ctx: Context)
  {
    if raw == [] then out == []
    else if IsKept(raw[0], accepted) then
      out != [] && WrittenFor(raw[0].fields, out[0], kind, ctx)
      && WrittenInOrder(raw[1..], out[1..], kind, accepted, ctx)
    else WrittenInOrder(raw[1..], out, kind, accepted, ctx)
  }

  function Kind(section: Section): string
  {
    if section == Signal then "signal_type" else "gate"
  }

  function AcceptedIn(section: Section, ctx: Context): set<string>
  {
    if section == Signal then ctx.signalAccepted else ctx.contractAccepted
  }

  lemma KeptExactly(item: Dict, section: Section, ctx: Context)
    ensures KeptStatus(item, section, ctx).Some? <==> IsKept(Obj(item), AcceptedIn(section, ctx))
    ensures KeptStatus(item, section, ctx).Some? ==>
              Get(item, "status") == Str(KeptStatus(item, section, ctx).value)
              && (KeptStatus(item, section, ctx).value == DISPATCHED <==> IsDispatched(Obj(item)))
  {
    var status := Get(item, "status");
    if status.Str? && status.text in AcceptedIn(section, ctx) {
      assert HasStatus(Obj(item), status.text);
    }
  }

  lemma TextOfIs(item: Dict, field: string, ctx: Context)
    ensures TextIs(item, field, ctx.TextOf(item, field), ctx)
  {
  }

  lemma ShapeKeys(section: Section, county: string, kind: string, status: string,
                  dispatched: Option<string>, due: Option<string>, reviewed: Option<string>)
    ensures var out := Shape(section, county, kind, status, dispatched, due, reviewed);
            && out.Keys <= {"county", Kind(section), "status", "evidence_ref", "dispatched_at", "follow_up_due_at",
                            "reviewed_at"}
            && ("dispatched_at" in out <==> dispatched.Some?) && ("follow_up_due_at" in out <==> due.Some?)
            && ("reviewed_at" in out <==> reviewed.Some?)
  {
    BaseTexts(section, county, kind, status);
  }

  lemma SanitisedWritten(item: Dict, section: Section, index: nat, ctx: Context)
    requires KeptStatus(item, section, ctx).Some?
    requires IsDispatched(Obj(item)) || CheckAccepted(item, section, index, ctx).None?
    ensures WrittenFor(item, Obj(Sanitised(item, KeptStatus(item, section, ctx).value, section, ctx)), Kind(section), ctx)
  {
    KeptExactly(item, section, ctx);
    var status := KeptStatus(item, section, ctx).value;
    var county, kind := ctx.TextOf(item, "county"), ctx.TextOf(item, KindField(section));
    TextOfIs(item, "county", ctx);
    TextOfIs(item, KindField(section), ctx);
    if IsDispatched(Obj(item)) {
      var sent, due := StringField(item, "dispatched_at"), StringField(item, "follow_up_due_at");
      ShapeTexts(section, county, kind, status, sent, due, None, ctx);
      ShapeKeys(section, county, kind, status, sent, due, None);
      DispatchedWritten(item, section, Shape(section, county, kind, status, sent, due, None), ctx);
    } else {
      var reviewed := Some(Strip(ctx.TextOf(item, "reviewed_at")));
      ReviewedString(item, section, index, ctx);
      ShapeTexts(section, county, kind, status, None, None, reviewed, ctx);
      ShapeKeys(section, county, kind, status, None, None, reviewed);
      AcceptedWritten(item, section, Shape(section, county, kind, status, None, None, reviewed), ctx);
    }
  }

  lemma ReviewedString(item: Dict, section: Section, index: nat, ctx: Context)
    requires CheckAccepted(item, section, index, ctx).None?
    ensures Get(item, "reviewed_at").Str? && ctx.TextOf(item, "reviewed_at") == Get(item, "reviewed_at").text
  {
  }

  predicate Fixed(item: Dict, out: Dict, section: Section, ctx: Context)
  {
    && Get(out, "county") == Str(ctx.TextOf(item, "county"))
    && Get(out, KindField(section)) == Str(ctx.TextOf(item, KindField(section)))
    && Get(out, "status") == Get(item, "status") && Get(out, "evidence_ref") == Str(REDACTED)
    && out.Keys <= {"county", Kind(section), "status", "evidence_ref", "dispatched_at", "follow_up_due_at", "reviewed_at"}
  }

  lemma DispatchedWritten(item: Dict, section: Section, out: Dict, ctx: Context)
    requires Fixed(item, out, section, ctx) && IsDispatched(Obj(item))
    requires StringField(out, "dispatched_at") == StringField(item, "dispatched_at")
    requires StringField(out, "follow_up_due_at") == StringField(item, "follow_up_due_at")
    requires "dispatched_at" in out <==> StringField(item, "dispatched_at").Some?
    requires "follow_up_due_at" in out <==> StringField(item, "follow_up_due_at").Some?
    requires "reviewed_at" !in out
    ensures WrittenFor(item, Obj(out), Kind(section), ctx)
  {
    TextOfIs(item, "county", ctx);
    TextOfIs(item, KindField(section), ctx);
    hide TextIs;
  }

  lemma AcceptedWritten(item: Dict, section: Section, out: Dict, ctx: Context)
    requires Fixed(item, out, section, ctx) && !IsDispatched(Obj(item)) && Get(item, "reviewed_at").Str?
    requires "dispatched_at" !in out && "follow_up_due_at" !in out
    requires Get(out, "reviewed_at") == Str(Strip(Get(item, "reviewed_at").text))
    ensures WrittenFor(item, Obj(out), Kind(section), ctx)
  {
    TextOfIs(item, "county", ctx);
    TextOfIs(item, KindField(section), ctx);
    hide TextIs, Strip;
  }

  lemma {:induction false} SectionWritten(items: seq<Json>, index: nat, section: Section, ctx: Context)
    requires index <= |items| && SanitisedFrom(items, index, section, ctx).Ok?
    ensures WrittenInOrder(items[index..], SanitisedFrom(items, index, section, ctx).value, Kind(section),
                           AcceptedIn(section, ctx), ctx)
    decreases |items| - index
  {
    hide KeptStatus, CheckAccepted, Sanitised, WrittenFor, IsKept, AcceptedIn;
    if index == |items| {
      assert items[index..] == [];
    } else {
      var item := items[index].fields;
      assert items[index..][0] == Obj(item) && items[index..][1..] == items[index + 1..];
      KeptExactly(item, section, ctx);
      SectionWritten(items, index + 1, section, ctx);
      if KeptStatus(item, section, ctx).Some? {
        SanitisedWritten(item, section, index, ctx);
        var out := SanitisedFrom(items, index, section, ctx).value;
        assert out[1..] == SanitisedFrom(items, index + 1, section, ctx).value;
      }
    }
  }

  lemma {:induction false} WrittenAppend(a: seq<Json>, out: seq<Json>, b: seq<Json>, more: seq<Json>, kind: string,
                                         accepted: set<string>, ctx: Context)
    requires WrittenInOrder(a, out, kind, accepted, ctx) && WrittenInOrder(b, more, kind, accepted, ctx)
    ensures WrittenInOrder(a + b, out + more, kind, accepted, ctx)
  {
    hide IsKept, WrittenFor;
    if a == [] {
      assert a + b == b && out + more == more;
    } else {
      assert (a + b)[0] == a[0] && (a + b)[1..] == a[1..] + b;
      if IsKept(a[0], accepted) {
        assert (out + more)[0] == out[0] && (out + more)[1..] == out[1..] + more;
        WrittenAppend(a[1..], out[1..], b, more, kind, accepted, ctx);
      } else {
        WrittenAppend(a[1..], out, b, more, kind, accepted, ctx);
      }
    }
  }

  lemma ValueWritten(value: Json, section: Section, ctx: Context)
    requires SanitisedSection(value, section, ctx).Ok?
    ensures WrittenInOrder(EntriesIn(value), SanitisedSection(value, section, ctx).value, Kind(section),
                           AcceptedIn(section, ctx), ctx)
  {
    if value.Arr? {
      assert value.items[0..] == value.items;
      SectionWritten(value.items, 0, section, ctx);
    }
  }

  lemma {:induction false} SectionsWritten(overlays: seq<Dict>, ctx: Context)
    requires SanitisedSections(overlays, ctx).Ok?
    ensures var all := SanitisedSections(overlays, ctx).value;
            && WrittenInOrder(Raw(overlays, SIGNALS), all.signals, "signal_type", ctx.signalAccepted, ctx)
            && WrittenInOrder(Raw(overlays, CONTRACTS), all.contracts, "gate", ctx.contractAccepted, ctx)
  {
    hide SanitisedSection, EntriesIn;
    if overlays != [] {
      var s, c := Get(overlays[0], SIGNALS), Get(overlays[0], CONTRACTS);
      ValueWritten(s, Signal, ctx);
      ValueWritten(c, Contract, ctx);
      SectionsWritten(overlays[1..], ctx);
      var rest := SanitisedSections(overlays[1..], ctx).value;
      WrittenAppend(EntriesIn(s), SanitisedSection(s, Signal, ctx).value, Raw(overlays[1..], SIGNALS), rest.signals,
                    "signal_type", ctx.signalAccepted, ctx);
      WrittenAppend(EntriesIn(c), SanitisedSection(c, Contract, ctx).value, Raw(overlays[1..], CONTRACTS),
                    rest.contracts, "gate", ctx.contractAccepted, ctx);
    }
  }

  // ---- the newest capture time -----------------------------------------------------------------------

  predicate Captured(overlays: seq<Dict>, s: string)
  {
    exists i :: 0 <= i < |overlays| && Get(overlays[i], "captured_at") == Str(s)
  }

  lemma {:induction false} CapturedMember(overlays: seq<Dict>, s: string)
    ensures s in CapturedValues(overlays) <==> Captured(overlays, s)
  {
    if overlays != [] {
      CapturedMember(overlays[1..], s);
      if Captured(overlays, s) {
        var i :| 0 <= i < |overlays| && Get(overlays[i], "captured_at") == Str(s);
        if i > 0 { assert Get(overlays[1..][i - 1], "captured_at") == Str(s); }
      }
      if Captured(overlays[1..], s) {
        var i :| 0 <= i < |overlays[1..]| && Get(overlays[1..][i], "captured_at") == Str(s);
        assert Get(overlays[i + 1], "captured_at") == Str(s);
      }
    }
  }

  // The value is the greatest of the overlays' capture times, or null when none is a string.
  ghost predicate NewestCapture(overlays: seq<Dict>, value: Json)
  {
    if exists s :: Captured(overlays, s)
    then value.Str? && Captured(overlays, value.text) && forall s | Captured(overlays, s) :: StrLe(s, value.text)
    else value == Null
  }

  lemma NewestIs(overlays: seq<Dict>)
    ensures var m := Extreme(CapturedValues(overlays), false);
            NewestCapture(overlays, if m.Some? then Str(m.value) else Null)
  {
    var xs := CapturedValues(overlays);
    ExtremeOf(xs, false);
    forall s ensures s in xs <==> Captured(overlays, s) { CapturedMember(overlays, s); }
    hide Captured, StrLe;
    if xs != [] { assert xs[0] in xs; }
  }

  // ---- the sanitised overlay -------------------------------------------------------------------------

  // In the sanitised overlay each section has, in overlay order, one entry for exactly the raw items
  // that are dispatched or have a status accepted for that section; the capture time is the newest.
  lemma OverlayHolds(overlays: seq<Dict>, ctx: Context)
    requires SanitisedOverlay(overlays, ctx).Ok?
    ensures var out := SanitisedOverlay(overlays, ctx).value;
            && Get(out, SIGNALS).Arr? && Get(out, CONTRACTS).Arr?
            && WrittenInOrder(Raw(overlays, SIGNALS), Get(out, SIGNALS).items, "signal_type", ctx.signalAccepted, ctx)
            && WrittenInOrder(Raw(overlays, CONTRACTS), Get(out, CONTRACTS).items, "gate", ctx.contractAccepted, ctx)
            && NewestCapture(overlays, Get(out, "captured_at"))
            && Get(out, "production_gate_evidence") == Arr([])
            && Get(out, "schema_version") == Str("local-source-completion-evidence/v1")
  {
    SectionsWritten(overlays, ctx);
    NewestIs(overlays);
    hide WrittenInOrder, NewestCapture, Extreme, CapturedValues, SanitisedSections;
    OverlayParts(SanitisedSections(overlays, ctx).value, Extreme(CapturedValues(overlays), false));
  }

  lemma OverlayParts(all: Sections, captured: Option<string>)
    ensures var out := OverlayOf(all, captured);
            && Get(out, SIGNALS) == Arr(all.signals) && Get(out, CONTRACTS) == Arr(all.contracts)
            && Get(out, "captured_at") == (if captured.Some? then Str(captured.value) else Null)
            && Get(out, "production_gate_evidence") == Arr([])
            && Get(out, "schema_version") == Str("local-source-completion-evidence/v1")
  {
  }

  // ---- when sanitising fails -------------------------------------------------------------------------

  // A string that is neither blank nor a placeholder.
  predicate FilledIn(value: Json, ctx: Context)
  {
    value.Str? && !IsBlank(value.text) && !StartsWith(ctx.Upper(Strip(value.text)), "REPLACE_WITH_")
  }

  predicate NeedsFields(entry: Json, accepted: set<string>)
  {
    IsKept(entry, accepted) && !IsDispatched(entry)
  }

  // An accepted item has its four fields.
  predicate EntryOk(entry: Json, kind: string, accepted: set<string>, ctx: Context)
  {
    && entry.Obj?
    && (NeedsFields(entry, accepted) ==>
          && FilledIn(Get(entry.fields, "county"), ctx) && FilledIn(Get(entry.fields, "evidence_ref"), ctx)
          && FilledIn(Get(entry.fields, "reviewed_at"), ctx) && FilledIn(Get(entry.fields, kind), ctx))
  }

  predicate SectionOk(value: Json, kind: string, accepted: set<string>, ctx: Context)
  {
    value.Null? || (value.Arr? && forall i | 0 <= i < |value.items| :: EntryOk(value.items[i], kind, accepted, ctx))
  }

  lemma CheckFieldExactly(item: Dict, field: string, section: Section, index: nat, ctx: Context)
    ensures CheckField(item, field, section, index, ctx).None? <==> FilledIn(Get(item, field), ctx)
    ensures CheckField(item, field, section, index, ctx).Some? ==>
              var e := CheckField(item, field, section, index, ctx).value;
              && (e == FieldRequired(section, index, field) || e == FieldPlaceholder(section, index, field))
              && (e.FieldRequired? <==> !Get(item, field).Str? || IsBlank(Get(item, field).text))
  {
    hide IsBlank, StartsWith;
  }

  lemma CheckExactly(item: Dict, section: Section, index: nat, ctx: Context)
    ensures CheckAccepted(item, section, index, ctx).None?
       <==> && FilledIn(Get(item, "county"), ctx) && FilledIn(Get(item, "evidence_ref"), ctx)
            && FilledIn(Get(item, "reviewed_at"), ctx) && FilledIn(Get(item, Kind(section)), ctx)
  {
    CheckFieldExactly(item, "county", section, index, ctx);
    CheckFieldExactly(item, "evidence_ref", section, index, ctx);
    CheckFieldExactly(item, "reviewed_at", section, index, ctx);
    CheckFieldExactly(item, KindField(section), section, index, ctx);
    hide CheckField, FilledIn;
  }

  lemma {:induction false} FromOk(items: seq<Json>, index: nat, section: Section, ctx: Context)
    requires index <= |items|
    ensures SanitisedFrom(items, index, section, ctx).Ok?
       <==> forall i | index <= i < |items| :: EntryOk(items[i], Kind(section), AcceptedIn(section, ctx), ctx)
    decreases |items| - index
  {
    hide KeptStatus, CheckAccepted, Sanitised, IsKept, IsDispatched, AcceptedIn, FilledIn, Kind;
    if index < |items| {
      FromOk(items, index + 1, section, ctx);
      if items[index].Obj? {
        KeptExactly(items[index].fields, section, ctx);
        CheckExactly(items[index].fields, section, index, ctx);
        assert items[index] == Obj(items[index].fields);
      }
    }
  }

  lemma ValueOk(value: Json, section: Section, ctx: Context)
    ensures SanitisedSection(value, section, ctx).Ok? <==> SectionOk(value, Kind(section), AcceptedIn(section, ctx), ctx)
  {
    if value.Arr? { FromOk(value.items, 0, section, ctx); }
  }

  // Sanitising succeeds exactly when every section is an array or missing, every entry an object,
  // and every item that is kept for its accepted status has its fields filled in.
  lemma {:induction false} SanitisesExactly(overlays: seq<Dict>, ctx: Context)
    ensures SanitisedOverlay(overlays, ctx).Ok?
       <==> forall i | 0 <= i < |overlays| ::
              && SectionOk(Get(overlays[i], SIGNALS), "signal_type", ctx.signalAccepted, ctx)
              && SectionOk(Get(overlays[i], CONTRACTS), "gate", ctx.contractAccepted, ctx)
  {
    hide SanitisedSection, SectionOk;
    if overlays != [] {
      ValueOk(Get(overlays[0], SIGNALS), Signal, ctx);
      ValueOk(Get(overlays[0], CONTRACTS), Contract, ctx);
      SanitisesExactly(overlays[1..], ctx);
      assert forall i | 1 <= i < |overlays| :: overlays[i] == overlays[1..][i - 1];
      assert forall i | 0 <= i < |overlays[1..]| :: overlays[1..][i] == overlays[i + 1];
    }
  }

  // The field that is complained of: the first of the four that is not filled in.
  predicate FirstUnfilled(item: Dict, field: string, kind: string, ctx: Context)
  {
    && !FilledIn(Get(item, field), ctx)
    && (field == "county"
        || (FilledIn(Get(item, "county"), ctx)
            && (field == "evidence_ref"
                || (FilledIn(Get(item, "evidence_ref"), ctx)
                    && (field == "reviewed_at" || (FilledIn(Get(item, "reviewed_at"), ctx) && field == kind))))))
  }

  predicate Complains(entry: Json, index: nat, e: Failure, section: Section, ctx: Context)
  {
    if !entry.Obj? then e == NotAnObject(section, index)
    else
      && (e.FieldRequired? || e.FieldPlaceholder?) && e.section == section && e.index == index
      && FirstUnfilled(entry.fields, e.field, Kind(section), ctx)
      && (e.FieldRequired? <==> !Get(entry.fields, e.field).Str? || IsBlank(Get(entry.fields, e.field).text))
  }

  lemma CheckComplains(item: Dict, section: Section, index: nat, ctx: Context)
    requires CheckAccepted(item, section, index, ctx).Some?
    ensures Complains(Obj(item), index, CheckAccepted(item, section, index, ctx).value, section, ctx)
  {
    CheckFieldExactly(item, "county", section, index, ctx);
    CheckFieldExactly(item, "evidence_ref", section, index, ctx);
    CheckFieldExactly(item, "reviewed_at", section, index, ctx);
    CheckFieldExactly(item, KindField(section), section, index, ctx);
    hide CheckField, FilledIn, IsBlank;
  }

  // The failure of a section names its first bad entry, and says what is wrong with it.
  lemma {:induction false} SectionComplains(items: seq<Json>, index: nat, section: Section, ctx: Context)
    requires index <= |items| && SanitisedFrom(items, index, section, ctx).Err?
    ensures exists i: nat ::
              && index <= i < |items|
              && Complains(items[i], i, SanitisedFrom(items, index, section, ctx).error, section, ctx)
              && !EntryOk(items[i], Kind(section), AcceptedIn(section, ctx), ctx)
              && forall j | index <= j < i :: EntryOk(items[j], Kind(section), AcceptedIn(section, ctx), ctx)
    decreases |items| - index
  {
    hide KeptStatus, CheckAccepted, Sanitised, IsKept, IsDispatched, AcceptedIn, FilledIn, Kind;
    FromOk(items, index, section, ctx);
    var e := SanitisedFrom(items, index, section, ctx).error;
    if !items[index].Obj? {
      assert Complains(items[index], index, e, section, ctx);
    } else {
      var item := items[index].fields;
      assert items[index] == Obj(item);
      KeptExactly(item, section, ctx);
      CheckExactly(item, section, index, ctx);
      if EntryOk(items[index], Kind(section), AcceptedIn(section, ctx), ctx) {
        SectionComplains(items, index + 1, section, ctx);
      } else {
        CheckComplains(item, section, index, ctx);
      }
    }
  }

  // ---- placeholders ----------------------------------------------------------------------------------

  // The character is the letter, or the small form of it.
  predicate ReadsAs(c: char, letter: char)
  {
    c == letter || ('A' <= letter <= 'Z' && c == letter - 'A' + 'a')
  }

  predicate Begins(s: string, word: string)
  {
    |word| <= |s| && forall i | 0 <= i < |word| :: ReadsAs(s[i], word[i])
  }

  lemma {:induction false} UpperAt(s: string, word: string, ctx: Context)
    requires forall c | c in s :: c < '\U{80}'
    requires forall c | c in word :: c < 'a'
    ensures StartsWith(ctx.Upper(s), word) <==> Begins(s, word)
  {
    if s != "" && word != "" {
      assert s[0] in s && forall c | c in s[1..] :: c in s;
      assert word[0] in word && forall c | c in word[1..] :: c in word;
      UpperAt(s[1..], word[1..], ctx);
      var c := if 'a' <= s[0] <= 'z' then s[0] - 'a' + 'A' else s[0];
      assert ctx.Upper(s) == [c] + ctx.Upper(s[1..]);
      assert c == word[0] <==> ReadsAs(s[0], word[0]);
      assert forall i | 1 <= i < |word| && i < |s| :: s[i] == s[1..][i - 1] && word[i] == word[1..][i - 1];
      assert forall i | 0 <= i < |word| - 1 && i < |s| - 1 :: s[1..][i] == s[i + 1] && word[1..][i] == word[i + 1];
    }
  }

  // An ASCII text is a placeholder exactly when it starts with the mark, in letters of either size.
  lemma PlaceholderExactly(text: string, ctx: Context)
    requires forall c | c in text :: c < '\U{80}'
    ensures StartsWith(ctx.Upper(text), PLACEHOLDER) <==> Begins(text, "REPLACE_WITH_")
  {
    UpperAt(text, "REPLACE_WITH_", ctx);
    hide StartsWith, Begins;
  }

  // ---- dispatch items --------------------------------------------------------------------------------

  // The raw entries in the order of the report: overlay by overlay, signals before contracts.
  function Tagged(overlays: seq<Dict>): seq<(Section, Json)>
  {
    if overlays == [] then []
    else
      Map(EntriesIn(Get(overlays[0], SIGNALS)), (e: Json) => (Signal, e))
      + Map(EntriesIn(Get(overlays[0], CONTRACTS)), (e: Json) => (Contract, e))
      + Tagged(overlays[1..])
  }

  predicate ListedFor(section: Section, item: Dict, d: DispatchItem, ctx: Context)
  {
    && d.section == section && TextIs(item, "county", d.county, ctx)
    && TextIs(item, if section == Signal then "signal_type" else "gate", d.kind, ctx)
    && d.due == if Get(item, "follow_up_due_at").Str? then Some(Get(item, "follow_up_due_at").text) else None
  }

  // One dispatch item, in order, for exactly the raw entries that are dispatched.
  ghost predicate ListedInOrder(raw: seq<(Section, Json)>, items: seq<DispatchItem>, ctx: Context)
  {
    if raw == [] then items == []
    else if IsDispatched(raw[0].1) then
      items != [] && ListedFor(raw[0].0, raw[0].1.fields, items[0], ctx) && ListedInOrder(raw[1..], items[1..], ctx)
    else ListedInOrder(raw[1..], items, ctx)
  }

  lemma {:induction false} ListedAppend(a: seq<(Section, Json)>, x: seq<DispatchItem>, b: seq<(Section, Json)>,
                                        y: seq<DispatchItem>, ctx: Context)
    requires ListedInOrder(a, x, ctx) && ListedInOrder(b, y, ctx)
    ensures ListedInOrder(a + b, x + y, ctx)
  {
    hide IsDispatched, ListedFor;
    if a == [] {
      assert a + b == b && x + y == y;
    } else {
      assert (a + b)[0] == a[0] && (a + b)[1..] == a[1..] + b;
      if IsDispatched(a[0].1) {
        assert (x + y)[0] == x[0] && (x + y)[1..] == x[1..] + y;
        ListedAppend(a[1..], x[1..], b, y, ctx);
      } else {
        ListedAppend(a[1..], x, b, y, ctx);
      }
    }
  }

  lemma PublicListed(item: Dict, section: Section, ctx: Context)
    ensures ListedFor(section, item, Public(item, section, ctx), ctx)
  {
    TextOfIs(item, "county", ctx);
    TextOfIs(item, KindField(section), ctx);
    hide TextIs;
  }

  lemma {:induction false} SectionListed(items: seq<Json>, index: nat, section: Section, ctx: Context)
    requires index <= |items| && DispatchFrom(items, index, section, ctx).Ok?
    ensures ListedInOrder(Map(items[index..], (e: Json) => (section, e)),
                          DispatchFrom(items, index, section, ctx).value, ctx)
    decreases |items| - index
  {
    hide ListedFor, Public;
    var tag := (e: Json) => (section, e);
    var raw := Map(items[index..], tag);
    if index < |items| {
      SectionListed(items, index + 1, section, ctx);
      assert raw[1..] == Map(items[index + 1..], tag) && raw[0] == (section, items[index]);
      var rest := DispatchFrom(items, index + 1, section, ctx).value;
      if IsDispatched(items[index]) {
        var d := Public(items[index].fields, section, ctx);
        PublicListed(items[index].fields, section, ctx);
        assert ([d] + rest)[1..] == rest;
      }
    }
  }

  lemma ValueListed(value: Json, section: Section, ctx: Context)
    requires SectionDispatchItems(value, section, ctx).Ok?
    ensures ListedInOrder(Map(EntriesIn(value), (e: Json) => (section, e)),
                          SectionDispatchItems(value, section, ctx).value, ctx)
  {
    if value.Arr? {
      assert value.items[0..] == value.items;
      SectionListed(value.items, 0, section, ctx);
    }
  }

  lemma {:induction false} ItemsListed(overlays: seq<Dict>, ctx: Context)
    requires DispatchItems(overlays, ctx).Ok?
    ensures ListedInOrder(Tagged(overlays), DispatchItems(overlays, ctx).value, ctx)
  {
    hide SectionDispatchItems, EntriesIn;
    if overlays != [] {
      var s, c := Get(overlays[0], SIGNALS), Get(overlays[0], CONTRACTS);
      ValueListed(s, Signal, ctx);
      ValueListed(c, Contract, ctx);
      ItemsListed(overlays[1..], ctx);
      var a, b := Map(EntriesIn(s), (e: Json) => (Signal, e)), Map(EntriesIn(c), (e: Json) => (Contract, e));
      var x, y := SectionDispatchItems(s, Signal, ctx).value, SectionDispatchItems(c, Contract, ctx).value;
      ListedAppend(a, x, b, y, ctx);
      ListedAppend(a + b, x + y, Tagged(overlays[1..]), DispatchItems(overlays[1..], ctx).value, ctx);
    }
  }

  predicate Listable(value: Json)
  {
    value.Null? || (value.Arr? && forall i | 0 <= i < |value.items| :: value.items[i].Obj?)
  }

  lemma {:induction false} FromListable(items: seq<Json>, index: nat, section: Section, ctx: Context)
    requires index <= |items|
    ensures DispatchFrom(items, index, section, ctx).Ok? <==> forall i | index <= i < |items| :: items[i].Obj?
    decreases |items| - index
  {
    hide Public;
    if index < |items| { FromListable(items, index + 1, section, ctx); }
  }

  lemma ValueListable(value: Json, section: Section, ctx: Context)
    ensures SectionDispatchItems(value, section, ctx).Ok? <==> Listable(value)
  {
    if value.Arr? { FromListable(value.items, 0, section, ctx); }
  }

  // The items can be listed exactly when every section is missing or an array of objects.
  lemma {:induction false} ListsExactly(overlays: seq<Dict>, ctx: Context)
    ensures DispatchItems(overlays, ctx).Ok?
       <==> forall i | 0 <= i < |overlays| ::
              Listable(Get(overlays[i], SIGNALS)) && Listable(Get(overlays[i], CONTRACTS))
  {
    hide SectionDispatchItems, Listable;
    if overlays != [] {
      ValueListable(Get(overlays[0], SIGNALS), Signal, ctx);
      ValueListable(Get(overlays[0], CONTRACTS), Contract, ctx);
      ListsExactly(overlays[1..], ctx);
      assert forall i | 1 <= i < |overlays| :: overlays[i] == overlays[1..][i - 1];
      assert forall i | 0 <= i < |overlays[1..]| :: overlays[1..][i] == overlays[i + 1];
    }
  }

  // ---- the report ------------------------------------------------------------------------------------

  predicate IsOverdue(d: DispatchItem, ctx: Context)
  {
    d.due.Some? && ctx.overdue(d.due.value) == Some(true)
  }

  predicate IsPending(d: DispatchItem, ctx: Context)
  {
    d.due.Some? && ctx.overdue(d.due.value) == Some(false)
  }

  // At or before, by due date, then section name, then county.
  predicate Before(a: DispatchItem, b: DispatchItem)
  {
    a.due.Some? && b.due.Some? && StrLe(a.due.value, b.due.value)
    && (a.due == b.due ==>
          (a.section == Signal && b.section == Contract) || (a.section == b.section && StrLe(a.county, b.county)))
  }

  predicate SamePlace(a: DispatchItem, b: DispatchItem)
  {
    a.due == b.due && a.section == b.section && a.county == b.county
  }

  // The items that stand in the same place of the order as d, as they come.
  function Peers(items: seq<DispatchItem>, d: DispatchItem): seq<DispatchItem>
  {
    Filter(items, (e: DispatchItem) => SamePlace(e, d))
  }

  // The next due date is one of the due dates, and none is before it.
  ghost predicate NextDue(items: seq<DispatchItem>, next: Option<string>)
  {
    if exists d :: d in items && d.due.Some?
    then
      && next.Some? && (exists d :: d in items && d.due == next)
      && forall d | d in items && d.due.Some? :: StrLe(next.value, d.due.value)
    else next.None?
  }

  ghost predicate ReportHolds(items: seq<DispatchItem>, r: Report, ctx: Context)
  {
    && r.dispatched == |items|
    && r.missing == |Filter(items, (d: DispatchItem) => d.due.None?)|
    && r.pending == |Filter(items, (d: DispatchItem) => IsPending(d, ctx))|
    && r.overdue == |r.overdueItems| && r.scheduled == r.pending + r.overdue
    && NextDue(items, r.nextDue)
    && (forall d :: multiset(r.overdueItems)[d] == if IsOverdue(d, ctx) then multiset(items)[d] else 0)
    && (forall i, j | 0 <= i < j < |r.overdueItems| :: Before(r.overdueItems[i], r.overdueItems[j]))
    && forall d | IsOverdue(d, ctx) :: Peers(r.overdueItems, d) == Peers(items, d)
  }

  lemma {:induction false} BadDueExactly(items: seq<DispatchItem>, ctx: Context)
    ensures BadDue(items, ctx).None? <==> forall d | d in items && d.due.Some? :: ctx.overdue(d.due.value).Some?
    ensures BadDue(items, ctx).Some? ==> exists i ::
              && 0 <= i < |items| && Unreadable(items[i], ctx) && items[i].section == BadDue(items, ctx).value
              && forall j | 0 <= j < i :: !Unreadable(items[j], ctx)
  {
    if items != [] {
      BadDueExactly(items[1..], ctx);
      assert items == [items[0]] + items[1..];
      if Unreadable(items[0], ctx) {
        assert items[0] in items;
      } else if BadDue(items[1..], ctx).Some? {
        var i :| 0 <= i < |items[1..]| && Unreadable(items[1..][i], ctx)
              && items[1..][i].section == BadDue(items[1..], ctx).value
              && forall j | 0 <= j < i :: !Unreadable(items[1..][j], ctx);
        assert items[i + 1] == items[1..][i];
        forall j | 0 <= j < i + 1 ensures !Unreadable(items[j], ctx) {
          if j > 0 { assert items[j] == items[1..][j - 1]; }
        }
      }
    }
  }

  predicate Unreadable(d: DispatchItem, ctx: Context)
  {
    d.due.Some? && ctx.overdue(d.due.value).None?
  }

  lemma OverdueIs(items: seq<DispatchItem>, ctx: Context)
    ensures Overdue(items, ctx) == Filter(items, (d: DispatchItem) => IsOverdue(d, ctx))
  {
    FilterTwice(items, (i: DispatchItem) => i.due.Some?,
                (i: DispatchItem) => i.due.Some? && ctx.overdue(i.due.value) == Some(true),
                (d: DispatchItem) => IsOverdue(d, ctx));
  }

  lemma {:induction false} Counted(items: seq<DispatchItem>, ctx: Context)
    requires forall d | d in items && d.due.Some? :: ctx.overdue(d.due.value).Some?
    ensures |items| == |Scheduled(items)| + |Filter(items, (d: DispatchItem) => d.due.None?)|
    ensures |Scheduled(items)| == |Filter(items, (d: DispatchItem) => IsPending(d, ctx))|
                                  + |Filter(items, (d: DispatchItem) => IsOverdue(d, ctx))|
  {
    if items != [] {
      assert items[0] in items && forall d | d in items[1..] :: d in items;
      Counted(items[1..], ctx);
      if items[0].due.Some? {
        var late := ctx.overdue(items[0].due.value);
        if late.value { assert late == Some(true); } else { assert late == Some(false); }
        assert IsPending(items[0], ctx) != IsOverdue(items[0], ctx);
      }
      assert items[0].due.None? ==> !IsPending(items[0], ctx) && !IsOverdue(items[0], ctx);
    }
  }

  lemma NextDueIs(items: seq<DispatchItem>)
    ensures NextDue(items, Extreme(Dues(items), true))
  {
    var xs := Dues(items);
    ExtremeOf(xs, true);
    FilterMember(items, (i: DispatchItem) => i.due.Some?);
    var scheduled := Scheduled(items);
    forall x ensures x in xs <==> exists d :: d in items && d.due == Some(x) {
      if x in xs {
        var i :| 0 <= i < |xs| && xs[i] == x;
        assert scheduled[i] in scheduled;
      }
      if d: DispatchItem :| d in items && d.due == Some(x) {
        assert d in scheduled;
        var i :| 0 <= i < |scheduled| && scheduled[i] == d;
        assert xs[i] == x;
      }
    }
    hide StrLe, Dues, Extreme;
    if xs != [] { assert xs[0] in xs; }
    if d: DispatchItem :| d in items && d.due.Some? { assert d.due.value in xs; }
  }

  lemma NamesInOrder()
    ensures SectionName(Signal) != SectionName(Contract)
    ensures StrLe(SectionName(Signal), SectionName(Contract)) && !StrLe(SectionName(Contract), SectionName(Signal))
  {
    var a, b := SectionName(Signal), SectionName(Contract);
    assert a[0] == 's' && b[0] == 's' && a[1..][0] == 'i' && b[1..][0] == 'o';
  }

  lemma KeyBefore(a: DispatchItem, b: DispatchItem)
    requires a.due.Some? && b.due.Some? && KeyLe(SortKey(a), SortKey(b))
    ensures Before(a, b)
  {
    NamesInOrder();
    hide StrLe, SectionName;
    var k, l := SortKey(a), SortKey(b);
    assert k[1..] == [SectionName(a.section), a.county] && l[1..] == [SectionName(b.section), b.county];
    assert k[1..][1..] == [a.county] && l[1..][1..] == [b.county];
    assert k[0] == a.due.value && l[0] == b.due.value && StrLe(k[0], l[0]);
    if a.due == b.due {
      assert KeyLe(k[1..], l[1..]);
      assert StrLe(SectionName(a.section), SectionName(b.section));
      if a.section == b.section { assert KeyLe([a.county], [b.county]); }
    }
  }

  // Items in the same place are those with the same key.
  lemma {:induction false} PeersAreKeyed(items: seq<DispatchItem>, d: DispatchItem)
    requires d.due.Some? && forall e | e in items :: e.due.Some?
    ensures WithKey(items, SortKey, SortKey(d)) == Peers(items, d)
  {
    hide SectionName;
    if items != [] {
      assert items[0] in items && forall e | e in items[1..] :: e in items;
      PeersAreKeyed(items[1..], d);
      SameKey(items[0], d);
    }
  }

  lemma SameKey(a: DispatchItem, b: DispatchItem)
    requires a.due.Some? && b.due.Some?
    ensures SortKey(a) == SortKey(b) <==> SamePlace(a, b)
  {
    NamesInOrder();
    hide SectionName, StrLe;
    if SortKey(a) == SortKey(b) {
      assert SortKey(a)[0] == SortKey(b)[0] && SortKey(a)[1] == SortKey(b)[1] && SortKey(a)[2] == SortKey(b)[2];
    }
  }

  lemma OverdueDue(items: seq<DispatchItem>, ctx: Context)
    ensures forall d | d in Filter(items, (d: DispatchItem) => IsOverdue(d, ctx)) :: d.due.Some?
  {
    FilterMember(items, (d: DispatchItem) => IsOverdue(d, ctx));
  }

  lemma OverduePeers(items: seq<DispatchItem>, d: DispatchItem, ctx: Context)
    requires IsOverdue(d, ctx)
    ensures Peers(Sort(Overdue(items, ctx), SortKey), d) == Peers(items, d)
  {
    var overdue := Overdue(items, ctx);
    var late, same := (d: DispatchItem) => IsOverdue(d, ctx), (e: DispatchItem) => SamePlace(e, d);
    OverdueIs(items, ctx);
    OverdueDue(items, ctx);
    SortedDue(overdue);
    PeersAreKeyed(Sort(overdue, SortKey), d);
    PeersAreKeyed(overdue, d);
    SortStable(overdue, SortKey, SortKey(d));
    FilterTwice(items, late, same, same);
  }

  lemma SortedDue(items: seq<DispatchItem>)
    requires forall d | d in items :: d.due.Some?
    ensures forall d | d in Sort(items, SortKey) :: d.due.Some?
  {
    SortSorted(items, SortKey);
    forall d | d in Sort(items, SortKey) ensures d.due.Some? { assert d in multiset(items); }
  }

  lemma SortedBefore(items: seq<DispatchItem>)
    requires forall d | d in items :: d.due.Some?
    ensures var list := Sort(items, SortKey); forall i, j | 0 <= i < j < |list| :: Before(list[i], list[j])
  {
    var list := Sort(items, SortKey);
    SortSorted(items, SortKey);
    SortedDue(items);
    hide Sort, Before, SortKey;
    forall i, j | 0 <= i < j < |list| ensures Before(list[i], list[j]) {
      assert list[i] in list && list[j] in list;
      KeyBefore(list[i], list[j]);
    }
  }

  lemma OverdueSorted(items: seq<DispatchItem>, ctx: Context)
    ensures var list := Sort(Overdue(items, ctx), SortKey);
            && |list| == |Overdue(items, ctx)|
            && (forall d :: multiset(list)[d] == if IsOverdue(d, ctx) then multiset(items)[d] else 0)
            && (forall i, j | 0 <= i < j < |list| :: Before(list[i], list[j]))
            && forall d | IsOverdue(d, ctx) :: Peers(list, d) == Peers(items, d)
  {
    OverdueIs(items, ctx);
    OverdueDue(items, ctx);
    FilterOften(items, (d: DispatchItem) => IsOverdue(d, ctx));
    hide Sort, Before, Peers, SortKey, Filter, Overdue, IsOverdue;
    var overdue := Overdue(items, ctx);
    var list := Sort(overdue, SortKey);
    SortSorted(overdue, SortKey);
    assert |list| == |multiset(list)| == |multiset(overdue)| == |overdue|;
    SortedBefore(overdue);
    forall d | IsOverdue(d, ctx) ensures Peers(list, d) == Peers(items, d) { OverduePeers(items, d, ctx); }
  }

  // What an Ok report says of the dispatch items.
  lemma ReportIs(items: seq<DispatchItem>, ctx: Context)
    ensures ReportOf(items, ctx).Ok? <==> AllReadable(items, ctx)
    ensures ReportOf(items, ctx).Ok? ==> ReportHolds(items, ReportOf(items, ctx).value, ctx)
  {
    BadDueExactly(items, ctx);
    if ReportOf(items, ctx).Ok? {
      OverdueIs(items, ctx);
      Counted(items, ctx);
      NextDueIs(items);
      OverdueSorted(items, ctx);
      hide Sort, Extreme, Filter, NextDue, Peers, Before, BadDue, IsPending;
    }
  }

  // There is a report exactly when the items can be listed and every due date can be read; it is
  // about one dispatch item for every dispatched raw entry, in overlay order.
  lemma FollowupReportHolds(overlays: seq<Dict>, ctx: Context)
    ensures FollowupReport(overlays, ctx).Ok?
       <==> && (forall i | 0 <= i < |overlays| ::
                  Listable(Get(overlays[i], SIGNALS)) && Listable(Get(overlays[i], CONTRACTS)))
            && exists items :: ListedInOrder(Tagged(overlays), items, ctx) && AllReadable(items, ctx)
    ensures FollowupReport(overlays, ctx).Ok? ==>
              exists items :: ListedInOrder(Tagged(overlays), items, ctx)
                              && ReportHolds(items, FollowupReport(overlays, ctx).value, ctx)
  {
    ListsExactly(overlays, ctx);
    if DispatchItems(overlays, ctx).Ok? {
      var items := DispatchItems(overlays, ctx).value;
      ItemsListed(overlays, ctx);
      ReportIs(items, ctx);
      hide Listable, ListedInOrder, ReportHolds, ReportOf, Tagged, DispatchItems;
      forall other | ListedInOrder(Tagged(overlays), other, ctx) ensures other == items {
        ListedOnce(Tagged(overlays), items, other, ctx);
      }
    }
  }

  ghost predicate AllReadable(items: seq<DispatchItem>, ctx: Context)
  {
    forall d | d in items :: !Unreadable(d, ctx)
  }

  // The raw entries determine the dispatch items.
  lemma {:induction false} ListedOnce(raw: seq<(Section, Json)>, x: seq<DispatchItem>, y: seq<DispatchItem>, ctx: Context)
    requires ListedInOrder(raw, x, ctx) && ListedInOrder(raw, y, ctx)
    ensures x == y
  {
    if raw != [] {
      if IsDispatched(raw[0].1) {
        ListedOnce(raw[1..], x[1..], y[1..], ctx);
        assert x == [x[0]] + x[1..] && y == [y[0]] + y[1..];
      } else {
        ListedOnce(raw[1..], x, y, ctx);
      }
    }
  }
}
