/**
 * The sanitised overlay yields the same report, and sanitising it again changes nothing
 * (scripts/local-source-request-followups.py).
 */
module FollowupsProof {
  import opened Json
  import opened Lists
  import opened Sorting
  import opened Text
  import opened Followups

  // ---- one section -----------------------------------------------------------------------------

  predicate AllObjects(items: seq<Json>)
  {
    forall i | i in items :: i.Obj?
  }

  // The dispatch items of a list of objects.
  function Dispatches(items: seq<Json>, section: Section, ctx: Context): seq<DispatchItem>
    requires AllObjects(items)
  {
    if items == [] then []
    else if Get(items[0].fields, "status") == Str(DISPATCHED) then
      [Public(items[0].fields, section, ctx)] + Dispatches(items[1..], section, ctx)
    else Dispatches(items[1..], section, ctx)
  }

  lemma {:induction false} DispatchesAppend(a: seq<Json>, b: seq<Json>, section: Section, ctx: Context)
    requires AllObjects(a) && AllObjects(b)
    ensures AllObjects(a + b)
    ensures Dispatches(a + b, section, ctx) == Dispatches(a, section, ctx) + Dispatches(b, section, ctx)
  {
    hide Public, Get;
    if a == [] {
      assert a + b == b;
    } else {
      DispatchesAppend(a[1..], b, section, ctx);
      assert (a + b)[0] == a[0] && (a + b)[1..] == a[1..] + b;
    }
  }

  lemma {:induction false} DispatchesSection(items: seq<Json>, section: Section, ctx: Context)
    requires AllObjects(items)
    ensures forall d | d in Dispatches(items, section, ctx) :: d.section == section
  {
    if items != [] { DispatchesSection(items[1..], section, ctx); }
  }

  lemma {:induction false} DispatchOk(items: seq<Json>, index: nat, section: Section, ctx: Context)
    requires index <= |items| && AllObjects(items[index..])
    ensures DispatchFrom(items, index, section, ctx) == Ok(Dispatches(items[index..], section, ctx))
    decreases |items| - index
  {
    if index < |items| {
      assert items[index..][0] == items[index] && items[index..][1..] == items[index + 1..];
      assert items[index] in items[index..];
      forall i | i in items[index + 1..] ensures i.Obj? { assert i in items[index..]; }
      DispatchOk(items, index + 1, section, ctx);
    }
  }

  // The texts of a written dictionary read back as they were given.
  lemma ShapeTexts(section: Section, county: string, kind: string, status: string,
                   dispatched: Option<string>, due: Option<string>, reviewed: Option<string>, ctx: Context)
    ensures var out := Shape(section, county, kind, status, dispatched, due, reviewed);
            && Get(out, "county") == Str(county) && ctx.TextOf(out, "county") == county
            && Get(out, KindField(section)) == Str(kind) && ctx.TextOf(out, KindField(section)) == kind
            && Get(out, "status") == Str(status)
            && Get(out, "evidence_ref") == Str(REDACTED)
            && StringField(out, "dispatched_at") == dispatched
            && StringField(out, "follow_up_due_at") == due
            && (reviewed.Some? ==>
                  Get(out, "reviewed_at") == Str(reviewed.value) && ctx.TextOf(out, "reviewed_at") == reviewed.value)
  {
    hide *;
    ShapeFields(section, county, kind, status, dispatched, due, reviewed);
    ShapeDates(section, county, kind, status, dispatched, due, reviewed);
    var out := Shape(section, county, kind, status, dispatched, due, reviewed);
    StrText(out, "county", ctx);
    StrText(out, KindField(section), ctx);
    StrText(out, "reviewed_at", ctx);
  }

  lemma StrText(item: Dict, field: string, ctx: Context)
    ensures Get(item, field).Str? ==> ctx.TextOf(item, field) == Get(item, field).text
  {
  }

  predicate NotADate(f: string)
  {
    f != "dispatched_at" && f != "follow_up_due_at" && f != "reviewed_at"
  }

  // A field that is none of the dates is kept.
  lemma DatesKeep(base: Dict, dispatched: Option<string>, due: Option<string>, reviewed: Option<string>, f: string)
    requires NotADate(f)
    ensures Get(WithText(WithText(WithText(base, "dispatched_at", dispatched), "follow_up_due_at", due), "reviewed_at", reviewed), f)
         == Get(base, f)
  {
    WithTextOnly(base, "dispatched_at", dispatched);
    var one := WithText(base, "dispatched_at", dispatched);
    WithTextOnly(one, "follow_up_due_at", due);
    WithTextOnly(WithText(one, "follow_up_due_at", due), "reviewed_at", reviewed);
    hide WithText, Get;
  }

  lemma ShapeFields(section: Section, county: string, kind: string, status: string,
                    dispatched: Option<string>, due: Option<string>, reviewed: Option<string>)
    ensures var out := Shape(section, county, kind, status, dispatched, due, reviewed);
            && Get(out, "county") == Str(county) && Get(out, KindField(section)) == Str(kind)
            && Get(out, "status") == Str(status) && Get(out, "evidence_ref") == Str(REDACTED)
  {
    hide WithText, Get;
    var base: Dict := map[
      "county" := Str(county), "status" := Str(status), "evidence_ref" := Str(REDACTED), KindField(section) := Str(kind)];
    BaseTexts(section, county, kind, status);
    NotDates(section);
    DatesKeep(base, dispatched, due, reviewed, "county");
    DatesKeep(base, dispatched, due, reviewed, "status");
    DatesKeep(base, dispatched, due, reviewed, "evidence_ref");
    DatesKeep(base, dispatched, due, reviewed, KindField(section));
  }

  lemma NotDates(section: Section)
    ensures NotADate("county") && NotADate("status") && NotADate("evidence_ref") && NotADate(KindField(section))
  {
    assert |"county"| == 6 && |"status"| == 6 && |"evidence_ref"| == 12 && |"reviewed_at"| == 11;
    assert |"dispatched_at"| == 13 && |"follow_up_due_at"| == 16;
    match section
    case Signal => assert |KindField(section)| == 11 && KindField(section)[0] == 's' && "reviewed_at"[0] == 'r';
    case Contract => assert |KindField(section)| == 4;
  }

  lemma ShapeDates(section: Section, county: string, kind: string, status: string,
                   dispatched: Option<string>, due: Option<string>, reviewed: Option<string>)
    ensures var out := Shape(section, county, kind, status, dispatched, due, reviewed);
            && StringField(out, "dispatched_at") == dispatched && StringField(out, "follow_up_due_at") == due
            && (reviewed.Some? ==> Get(out, "reviewed_at") == Str(reviewed.value))
  {
    hide WithText;
    var base: Dict := map[
      "county" := Str(county), "status" := Str(status), "evidence_ref" := Str(REDACTED), KindField(section) := Str(kind)];
    BaseTexts(section, county, kind, status);
    WithTextOnly(base, "dispatched_at", dispatched);
    WithTextOnly(WithText(base, "dispatched_at", dispatched), "follow_up_due_at", due);
    WithTextOnly(WithText(WithText(base, "dispatched_at", dispatched), "follow_up_due_at", due), "reviewed_at", reviewed);
  }

  lemma BaseTexts(section: Section, county: string, kind: string, status: string)
    ensures var base: Dict := map[
              "county" := Str(county), "status" := Str(status), "evidence_ref" := Str(REDACTED), KindField(section) := Str(kind)];
            && Get(base, "county") == Str(county) && Get(base, "status") == Str(status)
            && Get(base, "evidence_ref") == Str(REDACTED) && Get(base, KindField(section)) == Str(kind)
            && "dispatched_at" !in base && "follow_up_due_at" !in base && "reviewed_at" !in base
    ensures KindField(section) !in {"county", "status", "evidence_ref", "dispatched_at", "follow_up_due_at", "reviewed_at"}
  {
    match section
    case Signal =>
    case Contract =>
  }

  lemma WithTextOnly(item: Dict, field: string, text: Option<string>)
    ensures forall f | f != field :: (f in WithText(item, field, text) <==> f in item)
                                  && Get(WithText(item, field, text), f) == Get(item, f)
    ensures text.Some? ==> Get(WithText(item, field, text), field) == Str(text.value)
    ensures text.None? ==> WithText(item, field, text) == item
  {
  }

  lemma TextsKept(item: Dict, status: string, section: Section, ctx: Context)
    ensures var out := Sanitised(item, status, section, ctx);
            && Get(out, "county") == Str(ctx.TextOf(item, "county"))
            && Get(out, KindField(section)) == Str(ctx.TextOf(item, KindField(section)))
            && Get(out, "status") == Str(status)
            && Get(out, "evidence_ref") == Str(REDACTED)
            && (status == DISPATCHED ==> Public(out, section, ctx) == Public(item, section, ctx))
            && (status != DISPATCHED ==> Get(out, "reviewed_at") == Str(Strip(ctx.TextOf(item, "reviewed_at"))))
  {
    hide Shape, Strip;
    var county, kind := ctx.TextOf(item, "county"), ctx.TextOf(item, KindField(section));
    var reviewed := Strip(ctx.TextOf(item, "reviewed_at"));
    ShapeTexts(section, county, kind, status,
      StringField(item, "dispatched_at"), StringField(item, "follow_up_due_at"), None, ctx);
    ShapeTexts(section, county, kind, status, None, None, Some(reviewed), ctx);
  }

  lemma {:induction false} SanitisedDispatches(items: seq<Json>, index: nat, section: Section, ctx: Context)
    requires index <= |items| && SanitisedFrom(items, index, section, ctx).Ok?
    ensures AllObjects(items[index..]) && AllObjects(SanitisedFrom(items, index, section, ctx).value)
    ensures Dispatches(SanitisedFrom(items, index, section, ctx).value, section, ctx)
         == Dispatches(items[index..], section, ctx)
    decreases |items| - index
  {
    hide Sanitised, Public, CheckAccepted;
    if index < |items| {
      var item, rest := items[index].fields, items[index + 1..];
      SanitisedDispatches(items, index + 1, section, ctx);
      assert items[index..] == [Obj(item)] + rest;
      var status := KeptStatus(item, section, ctx);
      if status.Some? {
        TextsKept(item, status.value, section, ctx);
        var tail := SanitisedFrom(items, index + 1, section, ctx).value;
        assert ([Obj(Sanitised(item, status.value, section, ctx))] + tail)[1..] == tail;
      }
    }
  }

  lemma SectionSame(value: Json, section: Section, ctx: Context)
    requires SanitisedSection(value, section, ctx).Ok?
    ensures var out := SanitisedSection(value, section, ctx).value;
            && AllObjects(out)
            && SectionDispatchItems(value, section, ctx) == Ok(Dispatches(out, section, ctx))
            && SectionDispatchItems(Arr(out), section, ctx) == Ok(Dispatches(out, section, ctx))
  {
    var out := SanitisedSection(value, section, ctx).value;
    if value.Arr? {
      SanitisedDispatches(value.items, 0, section, ctx);
      assert value.items[0..] == value.items;
      DispatchOk(value.items, 0, section, ctx);
    }
    assert out[0..] == out;
    DispatchOk(out, 0, section, ctx);
  }

  // ---- all overlays ----------------------------------------------------------------------------

  function InSection(items: seq<DispatchItem>, section: Section): seq<DispatchItem>
  {
    Filter(items, (d: DispatchItem) => d.section == section)
  }

  lemma InSectionTagged(items: seq<DispatchItem>, section: Section, of: Section)
    requires forall d | d in items :: d.section == section
    ensures InSection(items, of) == if of == section then items else []
  {
    if of == section {
      FilterAll(items, (d: DispatchItem) => d.section == of);
    } else {
      FilterNone(items, (d: DispatchItem) => d.section == of);
    }
  }

  lemma InSectionAppend(a: seq<DispatchItem>, b: seq<DispatchItem>, section: Section)
    ensures InSection(a + b, section) == InSection(a, section) + InSection(b, section)
  {
    FilterAppend(a, b, (d: DispatchItem) => d.section == section);
  }

  lemma {:induction false} OverlaysDispatch(overlays: seq<Dict>, ctx: Context)
    requires SanitisedSections(overlays, ctx).Ok?
    ensures var all := SanitisedSections(overlays, ctx).value;
            && AllObjects(all.signals) && AllObjects(all.contracts)
            && DispatchItems(overlays, ctx).Ok?
            && InSection(DispatchItems(overlays, ctx).value, Signal) == Dispatches(all.signals, Signal, ctx)
            && InSection(DispatchItems(overlays, ctx).value, Contract) == Dispatches(all.contracts, Contract, ctx)
  {
    hide SanitisedSection, SectionDispatchItems, SectionValue, Dispatches, InSection;
    if overlays == [] {
      EmptySections(ctx);
    } else {
      var sv, cv := SectionValue(overlays[0], Signal), SectionValue(overlays[0], Contract);
      SectionSame(sv, Signal, ctx);
      SectionSame(cv, Contract, ctx);
      OverlaysDispatch(overlays[1..], ctx);
      var s, c := SanitisedSection(sv, Signal, ctx).value, SanitisedSection(cv, Contract, ctx).value;
      var rest := SanitisedSections(overlays[1..], ctx).value;
      DispatchesAppend(s, rest.signals, Signal, ctx);
      DispatchesAppend(c, rest.contracts, Contract, ctx);
      DispatchesSection(s, Signal, ctx);
      DispatchesSection(c, Contract, ctx);
      var ds, dc, dr := Dispatches(s, Signal, ctx), Dispatches(c, Contract, ctx), DispatchItems(overlays[1..], ctx).value;
      forall of: Section
        ensures InSection(ds + dc + dr, of) == (if of == Signal then ds else dc) + InSection(dr, of)
      {
        InSectionAppend(ds + dc, dr, of);
        InSectionAppend(ds, dc, of);
        InSectionTagged(ds, Signal, of);
        InSectionTagged(dc, Contract, of);
      }
    }
  }

  lemma EmptySections(ctx: Context)
    ensures InSection([], Signal) == [] == InSection([], Contract)
    ensures Dispatches([], Signal, ctx) == [] == Dispatches([], Contract, ctx)
  {
  }

  // The sanitised overlay lists the same dispatch items, grouped by section.
  lemma OverlayDispatch(overlays: seq<Dict>, ctx: Context)
    requires SanitisedOverlay(overlays, ctx).Ok?
    ensures DispatchItems(overlays, ctx).Ok?
    ensures var items := DispatchItems(overlays, ctx).value;
            DispatchItems([SanitisedOverlay(overlays, ctx).value], ctx)
            == Ok(InSection(items, Signal) + InSection(items, Contract))
  {
    hide SanitisedSections, SectionDispatchItems, Dispatches, InSection, Extreme;
    OverlaysDispatch(overlays, ctx);
    var all := SanitisedSections(overlays, ctx).value;
    var overlay := SanitisedOverlay(overlays, ctx).value;
    ArrayDispatch(all.signals, Signal, ctx);
    ArrayDispatch(all.contracts, Contract, ctx);
    assert SectionValue(overlay, Signal) == Arr(all.signals);
    assert SectionValue(overlay, Contract) == Arr(all.contracts);
    assert [overlay][1..] == [];
    var ds, dc := Dispatches(all.signals, Signal, ctx), Dispatches(all.contracts, Contract, ctx);
    assert ds + dc + [] == ds + dc;
  }

  lemma ArrayDispatch(items: seq<Json>, section: Section, ctx: Context)
    requires AllObjects(items)
    ensures SectionDispatchItems(Arr(items), section, ctx) == Ok(Dispatches(items, section, ctx))
  {
    assert items[0..] == items;
    DispatchOk(items, 0, section, ctx);
  }

  // ---- the report does not depend on the grouping ------------------------------------------------

  ghost predicate SameSections(xs: seq<DispatchItem>, ys: seq<DispatchItem>)
  {
    forall s: Section :: InSection(xs, s) == InSection(ys, s)
  }

  lemma SameFiltered(xs: seq<DispatchItem>, ys: seq<DispatchItem>, p: DispatchItem -> bool)
    requires SameSections(xs, ys)
    ensures SameSections(Filter(xs, p), Filter(ys, p))
  {
    forall s: Section ensures InSection(Filter(xs, p), s) == InSection(Filter(ys, p), s) {
      var of := (d: DispatchItem) => d.section == s;
      FilterCommute(xs, p, of);
      FilterCommute(ys, p, of);
      assert InSection(xs, s) == Filter(xs, of) && InSection(ys, s) == Filter(ys, of);
    }
  }

  lemma {:induction false} SectionLengths(xs: seq<DispatchItem>)
    ensures |xs| == |InSection(xs, Signal)| + |InSection(xs, Contract)|
  {
    if xs != [] { SectionLengths(xs[1..]); }
  }

  lemma SameMembers(xs: seq<DispatchItem>, ys: seq<DispatchItem>)
    requires SameSections(xs, ys)
    ensures |xs| == |ys| && forall d :: d in xs <==> d in ys
  {
    SectionLengths(xs);
    SectionLengths(ys);
    forall d ensures d in xs <==> d in ys {
      var of := (e: DispatchItem) => e.section == d.section;
      FilterMember(xs, of);
      FilterMember(ys, of);
      assert InSection(xs, d.section) == InSection(ys, d.section);
      assert d in xs <==> d in InSection(xs, d.section);
      assert d in ys <==> d in InSection(ys, d.section);
    }
  }

  // A sort key names its section, so the items with one key all lie in one section.
  lemma {:induction false} KeyInSection(xs: seq<DispatchItem>, s: Section, k: Key)
    requires |k| == 3 && k[1] == SectionName(s)
    ensures WithKey(xs, SortKey, k) == WithKey(InSection(xs, s), SortKey, k)
  {
    if xs != [] {
      KeyInSection(xs[1..], s, k);
      if xs[0].section == s {
        var rest := InSection(xs[1..], s);
        assert InSection(xs, s) == [xs[0]] + rest;
        assert ([xs[0]] + rest)[1..] == rest;
      } else {
        NamesDiffer(xs[0].section, s);
      }
    }
  }

  lemma NamesDiffer(a: Section, b: Section)
    requires a != b
    ensures SectionName(a) != SectionName(b)
  {
    assert SectionName(Signal)[1] == 'i' && SectionName(Contract)[1] == 'o';
  }

  lemma {:induction false} NoSuchKey(xs: seq<DispatchItem>, k: Key)
    requires |k| != 3 || forall s: Section :: k[1] != SectionName(s)
    ensures WithKey(xs, SortKey, k) == []
  {
    if xs != [] { NoSuchKey(xs[1..], k); }
  }

  lemma SameSorted(xs: seq<DispatchItem>, ys: seq<DispatchItem>)
    requires SameSections(xs, ys)
    ensures Sort(xs, SortKey) == Sort(ys, SortKey)
  {
    forall k ensures WithKey(xs, SortKey, k) == WithKey(ys, SortKey, k) {
      if |k| == 3 && (exists s: Section :: k[1] == SectionName(s)) {
        var s: Section :| k[1] == SectionName(s);
        KeyInSection(xs, s, k);
        KeyInSection(ys, s, k);
      } else {
        NoSuchKey(xs, k);
        NoSuchKey(ys, k);
      }
    }
    SortDetermined(xs, ys, SortKey);
  }

  lemma {:induction false} BadDueMember(xs: seq<DispatchItem>, ctx: Context)
    ensures BadDue(xs, ctx).Some? <==> exists d :: d in xs && d.due.Some? && ctx.overdue(d.due.value).None?
  {
    if xs != [] {
      BadDueMember(xs[1..], ctx);
      assert forall d :: d in xs <==> d == xs[0] || d in xs[1..];
    }
  }

  // The least (or greatest) element of a list depends only on its members.
  lemma {:induction false} ExtremeOf(xs: seq<string>, least: bool)
    ensures Extreme(xs, least).Some? <==> xs != []
    ensures xs != [] ==> Extreme(xs, least).value in xs
    ensures xs != [] ==> forall x | x in xs ::
              if least then StrLe(Extreme(xs, least).value, x) else StrLe(x, Extreme(xs, least).value)
  {
    if xs != [] {
      var x, rest := xs[0], xs[1..];
      ExtremeOf(rest, least);
      StrLeReflexive(x);
      assert forall y :: y in xs <==> y == x || y in rest;
      if rest != [] {
        var y := Extreme(rest, least).value;
        StrLeTotal(x, y);
        StrLeReflexive(y);
        forall z | z in rest
          ensures if least then StrLe(Extreme(xs, least).value, z) else StrLe(z, Extreme(xs, least).value)
        {
          if least && StrLe(x, y) { StrLeTransitive(x, y, z); }
          if !least && !StrLe(x, y) { StrLeTransitive(z, y, x); }
        }
      }
    }
  }

  lemma ExtremeSame(xs: seq<string>, ys: seq<string>, least: bool)
    requires forall s :: s in xs <==> s in ys
    ensures Extreme(xs, least) == Extreme(ys, least)
  {
    ExtremeOf(xs, least);
    ExtremeOf(ys, least);
    forall i | 0 <= i < |ys| ensures ys[i] in xs {}
    if xs != [] {
      assert xs[0] in ys;
      StrLeAntisymmetric(Extreme(xs, least).value, Extreme(ys, least).value);
    }
  }

  lemma SameDues(xs: seq<DispatchItem>, ys: seq<DispatchItem>)
    requires forall d :: d in Scheduled(xs) <==> d in Scheduled(ys)
    ensures forall s :: s in Dues(xs) ==> s in Dues(ys)
  {
    forall s | s in Dues(xs) ensures s in Dues(ys) {
      var i :| 0 <= i < |Dues(xs)| && Dues(xs)[i] == s;
      var d := Scheduled(xs)[i];
      assert d in Scheduled(ys);
      var j :| 0 <= j < |Scheduled(ys)| && Scheduled(ys)[j] == d;
      assert Dues(ys)[j] == s;
    }
  }

  lemma SameNextDue(xs: seq<DispatchItem>, ys: seq<DispatchItem>)
    requires SameSections(xs, ys)
    ensures |Scheduled(xs)| == |Scheduled(ys)| && SameSections(Scheduled(xs), Scheduled(ys))
    ensures Extreme(Dues(xs), true) == Extreme(Dues(ys), true)
  {
    SameFiltered(xs, ys, (i: DispatchItem) => i.due.Some?);
    SameMembers(Scheduled(xs), Scheduled(ys));
    SameDues(xs, ys);
    SameDues(ys, xs);
    ExtremeSame(Dues(xs), Dues(ys), true);
  }

  lemma SameOverdue(xs: seq<DispatchItem>, ys: seq<DispatchItem>, ctx: Context)
    requires SameSections(Scheduled(xs), Scheduled(ys))
    ensures |Overdue(xs, ctx)| == |Overdue(ys, ctx)|
    ensures Sort(Overdue(xs, ctx), SortKey) == Sort(Overdue(ys, ctx), SortKey)
  {
    SameFiltered(Scheduled(xs), Scheduled(ys),
      (i: DispatchItem) => i.due.Some? && ctx.overdue(i.due.value) == Some(true));
    SameMembers(Overdue(xs, ctx), Overdue(ys, ctx));
    SameSorted(Overdue(xs, ctx), Overdue(ys, ctx));
  }

  lemma SameReport(xs: seq<DispatchItem>, ys: seq<DispatchItem>, ctx: Context)
    requires SameSections(xs, ys)
    ensures ReportOf(xs, ctx).Ok? <==> ReportOf(ys, ctx).Ok?
    ensures ReportOf(xs, ctx).Ok? ==> ReportOf(xs, ctx) == ReportOf(ys, ctx)
  {
    hide Scheduled, Overdue, Dues, Sort, Extreme, BadDue, SameSections, SectionName;
    SameMembers(xs, ys);
    BadDueMember(xs, ctx);
    BadDueMember(ys, ctx);
    SameNextDue(xs, ys);
    SameOverdue(xs, ys, ctx);
  }

  lemma GroupedSame(items: seq<DispatchItem>)
    ensures SameSections(items, InSection(items, Signal) + InSection(items, Contract))
  {
    var signals, contracts := InSection(items, Signal), InSection(items, Contract);
    FilterMember(items, (d: DispatchItem) => d.section == Signal);
    FilterMember(items, (d: DispatchItem) => d.section == Contract);
    forall s: Section ensures InSection(items, s) == InSection(signals + contracts, s) {
      InSectionAppend(signals, contracts, s);
      InSectionTagged(signals, Signal, s);
      InSectionTagged(contracts, Contract, s);
    }
  }

  // The report from the sanitised overlay is the report from the raw overlays: every count, the
  // next due date and the exact order of the overdue items. When due dates cannot be parsed, both
  // fail.
  lemma SanitisedReport(overlays: seq<Dict>, ctx: Context)
    requires SanitisedOverlay(overlays, ctx).Ok?
    ensures var raw := FollowupReport(overlays, ctx);
            var sanitised := FollowupReport([SanitisedOverlay(overlays, ctx).value], ctx);
            (raw.Ok? <==> sanitised.Ok?) && (raw.Ok? ==> raw == sanitised)
  {
    hide SanitisedOverlay, DispatchItems, ReportOf, InSection;
    OverlayDispatch(overlays, ctx);
    var items := DispatchItems(overlays, ctx).value;
    GroupedSame(items);
    SameReport(items, InSection(items, Signal) + InSection(items, Contract), ctx);
  }

  // ---- sanitising twice --------------------------------------------------------------------------

  // An item that sanitising accepts and leaves as it is.
  ghost predicate Clean(j: Json, section: Section, ctx: Context)
  {
    && j.Obj?
    && KeptStatus(j.fields, section, ctx).Some?
    && var status := KeptStatus(j.fields, section, ctx).value;
    && Sanitised(j.fields, status, section, ctx) == j.fields
    && (status != DISPATCHED ==> forall i: nat :: CheckAccepted(j.fields, section, i, ctx).None?)
  }

  lemma RedactedPasses(ctx: Context)
    ensures !IsBlank(REDACTED)
    ensures !StartsWith(ctx.Upper(Strip(REDACTED)), PLACEHOLDER)
  {
    assert REDACTED[0] == "private-ops://"[0] == 'p';
    assert REDACTED[|REDACTED| - 1] == "-dispatch"[8] == 'h';
    StripEnds(REDACTED);
    assert ctx.Upper(REDACTED)[0] == 'P';
  }

  lemma CheckSame(item: Dict, out: Dict, field: string, section: Section, index: nat, i: nat, ctx: Context)
    requires CheckField(item, field, section, index, ctx).None?
    requires Get(out, field) == Str(ctx.TextOf(item, field))
          || Get(out, field) == Str(Strip(ctx.TextOf(item, field)))
    ensures CheckField(out, field, section, i, ctx).None?
  {
    hide Strip, StartsWith;
    StripTwice(item[field].text);
  }

  lemma SanitisedClean(item: Dict, status: string, section: Section, index: nat, ctx: Context)
    requires KeptStatus(item, section, ctx) == Some(status)
    requires status == DISPATCHED || CheckAccepted(item, section, index, ctx).None?
    ensures Clean(Obj(Sanitised(item, status, section, ctx)), section, ctx)
  {
    hide Sanitised, CheckAccepted, Strip;
    var out := Sanitised(item, status, section, ctx);
    TextsKept(item, status, section, ctx);
    if status != DISPATCHED {
      forall i: nat ensures CheckAccepted(out, section, i, ctx).None? {
        AcceptedAgain(item, out, section, index, i, ctx);
      }
    }
    FixedTexts(item, status, section, ctx);
  }

  lemma AcceptedAgain(item: Dict, out: Dict, section: Section, index: nat, i: nat, ctx: Context)
    requires CheckAccepted(item, section, index, ctx).None?
    requires Get(out, "county") == Str(ctx.TextOf(item, "county")) && Get(out, "evidence_ref") == Str(REDACTED)
    requires Get(out, KindField(section)) == Str(ctx.TextOf(item, KindField(section)))
    requires Get(out, "reviewed_at") == Str(Strip(ctx.TextOf(item, "reviewed_at")))
    ensures CheckAccepted(out, section, i, ctx).None?
  {
    hide CheckField, Strip;
    CheckSame(item, out, "county", section, index, i, ctx);
    CheckSame(item, out, "reviewed_at", section, index, i, ctx);
    CheckSame(item, out, KindField(section), section, index, i, ctx);
    RedactedField(out, section, i, ctx);
  }

  lemma RedactedField(out: Dict, section: Section, i: nat, ctx: Context)
    requires Get(out, "evidence_ref") == Str(REDACTED)
    ensures CheckField(out, "evidence_ref", section, i, ctx).None?
  {
    RedactedPasses(ctx);
  }

  lemma FixedTexts(item: Dict, status: string, section: Section, ctx: Context)
    ensures var out := Sanitised(item, status, section, ctx); Sanitised(out, status, section, ctx) == out
  {
    hide Shape, Strip;
    var county, kind := ctx.TextOf(item, "county"), ctx.TextOf(item, KindField(section));
    var reviewed := Strip(ctx.TextOf(item, "reviewed_at"));
    ShapeTexts(section, county, kind, status,
      StringField(item, "dispatched_at"), StringField(item, "follow_up_due_at"), None, ctx);
    ShapeTexts(section, county, kind, status, None, None, Some(reviewed), ctx);
    StripTwice(ctx.TextOf(item, "reviewed_at"));
  }

  lemma {:induction false} SanitisedAllClean(items: seq<Json>, index: nat, section: Section, ctx: Context)
    requires index <= |items| && SanitisedFrom(items, index, section, ctx).Ok?
    ensures forall j | j in SanitisedFrom(items, index, section, ctx).value :: Clean(j, section, ctx)
    decreases |items| - index
  {
    hide Sanitised, CheckAccepted, Clean, KeptStatus;
    if index < |items| {
      var item := items[index].fields;
      SanitisedAllClean(items, index + 1, section, ctx);
      var status := KeptStatus(item, section, ctx);
      if status.Some? {
        SanitisedClean(item, status.value, section, index, ctx);
        var out := Obj(Sanitised(item, status.value, section, ctx));
        var tail := SanitisedFrom(items, index + 1, section, ctx).value;
        assert forall j :: j in [out] + tail <==> j == out || j in tail;
      }
    }
  }

  lemma {:induction false} CleanFixed(items: seq<Json>, index: nat, section: Section, ctx: Context)
    requires index <= |items| && forall j | j in items :: Clean(j, section, ctx)
    ensures SanitisedFrom(items, index, section, ctx) == Ok(items[index..])
    decreases |items| - index
  {
    hide Sanitised, CheckAccepted, KeptStatus;
    if index < |items| {
      assert Clean(items[index], section, ctx);
      CleanFixed(items, index + 1, section, ctx);
      assert items[index..] == [items[index]] + items[index + 1..];
    } else {
      assert items[index..] == [];
    }
  }

  lemma {:induction false} SectionsClean(overlays: seq<Dict>, ctx: Context)
    requires SanitisedSections(overlays, ctx).Ok?
    ensures forall j | j in SanitisedSections(overlays, ctx).value.signals :: Clean(j, Signal, ctx)
    ensures forall j | j in SanitisedSections(overlays, ctx).value.contracts :: Clean(j, Contract, ctx)
  {
    hide Clean, SanitisedFrom;
    if overlays != [] {
      SectionsClean(overlays[1..], ctx);
      SectionClean(SectionValue(overlays[0], Signal), Signal, ctx);
      SectionClean(SectionValue(overlays[0], Contract), Contract, ctx);
    }
  }

  lemma SectionClean(value: Json, section: Section, ctx: Context)
    requires SanitisedSection(value, section, ctx).Ok?
    ensures forall j | j in SanitisedSection(value, section, ctx).value :: Clean(j, section, ctx)
  {
    hide Clean;
    if value.Arr? { SanitisedAllClean(value.items, 0, section, ctx); }
  }

  // Sanitising a sanitised overlay succeeds and changes nothing.
  lemma SanitisedTwice(overlays: seq<Dict>, ctx: Context)
    requires SanitisedOverlay(overlays, ctx).Ok?
    ensures SanitisedOverlay([SanitisedOverlay(overlays, ctx).value], ctx) == SanitisedOverlay(overlays, ctx)
  {
    hide Clean, SanitisedFrom, StrLe;
    SectionsClean(overlays, ctx);
    var all := SanitisedSections(overlays, ctx).value;
    var captured := Extreme(CapturedValues(overlays), false);
    var overlay := OverlayOf(all, captured);
    CleanFixed(all.signals, 0, Signal, ctx);
    CleanFixed(all.contracts, 0, Contract, ctx);
    OverlayFields(all, captured);
    assert all.signals[0..] == all.signals && all.contracts[0..] == all.contracts;
    assert [overlay][1..] == [];
    assert all.signals + [] == all.signals && all.contracts + [] == all.contracts;
    assert SanitisedSections([], ctx) == Ok(Sections([], []));
    OverlayCaptured(overlay, captured);
  }

  lemma OverlayFields(all: Sections, captured: Option<string>)
    ensures var overlay := OverlayOf(all, captured);
            && SectionValue(overlay, Signal) == Arr(all.signals)
            && SectionValue(overlay, Contract) == Arr(all.contracts)
            && Get(overlay, "captured_at") == if captured.Some? then Str(captured.value) else Null
  {
  }

  lemma OverlayCaptured(overlay: Dict, captured: Option<string>)
    requires Get(overlay, "captured_at") == if captured.Some? then Str(captured.value) else Null
    ensures Extreme(CapturedValues([overlay]), false) == captured
  {
    assert [overlay][1..] == [];
    if captured.Some? {
      assert CapturedValues([overlay]) == [captured.value];
      assert [captured.value][1..] == [];
    }
  }
}
