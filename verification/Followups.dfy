/**
 * The follow-up report and its sanitised overlay (scripts/local-source-request-followups.py).
 *
 * The report lists dispatch items overlay by overlay; the sanitised overlay lists all signal
 * items and then all contract items. FollowupsProof shows that the report cannot tell.
 */
module Followups {
  import opened Json
  import opened Lists
  import opened Sorting
  import opened Text

  datatype Section = Signal | Contract

  function SectionName(section: Section): string
  {
    match section
    case Signal => "signal_family_gap_evidence"
    case Contract => "source_contract_evidence"
  }

  // The field that names what a section's item is about.
  function KindField(section: Section): string
  {
    match section
    case Signal => "signal_type"
    case Contract => "gate"
  }

  const DISPATCHED := "request_dispatched"
  const REDACTED := "private-ops://" + "redacted/local-source-request" + "-dispatch"
  const PLACEHOLDER := "REPLACE_WITH_"

  /**
   * What the script takes from elsewhere: the accepted statuses of the action plan, str() of a
   * value that is not a string, upper() of a character beyond ASCII, and whether a due date is at
   * or before the report's date (None when it cannot be parsed).
   */
  datatype Context = Context(
    signalAccepted: set<string>,
    contractAccepted: set<string>,
    repr: Json -> string,
    upper: char -> string,
    overdue: string -> Option<bool>)
  {
    function Accepted(section: Section): set<string>
    {
      match section
      case Signal => signalAccepted
      case Contract => contractAccepted
    }

    // str(item.get(field, ""))
    function TextOf(item: Dict, field: string): string
    {
      if field !in item then ""
      else match item[field]
        case Str(s) => s
        case other => repr(other)
    }

    function Upper(s: string): string
    {
      if s == "" then ""
      else (if 'a' <= s[0] <= 'z' then [s[0] - 'a' + 'A'] else if s[0] < '\U{80}' then [s[0]] else upper(s[0]))
           + Upper(s[1..])
    }
  }

  datatype Failure =
    | NotAnArray(section: Section)
    | NotAnObject(section: Section, index: nat)
    | FieldRequired(section: Section, index: nat, field: string)
    | FieldPlaceholder(section: Section, index: nat, field: string)
    | BadDueDate(section: Section)

  datatype DispatchItem = DispatchItem(section: Section, county: string, kind: string, due: Option<string>)

  function Public(item: Dict, section: Section, ctx: Context): DispatchItem
  {
    DispatchItem(section, ctx.TextOf(item, "county"), ctx.TextOf(item, KindField(section)),
                 StringField(item, "follow_up_due_at"))
  }

  // ---- dispatch items --------------------------------------------------------------------------

  function DispatchFrom(items: seq<Json>, index: nat, section: Section, ctx: Context)
    : Result<seq<DispatchItem>, Failure>
    requires index <= |items|
    decreases |items| - index
  {
    if index == |items| then Ok([])
    else match items[index]
      case Obj(item) =>
        (match DispatchFrom(items, index + 1, section, ctx)
         case Err(e) => Err(e)
         case Ok(rest) => Ok(if Get(item, "status") == Str(DISPATCHED) then [Public(item, section, ctx)] + rest else rest))
      case _ => Err(NotAnObject(section, index))
  }

  function SectionDispatchItems(value: Json, section: Section, ctx: Context): Result<seq<DispatchItem>, Failure>
  {
    match value
    case Null => Ok([])
    case Arr(items) => DispatchFrom(items, 0, section, ctx)
    case _ => Err(NotAnArray(section))
  }

  function SectionValue(overlay: Dict, section: Section): Json
  {
    Get(overlay, SectionName(section))
  }

  function DispatchItems(overlays: seq<Dict>, ctx: Context): Result<seq<DispatchItem>, Failure>
  {
    if overlays == [] then Ok([])
    else match SectionDispatchItems(SectionValue(overlays[0], Signal), Signal, ctx)
      case Err(e) => Err(e)
      case Ok(signals) =>
        match SectionDispatchItems(SectionValue(overlays[0], Contract), Contract, ctx)
        case Err(e) => Err(e)
        case Ok(contracts) =>
          match DispatchItems(overlays[1..], ctx)
          case Err(e) => Err(e)
          case Ok(rest) => Ok(signals + contracts + rest)
  }

  // ---- the report ------------------------------------------------------------------------------

  datatype Report = Report(
    dispatched: nat, scheduled: nat, missing: nat, pending: nat, overdue: nat,
    nextDue: Option<string>, overdueItems: seq<DispatchItem>)

  function Scheduled(items: seq<DispatchItem>): seq<DispatchItem>
  {
    Filter(items, (i: DispatchItem) => i.due.Some?)
  }

  function Overdue(items: seq<DispatchItem>, ctx: Context): seq<DispatchItem>
  {
    Filter(Scheduled(items), (i: DispatchItem) => i.due.Some? && ctx.overdue(i.due.value) == Some(true))
  }

  // The first scheduled item, in list order, whose due date cannot be parsed.
  function BadDue(items: seq<DispatchItem>, ctx: Context): Option<Section>
  {
    if items == [] then None
    else if items[0].due.Some? && ctx.overdue(items[0].due.value).None? then Some(items[0].section)
    else BadDue(items[1..], ctx)
  }

  // The least or the greatest string of a list.
  function Extreme(xs: seq<string>, least: bool): Option<string>
  {
    if xs == [] then None
    else match Extreme(xs[1..], least)
      case None => Some(xs[0])
      case Some(y) => Some(if StrLe(xs[0], y) == least then xs[0] else y)
  }

  function Dues(items: seq<DispatchItem>): seq<string>
  {
    Map(Scheduled(items), (i: DispatchItem) => if i.due.Some? then i.due.value else "")
  }

  function SortKey(item: DispatchItem): Key
  {
    [if item.due.Some? then item.due.value else "", SectionName(item.section), item.county]
  }

  function ReportOf(items: seq<DispatchItem>, ctx: Context): Result<Report, Failure>
  {
    match BadDue(items, ctx)
    case Some(section) => Err(BadDueDate(section))
    case None =>
      FilterLength(items, (i: DispatchItem) => i.due.Some?);
      FilterLength(Scheduled(items), (i: DispatchItem) => i.due.Some? && ctx.overdue(i.due.value) == Some(true));
      var scheduled, overdue := Scheduled(items), Overdue(items, ctx);
      Ok(Report(|items|, |scheduled|, |items| - |scheduled|, |scheduled| - |overdue|, |overdue|,
                Extreme(Dues(items), true), Sort(overdue, SortKey)))
  }

  function FollowupReport(overlays: seq<Dict>, ctx: Context): Result<Report, Failure>
  {
    match DispatchItems(overlays, ctx)
    case Err(e) => Err(e)
    case Ok(items) => ReportOf(items, ctx)
  }

  // ---- sanitising ------------------------------------------------------------------------------

  function CheckField(item: Dict, field: string, section: Section, index: nat, ctx: Context): Option<Failure>
  {
    match Get(item, field)
    case Str(s) =>
      if IsBlank(s) then Some(FieldRequired(section, index, field))
      else if StartsWith(ctx.Upper(Strip(s)), PLACEHOLDER) then Some(FieldPlaceholder(section, index, field))
      else None
    case _ => Some(FieldRequired(section, index, field))
  }

  function CheckAccepted(item: Dict, section: Section, index: nat, ctx: Context): Option<Failure>
  {
    var county := CheckField(item, "county", section, index, ctx);
    if county.Some? then county
    else
      var ref := CheckField(item, "evidence_ref", section, index, ctx);
      if ref.Some? then ref
      else
        var reviewed := CheckField(item, "reviewed_at", section, index, ctx);
        if reviewed.Some? then reviewed else CheckField(item, KindField(section), section, index, ctx)
  }

  // The status that makes an item part of the overlay, if it has one.
  function KeptStatus(item: Dict, section: Section, ctx: Context): Option<string>
  {
    match Get(item, "status")
    case Str(s) => if s == DISPATCHED || s in ctx.Accepted(section) then Some(s) else None
    case _ => None
  }

  // item.get(field) when it is a string.
  function StringField(item: Dict, field: string): Option<string>
  {
    match Get(item, field)
    case Str(s) => Some(s)
    case _ => None
  }

  function WithText(item: Dict, field: string, text: Option<string>): Dict
  {
    if text.Some? then item[field := Str(text.value)] else item
  }

  // The dictionary the sanitiser writes, from the texts it carries.
  function Shape(section: Section, county: string, kind: string, status: string,
                 dispatched: Option<string>, due: Option<string>, reviewed: Option<string>): Dict
  {
    var base: Dict := map[
      "county" := Str(county),
      "status" := Str(status),
      "evidence_ref" := Str(REDACTED),
      KindField(section) := Str(kind)];
    WithText(WithText(WithText(base, "dispatched_at", dispatched), "follow_up_due_at", due), "reviewed_at", reviewed)
  }

  function Sanitised(item: Dict, status: string, section: Section, ctx: Context): Dict
  {
    var county, kind := ctx.TextOf(item, "county"), ctx.TextOf(item, KindField(section));
    if status == DISPATCHED then
      Shape(section, county, kind, status, StringField(item, "dispatched_at"), StringField(item, "follow_up_due_at"), None)
    else
      Shape(section, county, kind, status, None, None, Some(Strip(ctx.TextOf(item, "reviewed_at"))))
  }

  function SanitisedFrom(items: seq<Json>, index: nat, section: Section, ctx: Context): Result<seq<Json>, Failure>
    requires index <= |items|
    decreases |items| - index
  {
    if index == |items| then Ok([])
    else match items[index]
      case Obj(item) =>
        (match KeptStatus(item, section, ctx)
         case None => SanitisedFrom(items, index + 1, section, ctx)
         case Some(status) =>
           var failure := if status == DISPATCHED then None else CheckAccepted(item, section, index, ctx);
           if failure.Some? then Err(failure.value)
           else match SanitisedFrom(items, index + 1, section, ctx)
             case Err(e) => Err(e)
             case Ok(rest) => Ok([Obj(Sanitised(item, status, section, ctx))] + rest))
      case _ => Err(NotAnObject(section, index))
  }

  function SanitisedSection(value: Json, section: Section, ctx: Context): Result<seq<Json>, Failure>
  {
    match value
    case Null => Ok([])
    case Arr(items) => SanitisedFrom(items, 0, section, ctx)
    case _ => Err(NotAnArray(section))
  }

  datatype Sections = Sections(signals: seq<Json>, contracts: seq<Json>)

  function SanitisedSections(overlays: seq<Dict>, ctx: Context): Result<Sections, Failure>
  {
    if overlays == [] then Ok(Sections([], []))
    else match SanitisedSection(SectionValue(overlays[0], Signal), Signal, ctx)
      case Err(e) => Err(e)
      case Ok(signals) =>
        match SanitisedSection(SectionValue(overlays[0], Contract), Contract, ctx)
        case Err(e) => Err(e)
        case Ok(contracts) =>
          match SanitisedSections(overlays[1..], ctx)
          case Err(e) => Err(e)
          case Ok(rest) => Ok(Sections(signals + rest.signals, contracts + rest.contracts))
  }

  function CapturedValues(overlays: seq<Dict>): seq<string>
  {
    if overlays == [] then []
    else match Get(overlays[0], "captured_at")
      case Str(s) => [s] + CapturedValues(overlays[1..])
      case _ => CapturedValues(overlays[1..])
  }

  function OverlayOf(sections: Sections, captured: Option<string>): Dict
  {
    map[
      "schema_version" := Str("local-source-completion-evidence/v1"),
      "captured_at" := if captured.Some? then Str(captured.value) else Null,
      SectionName(Signal) := Arr(sections.signals),
      SectionName(Contract) := Arr(sections.contracts),
      "production_gate_evidence" := Arr([])]
  }

  function SanitisedOverlay(overlays: seq<Dict>, ctx: Context): Result<Dict, Failure>
  {
    match SanitisedSections(overlays, ctx)
    case Err(e) => Err(e)
    case Ok(sections) => Ok(OverlayOf(sections, Extreme(CapturedValues(overlays), false)))
  }
}
