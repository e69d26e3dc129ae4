/** The loops of the follow-up report (scripts/local-source-request-followups.py). */
module FollowupsRun {
  import opened Json
  import opened Text
  import opened Followups

  // What the loop over a section's items has yet to return, before the items from index on.
  ghost function AfterPrefix<T>(done: seq<T>, rest: Result<seq<T>, Failure>): Result<seq<T>, Failure>
  {
    match rest
    case Err(e) => Err(e)
    case Ok(items) => Ok(done + items)
  }

  lemma NothingYet<T>(rest: Result<seq<T>, Failure>)
    ensures AfterPrefix([], rest) == rest
  {
    if rest.Ok? { assert [] + rest.value == rest.value; }
  }

  lemma NothingLeft<T>(done: seq<T>)
    ensures AfterPrefix(done, Ok([])) == Ok(done)
  {
    assert done + [] == done;
  }

  method DispatchItemsOf(value: Json, section: Section, ctx: Context) returns (r: Result<seq<DispatchItem>, Failure>)
    ensures r == SectionDispatchItems(value, section, ctx)
  {
    hide Public;
    if value.Null? { return Ok([]); }
    if !value.Arr? { return Err(NotAnArray(section)); }
    var items: seq<DispatchItem> := [];
    var index := 0;
    NothingYet(DispatchFrom(value.items, 0, section, ctx));
    while index < |value.items|
      invariant index <= |value.items|
      invariant AfterPrefix(items, DispatchFrom(value.items, index, section, ctx))
             == DispatchFrom(value.items, 0, section, ctx)
    {
      var item := value.items[index];
      if !item.Obj? { return Err(NotAnObject(section, index)); }
      if Get(item.fields, "status") == Str(DISPATCHED) {
        var public := Public(item.fields, section, ctx);
        assert forall rest :: items + ([public] + rest) == (items + [public]) + rest;
        items := items + [public];
      }
      index := index + 1;
    }
    NothingLeft(items);
    return Ok(items);
  }

  method AllDispatchItems(overlays: seq<Dict>, ctx: Context) returns (r: Result<seq<DispatchItem>, Failure>)
    ensures r == DispatchItems(overlays, ctx)
  {
    hide SectionDispatchItems, SectionValue;
    var items: seq<DispatchItem> := [];
    var index := 0;
    assert overlays[0..] == overlays;
    NothingYet(DispatchItems(overlays, ctx));
    while index < |overlays|
      invariant index <= |overlays|
      invariant AfterPrefix(items, DispatchItems(overlays[index..], ctx)) == DispatchItems(overlays, ctx)
    {
      assert overlays[index..][1..] == overlays[index + 1..];
      var signals := DispatchItemsOf(SectionValue(overlays[index], Signal), Signal, ctx);
      if signals.Err? { return signals; }
      var contracts := DispatchItemsOf(SectionValue(overlays[index], Contract), Contract, ctx);
      if contracts.Err? { return contracts; }
      assert forall rest :: items + (signals.value + contracts.value + rest)
                         == (items + signals.value + contracts.value) + rest;
      items := items + signals.value + contracts.value;
      index := index + 1;
    }
    NothingLeft(items);
    return Ok(items);
  }

  method SanitisedItemsOf(value: Json, section: Section, ctx: Context) returns (r: Result<seq<Json>, Failure>)
    ensures r == SanitisedSection(value, section, ctx)
  {
    hide Sanitised, CheckAccepted, KeptStatus;
    if value.Null? { return Ok([]); }
    if !value.Arr? { return Err(NotAnArray(section)); }
    var items: seq<Json> := [];
    var index := 0;
    NothingYet(SanitisedFrom(value.items, 0, section, ctx));
    while index < |value.items|
      invariant index <= |value.items|
      invariant AfterPrefix(items, SanitisedFrom(value.items, index, section, ctx))
             == SanitisedFrom(value.items, 0, section, ctx)
    {
      var item := value.items[index];
      if !item.Obj? { return Err(NotAnObject(section, index)); }
      var status := KeptStatus(item.fields, section, ctx);
      if status.Some? {
        if status.value != DISPATCHED {
          var failure := CheckAccepted(item.fields, section, index, ctx);
          if failure.Some? { return Err(failure.value); }
        }
        var public := Obj(Sanitised(item.fields, status.value, section, ctx));
        assert forall rest :: items + ([public] + rest) == (items + [public]) + rest;
        items := items + [public];
      }
      index := index + 1;
    }
    NothingLeft(items);
    return Ok(items);
  }
}
