/**
 * Which completion gates the configured secrets leave blocked: two programs for one question,
 * scripts/github-actions-secret-readiness.py (first-seen gates, and counting) and
 * scripts/hosted_private_evidence_readiness.py (a dictionary of routes, any, and sorting).
 */
module GateBlockers {
  import opened Text
  import opened Lists
  import opened Sorting

  datatype Route = Route(
    gate: string, key: string, secrets: seq<string>, requirements: seq<string>, nextAction: string)

  // A route that is not open yet, and the secrets it still needs.
  datatype Unsatisfied = Unsatisfied(key: string, missing: seq<string>)

  datatype Blocker = Blocker(gate: string, missing: seq<string>, routes: seq<Unsatisfied>)

  // The first program also copies the route's requirements and next action.
  datatype Detail = Detail(need: Unsatisfied, requirements: seq<string>, nextAction: string)

  datatype Report = Report(gate: string, missing: seq<string>, routes: seq<Detail>)

  function MissingSecretNames(secrets: seq<string>, configured: set<string>): seq<string>
  {
    Filter(secrets, (name: string) => name !in configured)
  }

  function Need(route: Route, configured: set<string>): Unsatisfied
  {
    Unsatisfied(route.key, MissingSecretNames(route.secrets, configured))
  }

  function RoutesOf(routes: seq<Route>, gate: string): seq<Route>
  {
    Filter(routes, (r: Route) => r.gate == gate)
  }

  function UnsatisfiedRoutes(routes: seq<Route>, configured: set<string>): seq<Unsatisfied>
  {
    Map(Filter(routes, (r: Route) => MissingSecretNames(r.secrets, configured) != []),
        (r: Route) => Need(r, configured))
  }

  function MissingOf(unsatisfied: seq<Unsatisfied>): set<string>
  {
    set u, name | u in unsatisfied && name in u.missing :: name
  }

  function BlockerOf(gate: string, unsatisfied: seq<Unsatisfied>): Blocker
  {
    Blocker(gate, SortedSet(MissingOf(unsatisfied)), unsatisfied)
  }

  // ---- counting, in first-seen order -------------------------------------------------------------

  // dict.fromkeys: the gates in the order in which they are first seen.
  function FirstSeen(routes: seq<Route>): seq<string>
  {
    if routes == [] then []
    else
      var before, last := FirstSeen(routes[..|routes| - 1]), routes[|routes| - 1].gate;
      if last in before then before else before + [last]
  }

  function CountedBlockers(routes: seq<Route>, configured: set<string>, gates: seq<string>): seq<Blocker>
  {
    if gates == [] then []
    else
      var before, gate := CountedBlockers(routes, configured, gates[..|gates| - 1]), gates[|gates| - 1];
      var unsatisfied := UnsatisfiedRoutes(RoutesOf(routes, gate), configured);
      if |unsatisfied| != |RoutesOf(routes, gate)| then before else before + [BlockerOf(gate, unsatisfied)]
  }

  function DetailOf(route: Route, configured: set<string>): Detail
  {
    Detail(Need(route, configured), route.requirements, route.nextAction)
  }

  function Details(routes: seq<Route>, configured: set<string>): seq<Detail>
  {
    Map(Filter(routes, (r: Route) => MissingSecretNames(r.secrets, configured) != []),
        (r: Route) => DetailOf(r, configured))
  }

  function NeedsOf(details: seq<Detail>): seq<Unsatisfied>
  {
    Map(details, (d: Detail) => d.need)
  }

  // The blocker that a report is, without what it copies.
  function BlockerIn(report: Report): Blocker
  {
    Blocker(report.gate, report.missing, NeedsOf(report.routes))
  }

  function BlockersIn(reports: seq<Report>): seq<Blocker>
  {
    Map(reports, BlockerIn)
  }

  // What a detail says of a route: its key, the names it lacks in their order, and its own lists.
  ghost predicate CopyOf(detail: Detail, route: Route, configured: set<string>)
  {
    && detail.need.key == route.key
    && detail.requirements == route.requirements && detail.nextAction == route.nextAction
    && exists places :: Places(route.secrets, (name: string) => name !in configured, places)
                        && TakenFrom(detail.need.missing, route.secrets, places)
  }

  // The routes of the gate are at these places, and the report has one detail for each.
  ghost predicate CopiesAt(report: Report, routes: seq<Route>, configured: set<string>, places: seq<nat>)
  {
    && Places(routes, (r: Route) => r.gate == report.gate, places) && |report.routes| == |places|
    && forall i | 0 <= i < |places| ::
         places[i] < |routes| && CopyOf(report.routes[i], routes[places[i]], configured)
  }

  // A report of a gate copies every route of the gate.
  ghost predicate Copies(report: Report, routes: seq<Route>, configured: set<string>)
  {
    exists places :: CopiesAt(report, routes, configured, places)
  }

  lemma DetailCopies(route: Route, configured: set<string>)
    ensures CopyOf(DetailOf(route, configured), route, configured)
  {
    var places := FilterPlaces(route.secrets, (name: string) => name !in configured);
  }

  lemma DetailsCopy(report: Report, routes: seq<Route>, configured: set<string>)
    requires report.routes == Map(RoutesOf(routes, report.gate), (r: Route) => DetailOf(r, configured))
    ensures Copies(report, routes, configured)
  {
    var own := RoutesOf(routes, report.gate);
    var places := FilterPlaces(routes, (r: Route) => r.gate == report.gate);
    hide CopyOf, DetailOf, Places;
    forall i | 0 <= i < |places|
      ensures places[i] < |routes| && CopyOf(report.routes[i], routes[places[i]], configured)
    {
      DetailCopies(own[i], configured);
    }
    assert CopiesAt(report, routes, configured, places);
  }

  lemma DetailsNeed(routes: seq<Route>, configured: set<string>)
    ensures NeedsOf(Details(routes, configured)) == UnsatisfiedRoutes(routes, configured)
  {
  }

  lemma DetailsAll(routes: seq<Route>, configured: set<string>)
    ensures |Details(routes, configured)| == |routes| ==>
              Details(routes, configured) == Map(routes, (r: Route) => DetailOf(r, configured))
  {
    var wanting := (r: Route) => MissingSecretNames(r.secrets, configured) != [];
    if forall r | r in routes :: wanting(r) { FilterAll(routes, wanting); } else { SomeFiltered(routes, wanting); }
  }

  method BlockersByCounting(routes: seq<Route>, configured: set<string>) returns (reports: seq<Report>)
    ensures BlockersIn(reports) == CountedBlockers(routes, configured, FirstSeen(routes))
    ensures forall report | report in reports :: Copies(report, routes, configured)
  {
    hide UnsatisfiedRoutes, RoutesOf, Details, DetailOf, MissingOf, Copies;
    reports := [];
    var gates := FirstSeen(routes);
    for i := 0 to |gates|
      invariant BlockersIn(reports) == CountedBlockers(routes, configured, gates[..i])
      invariant forall report | report in reports :: Copies(report, routes, configured)
    {
      assert gates[..i + 1][..i] == gates[..i];
      var own := RoutesOf(routes, gates[i]);
      var details := Details(own, configured);
      DetailsNeed(own, configured);
      DetailsAll(own, configured);
      if |details| != |own| { continue; }
      var report := Report(gates[i], SortedSet(MissingOf(NeedsOf(details))), details);
      DetailsCopy(report, routes, configured);
      assert BlockersIn(reports + [report]) == BlockersIn(reports) + [BlockerIn(report)];
      reports := reports + [report];
    }
    assert gates[..|gates|] == gates;
  }

  // ---- a dictionary, in sorted order -------------------------------------------------------------

  // What _completion_route_item says of a route.
  datatype Item = Item(gate: string, key: string, configured: bool, missing: seq<string>)

  function RouteItem(route: Route, configured: set<string>): Item
  {
    var missing := MissingSecretNames(route.secrets, configured);
    Item(route.gate, route.key, missing == [], missing)
  }

  function ItemsOf(items: seq<Item>, gate: string): seq<Item>
  {
    Filter(items, (item: Item) => item.gate == gate)
  }

  function Gates(items: seq<Item>): set<string>
  {
    set item | item in items :: item.gate
  }

  method GroupByGate(items: seq<Item>) returns (groups: map<string, seq<Item>>)
    ensures groups.Keys == Gates(items)
    ensures forall gate | gate in groups :: groups[gate] == ItemsOf(items, gate)
  {
    groups := map[];
    for i := 0 to |items|
      invariant groups.Keys == Gates(items[..i])
      invariant forall gate | gate in groups :: groups[gate] == ItemsOf(items[..i], gate)
    {
      var item := items[i];
      assert items[..i + 1] == items[..i] + [item];
      GroupStep(items[..i], item);
      if item.gate !in groups {
        NoItems(items[..i], item.gate);
        groups := groups[item.gate := []];
      }
      groups := groups[item.gate := groups[item.gate] + [item]];
    }
    assert items[..|items|] == items;
  }

  lemma GroupStep(items: seq<Item>, item: Item)
    ensures Gates(items + [item]) == Gates(items) + {item.gate}
    ensures forall gate :: ItemsOf(items + [item], gate)
                        == if gate == item.gate then ItemsOf(items, gate) + [item] else ItemsOf(items, gate)
  {
    forall gate
      ensures ItemsOf(items + [item], gate)
           == if gate == item.gate then ItemsOf(items, gate) + [item] else ItemsOf(items, gate) {
      FilterAppend(items, [item], (x: Item) => x.gate == gate);
      assert [item][1..] == [];
    }
  }

  lemma NoItems(items: seq<Item>, gate: string)
    requires gate !in Gates(items)
    ensures ItemsOf(items, gate) == []
  {
    FilterNone(items, (x: Item) => x.gate == gate);
  }

  predicate AnyConfigured(items: seq<Item>)
  {
    exists i :: 0 <= i < |items| && items[i].configured
  }

  function AllNeeds(items: seq<Item>): seq<Unsatisfied>
  {
    Map(items, (item: Item) => Unsatisfied(item.key, item.missing))
  }

  function GroupedBlockers(items: seq<Item>, gates: seq<string>): seq<Blocker>
  {
    if gates == [] then []
    else
      var before, gate := GroupedBlockers(items, gates[..|gates| - 1]), gates[|gates| - 1];
      var own := ItemsOf(items, gate);
      if AnyConfigured(own) then before else before + [BlockerOf(gate, AllNeeds(own))]
  }

  function Items(routes: seq<Route>, configured: set<string>): seq<Item>
  {
    Map(routes, (r: Route) => RouteItem(r, configured))
  }

  method BlockersByGrouping(items: seq<Item>) returns (blockers: seq<Blocker>)
    ensures blockers == GroupedBlockers(items, SortedSet(Gates(items)))
  {
    hide ItemsOf, AnyConfigured, AllNeeds;
    var groups := GroupByGate(items);
    blockers := [];
    var gates := SortedSet(groups.Keys);
    for i := 0 to |gates|
      invariant blockers == GroupedBlockers(items, gates[..i])
    {
      assert gates[..i + 1][..i] == gates[..i];
      assert gates[i] in gates;
      var own := groups[gates[i]];
      if AnyConfigured(own) { continue; }
      blockers := blockers + [BlockerOf(gates[i], AllNeeds(own))];
    }
    assert gates[..|gates|] == gates;
  }

  // ---- the two agree -----------------------------------------------------------------------------

  // A route with all its secrets.
  predicate Complete(route: Route, configured: set<string>)
  {
    forall name | name in route.secrets :: name in configured
  }

  predicate HasRoute(routes: seq<Route>, gate: string)
  {
    exists r :: r in routes && r.gate == gate
  }

  // A gate is blocked when it has a route, and no route of it has all its secrets.
  ghost predicate Blocked(routes: seq<Route>, configured: set<string>, gate: string)
  {
    HasRoute(routes, gate)
    && forall r | r in routes && r.gate == gate :: !Complete(r, configured)
  }

  lemma MissingNone(route: Route, configured: set<string>)
    ensures MissingSecretNames(route.secrets, configured) == [] <==> Complete(route, configured)
  {
    var absent := (name: string) => name !in configured;
    var missing := Filter(route.secrets, absent);
    FilterMember(route.secrets, absent);
    assert missing == MissingSecretNames(route.secrets, configured);
    if missing != [] {
      assert missing[0] in missing;
    }
    forall name | name in route.secrets && name !in configured ensures name in missing {
    }
  }

  // Counting: as many unsatisfied routes as routes means that every route is one.
  lemma {:induction false} AllUnsatisfied(routes: seq<Route>, configured: set<string>)
    ensures |UnsatisfiedRoutes(routes, configured)| == |routes|
       <==> forall r | r in routes :: MissingSecretNames(r.secrets, configured) != []
    ensures |UnsatisfiedRoutes(routes, configured)| == |routes|
        ==> UnsatisfiedRoutes(routes, configured) == Map(routes, (r: Route) => Need(r, configured))
    ensures |UnsatisfiedRoutes(routes, configured)| <= |routes|
  {
    hide MissingSecretNames;
    var wanting := (r: Route) => MissingSecretNames(r.secrets, configured) != [];
    FilterLength(routes, wanting);
    if forall r | r in routes :: wanting(r) {
      FilterAll(routes, wanting);
    } else {
      SomeFiltered(routes, wanting);
    }
  }

  lemma {:induction false} SomeFiltered(routes: seq<Route>, p: Route -> bool)
    requires exists r :: r in routes && !p(r)
    ensures |Filter(routes, p)| < |routes|
  {
    assert routes == [routes[0]] + routes[1..];
    if p(routes[0]) {
      SomeFiltered(routes[1..], p);
    } else {
      FilterLength(routes[1..], p);
    }
  }

  lemma {:induction false} ItemsOfRoutes(routes: seq<Route>, configured: set<string>, gate: string)
    ensures ItemsOf(Items(routes, configured), gate) == Items(RoutesOf(routes, gate), configured)
  {
    hide RouteItem;
    if routes != [] {
      ItemsOfRoutes(routes[1..], configured, gate);
      var items := Items(routes, configured);
      assert items[0].gate == routes[0].gate by { ItemGate(routes[0], configured); }
      assert items[1..] == Items(routes[1..], configured);
      var own := RoutesOf(routes[1..], gate);
      assert Items([routes[0]] + own, configured) == [items[0]] + Items(own, configured);
    }
  }

  lemma ItemGate(route: Route, configured: set<string>)
    ensures RouteItem(route, configured).gate == route.gate
  {
  }

  // What both programs say of one gate.
  function GateNeeds(routes: seq<Route>, configured: set<string>, gate: string): seq<Unsatisfied>
  {
    Map(RoutesOf(routes, gate), (r: Route) => Need(r, configured))
  }

  lemma GateAgrees(routes: seq<Route>, configured: set<string>, gate: string)
    requires HasRoute(routes, gate)
    ensures var own, items := RoutesOf(routes, gate), ItemsOf(Items(routes, configured), gate);
            && (|UnsatisfiedRoutes(own, configured)| == |own| <==> Blocked(routes, configured, gate))
            && (AnyConfigured(items) <==> !Blocked(routes, configured, gate))
            && (Blocked(routes, configured, gate) ==>
                  UnsatisfiedRoutes(own, configured) == AllNeeds(items) == GateNeeds(routes, configured, gate))
  {
    var own := RoutesOf(routes, gate);
    FilterMember(routes, (r: Route) => r.gate == gate);
    AllUnsatisfied(own, configured);
    ItemsOfRoutes(routes, configured, gate);
    var items := Items(own, configured);
    forall r: Route ensures MissingSecretNames(r.secrets, configured) == [] <==> Complete(r, configured) {
      MissingNone(r, configured);
    }
    assert AllNeeds(items) == Map(own, (r: Route) => Need(r, configured));
    BlockedByRoutes(routes, configured, gate);
    if AnyConfigured(items) {
      var i :| 0 <= i < |items| && items[i].configured;
      assert own[i] in own;
    } else {
      forall r | r in own ensures MissingSecretNames(r.secrets, configured) != [] {
        var i :| 0 <= i < |own| && own[i] == r;
        assert !items[i].configured;
      }
    }
  }

  lemma BlockedByRoutes(routes: seq<Route>, configured: set<string>, gate: string)
    requires HasRoute(routes, gate)
    ensures Blocked(routes, configured, gate)
       <==> forall r | r in RoutesOf(routes, gate) :: MissingSecretNames(r.secrets, configured) != []
  {
    FilterMember(routes, (r: Route) => r.gate == gate);
    forall r: Route ensures MissingSecretNames(r.secrets, configured) == [] <==> Complete(r, configured) {
      MissingNone(r, configured);
    }
  }

  ghost function BlockersFor(routes: seq<Route>, configured: set<string>, gates: seq<string>): seq<Blocker>
  {
    if gates == [] then []
    else
      var before, gate := BlockersFor(routes, configured, gates[..|gates| - 1]), gates[|gates| - 1];
      if Blocked(routes, configured, gate) then before + [BlockerOf(gate, GateNeeds(routes, configured, gate))]
      else before
  }

  ghost predicate AllRouted(routes: seq<Route>, gates: seq<string>)
  {
    forall gate | gate in gates :: HasRoute(routes, gate)
  }

  lemma {:induction false} BothCompute(routes: seq<Route>, configured: set<string>, gates: seq<string>)
    requires AllRouted(routes, gates)
    ensures CountedBlockers(routes, configured, gates) == BlockersFor(routes, configured, gates)
    ensures GroupedBlockers(Items(routes, configured), gates) == BlockersFor(routes, configured, gates)
  {
    hide Blocked, GateNeeds, UnsatisfiedRoutes, RoutesOf, ItemsOf, Items, AnyConfigured, AllNeeds;
    if gates != [] {
      assert forall gate | gate in gates[..|gates| - 1] :: gate in gates;
      BothCompute(routes, configured, gates[..|gates| - 1]);
      assert gates[|gates| - 1] in gates;
      GateAgrees(routes, configured, gates[|gates| - 1]);
    }
  }

  ghost predicate DistinctGates(gates: seq<string>)
  {
    forall i, j | 0 <= i < j < |gates| :: gates[i] != gates[j]
  }

  lemma {:induction false} FirstSeenGates(routes: seq<Route>)
    ensures forall gate :: gate in FirstSeen(routes) <==> HasRoute(routes, gate)
    ensures DistinctGates(FirstSeen(routes))
  {
    if routes != [] {
      var front, last := routes[..|routes| - 1], routes[|routes| - 1];
      FirstSeenGates(front);
      assert routes == front + [last];
      forall gate ensures gate in FirstSeen(routes) <==> HasRoute(routes, gate) {
        if gate == last.gate { assert last in routes; }
      }
    }
  }

  lemma ItemGates(routes: seq<Route>, configured: set<string>)
    ensures forall gate :: gate in Gates(Items(routes, configured)) <==> HasRoute(routes, gate)
  {
    var items := Items(routes, configured);
    forall gate ensures gate in Gates(items) <==> HasRoute(routes, gate) {
      if gate in Gates(items) {
        var i :| 0 <= i < |items| && items[i].gate == gate;
        assert routes[i] in routes && routes[i].gate == gate;
      }
      if HasRoute(routes, gate) {
        var i :| 0 <= i < |routes| && routes[i].gate == gate;
        assert items[i] in items && items[i].gate == gate;
      }
    }
  }

  function GateKey(blocker: Blocker): Key { [blocker.gate] }

  lemma {:induction false} WithKeyAppend(xs: seq<Blocker>, x: Blocker, k: Key)
    ensures WithKey(xs + [x], GateKey, k)
         == if GateKey(x) == k then WithKey(xs, GateKey, k) + [x] else WithKey(xs, GateKey, k)
  {
    if xs == [] {
      assert xs + [x] == [x] && [x][1..] == [];
    } else {
      WithKeyAppend(xs[1..], x, k);
      assert (xs + [x])[1..] == xs[1..] + [x];
    }
  }

  // The blockers of one gate: the gate's own, if it is blocked.
  lemma {:induction false} ForOneGate(routes: seq<Route>, configured: set<string>, gates: seq<string>, k: Key)
    requires DistinctGates(gates)
    ensures WithKey(BlockersFor(routes, configured, gates), GateKey, k)
         == if |k| == 1 && k[0] in gates && Blocked(routes, configured, k[0])
            then [BlockerOf(k[0], GateNeeds(routes, configured, k[0]))] else []
  {
    hide Blocked, GateNeeds;
    if gates != [] {
      var front, last := gates[..|gates| - 1], gates[|gates| - 1];
      ForOneGate(routes, configured, front, k);
      assert gates == front + [last] && last !in front;
      WithKeyAppend(BlockersFor(routes, configured, front), BlockerOf(last, GateNeeds(routes, configured, last)), k);
    }
  }

  lemma {:induction false} ForAscending(routes: seq<Route>, configured: set<string>, gates: seq<string>)
    requires Ascending(gates)
    ensures Sorted(BlockersFor(routes, configured, gates), GateKey)
    ensures forall b | b in BlockersFor(routes, configured, gates) :: b.gate in gates
  {
    hide Blocked, GateNeeds, StrLe;
    if gates != [] {
      var front, last := gates[..|gates| - 1], gates[|gates| - 1];
      ForAscending(routes, configured, front);
      var before := BlockersFor(routes, configured, front);
      assert gates == front + [last];
      forall i | 0 <= i < |before| ensures KeyLe(GateKey(before[i]), [last]) {
        assert before[i] in before;
        var k :| 0 <= k < |front| && front[k] == before[i].gate;
        assert gates[k] == before[i].gate;
      }
    }
  }

  // The two programs agree on every list of routes: the second list of blockers is the first one,
  // sorted by gate.
  lemma BlockersAgree(routes: seq<Route>, configured: set<string>)
    ensures var counted := CountedBlockers(routes, configured, FirstSeen(routes));
            var items := Items(routes, configured);
            GroupedBlockers(items, SortedSet(Gates(items))) == Sort(counted, GateKey)
  {
    var items := Items(routes, configured);
    var gates, sorted := FirstSeen(routes), SortedSet(Gates(items));
    FirstSeenGates(routes);
    ItemGates(routes, configured);
    SortedSetOrdered(Gates(items));
    hide Blocked, GateNeeds, Items, Gates, FirstSeen, Ascending, Sorted;
    BothCompute(routes, configured, gates);
    BothCompute(routes, configured, sorted);
    var a, b := BlockersFor(routes, configured, gates), BlockersFor(routes, configured, sorted);
    assert DistinctGates(sorted) by { AscendingDistinct(sorted); }
    ForAscending(routes, configured, sorted);
    SortSorted(a, GateKey);
    forall k ensures WithKey(Sort(a, GateKey), GateKey, k) == WithKey(b, GateKey, k) {
      SortStable(a, GateKey, k);
      ForOneGate(routes, configured, gates, k);
      ForOneGate(routes, configured, sorted, k);
    }
    StableSortUnique(Sort(a, GateKey), b, GateKey);
  }

  lemma AscendingDistinct(gates: seq<string>)
    requires Ascending(gates)
    ensures DistinctGates(gates)
  {
  }

  // A gate has a blocker exactly when it has a route and none of its routes has all its secrets;
  // the blocker lists what the gate's routes need.
  lemma BlockedExactly(routes: seq<Route>, configured: set<string>, blocker: Blocker)
    ensures blocker in CountedBlockers(routes, configured, FirstSeen(routes))
       <==> Blocked(routes, configured, blocker.gate)
            && blocker == BlockerOf(blocker.gate, GateNeeds(routes, configured, blocker.gate))
  {
    var gates := FirstSeen(routes);
    FirstSeenGates(routes);
    assert Blocked(routes, configured, blocker.gate) ==> blocker.gate in gates;
    hide Blocked, GateNeeds;
    BothCompute(routes, configured, gates);
    ForOneGate(routes, configured, gates, [blocker.gate]);
    WithKeyMember(BlockersFor(routes, configured, gates), GateKey, [blocker.gate]);
  }

  // Configuring more secrets blocks no gate that was not blocked.
  lemma ConfiguringUnblocks(routes: seq<Route>, configured: set<string>, more: set<string>, gate: string)
    requires configured <= more && Blocked(routes, more, gate)
    ensures Blocked(routes, configured, gate)
    ensures MissingOf(GateNeeds(routes, more, gate)) <= MissingOf(GateNeeds(routes, configured, gate))
  {
    var own := RoutesOf(routes, gate);
    var less, was := GateNeeds(routes, more, gate), GateNeeds(routes, configured, gate);
    forall name | name in MissingOf(less) ensures name in MissingOf(was) {
      var u :| u in less && name in u.missing;
      var i :| 0 <= i < |less| && less[i] == u;
      FilterMember(own[i].secrets, (n: string) => n !in more);
      FilterMember(own[i].secrets, (n: string) => n !in configured);
      assert name in was[i].missing && was[i] in was;
    }
  }

  // A blocker's missing secrets, in order and each once, are those that some route of its gate
  // lacks; its routes are those of the gate, in their order.
  lemma BlockerLists(routes: seq<Route>, configured: set<string>, gate: string)
    ensures var blocker := BlockerOf(gate, GateNeeds(routes, configured, gate));
            && Ascending(blocker.missing)
            && (forall name :: name in blocker.missing
                  <==> exists r :: r in routes && r.gate == gate && Lacks(r, name, configured))
            && Map(blocker.routes, (u: Unsatisfied) => u.key) == Map(RoutesOf(routes, gate), (r: Route) => r.key)
  {
    var own, needs := RoutesOf(routes, gate), GateNeeds(routes, configured, gate);
    FilterMember(routes, (r: Route) => r.gate == gate);
    NeedsLack(own, needs, configured);
    SortedSetOrdered(MissingOf(needs));
    hide Lacks, MissingOf, Ascending;
    assert forall r :: r in own <==> r in routes && r.gate == gate;
  }

  lemma NeedsLack(own: seq<Route>, needs: seq<Unsatisfied>, configured: set<string>)
    requires needs == Map(own, (r: Route) => Need(r, configured))
    ensures forall name :: name in MissingOf(needs) <==> exists r :: r in own && Lacks(r, name, configured)
  {
    forall name ensures name in MissingOf(needs) <==> exists r :: r in own && Lacks(r, name, configured) {
      if name in MissingOf(needs) {
        var u :| u in needs && name in u.missing;
        var i :| 0 <= i < |needs| && needs[i] == u;
        NeedLacks(own[i], name, configured);
        assert own[i] in own;
      }
      if r: Route :| r in own && Lacks(r, name, configured) {
        var i :| 0 <= i < |own| && own[i] == r;
        NeedLacks(r, name, configured);
        assert needs[i] in needs;
      }
    }
  }

  lemma NeedLacks(route: Route, name: string, configured: set<string>)
    ensures name in Need(route, configured).missing <==> Lacks(route, name, configured)
  {
    FilterMember(route.secrets, (n: string) => n !in configured);
  }

  predicate Lacks(route: Route, name: string, configured: set<string>)
  {
    name in route.secrets && name !in configured
  }
}
