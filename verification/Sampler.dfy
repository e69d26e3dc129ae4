/**
 * The stratified event sampler (scripts/event_public_value_smoke.py).
 *
 * Every shuffle may produce any order, so what SelectEventSamples ensures holds for every seed.
 */
module Sampler {
  import opened Text
  import opened Lists

  datatype Candidate = Candidate(
    query: string, sourceKey: string, county: string, lat: string, lng: string, focus: string)

  const CORE := "core-alert"
  const HIGH := "high-concern"
  const NATIONWIDE := "nationwide-context"

  function TaiwanCounties(): (r: seq<string>)
    ensures |r| == 22
  {
    ["基隆市", "臺北市", "新北市", "桃園市", "新竹市", "新竹縣", "苗栗縣", "臺中市", "彰化縣", "南投縣", "雲林縣",
     "嘉義市", "嘉義縣", "臺南市", "高雄市", "屏東縣", "宜蘭縣", "花蓮縣", "臺東縣", "澎湖縣", "金門縣", "連江縣"]
  }

  // The text whose hash identifies a location.
  function LocationKey(c: Candidate): string
  {
    c.sourceKey + "|" + c.query + "|" + c.lat + "|" + c.lng
  }

  function Keys(cs: seq<Candidate>): set<string>
  {
    set c | c in cs :: LocationKey(c)
  }

  predicate DistinctKeys(cs: seq<Candidate>)
  {
    forall i, j | 0 <= i < j < |cs| :: LocationKey(cs[i]) != LocationKey(cs[j])
  }

  function Count(cs: seq<Candidate>, focus: string): nat
  {
    |Filter(cs, (c: Candidate) => c.focus == focus)|
  }

  lemma CountAppend(cs: seq<Candidate>, c: Candidate, focus: string)
    ensures Count(cs + [c], focus) == Count(cs, focus) + if c.focus == focus then 1 else 0
  {
    FilterAppend(cs, [c], (c: Candidate) => c.focus == focus);
    assert [c][1..] == [];
  }

  lemma KeysAppend(cs: seq<Candidate>, c: Candidate)
    ensures Keys(cs + [c]) == Keys(cs) + {LocationKey(c)}
  {
    hide LocationKey;
  }

  // Locations are pairwise distinct exactly when there are as many of them as candidates.
  lemma {:induction false} DistinctSize(cs: seq<Candidate>)
    ensures |Keys(cs)| <= |cs|
    ensures DistinctKeys(cs) <==> |Keys(cs)| == |cs|
  {
    hide LocationKey;
    if cs != [] {
      var front, last := cs[..|cs| - 1], cs[|cs| - 1];
      DistinctSize(front);
      assert cs == front + [last];
      KeysAppend(front, last);
      DistinctAppend(front, last);
    }
  }

  lemma DistinctAppend(cs: seq<Candidate>, c: Candidate)
    ensures DistinctKeys(cs + [c]) <==> DistinctKeys(cs) && LocationKey(c) !in Keys(cs)
  {
    hide LocationKey;
    var all := cs + [c];
    if DistinctKeys(all) {
      forall i, j | 0 <= i < j < |cs| ensures LocationKey(cs[i]) != LocationKey(cs[j]) {
        assert all[i] == cs[i] && all[j] == cs[j];
      }
      forall d | d in cs ensures LocationKey(d) != LocationKey(c) {
        var i :| 0 <= i < |cs| && cs[i] == d;
        assert all[i] == d && all[|cs|] == c;
      }
    }
  }

  lemma KeysMonotone(cs: seq<Candidate>, ds: seq<Candidate>)
    requires forall c | c in cs :: c in ds
    ensures Keys(cs) <= Keys(ds) && |Keys(cs)| <= |Keys(ds)|
  {
    hide LocationKey;
    SubsetSize(Keys(cs), Keys(ds));
  }

  lemma {:induction false} SubsetSize<T>(a: set<T>, b: set<T>)
    requires a <= b
    ensures |a| <= |b|
  {
    if a != {} {
      var x :| x in a;
      SubsetSize(a - {x}, b - {x});
    }
  }

  lemma {:induction false} WithoutOne(cs: seq<Candidate>, c: Candidate) returns (p: seq<Candidate>, q: seq<Candidate>)
    requires c in multiset(cs)
    ensures cs == p + [c] + q && multiset(p + q) == multiset(cs) - multiset{c}
  {
    var k :| 0 <= k < |cs| && cs[k] == c;
    p, q := cs[..k], cs[k + 1..];
    assert cs == p + [c] + q;
    assert multiset(cs) == multiset(p) + multiset{c} + multiset(q);
  }

  lemma CountWithoutOne(p: seq<Candidate>, c: Candidate, q: seq<Candidate>, focus: string)
    ensures Count(p + [c] + q, focus) == Count(p + q, focus) + if c.focus == focus then 1 else 0
  {
    hide LocationKey;
    var has := (c: Candidate) => c.focus == focus;
    CountAppend(p, c, focus);
    FilterAppend(p, q, has);
    FilterAppend(p + [c], q, has);
  }

  // How many candidates have a focus does not depend on their order.
  lemma {:induction false} CountPermuted(cs: seq<Candidate>, ds: seq<Candidate>, focus: string)
    requires multiset(cs) == multiset(ds)
    ensures Count(cs, focus) == Count(ds, focus)
  {
    hide Count;
    assert |cs| == |multiset(cs)| == |multiset(ds)| == |ds|;
    if cs != [] {
      var front, c := cs[..|cs| - 1], cs[|cs| - 1];
      assert cs == front + [c];
      var p, q := WithoutOne(ds, c);
      CountPermuted(front, p + q, focus);
      CountAppend(front, c, focus);
      CountWithoutOne(p, c, q, focus);
    } else {
      assert cs == ds;
    }
  }

  lemma Permuted(cs: seq<Candidate>, ds: seq<Candidate>)
    requires multiset(cs) == multiset(ds)
    ensures |cs| == |ds| && (forall c :: c in cs <==> c in ds)
    ensures Keys(cs) == Keys(ds) && (DistinctKeys(cs) ==> DistinctKeys(ds))
    ensures forall focus :: Count(cs, focus) == Count(ds, focus)
  {
    hide LocationKey;
    assert |cs| == |multiset(cs)| == |multiset(ds)| == |ds|;
    forall c ensures c in cs <==> c in ds {
      assert c in multiset(cs) <==> c in multiset(ds);
    }
    DistinctSize(cs);
    DistinctSize(ds);
    forall focus ensures Count(cs, focus) == Count(ds, focus) { CountPermuted(cs, ds, focus); }
  }

  // ---- shuffling -----------------------------------------------------------------------------

  // random.Random.shuffle: every index from the last down is swapped with some index up to it.
  method ShuffleInPlace(a: array<Candidate>)
    modifies a
    ensures multiset(a[..]) == old(multiset(a[..]))
  {
    var i := a.Length;
    while i > 1
      invariant i <= a.Length
      invariant multiset(a[..]) == old(multiset(a[..]))
    {
      i := i - 1;
      var j: nat :| j <= i;
      a[i], a[j] := a[j], a[i];
    }
  }

  method Shuffled(cs: seq<Candidate>) returns (r: seq<Candidate>)
    ensures |r| == |cs| && forall c :: c in r <==> c in cs
    ensures multiset(r) == multiset(cs)
  {
    var a := new Candidate[|cs|](i requires 0 <= i < |cs| => cs[i]);
    assert a[..] == cs;
    ShuffleInPlace(a);
    r := a[..];
    forall c ensures c in r <==> c in cs {
      assert c in multiset(r) <==> c in multiset(cs);
    }
  }

  // ---- grouping ------------------------------------------------------------------------------

  type Groups = map<string, seq<Candidate>>

  function CountyOf(c: Candidate): string { c.county }

  function FocusOf(c: Candidate): string { c.focus }

  // A defaultdict(list) entry.
  function Group(groups: Groups, key: string): seq<Candidate>
  {
    if key in groups then groups[key] else []
  }

  ghost predicate InSome(groups: Groups, c: Candidate)
  {
    exists k :: c in Group(groups, k)
  }

  lemma FirstInGroup(groups: Groups, k: string)
    requires Group(groups, k) != []
    ensures InSome(groups, Group(groups, k)[0])
  {
    assert Group(groups, k)[0] in Group(groups, k);
  }

  ghost predicate Grouped(groups: Groups, cs: seq<Candidate>, field: Candidate -> string)
  {
    forall k, c :: c in Group(groups, k) <==> c in cs && field(c) == k
  }

  lemma GroupStep(groups: Groups, cs: seq<Candidate>, field: Candidate -> string, c: Candidate)
    requires Grouped(groups, cs, field)
    ensures Grouped(groups[field(c) := Group(groups, field(c)) + [c]], cs + [c], field)
  {
    var next := groups[field(c) := Group(groups, field(c)) + [c]];
    forall k, d ensures d in Group(next, k) <==> d in cs + [c] && field(d) == k {
      assert d in Group(next, k) <==> d in Group(groups, k) || (k == field(c) && d == c);
    }
  }

  method GroupBy(cs: seq<Candidate>, field: Candidate -> string) returns (groups: Groups)
    ensures Grouped(groups, cs, field)
  {
    groups := map[];
    var i := 0;
    while i < |cs|
      invariant i <= |cs|
      invariant Grouped(groups, cs[..i], field)
    {
      var c := cs[i];
      assert cs[..i + 1] == cs[..i] + [c];
      GroupStep(groups, cs[..i], field, c);
      groups := groups[field(c) := Group(groups, field(c)) + [c]];
      i := i + 1;
    }
    assert cs[..i] == cs;
  }

  method ShuffleGroups(groups: Groups) returns (r: Groups)
    ensures forall k, c :: c in Group(r, k) <==> c in Group(groups, k)
  {
    r := groups;
    var left := groups.Keys;
    while left != {}
      invariant left <= groups.Keys == r.Keys
      invariant forall k, c :: c in Group(r, k) <==> c in Group(groups, k)
      decreases |left|
    {
      var k :| k in left;
      var shuffled := Shuffled(r[k]);
      r := r[k := shuffled];
      left := left - {k};
    }
  }

  // ---- the selection ---------------------------------------------------------------------------

  class Selection {
    var items: seq<Candidate>
    var keys: set<string>

    ghost predicate Valid()
      reads this
    {
      DistinctKeys(items) && keys == Keys(items)
    }

    constructor ()
      ensures Valid() && items == []
    {
      items, keys := [], {};
    }

    method AppendUnique(c: Candidate)
      requires Valid()
      modifies this
      ensures Valid()
      ensures items == if LocationKey(c) in old(keys) then old(items) else old(items) + [c]
      ensures keys == old(keys) + {LocationKey(c)}
    {
      var key := LocationKey(c);
      if key in keys { return; }
      forall i | 0 <= i < |items| ensures LocationKey(items[i]) != key {
        assert items[i] in items;
      }
      items := items + [c];
      keys := keys + {key};
    }

    // One pass over the counties: each one that has candidates contributes its first.
    method TakeCounties(byCounty: Groups)
      requires Valid() && items == []
      modifies this
      ensures Valid() && |items| <= |TaiwanCounties()|
      ensures forall c | c in items :: InSome(byCounty, c)
      ensures forall county | county in TaiwanCounties() && Group(byCounty, county) != [] ::
                LocationKey(Group(byCounty, county)[0]) in keys
    {
      hide *;
      var counties := TaiwanCounties();
      var i := 0;
      while i < |counties|
        invariant Valid() && |items| <= i <= |counties|
        invariant forall c | c in items :: InSome(byCounty, c)
        invariant forall j | 0 <= j < i && Group(byCounty, counties[j]) != [] ::
                    LocationKey(Group(byCounty, counties[j])[0]) in keys
      {
        var group := Group(byCounty, counties[i]);
        if group != [] {
          FirstInGroup(byCounty, counties[i]);
          AppendUnique(group[0]);
        }
        i := i + 1;
      }
    }

    // One focus: candidates are taken until the target is met or the sample is full.
    method FillFocus(group: seq<Candidate>, focus: string, target: nat, size: nat)
      requires Valid() && forall c | c in group :: c.focus == focus
      modifies this
      ensures Valid() && old(items) <= items
      ensures forall c | c in items :: c in old(items) || c in group
      ensures Filled(group, focus, target) || |items| >= size
      ensures forall i | |old(items)| <= i < |items| :: items[i].focus == focus
      ensures |items| <= |old(items)| + target
      ensures |items| <= |old(items)| || |items| <= size || |items| == |old(items)| + 1
    {
      hide LocationKey, DistinctKeys, Count;
      var i := 0;
      while i < |group|
        invariant i <= |group| && Valid() && old(items) <= items
        invariant forall c | c in items :: c in old(items) || c in group
        invariant forall j | |old(items)| <= j < |items| :: items[j].focus == focus
        invariant forall j | 0 <= j < i :: LocationKey(group[j]) in keys
        invariant |items| <= |old(items)| + Count(items, focus) && |items| <= |old(items)| + target
        invariant |items| < size || i == 0
        invariant i == 0 ==> items == old(items)
        invariant |items| <= |old(items)| || |items| <= size || |items| == |old(items)| + 1
      {
        if Count(items, focus) >= target { break; }
        assert group[i] in group;
        CountAppend(items, group[i], focus);
        AppendUnique(group[i]);
        i := i + 1;
        if |items| >= size { break; }
      }
    }

    ghost predicate Filled(group: seq<Candidate>, focus: string, target: nat)
      reads this
    {
      Count(items, focus) >= target || forall c | c in group :: LocationKey(c) in keys
    }

    // The remaining places go to any candidates.
    method FillRest(candidates: seq<Candidate>, size: nat)
      requires Valid()
      modifies this
      ensures Valid() && old(items) <= items
      ensures forall c | c in items :: c in old(items) || c in candidates
      ensures |items| <= |old(items)| || |items| <= size
      ensures |old(items)| >= size ==> items == old(items)
      ensures |items| >= size || forall c | c in candidates :: LocationKey(c) in keys
    {
      hide LocationKey, DistinctKeys;
      var i := 0;
      while i < |candidates|
        invariant i <= |candidates| && Valid() && old(items) <= items
        invariant forall c | c in items :: c in old(items) || c in candidates
        invariant |items| <= |old(items)| || |items| <= size
        invariant |old(items)| >= size ==> items == old(items)
        invariant forall j | 0 <= j < i :: LocationKey(candidates[j]) in keys
      {
        if |items| >= size { break; }
        AppendUnique(candidates[i]);
        i := i + 1;
      }
    }
  }

  function CoreTarget(size: nat): nat { Max(30, size * 35 / 100) }

  function HighTarget(size: nat): nat { Max(25, size * 35 / 100) }

  // The counties and the two quotas leave room in the sample exactly from this size on. The
  // command line asks for 100 at least.
  lemma QuotasFit(size: nat)
    ensures |TaiwanCounties()| + CoreTarget(size) + HighTarget(size) < size <==> size >= 81
  {
    hide TaiwanCounties;
  }

  // The sample, before and after the last shuffle.
  ghost predicate Sample(candidates: seq<Candidate>, items: seq<Candidate>, size: nat)
  {
    DistinctKeys(items) && (forall c | c in items :: c in candidates)
    && (|items| >= size || forall c | c in candidates :: LocationKey(c) in Keys(items))
  }

  // Every county of Taiwan that has a candidate has one whose location is in the sample.
  ghost predicate CountiesReached(candidates: seq<Candidate>, items: seq<Candidate>)
  {
    forall county | county in TaiwanCounties() && (exists c :: c in candidates && c.county == county) ::
      exists c :: c in candidates && c.county == county && LocationKey(c) in Keys(items)
  }

  // The quota of a focus is met, or every candidate of that focus has its location in the sample.
  ghost predicate QuotaMet(candidates: seq<Candidate>, items: seq<Candidate>, focus: string, target: nat)
  {
    Count(items, focus) >= target
    || forall c | c in candidates && c.focus == focus :: LocationKey(c) in Keys(items)
  }

  predicate OtherFocus(c: Candidate)
  {
    c.focus != "core-alert" && c.focus != "high-concern" && c.focus != "nationwide-context"
  }

  // How many have none of the three focuses.
  function Others(cs: seq<Candidate>): nat
  {
    |Filter(cs, OtherFocus)|
  }

  // A nationwide candidate is left out only when no place beyond the counties' own went to another
  // focus.
  ghost predicate NationwideFirst(candidates: seq<Candidate>, items: seq<Candidate>)
  {
    (forall c | c in candidates && c.focus == "nationwide-context" :: LocationKey(c) in Keys(items))
    || Others(items) <= 22
  }

  lemma OthersKept(items: seq<Candidate>, more: seq<Candidate>)
    requires items <= more
    requires forall i | |items| <= i < |more| :: more[i].focus in {CORE, HIGH, NATIONWIDE}
    ensures Others(more) == Others(items)
  {
    var added := more[|items|..];
    assert more == items + added;
    FilterAppend(items, added, OtherFocus);
    forall c | c in added ensures !OtherFocus(c) {
      var i :| 0 <= i < |added| && added[i] == c;
      assert more[|items| + i] == c;
    }
    FilterNone(added, OtherFocus);
  }

  lemma OthersPermuted(items: seq<Candidate>, r: seq<Candidate>)
    requires multiset(items) == multiset(r)
    ensures Others(items) == Others(r)
  {
    var a, b := Filter(items, OtherFocus), Filter(r, OtherFocus);
    FilterOften(items, OtherFocus);
    FilterOften(r, OtherFocus);
    assert multiset(a) == multiset(b) by {
      forall c ensures multiset(a)[c] == multiset(b)[c] {}
    }
    assert |a| == |multiset(a)| == |multiset(b)| == |b|;
  }

  // The last fills and the last shuffle keep it.
  lemma NationwideKept(candidates: seq<Candidate>, filled: seq<Candidate>, more: seq<Candidate>, r: seq<Candidate>,
                       size: nat)
    requires |filled| >= size || forall c | c in candidates && c.focus == NATIONWIDE :: LocationKey(c) in Keys(filled)
    requires |filled| >= size ==> more == filled
    requires filled <= more && multiset(more) == multiset(r) && Others(filled) <= 22
    ensures NationwideFirst(candidates, r)
  {
    hide LocationKey, Others;
    Permuted(more, r);
    KeysMonotone(filled, more);
    if |filled| >= size { OthersPermuted(more, r); }
  }

  // When a location lies in one county only, the counties reached are the counties represented.
  lemma CountiesRepresented(candidates: seq<Candidate>, items: seq<Candidate>, county: string)
    requires CountiesReached(candidates, items) && county in TaiwanCounties()
    requires forall c | c in items :: c in candidates
    requires forall c, d | c in candidates && d in candidates && LocationKey(c) == LocationKey(d) ::
               c.county == d.county
    ensures (exists c :: c in candidates && c.county == county) <==> exists c :: c in items && c.county == county
  {
    hide TaiwanCounties, LocationKey;
  }

  lemma Delivered(candidates: seq<Candidate>, items: seq<Candidate>, r: seq<Candidate>, size: nat)
    requires Sample(candidates, items, size) && multiset(items) == multiset(r)
    ensures |r| == |items|
    ensures var s := if size < |r| then r[..size] else r;
            DistinctKeys(s) && (forall c | c in s :: c in candidates)
            && |s| == if size < |Keys(candidates)| then size else |Keys(candidates)|
  {
    hide LocationKey;
    Permuted(items, r);
    DistinctSize(items);
    KeysMonotone(items, candidates);
    if |items| < size {
      assert Keys(candidates) == Keys(items);
    }
  }

  lemma QuotaKept(candidates: seq<Candidate>, items: seq<Candidate>, more: seq<Candidate>, r: seq<Candidate>,
                  focus: string, target: nat)
    requires QuotaMet(candidates, items, focus, target)
    requires items <= more && multiset(more) == multiset(r)
    ensures QuotaMet(candidates, r, focus, target)
  {
    hide LocationKey;
    Permuted(more, r);
    KeysMonotone(items, more);
    assert more == items + more[|items|..];
    FilterAppend(items, more[|items|..], (c: Candidate) => c.focus == focus);
  }

  lemma CountiesKept(candidates: seq<Candidate>, byCounty: Groups, items: seq<Candidate>, more: seq<Candidate>,
                     r: seq<Candidate>)
    requires Grouped(byCounty, candidates, CountyOf)
    requires forall county | county in TaiwanCounties() && Group(byCounty, county) != [] ::
               LocationKey(Group(byCounty, county)[0]) in Keys(items)
    requires items <= more && multiset(more) == multiset(r)
    ensures CountiesReached(candidates, r)
  {
    hide LocationKey, TaiwanCounties;
    Permuted(more, r);
    KeysMonotone(items, more);
    forall county | county in TaiwanCounties() && exists c :: c in candidates && c.county == county
      ensures exists c :: c in candidates && c.county == county && LocationKey(c) in Keys(r)
    {
      var d :| d in candidates && d.county == county;
      assert CountyOf(d) == county && d in Group(byCounty, county);
      var first := Group(byCounty, county)[0];
      assert first in Group(byCounty, county) && CountyOf(first) == county;
    }
  }

  lemma OthersFew(items: seq<Candidate>)
    ensures Others(items) <= |items|
  {
    FilterLength(items, OtherFocus);
  }

  lemma FullOrAll(items: seq<Candidate>, focus: string, size: nat)
    ensures Count(items, focus) >= size ==> |items| >= size
  {
    FilterLength(items, (c: Candidate) => c.focus == focus);
  }

  method ShuffledGroups(cs: seq<Candidate>, field: Candidate -> string) returns (groups: Groups)
    ensures Grouped(groups, cs, field)
  {
    groups := GroupBy(cs, field);
    groups := ShuffleGroups(groups);
  }

  method FillQuotas(candidates: seq<Candidate>, size: nat, byFocus: Groups, selection: Selection)
    requires Grouped(byFocus, candidates, FocusOf)
    requires selection.Valid() && |selection.items| <= |TaiwanCounties()|
    requires forall c | c in selection.items :: c in candidates
    modifies selection
    ensures selection.Valid() && old(selection.items) <= selection.items
    ensures forall c | c in selection.items :: c in candidates
    ensures size >= 81 ==>
              |selection.items| <= size
              && QuotaMet(candidates, selection.items, CORE, CoreTarget(size))
              && QuotaMet(candidates, selection.items, HIGH, HighTarget(size))
    ensures Others(selection.items) == Others(old(selection.items))
    ensures size >= 81 ==>
              |selection.items| >= size
              || forall c | c in candidates && c.focus == NATIONWIDE :: LocationKey(c) in Keys(selection.items)
  {
    hide LocationKey, DistinctKeys, Count, TaiwanCounties, CoreTarget, HighTarget, Others;
    QuotasFit(size);
    assert forall focus, c | c in Group(byFocus, focus) :: c in candidates && c.focus == focus by {
      forall focus, c | c in Group(byFocus, focus) ensures c in candidates && c.focus == focus {
        assert FocusOf(c) == focus;
      }
    }
    assert forall focus, c | c in candidates && c.focus == focus :: c in Group(byFocus, focus) by {
      forall focus, c | c in candidates && c.focus == focus ensures c in Group(byFocus, focus) {
        assert FocusOf(c) == focus;
      }
    }
    selection.FillFocus(Group(byFocus, CORE), CORE, CoreTarget(size), size);
    ghost var core := selection.items;
    selection.FillFocus(Group(byFocus, HIGH), HIGH, HighTarget(size), size);
    ghost var high := selection.items;
    selection.FillFocus(Group(byFocus, NATIONWIDE), NATIONWIDE, size, size);
    OthersKept(old(selection.items), selection.items);
    if size >= 81 {
      FullOrAll(selection.items, NATIONWIDE, size);
      assert QuotaMet(candidates, core, CORE, CoreTarget(size));
      assert QuotaMet(candidates, high, HIGH, HighTarget(size));
      QuotaKept(candidates, core, selection.items, selection.items, CORE, CoreTarget(size));
      QuotaKept(candidates, high, selection.items, selection.items, HIGH, HighTarget(size));
    }
  }

  method SelectEventSamples(candidates: seq<Candidate>, size: nat) returns (r: seq<Candidate>)
    ensures DistinctKeys(r) && forall c | c in r :: c in candidates
    ensures |r| == if size < |Keys(candidates)| then size else |Keys(candidates)|
    ensures size >= 81 ==> CountiesReached(candidates, r)
    ensures size >= 81 ==> QuotaMet(candidates, r, CORE, CoreTarget(size))
    ensures size >= 81 ==> QuotaMet(candidates, r, HIGH, HighTarget(size))
    ensures size >= 81 ==> NationwideFirst(candidates, r)
  {
    hide LocationKey, DistinctKeys, Count, TaiwanCounties, CoreTarget, HighTarget, QuotaMet, Others, NationwideFirst;
    var byCounty := ShuffledGroups(candidates, CountyOf);
    var byFocus := ShuffledGroups(candidates, FocusOf);
    var selection := new Selection();
    selection.TakeCounties(byCounty);
    ghost var first := selection.items;
    OthersFew(first);
    FillQuotas(candidates, size, byFocus, selection);
    ghost var filled := selection.items;
    var shuffled := Shuffled(candidates);
    selection.FillRest(shuffled, size);
    r := Shuffled(selection.items);
    Delivered(candidates, selection.items, r, size);
    if size >= 81 {
      CountiesKept(candidates, byCounty, first, selection.items, r);
      QuotaKept(candidates, filled, selection.items, r, CORE, CoreTarget(size));
      QuotaKept(candidates, filled, selection.items, r, HIGH, HighTarget(size));
      NationwideKept(candidates, filled, selection.items, r, size);
    }
    if size < |r| { r := r[..size]; }
  }

  // ---- what a location key tells apart -------------------------------------------------------------

  lemma {:induction false} FirstField(a: string, b: string, x: string, y: string)
    requires '|' !in a && '|' !in b && a + ['|'] + x == b + ['|'] + y
    ensures a == b && x == y
  {
    var s, t := a + ['|'] + x, b + ['|'] + y;
    if a == "" || b == "" {
      assert s[0] == t[0];
      assert a == b;
      assert s[1..] == x && t[1..] == y;
    } else {
      assert s[0] == a[0] && t[0] == b[0];
      assert s[1..] == a[1..] + ['|'] + x && t[1..] == b[1..] + ['|'] + y;
      FirstField(a[1..], b[1..], x, y);
      assert a == [a[0]] + a[1..] && b == [b[0]] + b[1..];
    }
  }

  predicate PlainFields(c: Candidate)
  {
    '|' !in c.sourceKey && '|' !in c.query && '|' !in c.lat
  }

  lemma KeyFields(c: Candidate)
    ensures LocationKey(c) == c.sourceKey + ['|'] + (c.query + ['|'] + (c.lat + ['|'] + c.lng))
  {
  }

  // Candidates without a bar in the first three fields are one location exactly when source, query
  // and both coordinates are the same.
  lemma SameLocationExactly(c: Candidate, d: Candidate)
    requires PlainFields(c) && PlainFields(d)
    ensures LocationKey(c) == LocationKey(d)
       <==> c.sourceKey == d.sourceKey && c.query == d.query && c.lat == d.lat && c.lng == d.lng
  {
    KeyFields(c);
    KeyFields(d);
    hide LocationKey;
    if LocationKey(c) == LocationKey(d) {
      FirstField(c.sourceKey, d.sourceKey,
                 c.query + ['|'] + (c.lat + ['|'] + c.lng), d.query + ['|'] + (d.lat + ['|'] + d.lng));
      FirstField(c.query, d.query, c.lat + ['|'] + c.lng, d.lat + ['|'] + d.lng);
      FirstField(c.lat, d.lat, c.lng, d.lng);
    }
  }

  // With a bar in a field two locations can share a key.
  lemma BarsCollide(county: string, lat: string, lng: string, focus: string)
    ensures var c, d := Candidate("b", "s|a", county, lat, lng, focus), Candidate("a|b", "s", county, lat, lng, focus);
            c.query != d.query && LocationKey(c) == LocationKey(d)
  {
    var c, d := Candidate("b", "s|a", county, lat, lng, focus), Candidate("a|b", "s", county, lat, lng, focus);
    assert c.sourceKey + "|" + c.query == "s|a|b" == d.sourceKey + "|" + d.query;
  }

  // What a met quota means: more than 34 percent of the sample, and the fixed least number.
  lemma QuotaShare(candidates: seq<Candidate>, items: seq<Candidate>, size: nat)
    ensures QuotaMet(candidates, items, CORE, CoreTarget(size))
       <==> (Count(items, "core-alert") >= 30 && 100 * Count(items, "core-alert") > 35 * size - 100)
            || forall c | c in candidates && c.focus == "core-alert" :: LocationKey(c) in Keys(items)
    ensures QuotaMet(candidates, items, HIGH, HighTarget(size))
       <==> (Count(items, "high-concern") >= 25 && 100 * Count(items, "high-concern") > 35 * size - 100)
            || forall c | c in candidates && c.focus == "high-concern" :: LocationKey(c) in Keys(items)
  {
    hide LocationKey, Count;
    Share(Count(items, CORE), size);
    Share(Count(items, HIGH), size);
  }

  lemma Share(n: nat, size: nat)
    ensures n >= size * 35 / 100 <==> 100 * n > 35 * size - 100
  {
  }
}
