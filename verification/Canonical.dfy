/**
 * The canonical form under which the watchdog hashes its reports
 * (scripts/ci/local-source-watchdog-state.js, canonicalize): object keys sorted, and captured_at
 * dropped, at every depth. Here an object is the list of its fields in their own order.
 */
module Canonical {
  import opened Sorting

  datatype Value = Leaf(text: string) | Array(items: seq<Value>) | Object(fields: seq<Field>)

  datatype Field = Field(key: string, value: Value)

  const VOLATILE := "captured_at"

  function KeyOf(field: Field): Key { [field.key] }

  function Canon(v: Value): Value
  {
    match v
    case Leaf(_) => v
    case Array(items) => Array(CanonItems(items))
    case Object(fields) => Object(Sort(CanonFields(fields), KeyOf))
  }

  function CanonItems(items: seq<Value>): (r: seq<Value>)
  {
    if items == [] then [] else [Canon(items[0])] + CanonItems(items[1..])
  }

  function CanonFields(fields: seq<Field>): seq<Field>
  {
    if fields == [] then []
    else if fields[0].key == VOLATILE then CanonFields(fields[1..])
    else [Field(fields[0].key, Canon(fields[0].value))] + CanonFields(fields[1..])
  }

  // ---- what a value means ------------------------------------------------------------------------

  // The value without captured_at, its objects as dictionaries.
  datatype Plain = PLeaf(text: string) | PArray(items: seq<Plain>) | PObject(fields: map<string, Plain>)

  function Erase(v: Value): Plain
  {
    match v
    case Leaf(text) => PLeaf(text)
    case Array(items) => PArray(EraseItems(items))
    case Object(fields) => PObject(EraseFields(fields))
  }

  function EraseItems(items: seq<Value>): (r: seq<Plain>)
    ensures |r| == |items|
  {
    if items == [] then [] else [Erase(items[0])] + EraseItems(items[1..])
  }

  function EraseFields(fields: seq<Field>): map<string, Plain>
  {
    if fields == [] then map[]
    else if fields[0].key == "captured_at" then EraseFields(fields[1..])
    else EraseFields(fields[1..])[fields[0].key := Erase(fields[0].value)]
  }

  // What JSON.parse gives: no object has a key twice.
  ghost predicate WellFormed(v: Value)
  {
    match v
    case Leaf(_) => true
    case Array(items) => forall i | 0 <= i < |items| :: WellFormed(items[i])
    case Object(fields) => DistinctFields(fields) && forall i | 0 <= i < |fields| :: WellFormed(fields[i].value)
  }

  ghost predicate DistinctFields(fields: seq<Field>)
  {
    forall i, j | 0 <= i < j < |fields| :: fields[i].key != fields[j].key
  }

  // A value in canonical form.
  ghost predicate IsCanonical(v: Value)
  {
    match v
    case Leaf(_) => true
    case Array(items) => forall i | 0 <= i < |items| :: IsCanonical(items[i])
    case Object(fields) =>
      DistinctFields(fields) && Sorted(fields, KeyOf)
      && forall i | 0 <= i < |fields| :: fields[i].key != VOLATILE && IsCanonical(fields[i].value)
  }

  // ---- fields and their dictionary ---------------------------------------------------------------

  lemma {:induction false} EraseItemsAt(items: seq<Value>, i: nat)
    requires i < |items|
    ensures EraseItems(items)[i] == Erase(items[i])
  {
    if i > 0 { EraseItemsAt(items[1..], i - 1); }
  }

  // Field f is what the dictionary holds for its key.
  ghost predicate Holds(plain: map<string, Plain>, f: Field)
  {
    f.key in plain && plain[f.key] == Erase(f.value)
  }

  ghost predicate HasKey(fields: seq<Field>, k: string)
  {
    exists f :: f in fields && f.key == k
  }

  lemma {:induction false} EraseFieldsAt(fields: seq<Field>)
    requires DistinctFields(fields)
    ensures forall f | f in fields && f.key != VOLATILE :: Holds(EraseFields(fields), f)
    ensures forall k | k in EraseFields(fields) :: k != VOLATILE && HasKey(fields, k)
  {
    hide Erase, DistinctFields;
    if fields != [] {
      var head, tail := fields[0], fields[1..];
      assert fields == [head] + tail;
      HasKeyCons(head, tail);
      EraseFieldsAt(tail);
      forall f | f in fields && f.key != VOLATILE ensures Holds(EraseFields(fields), f) {
        if f in tail {
          assert Holds(EraseFields(tail), f) && HasKey(tail, f.key);
        }
      }
    }
  }

  lemma SameKeys(a: seq<Field>, b: seq<Field>, k: string)
    requires DistinctFields(a) && DistinctFields(b)
    requires forall f :: f in a <==> f in b
    ensures k in EraseFields(a) ==> k in EraseFields(b)
  {
    EraseFieldsAt(a);
    EraseFieldsAt(b);
    if k in EraseFields(a) {
      assert HasKey(a, k);
      var f :| f in a && f.key == k;
      assert Holds(EraseFields(b), f);
    }
  }

  // The dictionary does not depend on the order of the fields.
  lemma EraseFieldsSame(a: seq<Field>, b: seq<Field>)
    requires DistinctFields(a) && DistinctFields(b)
    requires forall f :: f in a <==> f in b
    ensures EraseFields(a) == EraseFields(b)
  {
    EraseFieldsAt(a);
    EraseFieldsAt(b);
    forall k ensures k in EraseFields(a) <==> k in EraseFields(b) {
      SameKeys(a, b, k);
      SameKeys(b, a, k);
    }
    forall k | k in EraseFields(a) ensures EraseFields(a)[k] == EraseFields(b)[k] {
      assert HasKey(a, k);
      var f :| f in a && f.key == k;
      assert Holds(EraseFields(a), f) && Holds(EraseFields(b), f);
    }
  }

  lemma {:induction false} CanonFieldsKeys(fields: seq<Field>)
    ensures forall f | f in CanonFields(fields) :: HasKey(fields, f.key)
    ensures DistinctFields(fields) ==> DistinctFields(CanonFields(fields))
  {
    hide Canon;
    if fields != [] {
      var head, tail := fields[0], fields[1..];
      CanonFieldsKeys(tail);
      HasKeyCons(head, tail);
      assert fields == [head] + tail;
    }
  }

  lemma HasKeyCons(head: Field, tail: seq<Field>)
    ensures forall k :: HasKey([head] + tail, k) <==> k == head.key || HasKey(tail, k)
    ensures DistinctFields([head] + tail) <==> DistinctFields(tail) && !HasKey(tail, head.key)
  {
    var fields := [head] + tail;
    forall k ensures HasKey(fields, k) <==> k == head.key || HasKey(tail, k) {
      assert head in fields;
      if HasKey(tail, k) {
        var f :| f in tail && f.key == k;
        assert f in fields;
      }
    }
    if DistinctFields(fields) {
      forall f | f in tail ensures f.key != head.key {
        var i :| 0 <= i < |tail| && tail[i] == f;
        assert fields[0] == head && fields[i + 1] == f;
      }
      forall i, j | 0 <= i < j < |tail| ensures tail[i].key != tail[j].key {
        assert fields[i + 1] == tail[i] && fields[j + 1] == tail[j];
      }
    }
    if DistinctFields(tail) && !HasKey(tail, head.key) {
      forall i, j | 0 <= i < j < |fields| ensures fields[i].key != fields[j].key {
        assert fields[j] == tail[j - 1] && tail[j - 1] in tail;
      }
    }
  }

  lemma PermutedFields(a: seq<Field>, b: seq<Field>)
    requires multiset(a) == multiset(b)
    ensures |a| == |b| && forall f :: f in a <==> f in b
    ensures DistinctFields(a) ==> DistinctFields(b)
  {
    assert |a| == |multiset(a)| == |multiset(b)| == |b|;
    forall f ensures f in a <==> f in b {
      assert f in multiset(a) <==> f in multiset(b);
    }
    if DistinctFields(a) {
      forall i, j | 0 <= i < j < |b| ensures b[i].key != b[j].key {
        if b[i].key == b[j].key { TwicePermuted(a, b, i, j); }
      }
    }
  }

  lemma TwicePermuted(a: seq<Field>, b: seq<Field>, i: nat, j: nat)
    requires multiset(a) == multiset(b) && i < j < |b| && b[i].key == b[j].key
    ensures !DistinctFields(a)
  {
    if b[i] == b[j] {
      TwoPlaces(b, i, j);
      TwiceIn(a, b[i]);
    } else {
      assert b[i] in multiset(a) && b[j] in multiset(a);
      var k :| 0 <= k < |a| && a[k] == b[i];
      var l :| 0 <= l < |a| && a[l] == b[j];
      assert a[k].key == a[l].key && k != l;
    }
  }

  lemma TwoPlaces(b: seq<Field>, i: nat, j: nat)
    requires i < j < |b| && b[i] == b[j]
    ensures multiset(b)[b[i]] >= 2
  {
    assert b == b[..j] + b[j..];
    assert b[i] in b[..j] by { assert b[..j][i] == b[i]; }
    assert b[j] in b[j..] by { assert b[j..][0] == b[j]; }
    assert multiset(b) == multiset(b[..j]) + multiset(b[j..]);
  }

  lemma {:induction false} TwiceIn(a: seq<Field>, f: Field)
    requires multiset(a)[f] >= 2
    ensures !DistinctFields(a)
  {
    assert a == [a[0]] + a[1..];
    if a[0] == f {
      assert f in multiset(a[1..]);
      var k :| 0 <= k < |a[1..]| && a[1..][k] == f;
      assert a[0].key == a[k + 1].key;
    } else {
      TwiceIn(a[1..], f);
      var i, j :| 0 <= i < j < |a[1..]| && a[1..][i].key == a[1..][j].key;
      assert a[i + 1].key == a[j + 1].key;
    }
  }

  // ---- the canonical form keeps the meaning ------------------------------------------------------

  lemma {:induction false} CanonSound(v: Value)
    requires WellFormed(v)
    ensures IsCanonical(Canon(v)) && WellFormed(Canon(v)) && Erase(Canon(v)) == Erase(v)
    decreases v, 1
  {
    match v
    case Leaf(_) =>
    case Array(items) => CanonItemsSound(items);
    case Object(fields) =>
      CanonFieldsSound(fields);
      SortSorted(CanonFields(fields), KeyOf);
      PermutedFields(CanonFields(fields), Sort(CanonFields(fields), KeyOf));
      EraseFieldsSame(CanonFields(fields), Sort(CanonFields(fields), KeyOf));
      SortedFieldsSound(CanonFields(fields));
  }

  ghost predicate Clean(f: Field)
  {
    f.key != VOLATILE && IsCanonical(f.value) && WellFormed(f.value)
  }

  lemma SortedFieldsSound(fields: seq<Field>)
    requires DistinctFields(fields) && forall f | f in fields :: Clean(f)
    ensures IsCanonical(Object(Sort(fields, KeyOf))) && WellFormed(Object(Sort(fields, KeyOf)))
  {
    var sorted := Sort(fields, KeyOf);
    SortSorted(fields, KeyOf);
    PermutedFields(fields, sorted);
    forall i | 0 <= i < |sorted| ensures Clean(sorted[i]) {
      assert sorted[i] in sorted;
    }
  }

  lemma {:induction false} CanonItemsSound(items: seq<Value>)
    requires forall i | 0 <= i < |items| :: WellFormed(items[i])
    ensures var r := CanonItems(items);
            && |r| == |items| && EraseItems(r) == EraseItems(items)
            && forall i | 0 <= i < |r| :: IsCanonical(r[i]) && WellFormed(r[i])
    decreases items, 0
  {
    if items != [] {
      CanonSound(items[0]);
      CanonItemsSound(items[1..]);
      assert CanonItems(items)[1..] == CanonItems(items[1..]);
    }
  }

  lemma {:induction false} CanonFieldsSound(fields: seq<Field>)
    requires DistinctFields(fields) && forall i | 0 <= i < |fields| :: WellFormed(fields[i].value)
    ensures DistinctFields(CanonFields(fields)) && EraseFields(CanonFields(fields)) == EraseFields(fields)
    ensures forall f | f in CanonFields(fields) :: Clean(f)
    decreases fields, 0
  {
    hide IsCanonical, WellFormed, Canon;
    CanonFieldsKeys(fields);
    if fields != [] {
      CanonSound(fields[0].value);
      CanonFieldsSound(fields[1..]);
      if fields[0].key != VOLATILE {
        assert CanonFields(fields)[1..] == CanonFields(fields[1..]);
      }
    }
  }

  // ---- canonical forms are unique -----------------------------------------------------------------

  // Two lists sorted by their distinct keys, with the same keys, have them in the same places.
  lemma {:induction false} SameKeyPlaces(a: seq<Field>, b: seq<Field>)
    requires DistinctFields(a) && DistinctFields(b) && Sorted(a, KeyOf) && Sorted(b, KeyOf)
    requires forall k :: HasKey(a, k) <==> HasKey(b, k)
    ensures |a| == |b| && forall i | 0 <= i < |a| :: a[i].key == b[i].key
  {
    FirstKey(a);
    FirstKey(b);
    if a != [] && b != [] {
      FirstKeyLeast(a, b);
      FirstKeyLeast(b, a);
      KeyLeAntisymmetric(KeyOf(a[0]), KeyOf(b[0]));
      assert a[0].key == b[0].key by { assert KeyOf(a[0])[0] == KeyOf(b[0])[0]; }
      forall k ensures HasKey(a[1..], k) <==> HasKey(b[1..], k) {
        TailKeys(a, k);
        TailKeys(b, k);
      }
      SameKeyPlaces(a[1..], b[1..]);
      forall i | 0 <= i < |a| ensures a[i].key == b[i].key {
        if i > 0 { assert a[i] == a[1..][i - 1] && b[i] == b[1..][i - 1]; }
      }
    }
  }

  lemma FirstKey(a: seq<Field>)
    ensures a == [] <==> forall k :: !HasKey(a, k)
  {
    if a != [] { assert a[0] in a && HasKey(a, a[0].key); }
  }

  lemma FirstKeyLeast(a: seq<Field>, b: seq<Field>)
    requires a != [] && b != [] && Sorted(a, KeyOf) && HasKey(a, b[0].key)
    ensures KeyLe(KeyOf(a[0]), KeyOf(b[0]))
  {
    KeyLeTotal(KeyOf(a[0]), KeyOf(a[0]));
    var f :| f in a && f.key == b[0].key;
    var i :| 0 <= i < |a| && a[i] == f;
  }

  lemma TailKeys(a: seq<Field>, k: string)
    requires a != [] && DistinctFields(a)
    ensures HasKey(a[1..], k) <==> HasKey(a, k) && k != a[0].key
  {
    if HasKey(a[1..], k) {
      var f :| f in a[1..] && f.key == k;
      var i :| 0 <= i < |a[1..]| && a[1..][i] == f;
      assert a[i + 1] == f && f in a;
    }
    if HasKey(a, k) && k != a[0].key {
      var f :| f in a && f.key == k;
      assert a == [a[0]] + a[1..];
      assert f in a[1..];
    }
  }

  // Every key but the volatile one is a key of the dictionary.
  lemma ErasedKeys(fields: seq<Field>, k: string)
    requires DistinctFields(fields) && forall i | 0 <= i < |fields| :: fields[i].key != VOLATILE
    ensures k in EraseFields(fields) <==> HasKey(fields, k)
  {
    EraseFieldsAt(fields);
    if HasKey(fields, k) {
      var f :| f in fields && f.key == k;
      assert Holds(EraseFields(fields), f);
    }
  }

  lemma {:induction false} CanonicalUnique(a: Value, b: Value)
    requires IsCanonical(a) && IsCanonical(b) && Erase(a) == Erase(b)
    ensures a == b
  {
    match a
    case Leaf(_) =>
    case Array(items) =>
      forall i | 0 <= i < |items| ensures items[i] == b.items[i] {
        EraseItemsAt(items, i);
        EraseItemsAt(b.items, i);
        CanonicalUnique(items[i], b.items[i]);
      }
      assert items == b.items;
    case Object(fields) =>
      forall k ensures HasKey(fields, k) <==> HasKey(b.fields, k) {
        ErasedKeys(fields, k);
        ErasedKeys(b.fields, k);
      }
      SameKeyPlaces(fields, b.fields);
      forall i | 0 <= i < |fields| ensures fields[i] == b.fields[i] {
        SameValue(fields, b.fields, i);
        CanonicalUnique(fields[i].value, b.fields[i].value);
      }
      assert fields == b.fields;
  }

  lemma SameValue(a: seq<Field>, b: seq<Field>, i: nat)
    requires DistinctFields(a) && DistinctFields(b) && EraseFields(a) == EraseFields(b)
    requires i < |a| == |b| && a[i].key == b[i].key && a[i].key != VOLATILE
    ensures Erase(a[i].value) == Erase(b[i].value)
  {
    EraseFieldsAt(a);
    EraseFieldsAt(b);
    assert a[i] in a && b[i] in b;
    assert Holds(EraseFields(a), a[i]) && Holds(EraseFields(b), b[i]);
  }

  // ---- the main results ---------------------------------------------------------------------------

  // Equal canonical forms are exactly equal contents: nothing but the order of keys and the
  // volatile fields is forgotten, and both are.
  lemma CanonDecides(a: Value, b: Value)
    requires WellFormed(a) && WellFormed(b)
    ensures Canon(a) == Canon(b) <==> Erase(a) == Erase(b)
  {
    CanonSound(a);
    CanonSound(b);
    if Erase(a) == Erase(b) { CanonicalUnique(Canon(a), Canon(b)); }
  }

  lemma CanonIdempotent(v: Value)
    requires WellFormed(v)
    ensures Canon(Canon(v)) == Canon(v)
  {
    CanonSound(v);
    CanonSound(Canon(v));
    CanonicalUnique(Canon(Canon(v)), Canon(v));
  }

  // Neither the order of the fields, nor what the volatile one holds, nor anything the canonical
  // form of a field's value forgets, is seen in the canonical form of the object.
  lemma FieldsForgotten(a: seq<Field>, b: seq<Field>)
    requires WellFormed(Object(a)) && WellFormed(Object(b))
    requires Covered(a, b) && Covered(b, a)
    ensures Canon(Object(a)) == Canon(Object(b))
  {
    CoveredHolds(a, b);
    CoveredHolds(b, a);
    assert EraseFields(a) == EraseFields(b);
    CanonDecides(Object(a), Object(b));
  }

  ghost predicate Covered(a: seq<Field>, b: seq<Field>)
  {
    forall f | f in a && f.key != VOLATILE ::
      exists g :: g in b && g.key == f.key && Canon(g.value) == Canon(f.value)
  }

  lemma CoveredHolds(a: seq<Field>, b: seq<Field>)
    requires WellFormed(Object(a)) && WellFormed(Object(b)) && Covered(a, b)
    ensures forall k | k in EraseFields(a) :: k in EraseFields(b) && EraseFields(b)[k] == EraseFields(a)[k]
  {
    EraseFieldsAt(a);
    EraseFieldsAt(b);
    forall k | k in EraseFields(a) ensures k in EraseFields(b) && EraseFields(b)[k] == EraseFields(a)[k] {
      assert HasKey(a, k);
      var f :| f in a && f.key == k;
      var g :| g in b && g.key == k && Canon(g.value) == Canon(f.value);
      assert Holds(EraseFields(a), f) && Holds(EraseFields(b), g);
      CanonDecides(f.value, g.value);
    }
  }

  // ---- the script's own order of work --------------------------------------------------------------

  lemma {:induction false} CanonFieldsWithKey(fields: seq<Field>, k: Key)
    ensures WithKey(CanonFields(fields), KeyOf, k) == CanonFields(WithKey(fields, KeyOf, k))
  {
    hide Canon;
    if fields != [] {
      var head, tail := fields[0], fields[1..];
      CanonFieldsWithKey(tail, k);
      if head.key != VOLATILE {
        var done := Field(head.key, Canon(head.value));
        assert ([done] + CanonFields(tail))[1..] == CanonFields(tail);
        assert KeyOf(done) == KeyOf(head);
      }
      if KeyOf(head) == k {
        assert ([head] + WithKey(tail, KeyOf, k))[1..] == WithKey(tail, KeyOf, k);
      }
    }
  }

  lemma {:induction false} CanonFieldsSorted(fields: seq<Field>)
    requires Sorted(fields, KeyOf)
    ensures Sorted(CanonFields(fields), KeyOf)
  {
    hide Canon, KeyLe;
    if fields != [] {
      var tail := fields[1..];
      CanonFieldsSorted(tail);
      CanonFieldsKeys(tail);
      forall f | f in CanonFields(tail) ensures KeyLe(KeyOf(fields[0]), KeyOf(f)) {
        assert HasKey(tail, f.key);
        var g :| g in tail && g.key == f.key;
        var i :| 0 <= i < |tail| && tail[i] == g;
        assert fields[i + 1] == g && KeyOf(g) == KeyOf(f);
      }
    }
  }

  // Sorting the keys before or after the values are made canonical is the same.
  lemma SortFirst(fields: seq<Field>)
    ensures CanonFields(Sort(fields, KeyOf)) == Sort(CanonFields(fields), KeyOf)
  {
    var a, b := CanonFields(Sort(fields, KeyOf)), Sort(CanonFields(fields), KeyOf);
    SortSorted(fields, KeyOf);
    SortSorted(CanonFields(fields), KeyOf);
    CanonFieldsSorted(Sort(fields, KeyOf));
    forall k ensures WithKey(a, KeyOf, k) == WithKey(b, KeyOf, k) {
      CanonFieldsWithKey(Sort(fields, KeyOf), k);
      SortStable(fields, KeyOf, k);
      CanonFieldsWithKey(fields, k);
      SortStable(CanonFields(fields), KeyOf, k);
    }
    StableSortUnique(a, b, KeyOf);
  }

  lemma {:induction false} CanonItemsAppend(items: seq<Value>, v: Value)
    ensures CanonItems(items + [v]) == CanonItems(items) + [Canon(v)]
  {
    if items == [] {
      assert items + [v] == [v] && [v][1..] == [];
    } else {
      assert (items + [v])[1..] == items[1..] + [v];
      CanonItemsAppend(items[1..], v);
    }
  }

  lemma {:induction false} CanonFieldsAppend(fields: seq<Field>, f: Field)
    ensures CanonFields(fields + [f])
         == if f.key == VOLATILE then CanonFields(fields) else CanonFields(fields) + [Field(f.key, Canon(f.value))]
  {
    hide Canon;
    if fields == [] {
      assert fields + [f] == [f] && [f][1..] == [];
    } else {
      assert (fields + [f])[1..] == fields[1..] + [f];
      CanonFieldsAppend(fields[1..], f);
    }
  }

  lemma SortedMembers(fields: seq<Field>)
    ensures forall f | f in Sort(fields, KeyOf) :: f in fields
  {
    SortSorted(fields, KeyOf);
    forall f | f in Sort(fields, KeyOf) ensures f in fields {
      assert f in multiset(Sort(fields, KeyOf));
    }
  }

  method Canonicalize(v: Value) returns (r: Value)
    ensures r == Canon(v)
    decreases v
  {
    match v
    case Leaf(_) => r := v;
    case Array(items) =>
      var canonical := [];
      for i := 0 to |items|
        invariant canonical == CanonItems(items[..i])
      {
        var item := Canonicalize(items[i]);
        assert items[..i + 1] == items[..i] + [items[i]];
        CanonItemsAppend(items[..i], items[i]);
        canonical := canonical + [item];
      }
      assert items[..|items|] == items;
      r := Array(canonical);
    case Object(fields) =>
      var sorted := Sort(fields, KeyOf);
      SortedMembers(fields);
      var canonical := [];
      for i := 0 to |sorted|
        invariant canonical == CanonFields(sorted[..i])
      {
        var f := sorted[i];
        assert f in sorted && f in fields;
        assert sorted[..i + 1] == sorted[..i] + [f];
        CanonFieldsAppend(sorted[..i], f);
        if f.key != VOLATILE {
          var value := Canonicalize(f.value);
          canonical := canonical + [Field(f.key, value)];
        }
      }
      assert sorted[..|sorted|] == sorted;
      SortFirst(fields);
      r := Object(canonical);
  }
}
