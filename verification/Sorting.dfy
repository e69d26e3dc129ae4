/**
 * Python's sorted(): a stable sort by a key that is a tuple of strings, compared position by
 * position. The sort is written once, as insertion; StableSortUnique shows that any stable sort
 * gives the same list, so nothing here depends on that choice.
 */
module Sorting {
  import opened Text

  type Key = seq<string>

  predicate KeyLe(a: Key, b: Key)
  {
    a == [] || (b != [] && StrLe(a[0], b[0]) && (a[0] == b[0] ==> KeyLe(a[1..], b[1..])))
  }

  lemma {:induction false} KeyLeTotal(a: Key, b: Key)
    ensures KeyLe(a, b) || KeyLe(b, a)
  {
    if a != [] && b != [] {
      StrLeTotal(a[0], b[0]);
      KeyLeTotal(a[1..], b[1..]);
    }
  }

  lemma {:induction false} KeyLeTransitive(a: Key, b: Key, c: Key)
    requires KeyLe(a, b) && KeyLe(b, c)
    ensures KeyLe(a, c)
  {
    if a != [] {
      StrLeTransitive(a[0], b[0], c[0]);
      if a[0] == c[0] {
        StrLeAntisymmetric(a[0], b[0]);
        KeyLeTransitive(a[1..], b[1..], c[1..]);
      }
    }
  }

  lemma {:induction false} KeyLeAntisymmetric(a: Key, b: Key)
    requires KeyLe(a, b) && KeyLe(b, a)
    ensures a == b
  {
    if a != [] {
      StrLeAntisymmetric(a[0], b[0]);
      KeyLeAntisymmetric(a[1..], b[1..]);
      assert a == [a[0]] + a[1..] && b == [b[0]] + b[1..];
    }
  }

  // ---- the sort ------------------------------------------------------------------------------

  function Insert<T>(x: T, xs: seq<T>, key: T -> Key): seq<T>
  {
    if xs == [] || KeyLe(key(x), key(xs[0])) then [x] + xs
    else [xs[0]] + Insert(x, xs[1..], key)
  }

  function Sort<T>(xs: seq<T>, key: T -> Key): seq<T>
  {
    if xs == [] then [] else Insert(xs[0], Sort(xs[1..], key), key)
  }

  predicate Sorted<T>(xs: seq<T>, key: T -> Key)
  {
    forall i, j | 0 <= i < j < |xs| :: KeyLe(key(xs[i]), key(xs[j]))
  }

  // The elements whose key is k, in the order in which they stand in xs.
  function WithKey<T>(xs: seq<T>, key: T -> Key, k: Key): seq<T>
  {
    if xs == [] then []
    else if key(xs[0]) == k then [xs[0]] + WithKey(xs[1..], key, k)
    else WithKey(xs[1..], key, k)
  }

  lemma {:induction false} InsertSorted<T>(x: T, xs: seq<T>, key: T -> Key)
    requires Sorted(xs, key)
    ensures Sorted(Insert(x, xs, key), key)
    ensures multiset(Insert(x, xs, key)) == multiset{x} + multiset(xs)
  {
    hide KeyLe;
    if xs == [] {
    } else if KeyLe(key(x), key(xs[0])) {
      forall j | 0 <= j < |xs| ensures KeyLe(key(x), key(xs[j])) {
        if j > 0 { KeyLeTransitive(key(x), key(xs[0]), key(xs[j])); }
      }
    } else {
      var rest := Insert(x, xs[1..], key);
      InsertSorted(x, xs[1..], key);
      KeyLeTotal(key(x), key(xs[0]));
      assert xs == [xs[0]] + xs[1..];
      forall y | y in rest ensures KeyLe(key(xs[0]), key(y)) {
        assert y in multiset(rest);
        if y != x {
          assert y in xs[1..];
          var j :| 1 <= j < |xs| && xs[j] == y;
        }
      }
    }
  }

  lemma {:induction false} SortSorted<T>(xs: seq<T>, key: T -> Key)
    ensures Sorted(Sort(xs, key), key)
    ensures multiset(Sort(xs, key)) == multiset(xs)
  {
    if xs != [] {
      SortSorted(xs[1..], key);
      InsertSorted(xs[0], Sort(xs[1..], key), key);
      assert xs == [xs[0]] + xs[1..];
    }
  }

  lemma {:induction false} InsertStable<T>(x: T, xs: seq<T>, key: T -> Key, k: Key)
    ensures WithKey(Insert(x, xs, key), key, k) == WithKey([x] + xs, key, k)
  {
    if xs == [] || KeyLe(key(x), key(xs[0])) {
    } else {
      InsertStable(x, xs[1..], key, k);
      KeyLeTotal(key(x), key(xs[0]));
      assert ([x] + xs[1..])[1..] == xs[1..] && ([x] + xs)[1..] == xs;
      assert key(x) != key(xs[0]);
      assert ([xs[0]] + Insert(x, xs[1..], key))[1..] == Insert(x, xs[1..], key);
    }
  }

  lemma {:induction false} SortStable<T>(xs: seq<T>, key: T -> Key, k: Key)
    ensures WithKey(Sort(xs, key), key, k) == WithKey(xs, key, k)
  {
    if xs != [] {
      SortStable(xs[1..], key, k);
      InsertStable(xs[0], Sort(xs[1..], key), key, k);
      var sorted := Sort(xs[1..], key);
      assert ([xs[0]] + sorted)[1..] == sorted;
    }
  }

  lemma {:induction false} WithKeyMember<T>(xs: seq<T>, key: T -> Key, k: Key)
    ensures forall x | x in WithKey(xs, key, k) :: x in xs && key(x) == k
    ensures forall x | x in xs && key(x) == k :: x in WithKey(xs, key, k)
  {
    if xs != [] {
      WithKeyMember(xs[1..], key, k);
      assert xs == [xs[0]] + xs[1..];
    }
  }

  // A sorted list is determined by its classes of equal keys.
  lemma {:induction false} StableSortUnique<T>(xs: seq<T>, ys: seq<T>, key: T -> Key)
    requires Sorted(xs, key) && Sorted(ys, key)
    requires forall k :: WithKey(xs, key, k) == WithKey(ys, key, k)
    ensures xs == ys
  {
    if xs == [] {
      if ys != [] {
        WithKeyMember(ys, key, key(ys[0]));
        assert WithKey(xs, key, key(ys[0])) == [];
        assert false;
      }
    } else {
      var a := xs[0];
      WithKeyMember(xs, key, key(a));
      WithKeyMember(ys, key, key(a));
      assert a in WithKey(ys, key, key(a));
      var b := ys[0];
      WithKeyMember(xs, key, key(b));
      WithKeyMember(ys, key, key(b));
      assert b in WithKey(xs, key, key(b));
      assert KeyLe(key(a), key(b)) by { KeyLeTotal(key(a), key(a)); }
      assert KeyLe(key(b), key(a)) by { KeyLeTotal(key(b), key(b)); }
      KeyLeAntisymmetric(key(a), key(b));
      assert WithKey(xs, key, key(a))[0] == a && WithKey(ys, key, key(a))[0] == b;
      forall k ensures WithKey(xs[1..], key, k) == WithKey(ys[1..], key, k) {
        assert WithKey(xs, key, k) == WithKey(ys, key, k);
        var head := if key(a) == k then [a] else [];
        assert WithKey(xs, key, k) == head + WithKey(xs[1..], key, k);
        assert WithKey(ys, key, k) == head + WithKey(ys[1..], key, k);
        assert WithKey(xs[1..], key, k) == WithKey(xs, key, k)[|head|..];
        assert WithKey(ys[1..], key, k) == WithKey(ys, key, k)[|head|..];
      }
      StableSortUnique(xs[1..], ys[1..], key);
      assert xs == [a] + xs[1..] && ys == [b] + ys[1..];
    }
  }

  // Two lists with the same classes of equal keys sort to the same list.
  lemma SortDetermined<T>(xs: seq<T>, ys: seq<T>, key: T -> Key)
    requires forall k :: WithKey(xs, key, k) == WithKey(ys, key, k)
    ensures Sort(xs, key) == Sort(ys, key)
  {
    SortSorted(xs, key);
    SortSorted(ys, key);
    forall k ensures WithKey(Sort(xs, key), key, k) == WithKey(Sort(ys, key), key, k) {
      SortStable(xs, key, k);
      SortStable(ys, key, k);
    }
    StableSortUnique(Sort(xs, key), Sort(ys, key), key);
  }

  // ---- sorting a set of strings ----------------------------------------------------------------

  predicate IsLeast(m: string, s: set<string>)
  {
    m in s && forall y | y in s :: StrLe(m, y)
  }

  lemma {:induction false} LeastExists(s: set<string>)
    requires s != {}
    ensures exists m :: IsLeast(m, s)
    decreases |s|
  {
    var x :| x in s;
    StrLeReflexive(x);
    if s == {x} {
      assert IsLeast(x, s);
    } else {
      var rest := s - {x};
      LeastExists(rest);
      var m :| IsLeast(m, rest);
      StrLeTotal(m, x);
      if StrLe(m, x) {
        assert forall y | y in s :: y == x || y in rest;
        assert IsLeast(m, s);
      } else {
        forall y | y in s ensures StrLe(x, y) {
          if y != x { StrLeTransitive(x, m, y); }
        }
        assert IsLeast(x, s);
      }
    }
  }

  lemma LeastUnique(s: set<string>)
    ensures forall m, n | IsLeast(m, s) && IsLeast(n, s) :: m == n
  {
    forall m, n | IsLeast(m, s) && IsLeast(n, s) ensures m == n {
      StrLeAntisymmetric(m, n);
    }
  }

  function SortedSet(s: set<string>): (r: seq<string>)
    ensures forall x :: x in r <==> x in s
    decreases |s|
  {
    if s == {} then []
    else
      LeastExists(s);
      LeastUnique(s);
      var m :| IsLeast(m, s);
      [m] + SortedSet(s - {m})
  }

  predicate Ascending(r: seq<string>)
  {
    forall i, j | 0 <= i < j < |r| :: StrLe(r[i], r[j]) && r[i] != r[j]
  }

  lemma {:induction false} SortedSetOrdered(s: set<string>)
    ensures |SortedSet(s)| == |s| && Ascending(SortedSet(s))
    decreases |s|
  {
    hide StrLe;
    if s != {} {
      LeastExists(s);
      LeastUnique(s);
      var m :| IsLeast(m, s);
      var rest := SortedSet(s - {m});
      assert SortedSet(s) == [m] + rest;
      SortedSetOrdered(s - {m});
      forall x | x in rest ensures StrLe(m, x) && m != x {
        assert x in s - {m};
      }
      AscendingCons(m, rest);
    }
  }

  lemma AscendingCons(m: string, rest: seq<string>)
    requires Ascending(rest) && forall x | x in rest :: StrLe(m, x) && m != x
    ensures Ascending([m] + rest)
  {
    hide StrLe;
  }
}
