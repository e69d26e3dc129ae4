/** Filtering and mapping of lists. */
module Lists {
  function Filter<T>(xs: seq<T>, p: T -> bool): seq<T>
  {
    if xs == [] then []
    else if p(xs[0]) then [xs[0]] + Filter(xs[1..], p)
    else Filter(xs[1..], p)
  }

  lemma {:induction false} FilterAppend<T>(xs: seq<T>, ys: seq<T>, p: T -> bool)
    ensures Filter(xs + ys, p) == Filter(xs, p) + Filter(ys, p)
  {
    if xs == [] {
      assert xs + ys == ys;
    } else {
      FilterAppend(xs[1..], ys, p);
      assert (xs + ys)[0] == xs[0] && (xs + ys)[1..] == xs[1..] + ys;
    }
  }

  lemma {:induction false} FilterMember<T>(xs: seq<T>, p: T -> bool)
    ensures forall x :: x in Filter(xs, p) <==> x in xs && p(x)
  {
    if xs != [] {
      FilterMember(xs[1..], p);
      assert xs == [xs[0]] + xs[1..];
    }
  }

  lemma {:induction false} FilterAll<T>(xs: seq<T>, p: T -> bool)
    requires forall x | x in xs :: p(x)
    ensures Filter(xs, p) == xs
  {
    if xs != [] {
      FilterAll(xs[1..], p);
      assert xs == [xs[0]] + xs[1..];
    }
  }

  lemma {:induction false} FilterNone<T>(xs: seq<T>, p: T -> bool)
    requires forall x | x in xs :: !p(x)
    ensures Filter(xs, p) == []
  {
    if xs != [] { FilterNone(xs[1..], p); }
  }

  function Map<A, B>(xs: seq<A>, f: A -> B): (ys: seq<B>)
    ensures |ys| == |xs| && forall i | 0 <= i < |xs| :: ys[i] == f(xs[i])
  {
    seq(|xs|, i requires 0 <= i < |xs| => f(xs[i]))
  }

  lemma {:induction false} FilterLength<T>(xs: seq<T>, p: T -> bool)
    ensures |Filter(xs, p)| <= |xs|
  {
    if xs != [] { FilterLength(xs[1..], p); }
  }

  lemma {:induction false} FilterCommute<T>(xs: seq<T>, p: T -> bool, q: T -> bool)
    ensures Filter(Filter(xs, p), q) == Filter(Filter(xs, q), p)
  {
    if xs != [] {
      var x, rest := xs[0], xs[1..];
      FilterCommute(rest, p, q);
      if p(x) && q(x) {
        assert ([x] + Filter(rest, p))[1..] == Filter(rest, p);
        assert ([x] + Filter(rest, q))[1..] == Filter(rest, q);
      } else if p(x) {
        assert ([x] + Filter(rest, p))[1..] == Filter(rest, p);
      } else if q(x) {
        assert ([x] + Filter(rest, q))[1..] == Filter(rest, q);
      }
    }
  }

  lemma {:induction false} FilterTwice<T>(xs: seq<T>, p: T -> bool, q: T -> bool, both: T -> bool)
    requires forall x | x in xs :: both(x) <==> p(x) && q(x)
    ensures Filter(Filter(xs, p), q) == Filter(xs, both)
  {
    if xs != [] {
      var x, rest := xs[0], xs[1..];
      assert forall y | y in rest :: y in xs;
      FilterTwice(rest, p, q, both);
      if p(x) { assert ([x] + Filter(rest, p))[1..] == Filter(rest, p); }
    }
  }

  lemma {:induction false} FilterOften<T>(xs: seq<T>, p: T -> bool)
    ensures forall x :: multiset(Filter(xs, p))[x] == if p(x) then multiset(xs)[x] else 0
  {
    if xs != [] {
      FilterOften(xs[1..], p);
      assert xs == [xs[0]] + xs[1..];
    }
  }

  // The places at which the list has an element with the property, in order.
  ghost predicate Places<T>(xs: seq<T>, p: T -> bool, places: seq<nat>)
  {
    && (forall i | 0 <= i < |places| :: places[i] < |xs| && p(xs[places[i]]))
    && (forall i, j | 0 <= i < j < |places| :: places[i] < places[j])
    && forall k: nat | k < |xs| && p(xs[k]) :: k in places
  }

  // A filtered list, place by place.
  ghost predicate TakenFrom<T>(ys: seq<T>, xs: seq<T>, places: seq<nat>)
  {
    |ys| == |places| && forall i | 0 <= i < |ys| :: places[i] < |xs| && ys[i] == xs[places[i]]
  }

  lemma {:induction false} FilterPlaces<T>(xs: seq<T>, p: T -> bool) returns (places: seq<nat>)
    ensures Places(xs, p, places) && TakenFrom(Filter(xs, p), xs, places)
  {
    places := [];
    if xs != [] {
      var n := |xs| - 1;
      var front := xs[..n];
      places := FilterPlaces(front, p);
      assert xs == front + [xs[n]];
      FilterAppend(front, [xs[n]], p);
      assert [xs[n]][1..] == [];
      assert forall k: nat | k < n :: xs[k] == front[k];
      if p(xs[n]) {
        ghost var before := places;
        places := places + [n];
        assert forall k | k in before :: k in places;
        assert places[|before|] == n;
      }
    }
  }
}
