/** Times as both alert scripts keep them in their state, and the arithmetic of a backoff. */
module Stamps {
  import opened Text
  import opened Marker

  // The times a JavaScript Date can hold.
  type Millis = t: int | -8_640_000_000_000_000 <= t <= 8_640_000_000_000_000

  // toISOString, and Date.parse with None for text in which it reads no time.
  datatype Clock = Clock(iso: Millis -> string, read: string -> Option<Millis>)

  // What is printed is read back, and holds no markup.
  ghost predicate Faithful(clock: Clock)
  {
    forall t: Millis :: PrintsWell(clock, t)
  }

  ghost predicate PrintsWell(clock: Clock, t: Millis)
  {
    var text := clock.iso(t);
    text != "" && clock.read(text) == Some(t) && '<' !in text && '}' !in text
  }

  // x || y, for a field that may be missing or empty.
  function Or(x: Option<string>, y: string): Option<string>
  {
    if x.Some? && x.value != "" then x else Some(y)
  }

  // Date.parse(x || "").
  function Read(clock: Clock, x: Option<string>): Option<Millis>
  {
    if x.Some? && x.value != "" then clock.read(x.value) else None
  }

  // The text does not hold what closes a marker.
  ghost predicate CleanText(x: Option<string>)
  {
    x.Some? ==> !Occurs(x.value, CLOSER)
  }

  lemma IsoClean(clock: Clock, t: Millis)
    requires Faithful(clock)
    ensures CleanText(Some(clock.iso(t))) && Read(clock, Some(clock.iso(t))) == Some(t)
  {
    assert PrintsWell(clock, t);
    var text := clock.iso(t);
    forall i ensures !OccursAt(text, CLOSER, i) {
      if 0 <= i && i + |CLOSER| <= |text| {
        assert text[i..i + |CLOSER|][0] == text[i] && text[i] in text;
      }
    }
  }

  lemma AtMostQuotient(q: int, n: nat, d: int)
    requires d > 0 && q * d <= n
    ensures q <= n / d
  {
    var r := n / d + 1;
    assert r * d > n;
    assert q >= r ==> (q - r) * d >= 0;
    assert (q - r) * d == q * d - r * d;
  }

  // A faithful clock: the number of milliseconds in decimal.
  function CountingClock(): Clock
  {
    Clock((t: Millis) => Integer(t), ReadCount)
  }

  function ReadCount(text: string): Option<Millis>
  {
    match ParseInteger(text)
    case Some(n) => if -8_640_000_000_000_000 <= n <= 8_640_000_000_000_000 then Some(n) else None
    case None => None
  }

  lemma CountingClockFaithful()
    ensures Faithful(CountingClock())
  {
    forall t: Millis ensures PrintsWell(CountingClock(), t) {
      IntegerParses(t);
    }
  }
}
