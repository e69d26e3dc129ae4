/**
 * String operations of the languages the repository is written in: ordering by code point,
 * splitting and joining on one character, left-to-right replacement, trimming and searching.
 */
module Text {
  datatype Option<+T> = None | Some(value: T)

  datatype Result<+T, +E> = Ok(value: T) | Err(error: E)

  // ---- lexicographic order -------------------------------------------------------------------

  predicate StrLe(a: string, b: string)
  {
    a == "" || (b != "" && (a[0] < b[0] || (a[0] == b[0] && StrLe(a[1..], b[1..]))))
  }

  lemma {:induction false} StrLeTotal(a: string, b: string)
    ensures StrLe(a, b) || StrLe(b, a)
  {
    if a != "" && b != "" { StrLeTotal(a[1..], b[1..]); }
  }

  lemma {:induction false} StrLeTransitive(a: string, b: string, c: string)
    requires StrLe(a, b) && StrLe(b, c)
    ensures StrLe(a, c)
  {
    if a != "" && a[0] == b[0] && b[0] == c[0] { StrLeTransitive(a[1..], b[1..], c[1..]); }
  }

  lemma {:induction false} StrLeAntisymmetric(a: string, b: string)
    requires StrLe(a, b) && StrLe(b, a)
    ensures a == b
  {
    if a != "" {
      StrLeAntisymmetric(a[1..], b[1..]);
      assert a == [a[0]] + a[1..] && b == [b[0]] + b[1..];
    }
  }

  lemma {:induction false} StrLeReflexive(a: string)
    ensures StrLe(a, a)
  {
    if a != "" { StrLeReflexive(a[1..]); }
  }

  // ---- split and join ------------------------------------------------------------------------

  function Split(s: string, sep: char): (parts: seq<string>)
    ensures |parts| > 0
    ensures forall p | p in parts :: sep !in p
  {
    if s == "" then [""]
    else
      var rest := Split(s[1..], sep);
      if s[0] == sep then [""] + rest else [[s[0]] + rest[0]] + rest[1..]
  }

  function Join(parts: seq<string>, sep: char): string
    requires |parts| > 0
  {
    if |parts| == 1 then parts[0] else parts[0] + [sep] + Join(parts[1..], sep)
  }

  lemma {:induction false} JoinSplit(s: string, sep: char)
    ensures Join(Split(s, sep), sep) == s
  {
    if s != "" {
      JoinSplit(s[1..], sep);
      var rest := Split(s[1..], sep);
      if s[0] == sep {
        assert ([""] + rest)[1..] == rest;
      } else if |rest| > 1 {
        assert ([[s[0]] + rest[0]] + rest[1..])[1..] == rest[1..];
      }
    }
  }

  lemma {:induction false} SplitPart(part: string, sep: char)
    requires sep !in part
    ensures Split(part, sep) == [part]
  {
    if part != "" {
      SplitPart(part[1..], sep);
      assert [part[0]] + part[1..] == part;
    }
  }

  lemma {:induction false} SplitPrefix(part: string, rest: string, sep: char)
    requires sep !in part
    ensures Split(part + [sep] + rest, sep) == [part] + Split(rest, sep)
  {
    if part == "" {
      assert (part + [sep] + rest)[1..] == rest;
    } else {
      SplitPrefix(part[1..], rest, sep);
      assert (part + [sep] + rest)[1..] == part[1..] + [sep] + rest;
      assert [part[0]] + part[1..] == part;
    }
  }

  lemma {:induction false} SplitJoin(parts: seq<string>, sep: char)
    requires |parts| > 0
    requires forall p | p in parts :: sep !in p
    ensures Split(Join(parts, sep), sep) == parts
  {
    if |parts| == 1 {
      SplitPart(parts[0], sep);
    } else {
      SplitJoin(parts[1..], sep);
      SplitPrefix(parts[0], Join(parts[1..], sep), sep);
    }
  }

  lemma {:induction false} JoinAppend(front: seq<string>, back: seq<string>, sep: char)
    requires |front| > 0 && |back| > 0
    ensures Join(front + back, sep) == Join(front, sep) + [sep] + Join(back, sep)
  {
    if |front| == 1 {
      assert (front + back)[1..] == back;
    } else {
      JoinAppend(front[1..], back, sep);
      assert (front + back)[1..] == front[1..] + back;
    }
  }

  // ---- replacement ---------------------------------------------------------------------------

  // Non-overlapping replacement from left to right.
  function Replace(s: string, pattern: string, image: string): string
    requires pattern != ""
  {
    if |s| < |pattern| then s
    else if pattern <= s then image + Replace(s[|pattern|..], pattern, image)
    else [s[0]] + Replace(s[1..], pattern, image)
  }

  lemma PrefixAt(pattern: string, s: string, i: nat)
    requires i < |pattern|
    ensures pattern <= s ==> i < |s| && s[i] == pattern[i]
  {
  }

  // ---- trimming ------------------------------------------------------------------------------

  // The characters Python's str.strip and str.isspace call white space.
  predicate IsSpace(c: char)
  {
    || '\t' <= c <= '\r' || '\U{1c}' <= c <= ' ' || c == '\U{85}' || c == '\U{a0}'
    || c == '\U{1680}' || '\U{2000}' <= c <= '\U{200a}' || c == '\U{2028}' || c == '\U{2029}'
    || c == '\U{202f}' || c == '\U{205f}' || c == '\U{3000}'
  }

  function TrimLeft(s: string, drop: char -> bool): (r: string)
    ensures |r| <= |s| && r == s[|s| - |r|..]
    ensures r != "" ==> !drop(r[0])
  {
    if s != "" && drop(s[0]) then TrimLeft(s[1..], drop) else s
  }

  function TrimRight(s: string, drop: char -> bool): (r: string)
    ensures r <= s
    ensures r != "" ==> !drop(r[|r| - 1])
    ensures forall i | |r| <= i < |s| :: drop(s[i])
  {
    if s != "" && drop(s[|s| - 1]) then TrimRight(s[..|s| - 1], drop) else s
  }

  function Trim(s: string, drop: char -> bool): string
  {
    TrimRight(TrimLeft(s, drop), drop)
  }

  function Strip(s: string): string
  {
    Trim(s, IsSpace)
  }

  lemma TrimIdempotent(s: string, drop: char -> bool)
    ensures Trim(Trim(s, drop), drop) == Trim(s, drop)
  {
    var left := TrimLeft(s, drop);
    var t := TrimRight(left, drop);
    if t != "" { assert t[0] == left[0]; }
  }

  lemma StripTwice(s: string)
    ensures Strip(Strip(s)) == Strip(s)
  {
    TrimIdempotent(s, IsSpace);
  }

  lemma {:induction false} TrimRightExact(kept: string, tail: string, drop: char -> bool)
    requires forall c | c in tail :: drop(c)
    requires kept != "" ==> !drop(kept[|kept| - 1])
    ensures TrimRight(kept + tail, drop) == kept
  {
    if tail == "" {
      assert kept + tail == kept;
    } else {
      var n := |tail| - 1;
      assert (kept + tail)[..|kept + tail| - 1] == kept + tail[..n];
      assert (kept + tail)[|kept + tail| - 1] == tail[n] && tail[n] in tail;
      TrimRightExact(kept, tail[..n], drop);
    }
  }

  lemma {:induction false} TrimLeftExact(front: string, kept: string, drop: char -> bool)
    requires forall c | c in front :: drop(c)
    requires kept != "" && !drop(kept[0])
    ensures TrimLeft(front + kept, drop) == kept
  {
    if front == "" {
      assert front + kept == kept;
    } else {
      assert (front + kept)[1..] == front[1..] + kept;
      TrimLeftExact(front[1..], kept, drop);
    }
  }

  // A text whose ends are not dropped is what trimming leaves of it and its surroundings.
  lemma TrimExact(front: string, kept: string, back: string, drop: char -> bool)
    requires (forall c | c in front :: drop(c)) && forall c | c in back :: drop(c)
    requires kept != "" && !drop(kept[0]) && !drop(kept[|kept| - 1])
    ensures Trim(front + kept + back, drop) == kept
  {
    assert front + kept + back == front + (kept + back);
    TrimLeftExact(front, kept + back, drop);
    TrimRightExact(kept, back, drop);
  }

  predicate IsBlank(s: string)
  {
    Strip(s) == ""
  }

  lemma StripEnds(s: string)
    requires s != "" && !IsSpace(s[0])
    ensures !IsBlank(s)
    ensures !IsSpace(s[|s| - 1]) ==> Strip(s) == s
  {
    assert TrimLeft(s, IsSpace) == s;
  }

  // ---- searching -----------------------------------------------------------------------------

  predicate StartsWith(s: string, prefix: string)
    ensures StartsWith(s, prefix) ==> |prefix| <= |s|
  {
    prefix == "" || (s != "" && s[0] == prefix[0] && StartsWith(s[1..], prefix[1..]))
  }

  lemma {:induction false} StartsWithAppend(prefix: string, tail: string)
    ensures StartsWith(prefix + tail, prefix)
  {
    if prefix != "" {
      assert (prefix + tail)[1..] == prefix[1..] + tail;
      StartsWithAppend(prefix[1..], tail);
    }
  }

  lemma {:induction false} StartsWithAt(s: string, prefix: string, i: nat)
    requires StartsWith(s, prefix) && i < |prefix|
    ensures s[i] == prefix[i]
  {
    if i > 0 { StartsWithAt(s[1..], prefix[1..], i - 1); }
  }

  predicate OccursAt(s: string, pattern: string, i: int)
  {
    0 <= i && i + |pattern| <= |s| && s[i..i + |pattern|] == pattern
  }

  // The first occurrence of pattern at or after position from.
  function Find(s: string, pattern: string, from: nat): (r: Option<nat>)
    ensures r.Some? ==> from <= r.value && OccursAt(s, pattern, r.value)
    ensures r.Some? ==> forall i | from <= i < r.value :: !OccursAt(s, pattern, i)
    ensures r.None? ==> forall i | from <= i :: !OccursAt(s, pattern, i)
    decreases |s| - from
  {
    if |s| < from + |pattern| then None
    else if s[from..from + |pattern|] == pattern then Some(from)
    else if from == |s| then None
    else Find(s, pattern, from + 1)
  }

  lemma FindBound(s: string, pattern: string, from: nat)
    ensures var r := Find(s, pattern, from); r.Some? ==> r.value + |pattern| <= |s|
  {
  }

  lemma FindChar(front: string, c: char, back: string)
    requires c !in front
    ensures Find(front + [c] + back, [c], 0) == Some(|front|)
  {
    var s := front + [c] + back;
    forall i | 0 <= i < |front| ensures !OccursAt(s, [c], i) {
      assert s[i] == front[i] && front[i] in front;
      assert s[i..i + 1] == [s[i]];
    }
    assert s[|front|..|front| + 1] == [c];
    assert OccursAt(s, [c], |front|);
  }

  ghost predicate Occurs(s: string, pattern: string)
  {
    exists i :: OccursAt(s, pattern, i)
  }

  // ---- searching in a text with a tail ----------------------------------------------------------

  lemma OccursEarly(s: string, tail: string, pattern: string, i: int)
    requires 0 <= i <= |s| && pattern != ""
    requires tail != "" && tail[0] !in pattern
    ensures OccursAt(s + tail, pattern, i) <==> OccursAt(s, pattern, i)
  {
    var whole := s + tail;
    if i + |pattern| <= |s| {
      assert whole[i..i + |pattern|] == s[i..i + |pattern|];
    } else if i + |pattern| <= |whole| {
      assert whole[i..i + |pattern|][|s| - i] == tail[0];
      assert pattern[|s| - i] in pattern;
    }
  }

  lemma OccursLate(s: string, tail: string, pattern: string, i: int)
    requires |s| <= i
    ensures OccursAt(s + tail, pattern, i) <==> OccursAt(tail, pattern, i - |s|)
  {
    var whole := s + tail;
    if i + |pattern| <= |whole| {
      assert whole[i..i + |pattern|] == tail[i - |s|..i - |s| + |pattern|];
    }
  }

  // Find is fixed by what it promises.
  lemma FindIs(s: string, pattern: string, from: nat, at: nat)
    requires from <= at && OccursAt(s, pattern, at)
    requires forall i | from <= i < at :: !OccursAt(s, pattern, i)
    ensures Find(s, pattern, from) == Some(at)
  {
    var r := Find(s, pattern, from);
    assert r.Some?;
  }

  lemma FindNone(s: string, pattern: string, from: nat)
    requires forall i | from <= i :: !OccursAt(s, pattern, i)
    ensures Find(s, pattern, from) == None
  {
  }

  // A pattern that does not hold the first character of the tail is found in the text, or in the tail.
  lemma FindAcross(s: string, tail: string, pattern: string, from: nat)
    requires from <= |s| && pattern != ""
    requires tail != "" && tail[0] !in pattern
    ensures Find(s + tail, pattern, from)
         == match Find(s, pattern, from) {
              case Some(i) => Some(i)
              case None => match Find(tail, pattern, 0) { case Some(j) => Some(|s| + j) case None => None }
            }
  {
    var whole := s + tail;
    forall i | 0 <= i <= |s| ensures OccursAt(whole, pattern, i) <==> OccursAt(s, pattern, i) {
      OccursEarly(s, tail, pattern, i);
    }
    forall i | |s| <= i ensures OccursAt(whole, pattern, i) <==> OccursAt(tail, pattern, i - |s|) {
      OccursLate(s, tail, pattern, i);
    }
    match Find(s, pattern, from)
    case Some(i) => FindIs(whole, pattern, from, i);
    case None =>
      match Find(tail, pattern, 0)
      case Some(j) => FindIs(whole, pattern, from, |s| + j);
      case None => FindNone(whole, pattern, from);
  }

  lemma FindLate(s: string, tail: string, pattern: string, from: nat)
    ensures Find(s + tail, pattern, |s| + from)
         == match Find(tail, pattern, from) { case Some(j) => Some(|s| + j) case None => None }
  {
    hide OccursAt;
    var whole := s + tail;
    forall i | |s| <= i ensures OccursAt(whole, pattern, i) <==> OccursAt(tail, pattern, i - |s|) {
      OccursLate(s, tail, pattern, i);
    }
    match Find(tail, pattern, from)
    case Some(j) => FindIs(whole, pattern, |s| + from, |s| + j);
    case None => FindNone(whole, pattern, |s| + from);
  }

  // ---- decimal numbers --------------------------------------------------------------------------

  predicate IsDigit(c: char) { '0' <= c <= '9' }

  // str.isdigit, for ASCII digits.
  predicate AllDigits(s: string)
  {
    s != "" && forall i | 0 <= i < |s| :: IsDigit(s[i])
  }

  function ParseNat(s: string): nat
    requires forall i | 0 <= i < |s| :: IsDigit(s[i])
  {
    if s == "" then 0
    else
      assert IsDigit(s[|s| - 1]);
      ParseNat(s[..|s| - 1]) * 10 + (s[|s| - 1] - '0') as nat
  }

  function Decimal(n: nat): string
  {
    var last := [(n % 10) as char + '0'];
    if n < 10 then last else Decimal(n / 10) + last
  }

  lemma {:induction false} DecimalParses(n: nat)
    ensures AllDigits(Decimal(n)) && ParseNat(Decimal(n)) == n
  {
    if n >= 10 {
      DecimalParses(n / 10);
      var s := Decimal(n);
      assert s[..|s| - 1] == Decimal(n / 10);
    } else {
      assert Decimal(n)[..0] == "";
    }
  }

  lemma {:induction false} DecimalPlain(n: nat)
    ensures Decimal(n) != "" && forall i | 0 <= i < |Decimal(n)| :: IsDigit(Decimal(n)[i])
  {
    DecimalParses(n);
  }

  function Integer(n: int): string
  {
    if n < 0 then "-" + Decimal(-n) else Decimal(n)
  }

  function ParseInteger(s: string): Option<int>
  {
    if AllDigits(s) then Some(ParseNat(s))
    else if s != "" && s[0] == '-' && AllDigits(s[1..]) then Some(0 - ParseNat(s[1..]))
    else None
  }

  lemma IntegerParses(n: int)
    ensures ParseInteger(Integer(n)) == Some(n)
    ensures Integer(n) != "" && forall c | c in Integer(n) :: IsDigit(c) || c == '-'
  {
    DecimalParses(if n < 0 then -n else n);
    DecimalPlain(if n < 0 then -n else n);
    if n < 0 {
      var s := Integer(n);
      assert s[0] == '-' && s[1..] == Decimal(-n);
    }
  }

  function Max(a: int, b: int): (r: int)
    ensures r == a || r == b
    ensures r >= a && r >= b
  {
    if a < b then b else a
  }
}
