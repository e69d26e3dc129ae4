/**
 * The JSON text of an alert state: an object of four fields that are strings or null, and a count,
 * as JSON.stringify prints it, with a reader that undoes it. Both alert scripts keep such a state.
 */
module StateText {
  import opened Text
  import opened Marker

  type Values = seq<Option<string>>

  // ---- strings -------------------------------------------------------------------------------------

  function HexDigit(n: nat): char
    requires n < 16
  {
    if n < 10 then '0' + n as char else 'a' + (n - 10) as char
  }

  function HexValue(c: char): nat
  {
    if '0' <= c <= '9' then (c - '0') as nat else if 'a' <= c <= 'f' then (c - 'a') as nat + 10 else 0
  }

  // How JSON.stringify writes a character inside quotes.
  function EscapeChar(c: char): string
  {
    if c == '"' then "\\\""
    else if c == '\\' then "\\\\"
    else if c == '\n' then "\\n"
    else if c == '\r' then "\\r"
    else if c == '\t' then "\\t"
    else if c == '\U{8}' then "\\b"
    else if c == '\U{c}' then "\\f"
    else if c < ' ' then "\\u00" + [HexDigit(c as nat / 16), HexDigit(c as nat % 16)]
    else [c]
  }

  function Escape(s: string): string
  {
    if s == "" then "" else EscapeChar(s[0]) + Escape(s[1..])
  }

  // The character an escape stands for, and the length of the escape.
  function ReadEscape(s: string): Option<(char, nat)>
    requires s != "" && s[0] == '\\'
    ensures ReadEscape(s).Some? ==> 2 <= ReadEscape(s).value.1 <= |s|
  {
    if |s| < 2 then None
    else if s[1] == '"' || s[1] == '\\' then Some((s[1], 2))
    else if s[1] == 'n' then Some(('\n', 2))
    else if s[1] == 'r' then Some(('\r', 2))
    else if s[1] == 't' then Some(('\t', 2))
    else if s[1] == 'b' then Some(('\U{8}', 2))
    else if s[1] == 'f' then Some(('\U{c}', 2))
    else if s[1] == 'u' && |s| >= 6 then Some(((HexValue(s[4]) * 16 + HexValue(s[5])) as char, 6))
    else None
  }

  // The string up to the closing quote, and what follows it.
  function ReadString(s: string): Option<(string, string)>
  {
    if s == "" then None
    else if s[0] == '"' then Some(("", s[1..]))
    else if s[0] == '\\' then
      match ReadEscape(s)
      case None => None
      case Some((c, n)) =>
        match ReadString(s[n..])
        case None => None
        case Some((value, rest)) => Some(([c] + value, rest))
    else
      match ReadString(s[1..])
      case None => None
      case Some((value, rest)) => Some(([s[0]] + value, rest))
  }

  lemma EscapeRead(c: char, tail: string)
    requires |EscapeChar(c)| > 1
    ensures var s := EscapeChar(c) + tail;
            s[0] == '\\' && ReadEscape(s) == Some((c, |EscapeChar(c)|))
  {
    if |EscapeChar(c)| == 6 {
      var n := c as nat;
      assert HexValue(HexDigit(n / 16)) == n / 16 && HexValue(HexDigit(n % 16)) == n % 16;
      var s := EscapeChar(c) + tail;
      assert s[4] == HexDigit(n / 16) && s[5] == HexDigit(n % 16);
    }
  }

  lemma {:induction false} ReadEscaped(s: string, rest: string)
    ensures ReadString(Escape(s) + ("\"" + rest)) == Some((s, rest))
  {
    if s == "" {
      assert Escape(s) + ("\"" + rest) == "\"" + rest;
    } else {
      var c, tail := s[0], Escape(s[1..]) + ("\"" + rest);
      ReadEscaped(s[1..], rest);
      var all := EscapeChar(c) + tail;
      assert Escape(s) + ("\"" + rest) == all;
      assert [c] + s[1..] == s;
      if |EscapeChar(c)| > 1 {
        EscapeRead(c, tail);
        assert all[|EscapeChar(c)|..] == tail;
      } else {
        assert all[1..] == tail;
      }
    }
  }

  // ---- fields --------------------------------------------------------------------------------------

  function FieldText(x: Option<string>): string
  {
    if x.Some? then "\"" + (Escape(x.value) + "\"") else "null"
  }

  function ReadField(s: string): Option<(Option<string>, string)>
  {
    if "null" <= s then Some((None, s[4..]))
    else if s != "" && s[0] == '"' then
      match ReadString(s[1..])
      case None => None
      case Some((value, rest)) => Some((Some(value), rest))
    else None
  }

  lemma ReadPrintedField(x: Option<string>, rest: string)
    ensures ReadField(FieldText(x) + rest) == Some((x, rest))
  {
    var s := FieldText(x) + rest;
    if x.Some? {
      assert s[1..] == Escape(x.value) + ("\"" + rest);
      ReadEscaped(x.value, rest);
      PrefixAt("null", s, 0);
    } else {
      assert s == "null" + rest && s[4..] == rest;
    }
  }

  function KeyText(key: string): string
  {
    "\"" + (key + "\":")
  }

  function Members(keys: seq<string>, values: Values, tail: string): string
    requires |keys| == |values|
  {
    if keys == [] then tail
    else KeyText(keys[0]) + (FieldText(values[0]) + ("," + Members(keys[1..], values[1..], tail)))
  }

  function ReadMembers(keys: seq<string>, s: string): (r: Option<(Values, string)>)
    ensures r.Some? ==> |r.value.0| == |keys|
  {
    if keys == [] then Some(([], s))
    else if !(KeyText(keys[0]) <= s) then None
    else
      match ReadField(s[|KeyText(keys[0])|..])
      case None => None
      case Some((value, rest)) =>
        if rest == "" || rest[0] != ',' then None
        else
          match ReadMembers(keys[1..], rest[1..])
          case None => None
          case Some((values, end)) => Some(([value] + values, end))
  }

  lemma {:induction false} ReadPrintedMembers(keys: seq<string>, values: Values, tail: string)
    requires |keys| == |values|
    ensures ReadMembers(keys, Members(keys, values, tail)) == Some((values, tail))
  {
    hide ReadField, FieldText, KeyText;
    if keys != [] {
      var more := Members(keys[1..], values[1..], tail);
      var after := FieldText(values[0]) + ("," + more);
      ReadPrintedMembers(keys[1..], values[1..], tail);
      ReadPrintedField(values[0], "," + more);
      assert (KeyText(keys[0]) + after)[|KeyText(keys[0])|..] == after;
      assert ("," + more)[1..] == more;
      assert [values[0]] + values[1..] == values;
    }
  }

  const COUNT_KEY := "occurrences"

  function CountText(count: Option<int>): string
  {
    if count.Some? then Integer(count.value) else "null"
  }

  function CountTail(count: Option<int>): string
  {
    KeyText(COUNT_KEY) + (CountText(count) + "}")
  }

  function ReadCount(number: string): Option<Option<int>>
  {
    if number == "null" then Some(None)
    else
      match ParseInteger(number)
      case None => None
      case Some(count) => Some(Some(count))
  }

  function ReadTail(tail: string): Option<Option<int>>
  {
    var n := |KeyText(COUNT_KEY)|;
    if |tail| <= n || !(KeyText(COUNT_KEY) <= tail) || tail[|tail| - 1] != '}' then None
    else ReadCount(tail[n..|tail| - 1])
  }

  lemma ReadPrintedCount(count: Option<int>)
    ensures ReadCount(CountText(count)) == Some(count)
  {
    if count.Some? {
      IntegerParses(count.value);
      assert "null"[0] in "null" && !IsDigit("null"[0]);
    }
  }

  lemma ReadPrintedTail(count: Option<int>)
    ensures ReadTail(CountTail(count)) == Some(count)
  {
    hide KeyText, CountText, ReadCount;
    assert CountTail(count)[|KeyText(COUNT_KEY)|..|CountTail(count)| - 1] == CountText(count);
    ReadPrintedCount(count);
  }

  function Print(keys: seq<string>, values: Values, count: Option<int>): string
    requires |keys| == |values|
  {
    "{" + Members(keys, values, CountTail(count))
  }

  function Parse(keys: seq<string>, text: string): (r: Option<(Values, Option<int>)>)
    ensures r.Some? ==> |r.value.0| == |keys|
  {
    if text == "" || text[0] != '{' then None
    else
      match ReadMembers(keys, text[1..])
      case None => None
      case Some((values, tail)) =>
        match ReadTail(tail)
        case None => None
        case Some(count) => Some((values, count))
  }

  lemma ParsePrinted(keys: seq<string>, values: Values, count: Option<int>)
    requires |keys| == |values|
    ensures Parse(keys, Print(keys, values, count)) == Some((values, count))
  {
    hide Members, ReadMembers, ReadTail, CountTail;
    var tail := CountTail(count);
    assert Print(keys, values, count)[1..] == Members(keys, values, tail);
    ReadPrintedMembers(keys, values, tail);
    ReadPrintedTail(count);
  }

  // After an opening brace a name or a closing brace must come, white space aside.
  lemma ParseRefuses(keys: seq<string>, rest: string)
    requires keys != []
    ensures Parse(keys, "{\n\n<" + rest) == None
  {
    var s := ("{\n\n<" + rest)[1..];
    PrefixAt(KeyText(keys[0]), s, 0);
    assert s[0] == '\n' && KeyText(keys[0])[0] == '"';
  }

  // ---- the text closes where it ends -----------------------------------------------------------

  ghost predicate NoCloser(s: string)
  {
    forall i :: !OccursAt(s, CLOSER, i)
  }

  lemma NoCloserFrom(s: string)
    requires '}' !in s
    ensures NoCloser(s)
  {
    forall i ensures !OccursAt(s, CLOSER, i) {
      if 0 <= i && i + |CLOSER| <= |s| {
        assert s[i..i + |CLOSER|][0] == s[i] && s[i] in s;
      }
    }
  }

  lemma NoCloserAppend(a: string, b: string)
    requires NoCloser(a) && NoCloser(b) && b != "" && b[0] !in CLOSER
    ensures NoCloser(a + b)
  {
    forall i ensures !OccursAt(a + b, CLOSER, i) {
      if 0 <= i <= |a| {
        OccursEarly(a, b, CLOSER, i);
      } else if |a| < i {
        OccursLate(a, b, CLOSER, i);
      }
    }
  }

  // A plain text that begins the escaped string begins the string.
  lemma {:induction false} EscapedPrefix(s: string, plain: string)
    requires plain <= Escape(s) && '\\' !in plain
    ensures plain <= s
  {
    if plain != "" {
      assert Escape(s)[0] == plain[0] && plain[0] in plain;
      assert |EscapeChar(s[0])| == 1 by { EscapeStarts(s[0]); }
      assert Escape(s)[1..] == Escape(s[1..]);
      assert plain[1..] <= Escape(s[1..]);
      EscapedPrefix(s[1..], plain[1..]);
      assert s == [s[0]] + s[1..] && plain == [plain[0]] + plain[1..];
    }
  }

  lemma EscapeStarts(c: char)
    ensures |EscapeChar(c)| > 1 <==> EscapeChar(c)[0] == '\\'
    ensures |EscapeChar(c)| > 1 ==> '}' !in EscapeChar(c)
    ensures |EscapeChar(c)| == 1 ==> EscapeChar(c) == [c]
    ensures '\n' !in EscapeChar(c)
  {
  }

  lemma {:induction false} EscapedNoCloser(s: string)
    requires NoCloser(s)
    ensures NoCloser(Escape(s)) && '\n' !in Escape(s)
  {
    if s == "" {
      NoCloserFrom("");
    } else {
      var first, rest := EscapeChar(s[0]), Escape(s[1..]);
      TailNoCloser(s);
      EscapedNoCloser(s[1..]);
      EscapeStarts(s[0]);
      forall i ensures !OccursAt(first + rest, CLOSER, i) {
        if i >= |first| {
          OccursLate(first, rest, CLOSER, i);
        } else if 0 <= i {
          EscapedCloser(s, i);
        }
      }
    }
  }

  lemma TailNoCloser(s: string)
    requires s != "" && NoCloser(s)
    ensures NoCloser(s[1..])
  {
    assert s == s[..1] + s[1..];
    forall i ensures !OccursAt(s[1..], CLOSER, i) {
      if i >= 0 { OccursLate(s[..1], s[1..], CLOSER, i + 1); }
    }
  }

  lemma CloserStarts(s: string, i: nat)
    ensures OccursAt(s, CLOSER, i) ==> i < |s| && s[i] == '}'
    ensures OccursAt(s, CLOSER, 0) <==> CLOSER <= s
  {
    if i + |CLOSER| <= |s| { assert s[i..i + |CLOSER|][0] == s[i]; }
    if |CLOSER| <= |s| { assert s[0..|CLOSER|] == s[..|CLOSER|]; }
  }

  lemma EscapedCloser(s: string, i: nat)
    requires s != "" && i < |EscapeChar(s[0])| && NoCloser(s)
    ensures !OccursAt(Escape(s), CLOSER, i)
  {
    EscapeStarts(s[0]);
    CloserStarts(Escape(s), i);
    CloserStarts(s, 0);
    assert !OccursAt(s, CLOSER, 0);
    assert '\\' !in CLOSER;
    assert Escape(s)[i] == EscapeChar(s[0])[i];
    hide OccursAt, NoCloser, EscapeChar;
    if |EscapeChar(s[0])| == 1 && CLOSER <= Escape(s) { EscapedPrefix(s, CLOSER); }
  }

  ghost predicate CleanValues(values: Values)
  {
    forall i | 0 <= i < |values| :: values[i].Some? ==> NoCloser(values[i].value)
  }

  // One line of text without a closer.
  ghost predicate Smooth(s: string)
  {
    NoCloser(s) && '\n' !in s
  }

  lemma SmoothAppend(a: string, b: string)
    requires Smooth(a) && Smooth(b) && b != "" && b[0] !in CLOSER
    ensures Smooth(a + b)
  {
    NoCloserAppend(a, b);
  }

  lemma SmoothField(x: Option<string>)
    requires x.Some? ==> NoCloser(x.value)
    ensures Smooth(FieldText(x)) && FieldText(x) != "" && FieldText(x)[0] !in CLOSER
  {
    if x.Some? {
      EscapedNoCloser(x.value);
      NoCloserFrom("\"");
      SmoothAppend(Escape(x.value), "\"");
      QuoteFirst(Escape(x.value) + "\"");
    } else {
      NoCloserFrom("null");
    }
  }

  // A quote in front changes nothing.
  lemma QuoteFirst(s: string)
    requires Smooth(s)
    ensures Smooth("\"" + s)
  {
    forall i ensures !OccursAt("\"" + s, CLOSER, i) {
      if i >= 1 {
        OccursLate("\"", s, CLOSER, i);
      } else if i == 0 && |CLOSER| <= |"\"" + s| {
        assert ("\"" + s)[0..|CLOSER|][0] == '"';
      }
    }
  }

  predicate PlainKey(key: string)
  {
    '}' !in key && '\n' !in key
  }

  lemma SmoothKey(key: string)
    requires PlainKey(key)
    ensures Smooth(KeyText(key)) && KeyText(key) != "" && KeyText(key)[0] == '"'
  {
    NoCloserFrom(KeyText(key));
  }

  lemma SmoothTail(count: Option<int>)
    ensures Smooth(CountTail(count)) && CountTail(count)[0] == '"' && CountTail(count)[|CountTail(count)| - 1] == '}'
  {
    var body := KeyText(COUNT_KEY) + CountText(count);
    if count.Some? { IntegerParses(count.value); }
    assert '}' !in CountText(count) && '\n' !in CountText(count);
    assert '}' !in KeyText(COUNT_KEY) && '\n' !in KeyText(COUNT_KEY);
    var s := CountTail(count);
    assert s == body + "}";
    forall i ensures !OccursAt(s, CLOSER, i) {
      if 0 <= i && i + |CLOSER| <= |s| {
        assert s[i..i + |CLOSER|][0] == s[i] == body[i] && body[i] in body;
      }
    }
  }

  lemma {:induction false} SmoothMembers(keys: seq<string>, values: Values, tail: string)
    requires |keys| == |values| && CleanValues(values) && forall k | k in keys :: PlainKey(k)
    requires Smooth(tail) && tail != "" && tail[0] == '"'
    ensures var r := Members(keys, values, tail);
            Smooth(r) && r != "" && r[0] == '"' && r[|r| - 1] == tail[|tail| - 1]
  {
    hide Smooth, FieldText, KeyText, PlainKey;
    if keys != [] {
      var more := Members(keys[1..], values[1..], tail);
      assert keys[0] in keys;
      SmoothMembers(keys[1..], values[1..], tail);
      SmoothKey(keys[0]);
      SmoothField(values[0]);
      SmoothComma(more);
      SmoothAppend(FieldText(values[0]), "," + more);
      SmoothAppend(KeyText(keys[0]), FieldText(values[0]) + ("," + more));
    }
  }

  lemma SmoothComma(s: string)
    requires Smooth(s) && s != "" && s[0] == '"'
    ensures Smooth("," + s) && ',' !in CLOSER && '"' !in CLOSER
  {
    NoCloserFrom(",");
    SmoothAppend(",", s);
  }

  lemma PrintClosed(keys: seq<string>, values: Values, count: Option<int>)
    requires |keys| == |values| && CleanValues(values) && forall k | k in keys :: PlainKey(k)
    ensures IsPayload(Print(keys, values, count)) && Closed(Print(keys, values, count))
  {
    SmoothTail(count);
    SmoothMembers(keys, values, CountTail(count));
    var body := Members(keys, values, CountTail(count));
    forall i | 1 <= i < |body| ensures !OccursAt("{" + body, CLOSER, i) {
      OccursLate("{", body, CLOSER, i);
    }
  }

  // A member of the object, up to the comma behind it.
  function MemberText(key: string, value: Option<string>): string
  {
    KeyText(key) + (FieldText(value) + ",")
  }

  lemma MembersStep(keys: seq<string>, values: Values, tail: string)
    requires |keys| == |values| && keys != []
    ensures Members(keys, values, tail) == MemberText(keys[0], values[0]) + Members(keys[1..], values[1..], tail)
  {
    hide KeyText, FieldText;
    var rest := Members(keys[1..], values[1..], tail);
    assert KeyText(keys[0]) + (FieldText(values[0]) + ("," + rest)) == KeyText(keys[0]) + (FieldText(values[0]) + ",") + rest;
  }

  // The object's text, member by member.
  lemma PrintedInOrder(keys: seq<string>, values: Values, count: Option<int>)
    requires |keys| == 4 == |values|
    ensures Print(keys, values, count)
         == "{" + (MemberText(keys[0], values[0]) + (MemberText(keys[1], values[1])
            + (MemberText(keys[2], values[2]) + (MemberText(keys[3], values[3]) + CountTail(count)))))
  {
    hide MemberText, CountTail;
    var tail := CountTail(count);
    MembersStep(keys, values, tail);
    MembersStep(keys[1..], values[1..], tail);
    MembersStep(keys[2..], values[2..], tail);
    MembersStep(keys[3..], values[3..], tail);
    assert keys[1..][1..] == keys[2..] && keys[2..][1..] == keys[3..] && keys[3..][1..] == [];
    assert values[1..][1..] == values[2..] && values[2..][1..] == values[3..] && values[3..][1..] == [];
    assert Members([], [], tail) == tail;
  }
}
