/**
 * Evidence references and JSON pointers (scripts/local-source-completion-audit.py,
 * _split_evidence_ref and _resolve_json_pointer) against sections 3 and 4 of RFC 6901.
 */
module JsonPointer {
  import opened Text
  import opened Json

  // BadNumber is the ValueError of int() for digits that it does not read.
  datatype PointerError = Invalid | NotFound | BadNumber

  type Found = Result<Json, PointerError>

  // ---- reference tokens --------------------------------------------------------------------------

  // Section 3 of RFC 6901: a tilde is written ~0 and a slash ~1.
  function Escape(token: string): string
  {
    if token == "" then ""
    else
      var rest := Escape(token[1..]);
      if token[0] == '~' then "~0" + rest else if token[0] == '/' then "~1" + rest else [token[0]] + rest
  }

  function EscapeTilde(token: string): string
  {
    if token == "" then ""
    else if token[0] == '~' then "~0" + EscapeTilde(token[1..])
    else [token[0]] + EscapeTilde(token[1..])
  }

  function Unescape(part: string): string
  {
    Replace(Replace(part, "~1", "/"), "~0", "~")
  }

  lemma ReplaceSkip(c: char, s: string, pattern: string, image: string)
    requires pattern != "" && c != pattern[0]
    ensures Replace([c] + s, pattern, image) == [c] + Replace(s, pattern, image)
  {
    PrefixAt(pattern, [c] + s, 0);
    assert ([c] + s)[1..] == s;
  }

  lemma ReplaceHit(s: string, pattern: string, image: string)
    requires pattern != ""
    ensures Replace(pattern + s, pattern, image) == image + Replace(s, pattern, image)
  {
    assert (pattern + s)[|pattern|..] == s;
  }

  lemma {:induction false} SlashesBack(token: string)
    ensures Replace(Escape(token), "~1", "/") == EscapeTilde(token)
  {
    if token != "" {
      var rest := Escape(token[1..]);
      SlashesBack(token[1..]);
      if token[0] == '/' {
        ReplaceHit(rest, "~1", "/");
      } else if token[0] == '~' {
        assert "~0" + rest == ['~'] + (['0'] + rest);
        ReplaceSkip('0', rest, "~1", "/");
        var s := ['~'] + (['0'] + rest);
        PrefixAt("~1", s, 1);
        assert s[1..] == ['0'] + rest;
      } else {
        ReplaceSkip(token[0], rest, "~1", "/");
      }
    }
  }

  lemma {:induction false} TildesBack(token: string)
    ensures Replace(EscapeTilde(token), "~0", "~") == token
  {
    if token != "" {
      TildesBack(token[1..]);
      assert token == [token[0]] + token[1..];
      if token[0] == '~' {
        ReplaceHit(EscapeTilde(token[1..]), "~0", "~");
      } else {
        ReplaceSkip(token[0], EscapeTilde(token[1..]), "~0", "~");
      }
    }
  }

  // The two replacements, one after the other, undo the escaping.
  lemma UnescapeEscape(token: string)
    ensures Unescape(Escape(token)) == token
  {
    SlashesBack(token);
    TildesBack(token);
  }

  lemma {:induction false} EscapeShape(token: string)
    ensures '/' !in Escape(token) && (Escape(token) == "" <==> token == "")
  {
    if token != "" { EscapeShape(token[1..]); }
  }

  // ---- the resolver ------------------------------------------------------------------------------

  // Which characters str.isdigit accepts, and what int() reads them as, if it does.
  datatype Digits = Digits(isDigit: char -> bool, value: char -> Option<nat>)

  // The ASCII digits are digits, no other ASCII character is, and a digit is less than ten.
  ghost predicate IsTable(digits: Digits)
  {
    && (forall c | IsDigit(c) :: digits.isDigit(c) && digits.value(c) == Some((c - '0') as nat))
    && (forall c | c < '\U{80}' && !IsDigit(c) :: !digits.isDigit(c))
    && forall c | digits.value(c).Some? :: digits.value(c).value < 10
  }

  predicate OnlyDigits(s: string, digits: Digits)
  {
    s != "" && forall i | 0 <= i < |s| :: digits.isDigit(s[i])
  }

  // int(s).
  function Number(s: string, digits: Digits): Option<nat>
  {
    if s == "" then Some(0)
    else
      match (Number(s[..|s| - 1], digits), digits.value(s[|s| - 1]))
      case (Some(front), Some(last)) => Some(front * 10 + last)
      case _ => None
  }

  lemma {:induction false} NumberAscii(s: string, digits: Digits)
    requires IsTable(digits) && forall i | 0 <= i < |s| :: IsDigit(s[i])
    ensures Number(s, digits) == Some(ParseNat(s))
    ensures s != "" ==> OnlyDigits(s, digits)
  {
    if s != "" {
      assert IsDigit(s[|s| - 1]);
      NumberAscii(s[..|s| - 1], digits);
    }
  }

  function StepInto(current: Json, part: string, digits: Digits): Found
  {
    if current.Obj? && part in current.fields then Ok(current.fields[part])
    else if current.Arr? && OnlyDigits(part, digits) then
      match Number(part, digits)
      case None => Err(BadNumber)
      case Some(index) => if index < |current.items| then Ok(current.items[index]) else Err(NotFound)
    else Err(NotFound)
  }

  function Walk(current: Json, parts: seq<string>, digits: Digits): Found
  {
    if parts == [] then Ok(current)
    else
      match StepInto(current, Unescape(parts[0]), digits)
      case Err(e) => Err(e)
      case Ok(next) => Walk(next, parts[1..], digits)
  }

  predicate IsSlash(c: char) { c == '/' }

  function Resolve(payload: Json, pointer: string, digits: Digits): Found
  {
    if pointer == "" then Ok(payload)
    else if pointer[0] != '/' then Err(Invalid)
    else Walk(payload, Split(TrimLeft(pointer, IsSlash), '/'), digits)
  }

  method ResolveJsonPointer(payload: Json, pointer: string, digits: Digits) returns (r: Found)
    ensures r == Resolve(payload, pointer, digits)
  {
    if pointer == "" { return Ok(payload); }
    if pointer[0] != '/' { return Err(Invalid); }
    var parts := Split(TrimLeft(pointer, IsSlash), '/');
    var current := payload;
    for i := 0 to |parts|
      invariant Walk(current, parts[i..], digits) == Resolve(payload, pointer, digits)
    {
      var part := Unescape(parts[i]);
      assert parts[i..][0] == parts[i] && parts[i..][1..] == parts[i + 1..];
      if current.Obj? && part in current.fields {
        current := current.fields[part];
        continue;
      }
      if current.Arr? && OnlyDigits(part, digits) {
        var index := Number(part, digits);
        if index.None? { return Err(BadNumber); }
        if index.value < |current.items| {
          current := current.items[index.value];
          continue;
        }
      }
      return Err(NotFound);
    }
    return Ok(current);
  }

  // ---- section 4: evaluation ---------------------------------------------------------------------

  // One step into a value: a member of an object or an element of an array.
  datatype Move = Member(key: string) | Element(index: nat)

  function Token(move: Move): string
  {
    match move
    case Member(key) => key
    case Element(index) => Decimal(index)
  }

  function Tokens(path: seq<Move>): (r: seq<string>)
    ensures |r| == |path|
  {
    if path == [] then [] else [Escape(Token(path[0]))] + Tokens(path[1..])
  }

  // The pointer that names a path.
  function Encode(path: seq<Move>): string
  {
    if path == [] then "" else "/" + Join(Tokens(path), '/')
  }

  function ValueAt(v: Json, path: seq<Move>): Option<Json>
  {
    if path == [] then Some(v)
    else
      match (path[0], v)
      case (Member(key), Obj(fields)) => if key in fields then ValueAt(fields[key], path[1..]) else None
      case (Element(index), Arr(items)) => if index < |items| then ValueAt(items[index], path[1..]) else None
      case _ => None
  }

  // What stripping every leading slash leaves of a path.
  function Stripped(path: seq<Move>): (r: seq<Move>)
    ensures path != [] ==> r != []
  {
    if |path| > 1 && path[0] == Member("") then Stripped(path[1..]) else path
  }

  lemma TokenEmpty(move: Move)
    ensures Token(move) == "" <==> move == Member("")
  {
  }

  lemma {:induction false} TokensPlain(path: seq<Move>)
    ensures forall p | p in Tokens(path) :: '/' !in p
  {
    if path != [] {
      TokensPlain(path[1..]);
      EscapeShape(Token(path[0]));
    }
  }

  lemma {:induction false} StripSlashes(path: seq<Move>)
    requires path != []
    ensures TrimLeft(Join(Tokens(path), '/'), IsSlash) == Join(Tokens(Stripped(path)), '/')
  {
    hide Escape, Token, TrimLeft, Join;
    var tokens := Tokens(path);
    EscapeShape(Token(path[0]));
    TokenEmpty(path[0]);
    if path[0] != Member("") {
      StartKept(tokens);
    } else if |path| > 1 {
      StripSlashes(path[1..]);
      assert tokens[1..] == Tokens(path[1..]);
      EmptyStripped(tokens);
    } else {
      NothingStripped(tokens);
    }
  }

  lemma StartKept(tokens: seq<string>)
    requires tokens != [] && tokens[0] != "" && '/' !in tokens[0]
    ensures TrimLeft(Join(tokens, '/'), IsSlash) == Join(tokens, '/')
  {
    assert tokens[0][0] in tokens[0] && Join(tokens, '/')[0] == tokens[0][0];
  }

  lemma EmptyStripped(tokens: seq<string>)
    requires |tokens| > 1 && tokens[0] == ""
    ensures TrimLeft(Join(tokens, '/'), IsSlash) == TrimLeft(Join(tokens[1..], '/'), IsSlash)
  {
    hide TrimLeft;
    var rest := Join(tokens[1..], '/');
    assert Join(tokens, '/') == "" + ['/'] + rest == ['/'] + rest;
    hide Join;
    SlashStripped(rest);
  }

  lemma SlashStripped(rest: string)
    ensures TrimLeft(['/'] + rest, IsSlash) == TrimLeft(rest, IsSlash)
  {
    assert (['/'] + rest)[1..] == rest;
  }

  lemma NothingStripped(tokens: seq<string>)
    requires |tokens| == 1 && tokens[0] == ""
    ensures TrimLeft(Join(tokens, '/'), IsSlash) == Join(tokens, '/')
  {
  }

  // For every value and every path, a pointer resolves as the path that is left.
  lemma ResolveEncoded(v: Json, path: seq<Move>, digits: Digits)
    ensures Resolve(v, Encode(path), digits) == Walk(v, Tokens(Stripped(path)), digits)
  {
    if path != [] {
      var joined := Join(Tokens(path), '/');
      var pointer := "/" + joined;
      assert pointer[1..] == joined;
      StripSlashes(path);
      TokensPlain(Stripped(path));
      SplitJoin(Tokens(Stripped(path)), '/');
    }
  }

  lemma {:induction false} WalkReaches(v: Json, path: seq<Move>, digits: Digits)
    requires IsTable(digits) && ValueAt(v, path).Some?
    ensures Walk(v, Tokens(path), digits) == Ok(ValueAt(v, path).value)
  {
    if path != [] {
      UnescapeEscape(Token(path[0]));
      assert Tokens(path)[1..] == Tokens(path[1..]);
      match path[0] {
        case Member(key) => WalkReaches(v.fields[key], path[1..], digits);
        case Element(index) =>
          DecimalParses(index);
          NumberAscii(Decimal(index), digits);
          WalkReaches(v.items[index], path[1..], digits);
      }
    }
  }

  // A path is named faithfully when its first token is not empty, or is the only one.
  predicate Faithful(path: seq<Move>)
  {
    |path| <= 1 || path[0] != Member("")
  }

  lemma RoundTrip(v: Json, path: seq<Move>, digits: Digits)
    requires IsTable(digits) && ValueAt(v, path).Some? && Faithful(path)
    ensures Resolve(v, Encode(path), digits) == Ok(ValueAt(v, path).value)
  {
    ResolveEncoded(v, path, digits);
    WalkReaches(v, path, digits);
  }

  // The smallest value that has the path, with null at its end.
  function Along(path: seq<Move>): Json
  {
    if path == [] then Null
    else
      match path[0]
      case Member(key) => Obj(map[key := Along(path[1..])])
      case Element(index) => Arr(seq(index + 1, _ => Along(path[1..])))
  }

  lemma {:induction false} AlongHas(path: seq<Move>)
    ensures ValueAt(Along(path), path) == Some(Null)
  {
    if path != [] { AlongHas(path[1..]); }
  }

  lemma {:induction false} ShortWalk(path: seq<Move>, parts: seq<string>, digits: Digits)
    requires |parts| < |path|
    ensures Walk(Along(path), parts, digits) != Ok(Null)
  {
    if parts != [] { ShortWalk(path[1..], parts[1..], digits); }
  }

  lemma {:induction false} StrippedShorter(path: seq<Move>)
    ensures |Stripped(path)| <= |path|
    ensures !Faithful(path) ==> |Stripped(path)| < |path|
  {
    if |path| > 1 && path[0] == Member("") { StrippedShorter(path[1..]); }
  }

  // Those are all the paths that resolve to their value in every document that has them.
  lemma FaithfulExactly(path: seq<Move>, digits: Digits)
    requires IsTable(digits)
    ensures Faithful(path)
       <==> forall v :: ValueAt(v, path).Some? ==> Resolve(v, Encode(path), digits) == Ok(ValueAt(v, path).value)
  {
    forall v | Faithful(path) && ValueAt(v, path).Some?
      ensures Resolve(v, Encode(path), digits) == Ok(ValueAt(v, path).value)
    {
      RoundTrip(v, path, digits);
    }
    if !Faithful(path) {
      var v := Along(path);
      AlongHas(path);
      ResolveEncoded(v, path, digits);
      StrippedShorter(path);
      ShortWalk(path, Tokens(Stripped(path)), digits);
    }
  }

  // The code reads the empty first token of a longer path away.
  lemma EmptyTokenLost(digits: Digits)
    ensures var v, path := Obj(map["" := Obj(map["a" := Null])]), [Member(""), Member("a")];
            ValueAt(v, path) == Some(Null) && Resolve(v, Encode(path), digits) == Err(NotFound)
  {
    var v, path := Obj(map["" := Obj(map["a" := Null])]), [Member(""), Member("a")];
    assert path[1..] == [Member("a")];
    assert ValueAt(v.fields[""], [Member("a")]) == Some(Null);
    hide Escape, Unescape;
    ResolveEncoded(v, path, digits);
    UnescapeEscape("a");
    assert Stripped(path) == [Member("a")];
  }

  // ---- evidence references -----------------------------------------------------------------------

  // str.partition("#").
  function SplitEvidenceRef(reference: string): (string, Option<string>)
  {
    match Find(reference, "#", 0)
    case None => (reference, None)
    case Some(i) => (reference[..i], Some(reference[i + 1..]))
  }

  function JoinEvidenceRef(path: string, pointer: Option<string>): string
  {
    match pointer
    case None => path
    case Some(text) => path + "#" + text
  }

  lemma HashAt(s: string, i: nat)
    ensures OccursAt(s, "#", i) <==> i < |s| && s[i] == '#'
  {
    if i < |s| { assert s[i..i + 1] == [s[i]]; }
  }

  // Where partition cuts.
  lemma HashFound(reference: string)
    ensures match Find(reference, "#", 0)
            case None => '#' !in reference
            case Some(i) => i < |reference| && reference[i] == '#' && '#' !in reference[..i]
  {
    forall i: nat ensures OccursAt(reference, "#", i) <==> i < |reference| && reference[i] == '#' {
      HashAt(reference, i);
    }
    hide OccursAt;
    match Find(reference, "#", 0)
    case None => assert forall i | 0 <= i < |reference| :: !OccursAt(reference, "#", i);
    case Some(cut) => assert forall i | 0 <= i < cut :: !OccursAt(reference, "#", i);
  }

  lemma SplitJoined(path: string, pointer: Option<string>)
    ensures SplitEvidenceRef(JoinEvidenceRef(path, pointer)) == (path, pointer) <==> '#' !in path
  {
    var reference := JoinEvidenceRef(path, pointer);
    HashFound(reference);
    if '#' !in path && pointer.Some? { FindChar(path, '#', pointer.value); }
    hide Find, OccursAt;
    if '#' !in path {
      match pointer {
        case None =>
        case Some(text) => assert reference[..|path|] == path && reference[|path| + 1..] == text;
      }
    }
  }

  lemma JoinSplitRef(reference: string)
    ensures var (path, pointer) := SplitEvidenceRef(reference);
            '#' !in path && JoinEvidenceRef(path, pointer) == reference
  {
    HashFound(reference);
    hide Find, OccursAt;
    match Find(reference, "#", 0)
    case None =>
    case Some(i) => assert reference == reference[..i] + "#" + reference[i + 1..];
  }
}
