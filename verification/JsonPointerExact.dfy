/**
 * When a JSON pointer resolves, to what, and how it fails, for every document and every pointer text
 * (scripts/local-source-completion-audit.py, _resolve_json_pointer), said of paths and moves alone.
 */
module JsonPointerExact {
  import opened Text
  import opened Json
  import opened JsonPointer

  // ---- escapes read in one pass --------------------------------------------------------------------

  // Section 4 of RFC 6901, read from left to right.
  function ReadEscapes(part: string): string
  {
    if |part| >= 2 && part[0] == '~' && part[1] == '1' then "/" + ReadEscapes(part[2..])
    else if |part| >= 2 && part[0] == '~' && part[1] == '0' then "~" + ReadEscapes(part[2..])
    else if part != "" then [part[0]] + ReadEscapes(part[1..])
    else ""
  }

  lemma EscapedHead(s: string, digit: char)
    ensures ['~', digit] <= s <==> |s| >= 2 && s[0] == '~' && s[1] == digit
  {
  }

  // Slashes are put back first, so no tilde that is put back makes a new escape.
  lemma {:induction false} UnescapeOnePass(part: string)
    ensures Unescape(part) == ReadEscapes(part)
    decreases |part|
  {
    EscapedHead(part, '1');
    EscapedHead(part, '0');
    if |part| < 2 {
      if part != "" { assert part == [part[0]] + part[1..] && part[1..] == ""; }
    } else if ['~', '1'] <= part {
      SlashPart(part);
      UnescapeOnePass(part[2..]);
    } else if ['~', '0'] <= part {
      TildePart(part);
      UnescapeOnePass(part[2..]);
    } else {
      PlainPart(part);
      UnescapeOnePass(part[1..]);
    }
  }

  lemma SlashPart(part: string)
    requires ['~', '1'] <= part
    ensures Unescape(part) == "/" + Unescape(part[2..])
  {
    var rest := Replace(part[2..], "~1", "/");
    assert Replace(part, "~1", "/") == "/" + rest;
    ReplaceSkip('/', rest, "~0", "~");
  }

  lemma TildePart(part: string)
    requires ['~', '0'] <= part
    ensures Unescape(part) == "~" + Unescape(part[2..])
  {
    var rest := Replace(part[2..], "~1", "/");
    EscapedHead(part, '1');
    assert Replace(part, "~1", "/") == ['~'] + Replace(part[1..], "~1", "/");
    assert part[1..] == ['0'] + part[2..];
    ReplaceSkip('0', part[2..], "~1", "/");
    assert ['~'] + (['0'] + rest) == "~0" + rest;
    ReplaceHit(rest, "~0", "~");
  }

  lemma PlainPart(part: string)
    requires part != "" && !(['~', '1'] <= part) && !(['~', '0'] <= part)
    ensures Unescape(part) == [part[0]] + Unescape(part[1..])
  {
    var rest := Replace(part[1..], "~1", "/");
    if |part| == 1 { assert part[1..] == "" && part == [part[0]]; }
    assert Replace(part, "~1", "/") == [part[0]] + rest;
    EscapedHead([part[0]] + rest, '0');
    assert ([part[0]] + rest)[1..] == rest;
    if part[0] == '~' && rest != "" {
      HeadAfter(part[1..]);
    }
  }

  lemma HeadAfter(s: string)
    requires s != ""
    ensures Replace(s, "~1", "/") != "" && (Replace(s, "~1", "/")[0] == '0' ==> s[0] == '0')
  {
  }

  // ---- paths a pointer can name ------------------------------------------------------------------

  predicate AllDigits(part: string, digits: Digits)
  {
    part != "" && forall c | c in part :: digits.isDigit(c)
  }

  lemma DigitsAgree(part: string, digits: Digits)
    ensures OnlyDigits(part, digits) <==> AllDigits(part, digits)
  {
    if AllDigits(part, digits) {
      forall i | 0 <= i < |part| ensures digits.isDigit(part[i]) { assert part[i] in part; }
    }
  }

  // What one part may mean: a member of that name, or the element of the number it reads as.
  predicate Names(part: string, move: Move, digits: Digits)
  {
    match move
    case Member(key) => key == part
    case Element(index) => AllDigits(part, digits) && JsonPointer.Number(part, digits) == Some(index)
  }

  predicate NamedPath(parts: seq<string>, path: seq<Move>, digits: Digits)
  {
    |path| == |parts| && forall i | 0 <= i < |parts| :: Names(ReadEscapes(parts[i]), path[i], digits)
  }

  // The parts of a pointer behind all its leading slashes.
  function Parts(pointer: string): seq<string>
  {
    Split(TrimLeft(pointer, IsSlash), '/')
  }

  // A value that a part does not lead on from: its digits cannot be read, or nothing is there.
  ghost predicate Blocks(v: Json, part: string, digits: Digits, e: PointerError)
  {
    match e
    case Invalid => false
    case BadNumber => v.Arr? && AllDigits(part, digits) && JsonPointer.Number(part, digits) == None
    case NotFound =>
      !(v.Arr? && AllDigits(part, digits) && JsonPointer.Number(part, digits) == None)
      && forall move | Names(part, move, digits) :: ValueAt(v, [move]) == None
  }

  // The path names the first parts and is there, and the next part does not lead on.
  ghost predicate StopsAfter(v: Json, parts: seq<string>, path: seq<Move>, digits: Digits, e: PointerError)
  {
    && |path| < |parts| && NamedPath(parts[..|path|], path, digits) && ValueAt(v, path).Some?
    && Blocks(ValueAt(v, path).value, ReadEscapes(parts[|path|]), digits, e)
  }

  lemma OneMove(v: Json, move: Move)
    ensures ValueAt(v, [move])
         == match (move, v)
            case (Member(key), Obj(fields)) => (if key in fields then Some(fields[key]) else None)
            case (Element(index), Arr(items)) => (if index < |items| then Some(items[index]) else None)
            case _ => None
  {
    assert [move][1..] == [];
  }

  lemma FirstMove(v: Json, path: seq<Move>)
    requires path != []
    ensures ValueAt(v, path)
         == match ValueAt(v, [path[0]]) case None => None case Some(next) => ValueAt(next, path[1..])
  {
    OneMove(v, path[0]);
  }

  lemma StepOk(v: Json, part: string, digits: Digits) returns (move: Move)
    requires StepInto(v, part, digits).Ok?
    ensures Names(part, move, digits) && ValueAt(v, [move]) == Some(StepInto(v, part, digits).value)
  {
    DigitsAgree(part, digits);
    hide OnlyDigits, AllDigits, JsonPointer.Number;
    move := if v.Obj? then Member(part) else Element(JsonPointer.Number(part, digits).value);
    OneMove(v, move);
  }

  lemma StepNamed(v: Json, part: string, move: Move, digits: Digits)
    requires Names(part, move, digits) && ValueAt(v, [move]).Some?
    ensures StepInto(v, part, digits) == Ok(ValueAt(v, [move]).value)
  {
    DigitsAgree(part, digits);
    hide OnlyDigits, AllDigits, JsonPointer.Number;
    OneMove(v, move);
  }

  lemma StepErr(v: Json, part: string, digits: Digits, e: PointerError)
    ensures StepInto(v, part, digits) == Err(e) <==> Blocks(v, part, digits, e)
  {
    DigitsAgree(part, digits);
    hide OnlyDigits, AllDigits, JsonPointer.Number, ValueAt;
    var r := StepInto(v, part, digits);
    if r.Ok? {
      var move := StepOk(v, part, digits);
    } else if r.error == NotFound {
      forall move | Names(part, move, digits) ensures ValueAt(v, [move]) == None { OneMove(v, move); }
    } else {
      assert r.error == BadNumber;
    }
  }

  lemma NamedCons(parts: seq<string>, move: Move, path: seq<Move>, digits: Digits)
    requires parts != []
    ensures NamedPath(parts, [move] + path, digits)
       <==> Names(ReadEscapes(parts[0]), move, digits) && NamedPath(parts[1..], path, digits)
  {
    hide Names, ReadEscapes;
    var whole := [move] + path;
    if NamedPath(parts, whole, digits) {
      forall i | 0 <= i < |path| ensures Names(ReadEscapes(parts[1..][i]), path[i], digits) {
        assert Names(ReadEscapes(parts[i + 1]), whole[i + 1], digits);
      }
      assert Names(ReadEscapes(parts[0]), whole[0], digits);
    }
    if Names(ReadEscapes(parts[0]), move, digits) && NamedPath(parts[1..], path, digits) {
      forall i | 0 <= i < |parts| ensures Names(ReadEscapes(parts[i]), whole[i], digits) {
        if i > 0 { assert Names(ReadEscapes(parts[1..][i - 1]), path[i - 1], digits); }
      }
    }
  }

  lemma {:induction false} WalkFinds(v: Json, parts: seq<string>, digits: Digits) returns (path: seq<Move>)
    requires Walk(v, parts, digits).Ok?
    ensures NamedPath(parts, path, digits) && ValueAt(v, path) == Some(Walk(v, parts, digits).value)
  {
    path := [];
    if parts != [] {
      UnescapeOnePass(parts[0]);
      hide NamedPath, StepInto, ValueAt, Unescape, Names;
      var move := StepOk(v, Unescape(parts[0]), digits);
      path := WalkFinds(ValueAt(v, [move]).value, parts[1..], digits);
      NamedCons(parts, move, path, digits);
      FirstMove(v, [move] + path);
      assert ([move] + path)[1..] == path;
      path := [move] + path;
    }
  }

  lemma {:induction false} WalkNamed(v: Json, parts: seq<string>, path: seq<Move>, digits: Digits)
    requires NamedPath(parts, path, digits) && ValueAt(v, path).Some?
    ensures Walk(v, parts, digits) == Ok(ValueAt(v, path).value)
  {
    if parts != [] {
      UnescapeOnePass(parts[0]);
      assert path == [path[0]] + path[1..];
      NamedCons(parts, path[0], path[1..], digits);
      hide NamedPath, StepInto, Unescape, Names;
      FirstMove(v, path);
      StepNamed(v, Unescape(parts[0]), path[0], digits);
      WalkNamed(ValueAt(v, [path[0]]).value, parts[1..], path[1..], digits);
    }
  }

  lemma StopsCons(v: Json, next: Json, parts: seq<string>, move: Move, path: seq<Move>, digits: Digits, e: PointerError)
    requires parts != [] && Names(ReadEscapes(parts[0]), move, digits) && ValueAt(v, [move]) == Some(next)
    ensures StopsAfter(v, parts, [move] + path, digits, e) <==> StopsAfter(next, parts[1..], path, digits, e)
  {
    hide Names, Blocks, ValueAt, NamedPath, ReadEscapes;
    var whole := [move] + path;
    assert whole[1..] == path && whole[0] == move;
    FirstMove(v, whole);
    if |path| < |parts| - 1 {
      assert parts[..|whole|][1..] == parts[1..][..|path|];
      NamedCons(parts[..|whole|], move, path, digits);
      assert parts[|whole|] == parts[1..][|path|];
    }
  }

  lemma StopsNow(v: Json, parts: seq<string>, digits: Digits, e: PointerError)
    requires parts != []
    ensures StopsAfter(v, parts, [], digits, e) <==> Blocks(v, ReadEscapes(parts[0]), digits, e)
  {
    hide Names, Blocks, ReadEscapes;
    assert NamedPath(parts[..0], [], digits);
  }

  lemma {:induction false} WalkStops(v: Json, parts: seq<string>, digits: Digits) returns (path: seq<Move>)
    requires Walk(v, parts, digits).Err?
    ensures StopsAfter(v, parts, path, digits, Walk(v, parts, digits).error)
    decreases |parts|
  {
    hide StopsAfter, Blocks, StepInto, ValueAt, Unescape, Names, ReadEscapes;
    UnescapeOnePass(parts[0]);
    var part := Unescape(parts[0]);
    path := [];
    match StepInto(v, part, digits)
    case Err(e) =>
      StepErr(v, part, digits, e);
      StopsNow(v, parts, digits, e);
    case Ok(next) =>
      var move := StepOk(v, part, digits);
      path := WalkStops(next, parts[1..], digits);
      StopsCons(v, next, parts, move, path, digits, Walk(v, parts, digits).error);
      path := [move] + path;
  }

  lemma {:induction false} StopsWalk(v: Json, parts: seq<string>, path: seq<Move>, digits: Digits, e: PointerError)
    requires StopsAfter(v, parts, path, digits, e)
    ensures Walk(v, parts, digits) == Err(e)
  {
    UnescapeOnePass(parts[0]);
    if path == [] {
      StopsNow(v, parts, digits, e);
      StepErr(v, Unescape(parts[0]), digits, e);
    } else {
      assert path == [path[0]] + path[1..];
      var front := parts[..|path|];
      NamedCons(front, path[0], path[1..], digits);
      FirstMove(v, path);
      hide NamedPath, StepInto, Unescape, Names, Blocks, ValueAt, ReadEscapes;
      StepNamed(v, Unescape(parts[0]), path[0], digits);
      var next := ValueAt(v, [path[0]]).value;
      StopsCons(v, next, parts, path[0], path[1..], digits, e);
      StopsWalk(next, parts[1..], path[1..], digits, e);
    }
  }

  // A pointer resolves to a value exactly when it is empty and that is the document, or it starts
  // with a slash and its parts name a path to that value.
  lemma ResolvesExactly(v: Json, pointer: string, digits: Digits, x: Json)
    ensures Resolve(v, pointer, digits) == Ok(x)
       <==> if pointer == "" then x == v
            else pointer[0] == '/'
                 && exists path :: NamedPath(Parts(pointer), path, digits) && ValueAt(v, path) == Some(x)
  {
    hide NamedPath, ValueAt, Walk;
    if pointer != "" && pointer[0] == '/' {
      var parts := Parts(pointer);
      if Walk(v, parts, digits).Ok? { var path := WalkFinds(v, parts, digits); }
      forall path | NamedPath(parts, path, digits) && ValueAt(v, path) == Some(x)
        ensures Walk(v, parts, digits) == Ok(x)
      {
        WalkNamed(v, parts, path, digits);
      }
    }
  }

  // It fails as invalid exactly when it is not empty and starts with no slash, and in another way
  // exactly when the parts that lead somewhere are followed by one that fails in that way.
  lemma FailsExactly(v: Json, pointer: string, digits: Digits, e: PointerError)
    ensures Resolve(v, pointer, digits) == Err(e)
       <==> pointer != ""
            && if pointer[0] != '/' then e == Invalid
               else exists path :: StopsAfter(v, Parts(pointer), path, digits, e)
  {
    hide StopsAfter, Walk;
    if pointer != "" && pointer[0] == '/' {
      var parts := Parts(pointer);
      if Walk(v, parts, digits).Err? { var path := WalkStops(v, parts, digits); }
      forall path | StopsAfter(v, parts, path, digits, e) ensures Walk(v, parts, digits) == Err(e) {
        StopsWalk(v, parts, path, digits, e);
      }
    }
  }
}
