/**
 * Metrics in the Prometheus text format (apps/workers/app/metrics.py): the printer, a reader written
 * from the format's own rules ("Text format details", "Line format"), and the order of the lines.
 */
module Prometheus {
  import opened Text
  import opened Lists
  import opened Sorting

  // The value is the text that str() gives for it.
  datatype Sample = Sample(name: string, value: string, labels: map<string, string>)

  // ---- label values ------------------------------------------------------------------------------

  function EscapeLabelValue(value: string): string
  {
    Third(Second(Replace(value, "\\", "\\\\")))
  }

  // One pass, character by character.
  function EscapeChar(c: char): string
  {
    if c == '\\' then "\\\\" else if c == '\n' then "\\n" else if c == '"' then "\\\"" else [c]
  }

  function EscapeAll(value: string): string
  {
    if value == "" then "" else EscapeChar(value[0]) + EscapeAll(value[1..])
  }

  // Replacing one character is a pass of its own.
  lemma {:induction false} ReplaceHead(c: char, s: string, target: char, image: string)
    ensures Replace([c] + s, [target], image) == (if c == target then image else [c]) + Replace(s, [target], image)
  {
    var whole := [c] + s;
    assert whole[1..] == s;
    PrefixAt([target], whole, 0);
    if c == target { assert whole[..1] == [target]; }
  }

  // The three replacements on a text that has been given its first character.
  function Second(s: string): string { Replace(s, "\n", "\\n") }

  function Third(s: string): string { Replace(s, "\"", "\\\"") }

  lemma EscapeHead(c: char, rest: string)
    ensures EscapeLabelValue([c] + rest) == EscapeChar(c) + EscapeLabelValue(rest)
  {
    var r1 := Replace(rest, "\\", "\\\\");
    ReplaceHead(c, rest, '\\', "\\\\");
    hide Replace;
    if c == '\\' {
      BackslashHead(['\\'] + r1);
      BackslashHead(r1);
      assert "\\\\" + r1 == ['\\'] + (['\\'] + r1);
    } else if c == '\n' {
      NewlineHead(r1);
    } else {
      OtherHead(c, r1);
    }
  }

  lemma BackslashHead(s: string)
    ensures Third(Second(['\\'] + s)) == ['\\'] + Third(Second(s))
  {
    ReplaceHead('\\', s, '\n', "\\n");
    ReplaceHead('\\', Second(s), '"', "\\\"");
  }

  lemma NewlineHead(s: string)
    ensures Third(Second(['\n'] + s)) == "\\n" + Third(Second(s))
  {
    var t := Second(s);
    ReplaceHead('\n', s, '\n', "\\n");
    assert "\\n" + t == ['\\'] + (['n'] + t);
    ReplaceHead('\\', ['n'] + t, '"', "\\\"");
    ReplaceHead('n', t, '"', "\\\"");
  }

  lemma OtherHead(c: char, s: string)
    requires c != '\\' && c != '\n'
    ensures Third(Second([c] + s)) == EscapeChar(c) + Third(Second(s))
  {
    ReplaceHead(c, s, '\n', "\\n");
    ReplaceHead(c, Second(s), '"', "\\\"");
  }

  // The replacements do not disturb one another: together they are the one pass.
  lemma {:induction false} EscapeIsOnePass(value: string)
    ensures EscapeLabelValue(value) == EscapeAll(value)
  {
    if value != "" {
      EscapeIsOnePass(value[1..]);
      EscapeHead(value[0], value[1..]);
      assert value == [value[0]] + value[1..];
    }
  }

  lemma {:induction false} EscapedOneLine(value: string)
    ensures '\n' !in EscapeAll(value)
  {
    if value != "" { EscapedOneLine(value[1..]); }
  }

  // ---- reading a sample line ---------------------------------------------------------------------

  // Reads a label value up to the closing quote; gives the value and what follows the quote.
  function ReadValue(s: string): Option<(string, string)>
  {
    if s == "" then None
    else if s[0] == '"' then Some(("", s[1..]))
    else if s[0] == '\\' then
      if |s| < 2 then None
      else
        match ReadValue(s[2..])
        case None => None
        case Some((value, rest)) =>
          if s[1] == '\\' then Some((['\\'] + value, rest))
          else if s[1] == 'n' then Some((['\n'] + value, rest))
          else if s[1] == '"' then Some((['"'] + value, rest))
          else None
    else
      match ReadValue(s[1..])
      case None => None
      case Some((value, rest)) => Some(([s[0]] + value, rest))
  }

  // Splits at the first character that ends a name.
  function ReadName(s: string): (r: (string, string))
    ensures |r.1| <= |s|
  {
    if s == "" || s[0] == '{' || s[0] == ' ' || s[0] == '=' then ("", s)
    else
      var (name, rest) := ReadName(s[1..]);
      ([s[0]] + name, rest)
  }

  function ReadLabels(s: string): Option<(seq<(string, string)>, string)>
    decreases |s|
  {
    var (key, after) := ReadName(s);
    if |after| < 2 || after[0] != '=' || after[1] != '"' then None
    else
      match ReadValue(after[2..])
      case None => None
      case Some((value, rest)) =>
        if rest == "" || |rest| >= |s| then None
        else if rest[0] == '}' then Some(([(key, value)], rest[1..]))
        else if rest[0] == ',' then
          match ReadLabels(rest[1..])
          case None => None
          case Some((more, end)) => Some(([(key, value)] + more, end))
        else None
  }

  datatype Parsed = Parsed(name: string, labels: seq<(string, string)>, value: string)

  function ReadSample(line: string): Option<Parsed>
  {
    var (name, rest) := ReadName(line);
    if rest == "" then None
    else if rest[0] == ' ' then Some(Parsed(name, [], rest[1..]))
    else if rest[0] == '{' then
      match ReadLabels(rest[1..])
      case None => None
      case Some((labels, end)) => if end != "" && end[0] == ' ' then Some(Parsed(name, labels, end[1..])) else None
    else None
  }

  // ---- printing a sample line --------------------------------------------------------------------

  // The labels in order of their names.
  function SortedLabels(labels: map<string, string>): seq<(string, string)>
  {
    var keys := SortedSet(labels.Keys);
    seq(|keys|, i requires 0 <= i < |keys| => assert keys[i] in keys; (keys[i], labels[keys[i]]))
  }

  function LabelText(pair: (string, string)): string
  {
    pair.0 + "=\"" + EscapeLabelValue(pair.1) + "\""
  }

  function RenderSample(sample: Sample): string
  {
    if sample.labels == map[] then sample.name + " " + sample.value
    else
      var texts := Map(SortedLabels(sample.labels), LabelText);
      LabelsNotEmpty(sample.labels);
      sample.name + "{" + Join(texts, ',') + "} " + sample.value
  }

  lemma LabelsNotEmpty(labels: map<string, string>)
    ensures |SortedLabels(labels)| == |labels|
    ensures labels != map[] ==> |labels| > 0
  {
    SortedSetOrdered(labels.Keys);
    assert |labels.Keys| == |labels|;
    if labels != map[] {
      var k :| k in labels;
      assert labels.Keys != {};
    }
  }

  // The characters of metric names and label names.
  predicate NameChar(c: char)
  {
    'a' <= c <= 'z' || 'A' <= c <= 'Z' || '0' <= c <= '9' || c == '_' || c == ':'
  }

  predicate IsName(s: string)
  {
    s != "" && forall i | 0 <= i < |s| :: NameChar(s[i])
  }

  lemma {:induction false} ReadNameStops(name: string, rest: string)
    requires forall i | 0 <= i < |name| :: NameChar(name[i])
    requires rest != "" && rest[0] in ['{', ' ', '=']
    ensures ReadName(name + rest) == (name, rest)
  {
    if name == "" {
      assert name + rest == rest;
    } else {
      assert NameChar(name[0]);
      ReadNameStops(name[1..], rest);
      assert (name + rest)[1..] == name[1..] + rest;
      assert name == [name[0]] + name[1..];
    }
  }

  lemma ReadEscape(c: char, tail: string)
    requires |EscapeChar(c)| == 2 && ReadValue(tail).Some?
    ensures ReadValue(EscapeChar(c) + tail) == Some(([c] + ReadValue(tail).value.0, ReadValue(tail).value.1))
  {
    var s := EscapeChar(c) + tail;
    assert s[0] == '\\' && s[2..] == tail;
    assert s[1] == EscapeChar(c)[1];
  }

  lemma ReadPlain(c: char, tail: string)
    requires EscapeChar(c) == [c] && ReadValue(tail).Some?
    ensures ReadValue([c] + tail) == Some(([c] + ReadValue(tail).value.0, ReadValue(tail).value.1))
  {
    var s := [c] + tail;
    assert s[1..] == tail;
  }

  // The reader undoes the escaping, and stops at the quote that the printer wrote.
  lemma {:induction false} ReadEscaped(value: string, rest: string)
    ensures ReadValue(EscapeAll(value) + "\"" + rest) == Some((value, rest))
  {
    var s := EscapeAll(value) + "\"" + rest;
    if value == "" {
      assert s[0] == '"' && s[1..] == rest;
    } else {
      hide ReadValue, EscapeChar;
      ReadEscaped(value[1..], rest);
      var tail := EscapeAll(value[1..]) + "\"" + rest;
      assert s == EscapeChar(value[0]) + tail;
      assert value == [value[0]] + value[1..];
      EscapeLength(value[0]);
      if |EscapeChar(value[0])| == 2 { ReadEscape(value[0], tail); } else { ReadPlain(value[0], tail); }
    }
  }

  lemma EscapeLength(c: char)
    ensures |EscapeChar(c)| == 2 || EscapeChar(c) == [c]
  {
  }

  lemma ReadOneLabel(pair: (string, string), rest: string)
    requires IsName(pair.0) && rest != ""
    ensures var (key, after) := ReadName(LabelText(pair) + rest);
            && key == pair.0 && |after| >= 2 && after[0] == '=' && after[1] == '"'
            && ReadValue(after[2..]) == Some((pair.1, rest))
  {
    EscapeIsOnePass(pair.1);
    var after := "=\"" + (EscapeAll(pair.1) + "\"" + rest);
    assert LabelText(pair) + rest == pair.0 + after;
    ReadNameStops(pair.0, after);
    assert after[2..] == EscapeAll(pair.1) + "\"" + rest;
    ReadEscaped(pair.1, rest);
  }

  // One printed pair, and what ReadLabels goes on to read.
  lemma ReadLastLabel(pair: (string, string), end: string)
    requires IsName(pair.0)
    ensures ReadLabels(LabelText(pair) + ("}" + end)) == Some(([pair], end))
  {
    ReadOneLabel(pair, "}" + end);
    assert ("}" + end)[1..] == end && (pair.0, pair.1) == pair;
    hide ReadName, ReadValue, LabelText;
    assert |LabelText(pair)| > 0 by { LabelTextNotEmpty(pair); }
  }

  lemma LabelTextNotEmpty(pair: (string, string))
    ensures |LabelText(pair)| > 0
  {
  }

  lemma ReadNextLabel(pair: (string, string), more: string)
    requires IsName(pair.0) && ReadLabels(more).Some?
    ensures ReadLabels(LabelText(pair) + ("," + more))
         == Some(([pair] + ReadLabels(more).value.0, ReadLabels(more).value.1))
  {
    ReadOneLabel(pair, "," + more);
    assert ("," + more)[1..] == more && (pair.0, pair.1) == pair;
    hide ReadName, ReadValue, LabelText;
    LabelTextNotEmpty(pair);
  }

  // The printed pairs up to the closing brace, and what follows it.
  function Printed(labels: seq<(string, string)>, end: string): string
    requires labels != []
  {
    Join(Map(labels, LabelText), ',') + ("}" + end)
  }

  lemma PrintedSteps(labels: seq<(string, string)>, end: string)
    requires labels != []
    ensures |labels| == 1 ==> Printed(labels, end) == LabelText(labels[0]) + ("}" + end)
    ensures |labels| > 1 ==> Printed(labels, end) == LabelText(labels[0]) + ("," + Printed(labels[1..], end))
  {
    hide LabelText;
    var texts := Map(labels, LabelText);
    if |labels| > 1 {
      assert texts[1..] == Map(labels[1..], LabelText);
      var more := Join(texts[1..], ',');
      assert texts[0] + [','] + more + ("}" + end) == texts[0] + ("," + (more + ("}" + end)));
    }
  }

  lemma {:induction false} ReadPrinted(labels: seq<(string, string)>, end: string)
    requires labels != [] && forall l | l in labels :: IsName(l.0)
    ensures ReadLabels(Printed(labels, end)) == Some((labels, end))
  {
    hide *;
    assert labels[0] in labels;
    PrintedSteps(labels, end);
    if |labels| == 1 {
      ReadLastLabel(labels[0], end);
      assert labels == [labels[0]];
    } else {
      ReadPrinted(labels[1..], end);
      ReadNextLabel(labels[0], Printed(labels[1..], end));
      assert labels == [labels[0]] + labels[1..];
    }
  }

  lemma LineParts(name: string, labels: seq<(string, string)>, value: string)
    requires labels != []
    ensures name + "{" + Join(Map(labels, LabelText), ',') + "} " + value
         == name + ("{" + Printed(labels, " " + value))
  {
    hide LabelText, Join;
    var body := Join(Map(labels, LabelText), ',');
    assert name + "{" + body + "} " + value == name + ("{" + (body + ("}" + (" " + value))));
  }

  lemma ReadLabelled(name: string, labels: seq<(string, string)>, value: string)
    requires IsName(name) && labels != [] && forall l | l in labels :: IsName(l.0)
    ensures ReadSample(name + "{" + Join(Map(labels, LabelText), ',') + "} " + value) == Some(Parsed(name, labels, value))
  {
    var body := Printed(labels, " " + value);
    LineParts(name, labels, value);
    ReadPrinted(labels, " " + value);
    ReadNameStops(name, "{" + body);
    hide ReadName, ReadLabels, LabelText, Printed, Join;
    assert ("{" + body)[1..] == body && (" " + value)[1..] == value;
  }

  predicate Legal(sample: Sample)
  {
    IsName(sample.name) && forall k | k in sample.labels :: IsName(k)
  }

  // A rendered sample is read back: its name, its labels in order, and its value.
  lemma SampleRoundTrip(sample: Sample)
    requires Legal(sample)
    ensures ReadSample(RenderSample(sample)) == Some(Parsed(sample.name, SortedLabels(sample.labels), sample.value))
  {
    var labels := SortedLabels(sample.labels);
    LabelsNotEmpty(sample.labels);
    if sample.labels == map[] {
      ReadNameStops(sample.name, " " + sample.value);
      assert sample.name + " " + sample.value == sample.name + (" " + sample.value);
      assert (" " + sample.value)[1..] == sample.value;
      assert labels == [];
    } else {
      LabelsKept(sample.labels);
      ReadLabelled(sample.name, labels, sample.value);
    }
  }

  // The labels that are read back are the sample's own, each once and in order of their names.
  lemma LabelsKept(labels: map<string, string>)
    ensures forall k, v :: (k, v) in SortedLabels(labels) <==> k in labels && labels[k] == v
    ensures forall i, j | 0 <= i < j < |SortedLabels(labels)| ::
              StrLe(SortedLabels(labels)[i].0, SortedLabels(labels)[j].0)
              && SortedLabels(labels)[i].0 != SortedLabels(labels)[j].0
  {
    hide StrLe;
    SortedSetOrdered(labels.Keys);
    var keys, pairs := SortedSet(labels.Keys), SortedLabels(labels);
    forall k, v ensures (k, v) in pairs <==> k in labels && labels[k] == v {
      if k in labels && labels[k] == v {
        assert k in keys;
        var i :| 0 <= i < |keys| && keys[i] == k;
        assert pairs[i] == (k, v);
      }
      if (k, v) in pairs {
        var i :| 0 <= i < |pairs| && pairs[i] == (k, v);
        assert keys[i] in keys;
      }
    }
  }

  // ---- the lines of the whole text ----------------------------------------------------------------

  datatype Metadata = Metadata(help: string, kind: string)

  datatype Line = Help(name: string, help: string) | Type(name: string, kind: string) | Value(sample: Sample)

  function LineText(line: Line): string
  {
    match line
    case Help(name, help) => "# HELP " + name + " " + help
    case Type(name, kind) => "# TYPE " + name + " " + kind
    case Value(sample) => RenderSample(sample)
  }

  function LineName(line: Line): string
  {
    match line
    case Help(name, _) => name
    case Type(name, _) => name
    case Value(sample) => sample.name
  }

  function Names(samples: seq<Sample>): set<string>
  {
    set s | s in samples :: s.name
  }

  function LinesUpTo(samples: seq<Sample>, metadata: map<string, Metadata>, n: nat): seq<Line>
    requires n <= |samples|
  {
    if n == 0 then []
    else
      var before, sample := LinesUpTo(samples, metadata, n - 1), samples[n - 1];
      if sample.name in metadata && sample.name !in Names(samples[..n - 1]) then
        before + [Help(sample.name, metadata[sample.name].help), Type(sample.name, metadata[sample.name].kind),
                  Value(sample)]
      else before + [Value(sample)]
  }

  function RenderText(samples: seq<Sample>, metadata: map<string, Metadata>): string
  {
    var lines := Map(LinesUpTo(samples, metadata, |samples|), LineText);
    (if lines == [] then "" else Join(lines, '\n')) + "\n"
  }

  lemma NamesNext(samples: seq<Sample>, n: nat)
    requires n < |samples|
    ensures Names(samples[..n + 1]) == Names(samples[..n]) + {samples[n].name}
  {
    assert samples[..n + 1] == samples[..n] + [samples[n]];
  }

  method RenderPrometheusText(samples: seq<Sample>, metadata: map<string, Metadata>) returns (text: string)
    ensures text == RenderText(samples, metadata)
  {
    hide Names, RenderSample;
    var lines: seq<string> := [];
    var emitted: set<string> := {};
    ghost var spec: seq<Line> := [];
    assert samples[..0] == [] && Names([]) == {} by { NoNames(); }
    for i := 0 to |samples|
      invariant spec == LinesUpTo(samples, metadata, i) && lines == Map(spec, LineText)
      invariant emitted == Names(samples[..i]) * metadata.Keys
    {
      var sample := samples[i];
      NamesNext(samples, i);
      if sample.name in metadata && sample.name !in emitted {
        var about := metadata[sample.name];
        lines := lines + ["# HELP " + sample.name + " " + about.help];
        lines := lines + ["# TYPE " + sample.name + " " + about.kind];
        emitted := emitted + {sample.name};
        spec := spec + [Help(sample.name, about.help), Type(sample.name, about.kind)];
      }
      lines := lines + [RenderSample(sample)];
      spec := spec + [Value(sample)];
    }
    text := (if lines == [] then "" else Join(lines, '\n')) + "\n";
  }

  lemma NoNames()
    ensures Names([]) == {}
  {
  }

  // All samples are there, in their order.
  lemma {:induction false} SamplesInOrder(samples: seq<Sample>, metadata: map<string, Metadata>, n: nat)
    requires n <= |samples|
    ensures Filter(LinesUpTo(samples, metadata, n), (l: Line) => l.Value?) == Map(samples[..n], s => Value(s))
  {
    var isValue := (l: Line) => l.Value?;
    if n > 0 {
      SamplesInOrder(samples, metadata, n - 1);
      var before, sample := LinesUpTo(samples, metadata, n - 1), samples[n - 1];
      var added := LinesUpTo(samples, metadata, n)[|before|..];
      assert LinesUpTo(samples, metadata, n) == before + added;
      FilterAppend(before, added, isValue);
      OneValue(added, sample);
      assert samples[..n] == samples[..n - 1] + [sample];
    }
  }

  lemma OneValue(added: seq<Line>, sample: Sample)
    requires added == [Value(sample)]
             || (|added| == 3 && added[0].Help? && added[1].Type? && added[2] == Value(sample))
    ensures Filter(added, (l: Line) => l.Value?) == [Value(sample)]
  {
    if |added| == 3 {
      assert added[1..][0] == added[1] && added[1..][1..] == [added[2]] && [added[2]][1..] == [];
    } else {
      assert added[1..] == [];
    }
  }

  // Every line names a sample that was seen.
  lemma {:induction false} LineNames(samples: seq<Sample>, metadata: map<string, Metadata>, n: nat)
    requires n <= |samples|
    ensures forall l | l in LinesUpTo(samples, metadata, n) :: LineName(l) in Names(samples[..n])
  {
    if n > 0 {
      LineNames(samples, metadata, n - 1);
      NamesNext(samples, n - 1);
    }
  }

  // Lines j, j + 1 and j + 2 are the HELP, the TYPE and the first sample of this name; no line
  // before them is about it, and every later one is a sample.
  ghost predicate Introduced(lines: seq<Line>, j: nat, name: string, about: Metadata)
  {
    j + 2 < |lines| && lines[j] == Help(name, about.help) && lines[j + 1] == Type(name, about.kind)
    && lines[j + 2].Value? && lines[j + 2].sample.name == name
    && (forall i | 0 <= i < j :: LineName(lines[i]) != name)
    && forall i | j + 2 <= i < |lines| :: LineName(lines[i]) == name ==> lines[i].Value?
  }

  // A described metric that has a sample is introduced once, before its first sample.
  lemma {:induction false} IntroducedOnce(samples: seq<Sample>, metadata: map<string, Metadata>, n: nat, name: string)
    requires n <= |samples| && name in metadata && name in Names(samples[..n])
    ensures exists j :: Introduced(LinesUpTo(samples, metadata, n), j, name, metadata[name])
  {
    hide Names;
    assert n > 0 by { if n == 0 { NoNames(); } }
    NamesNext(samples, n - 1);
    var before := LinesUpTo(samples, metadata, n - 1);
    var lines := LinesUpTo(samples, metadata, n);
    assert forall i | 0 <= i < |before| :: lines[i] == before[i];
    if name in Names(samples[..n - 1]) {
      IntroducedOnce(samples, metadata, n - 1, name);
      var j :| Introduced(before, j, name, metadata[name]);
      assert Introduced(lines, j, name, metadata[name]);
    } else {
      LineNames(samples, metadata, n - 1);
      assert forall i | 0 <= i < |before| :: before[i] in before;
      assert Introduced(lines, |before|, name, metadata[name]);
    }
  }

  // A metric without a description, or without a sample, has no HELP and no TYPE.
  lemma {:induction false} NotIntroduced(samples: seq<Sample>, metadata: map<string, Metadata>, n: nat, name: string)
    requires n <= |samples| && !(name in metadata && name in Names(samples[..n]))
    ensures forall l | l in LinesUpTo(samples, metadata, n) :: LineName(l) == name ==> l.Value?
  {
    if n > 0 {
      NamesNext(samples, n - 1);
      NotIntroduced(samples, metadata, n - 1, name);
    }
  }

  // ---- groups of lines ---------------------------------------------------------------------------

  // Equal names stand together.
  ghost predicate Together(names: seq<string>)
  {
    forall i, j, k | 0 <= i < j < k < |names| && names[i] == names[k] :: names[j] == names[i]
  }

  // The sample each line was printed for.
  function Owners(samples: seq<Sample>, metadata: map<string, Metadata>, n: nat): seq<nat>
    requires n <= |samples|
  {
    if n == 0 then []
    else
      var before, sample := Owners(samples, metadata, n - 1), samples[n - 1];
      if sample.name in metadata && sample.name !in Names(samples[..n - 1]) then before + [n - 1, n - 1, n - 1]
      else before + [n - 1]
  }

  // The owners go up, every sample owns a line, and a line has its owner's name.
  ghost predicate Owned(owners: seq<nat>, lines: seq<Line>, samples: seq<Sample>, n: nat)
    requires n <= |samples|
  {
    && |owners| == |lines|
    && (forall p | 0 <= p < |owners| :: owners[p] < n && LineName(lines[p]) == samples[owners[p]].name)
    && (forall p, q | 0 <= p < q < |owners| :: owners[p] <= owners[q])
    && forall i: nat | i < n :: i in owners
  }

  lemma OwnedNext(owners: seq<nat>, lines: seq<Line>, samples: seq<Sample>, n: nat, added: seq<Line>)
    requires n < |samples| && Owned(owners, lines, samples, n) && added != []
    requires forall l | l in added :: LineName(l) == samples[n].name
    ensures Owned(owners + seq(|added|, _ => n), lines + added, samples, n + 1)
  {
    var next, all := owners + seq(|added|, _ => n), lines + added;
    forall p | 0 <= p < |next| ensures next[p] < n + 1 && LineName(all[p]) == samples[next[p]].name {
      if p >= |owners| { assert all[p] in added && next[p] == n; }
    }
    forall i: nat | i < n + 1 ensures i in next {
      if i < n { assert i in owners; } else { assert next[|owners|] == n; }
    }
  }

  lemma {:induction false} OwnersOwn(samples: seq<Sample>, metadata: map<string, Metadata>, n: nat)
    requires n <= |samples|
    ensures Owned(Owners(samples, metadata, n), LinesUpTo(samples, metadata, n), samples, n)
  {
    hide Names;
    if n > 0 {
      OwnersOwn(samples, metadata, n - 1);
      var owners, lines := Owners(samples, metadata, n - 1), LinesUpTo(samples, metadata, n - 1);
      var added := LinesUpTo(samples, metadata, n)[|lines|..];
      OwnedNext(owners, lines, samples, n - 1, added);
      assert LinesUpTo(samples, metadata, n) == lines + added;
      assert Owners(samples, metadata, n) == owners + seq(|added|, _ => n - 1);
    }
  }

  // The lines of a metric form one group, for every metric, exactly when its samples came together.
  lemma GroupedExactly(samples: seq<Sample>, metadata: map<string, Metadata>)
    ensures Together(Map(LinesUpTo(samples, metadata, |samples|), LineName))
       <==> Together(Map(samples, (s: Sample) => s.name))
  {
    var n := |samples|;
    var owners, lines := Owners(samples, metadata, n), LinesUpTo(samples, metadata, n);
    OwnersOwn(samples, metadata, n);
    hide LinesUpTo, Owners, LineName;
    SameGroups(Map(lines, LineName), Map(samples, (s: Sample) => s.name), owners);
  }

  // Names repeated along a non-decreasing list of owners are together exactly when the owners' are.
  lemma SameGroups(all: seq<string>, names: seq<string>, owners: seq<nat>)
    requires |owners| == |all| && forall p | 0 <= p < |owners| :: owners[p] < |names| && all[p] == names[owners[p]]
    requires forall p, q | 0 <= p < q < |owners| :: owners[p] <= owners[q]
    requires forall i: nat | i < |names| :: i in owners
    ensures Together(all) <==> Together(names)
  {
    if Together(names) {
      forall i, j, k | 0 <= i < j < k < |all| && all[i] == all[k] ensures all[j] == all[i] {
        assert owners[i] <= owners[j] <= owners[k];
      }
    }
    if Together(all) {
      forall i, j, k | 0 <= i < j < k < |names| && names[i] == names[k] ensures names[j] == names[i] {
        assert i in owners && j in owners && k in owners;
        var p :| 0 <= p < |owners| && owners[p] == i;
        var q :| 0 <= q < |owners| && owners[q] == j;
        var r :| 0 <= r < |owners| && owners[r] == k;
        assert p < q < r by { Apart(owners, p, q); Apart(owners, q, r); }
        assert all[p] == all[r];
      }
    }
  }

  lemma Apart(owners: seq<nat>, p: nat, q: nat)
    requires p < |owners| && q < |owners| && owners[p] < owners[q]
    requires forall p, q | 0 <= p < q < |owners| :: owners[p] <= owners[q]
    ensures p < q
  {
  }

  // ---- one line each -------------------------------------------------------------------------------

  predicate OneLine(s: string) { '\n' !in s }

  predicate LineLegal(line: Line)
  {
    match line
    case Help(name, help) => OneLine(name) && OneLine(help)
    case Type(name, kind) => OneLine(name) && OneLine(kind)
    case Value(sample) => Legal(sample) && OneLine(sample.value)
  }

  lemma NameOneLine(name: string)
    requires IsName(name)
    ensures OneLine(name)
  {
  }

  lemma {:induction false} JoinOneLine(parts: seq<string>, sep: char)
    requires parts != [] && sep != '\n' && forall p | p in parts :: OneLine(p)
    ensures OneLine(Join(parts, sep))
  {
    assert OneLine(parts[0]) by { assert parts[0] in parts; }
    if |parts| > 1 { JoinOneLine(parts[1..], sep); }
  }

  lemma LineTextOneLine(line: Line)
    requires LineLegal(line)
    ensures OneLine(LineText(line))
  {
    match line
    case Help(name, help) =>
    case Type(name, kind) =>
    case Value(sample) =>
      NameOneLine(sample.name);
      if sample.labels != map[] {
        var labels := SortedLabels(sample.labels);
        LabelsNotEmpty(sample.labels);
        LabelsKept(sample.labels);
        var texts := Map(labels, LabelText);
        forall t | t in texts ensures OneLine(t) {
          var i :| 0 <= i < |texts| && texts[i] == t;
          assert labels[i] in labels && (labels[i].0, labels[i].1) == labels[i];
          LabelOneLine(labels[i]);
        }
        JoinOneLine(texts, ',');
      }
  }

  lemma LabelOneLine(pair: (string, string))
    requires IsName(pair.0)
    ensures OneLine(LabelText(pair))
  {
    NameOneLine(pair.0);
    EscapeIsOnePass(pair.1);
    EscapedOneLine(pair.1);
  }

  // Whatever the label values hold, the text splits back into the lines that were printed.
  lemma TextSplits(samples: seq<Sample>, metadata: map<string, Metadata>)
    requires samples != []
    requires forall l | l in LinesUpTo(samples, metadata, |samples|) :: LineLegal(l)
    ensures Split(RenderText(samples, metadata), '\n')
         == Map(LinesUpTo(samples, metadata, |samples|), LineText) + [""]
  {
    var lines := LinesUpTo(samples, metadata, |samples|);
    var texts := Map(lines, LineText);
    assert |lines| > 0;
    hide LineText, LineLegal, LinesUpTo;
    forall t | t in texts ensures '\n' !in t {
      var i :| 0 <= i < |texts| && texts[i] == t;
      assert lines[i] in lines;
      LineTextOneLine(lines[i]);
    }
    JoinAppend(texts, [""], '\n');
    assert Join(texts, '\n') + ['\n'] + "" == Join(texts, '\n') + "\n";
    SplitJoin(texts + [""], '\n');
  }

  // ---- the lines of a description ------------------------------------------------------------------

  // A comment line with a keyword, by the format's rules: the keyword, the metric's name, the rest.
  function ReadComment(line: string): Option<(string, string, string)>
  {
    if !StartsWith(line, "# ") then None
    else
      var parts := Split(line[2..], ' ');
      if |parts| < 3 then None else Some((parts[0], parts[1], Join(parts[2..], ' ')))
  }

  lemma ReadKeyword(line: string, keyword: string, name: string, rest: string)
    requires line == "# " + (keyword + [' '] + (name + [' '] + rest)) && ' ' !in keyword && ' ' !in name
    ensures ReadComment(line) == Some((keyword, name, rest))
  {
    hide Split, Join, StartsWith;
    StartsWithAppend("# ", keyword + [' '] + (name + [' '] + rest));
    assert line[2..] == keyword + [' '] + (name + [' '] + rest);
    SplitPrefix(keyword, name + [' '] + rest, ' ');
    SplitPrefix(name, rest, ' ');
    var parts := Split(line[2..], ' ');
    assert parts == [keyword] + ([name] + Split(rest, ' '));
    assert parts[2..] == Split(rest, ' ');
    JoinSplit(rest, ' ');
  }

  // A description is read back from its two lines: the name, the help text and the type.
  lemma DescriptionRoundTrip(name: string, about: Metadata)
    requires IsName(name)
    ensures ReadComment(LineText(Help(name, about.help))) == Some(("HELP", name, about.help))
    ensures ReadComment(LineText(Type(name, about.kind))) == Some(("TYPE", name, about.kind))
  {
    NameNoSpace(name);
    hide ReadComment, IsName;
    var help, kind := LineText(Help(name, about.help)), LineText(Type(name, about.kind));
    assert help == "# " + ("HELP" + [' '] + (name + [' '] + about.help));
    ReadKeyword(help, "HELP", name, about.help);
    assert kind == "# " + ("TYPE" + [' '] + (name + [' '] + about.kind));
    ReadKeyword(kind, "TYPE", name, about.kind);
  }

  lemma NameNoSpace(name: string)
    requires IsName(name)
    ensures ' ' !in name
  {
    forall i | 0 <= i < |name| ensures name[i] != ' ' { assert NameChar(name[i]); }
  }
}
