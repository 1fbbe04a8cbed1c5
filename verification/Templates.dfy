/**
 * Templates: scanning text for placeholders, printing it again, and filling it in.
 *
 * Double braces open and close a placeholder, the nearest closing pair counts,
 * and what does not begin with the task prefix inside is ordinary text.
 */
module Templates {
  import opened Outcomes
  import opened TaskIds

  datatype TaskOutput = Stdout | Stderr {
    /** How a placeholder spells the stream. */
    function Name(): string {
      match this
      case Stdout => "stdout"
      case Stderr => "stderr"
    }
  }

  datatype OutputReference = OutputReference(task: TaskId, output: TaskOutput)

  datatype Segment = Text(text: string) | Output(reference: OutputReference)

  /** The offending placeholder, braces and all. */
  datatype TemplateError = TemplateError(placeholder: string)

  const OPEN := "{{"
  const CLOSE := "}}"
  const PREFIX := "tasks."

  // ----- strings -----

  predicate At(text: string, pattern: string, i: nat) {
    i + |pattern| <= |text| && text[i..i + |pattern|] == pattern
  }

  /** The first position at or after `from` where `pattern` occurs. */
  function Find(text: string, pattern: string, from: nat): (r: Option<nat>)
    requires from <= |text|
    ensures r.Some? ==> from <= r.value && At(text, pattern, r.value)
                        && forall j: nat :: from <= j < r.value ==> !At(text, pattern, j)
    ensures r.None? ==> forall j: nat :: from <= j <= |text| ==> !At(text, pattern, j)
    decreases |text| - from
  {
    if At(text, pattern, from) then Some(from)
    else if from == |text| then None
    else Find(text, pattern, from + 1)
  }

  /** The characters with the Unicode property White_Space. */
  predicate IsWhitespace(c: char) {
    || '\t' <= c <= '\r' || c == ' ' || c == '\U{85}' || c == '\U{A0}' || c == '\U{1680}'
    || '\U{2000}' <= c <= '\U{200A}' || c == '\U{2028}' || c == '\U{2029}' || c == '\U{202F}'
    || c == '\U{205F}' || c == '\U{3000}'
  }

  /** The code points of the property, as Unicode lists them. */
  lemma WhitespaceIsUnicode(c: char)
    ensures IsWhitespace(c) <==>
            var n := c as int;
            9 <= n <= 13 || n == 32 || n == 133 || n == 160 || n == 5760 || 8192 <= n <= 8202 || n == 8232 || n == 8233 || n == 8239
            || n == 8287 || n == 12288
  {
    assert '\t' as int == 9 && '\r' as int == 13 && ' ' as int == 32;
  }

  predicate Blank(text: string) {
    forall i :: 0 <= i < |text| ==> IsWhitespace(text[i])
  }

  function TrimStart(text: string): string {
    if text != "" && IsWhitespace(text[0]) then TrimStart(text[1..]) else text
  }

  function TrimEnd(text: string): string {
    if text != "" && IsWhitespace(text[|text| - 1]) then TrimEnd(text[..|text| - 1]) else text
  }

  function Trim(text: string): string {
    TrimEnd(TrimStart(text))
  }

  /** Splits at the last `separator`. */
  function RSplitOnce(text: string, separator: char): (r: Option<(string, string)>)
    ensures r.None? <==> separator !in text
    ensures r.Some? ==> text == r.value.0 + [separator] + r.value.1 && separator !in r.value.1
  {
    if text == "" then None
    else if text[|text| - 1] == separator then Some((text[..|text| - 1], ""))
    else match RSplitOnce(text[..|text| - 1], separator)
      case None => None
      case Some((left, right)) => Some((left, right + [text[|text| - 1]]))
  }

  // ----- scanning -----

  datatype Placeholder = Placeholder(before: string, placeholder: string, after: string)

  /** Whole placeholders: opened at the front, closed for the first time at the end. */
  predicate IsPlaceholder(placeholder: string) {
    && |placeholder| >= 4
    && At(placeholder, OPEN, 0)
    && At(placeholder, CLOSE, |placeholder| - 2)
    && forall j: nat :: 2 <= j < |placeholder| - 2 ==> !At(placeholder, CLOSE, j)
  }

  /** `before` holds no opening braces, also not together with a brace after it. */
  predicate NoOpen(before: string) {
    forall j: nat :: j < |before| ==> !At(before + "{", OPEN, j)
  }

  /** Some opening braces are closed later on. */
  predicate HasPlaceholder(text: string) {
    exists i, j | 0 <= i && i + 2 <= j <= |text| :: At(text, OPEN, i) && At(text, CLOSE, j)
  }

  /**
   * Cuts the text around its first closed placeholder: nothing opens before it, and nothing closes it sooner.
   * No answer means that nothing which opens is ever closed.
   */
  function NextPlaceholder(text: string): (r: Option<Placeholder>)
    ensures r.Some? ==> text == r.value.before + r.value.placeholder + r.value.after
    ensures r.Some? ==> NoOpen(r.value.before) && IsPlaceholder(r.value.placeholder)
    ensures r.None? ==> !HasPlaceholder(text)
  {
    match Find(text, OPEN, 0)
    case None => None
    case Some(start) =>
      match Find(text, CLOSE, start + 2)
      case None => None
      case Some(close) =>
        PlaceholderIsSlice(text, start, close);
        NoOpenBefore(text, start);
        Some(Placeholder(text[..start], text[start..close + 2], text[close + 2..]))
  }

  lemma PlaceholderIsSlice(text: string, start: nat, close: nat)
    requires At(text, OPEN, start) && start + 2 <= close && At(text, CLOSE, close)
    requires forall j: nat :: start + 2 <= j < close ==> !At(text, CLOSE, j)
    ensures text == text[..start] + text[start..close + 2] + text[close + 2..]
    ensures IsPlaceholder(text[start..close + 2])
  {
    var placeholder := text[start..close + 2];
    assert placeholder[0..2] == text[start..start + 2];
    assert placeholder[close - start..close - start + 2] == text[close..close + 2];
    forall j: nat | 2 <= j < |placeholder| - 2 ensures !At(placeholder, CLOSE, j) {
      assert !At(text, CLOSE, start + j);
      assert placeholder[j..j + 2] == text[start + j..start + j + 2];
    }
  }

  lemma NoOpenBefore(text: string, start: nat)
    requires At(text, OPEN, start) && forall j: nat :: j < start ==> !At(text, OPEN, j)
    ensures NoOpen(text[..start])
  {
    var before := text[..start];
    assert text[start] == '{' by { assert text[start..start + 2] == OPEN; }
    assert before + "{" == text[..start + 1];
    forall j: nat | j < start ensures !At(before + "{", OPEN, j) {
      assert !At(text, OPEN, j);
      assert j + 2 <= start + 1 ==> (before + "{")[j..j + 2] == text[j..j + 2];
    }
  }

  /** Reads the inside of a placeholder; other braces give nothing. */
  function ParseReference(placeholder: string): Option<Result<OutputReference, TemplateError>>
    requires |placeholder| >= 4
  {
    var inner := Trim(placeholder[2..|placeholder| - 2]);
    if !At(inner, PREFIX, 0) then None
    else
      match RSplitOnce(inner[|PREFIX|..], '.')
      case None => Some(Err(TemplateError(placeholder)))
      case Some((task, output)) =>
        if output != Stdout.Name() && output != Stderr.Name() then Some(Err(TemplateError(placeholder)))
        else
          match FromStr(task)
          case Err(_) => Some(Err(TemplateError(placeholder)))
          case Ok(id) => Some(Ok(OutputReference(id, if output == Stdout.Name() then Stdout else Stderr)))
  }

  /** No literal text is empty, and none follows another. */
  predicate Normal(segments: seq<Segment>) {
    && (forall i :: 0 <= i < |segments| ==> segments[i].Text? ==> segments[i].text != "")
    && (forall i :: 0 < i < |segments| ==> segments[i].Text? ==> segments[i - 1].Output?)
  }

  /** Appends literal text, joining it to literal text that is already last. */
  function PushText(segments: seq<Segment>, text: string): seq<Segment> {
    if text == "" then segments
    else if segments != [] && segments[|segments| - 1].Text? then
      segments[..|segments| - 1] + [Text(segments[|segments| - 1].text + text)]
    else segments + [Text(text)]
  }

  /** Puts literal text in front, joining it to literal text that is already first. */
  function Prepend(text: string, segments: seq<Segment>): (r: seq<Segment>)
    ensures Normal(segments) ==> Normal(r)
  {
    if text == "" then segments
    else if segments != [] && segments[0].Text? then [Text(text + segments[0].text)] + segments[1..]
    else [Text(text)] + segments
  }

  function WithOutput(reference: OutputReference, segments: seq<Segment>): (r: seq<Segment>)
    ensures Normal(segments) ==> Normal(r)
  {
    [Output(reference)] + segments
  }

  /** Concatenation that joins the literal texts that meet in the middle. */
  function Glue(left: seq<Segment>, right: seq<Segment>): seq<Segment> {
    if right != [] && right[0].Text? then PushText(left, right[0].text) + right[1..]
    else left + right
  }

  /** What scanning ends with once the segments on the left are read. */
  function GlueTail(left: seq<Segment>, tail: Result<seq<Segment>, TemplateError>): Result<seq<Segment>, TemplateError> {
    if tail.Err? then tail else Ok(Glue(left, tail.value))
  }

  /** The segments of `text`, read from its end to its front. */
  function Segments(text: string): (r: Result<seq<Segment>, TemplateError>)
    ensures r.Ok? ==> Normal(r.value)
    decreases |text|
  {
    match NextPlaceholder(text)
    case None => Ok(Prepend(text, []))
    case Some(Placeholder(before, placeholder, after)) =>
      match ParseReference(placeholder)
      case Some(Err(error)) => Err(error)
      case Some(Ok(reference)) =>
        (match Segments(after)
         case Err(error) => Err(error)
         case Ok(rest) => Ok(Prepend(before, WithOutput(reference, rest))))
      case None =>
        (match Segments(after)
         case Err(error) => Err(error)
         case Ok(rest) => Ok(Prepend(before + placeholder, rest)))
  }

  /** Scans the text from its front, segment by segment. */
  method Parse(text: string) returns (r: Result<seq<Segment>, TemplateError>)
    ensures r == Segments(text)
  {
    var segments: seq<Segment> := [];
    var rest := text;
    var next := NextPlaceholder(rest);
    if Segments(text).Ok? { GlueNothing(Segments(text).value); }
    while next.Some?
      invariant next == NextPlaceholder(rest)
      invariant Segments(text) == GlueTail(segments, Segments(rest))
      decreases |rest|
    {
      var Placeholder(literal, placeholder, after) := next.value;
      ghost var tail := Segments(after);
      ghost var done := segments;
      segments := PushText(segments, literal);
      match ParseReference(placeholder) {
        case Some(Ok(reference)) =>
          if tail.Ok? {
            GlueThrough(done, literal, WithOutput(reference, tail.value));
            GlueOutput(segments, reference, tail.value);
          }
          segments := segments + [Output(reference)];
        case Some(Err(error)) => return Err(error);
        case None =>
          if tail.Ok? {
            PushTwice(done, literal, placeholder);
            GlueThrough(done, literal + placeholder, tail.value);
          }
          segments := PushText(segments, placeholder);
      }
      rest := after;
      next := NextPlaceholder(rest);
    }
    GlueThrough(segments, rest, []);
    segments := PushText(segments, rest);
    assert segments + [] == segments;
    r := Ok(segments);
  }

  lemma GlueNothing(segments: seq<Segment>)
    requires Normal(segments)
    ensures Glue([], segments) == segments
  {
    if segments != [] && segments[0].Text? {
      assert segments[0].text != "";
      assert [] + [Text(segments[0].text)] + segments[1..] == segments;
    }
  }

  lemma GlueThrough(left: seq<Segment>, text: string, right: seq<Segment>)
    requires Normal(right)
    ensures Glue(left, Prepend(text, right)) == Glue(PushText(left, text), right)
  {
    if text != "" && right != [] && right[0].Text? {
      assert Prepend(text, right)[1..] == right[1..];
      PushTwice(left, text, right[0].text);
    } else if text != "" {
      assert Prepend(text, right) == [Text(text)] + right;
      assert ([Text(text)] + right)[1..] == right;
    }
  }

  lemma PushTwice(segments: seq<Segment>, first: string, second: string)
    ensures PushText(PushText(segments, first), second) == PushText(segments, first + second)
  {
    if first == "" {
      assert first + second == second;
    } else if second == "" {
      assert first + second == first;
    } else if segments != [] && segments[|segments| - 1].Text? {
      var last := segments[|segments| - 1].text;
      assert (last + first) + second == last + (first + second);
    }
  }

  lemma GlueOutput(left: seq<Segment>, reference: OutputReference, right: seq<Segment>)
    requires Normal(right)
    ensures Glue(left, [Output(reference)] + right) == Glue(left + [Output(reference)], right)
  {
    var joined := left + [Output(reference)];
    if right != [] && right[0].Text? {
      assert right[0].text != "";
      assert PushText(joined, right[0].text) + right[1..] == joined + [Text(right[0].text)] + right[1..];
      assert [Text(right[0].text)] + right[1..] == right;
    }
    assert left + ([Output(reference)] + right) == joined + right;
  }

  // ----- reading the segments -----

  /** The references among the segments, first to last. */
  function References(segments: seq<Segment>): seq<OutputReference> {
    if segments == [] then []
    else (if segments[0].Output? then [segments[0].reference] else []) + References(segments[1..])
  }

  /** The text with every reference replaced by what `lookup` returns for it. */
  function Filled(segments: seq<Segment>, lookup: OutputReference -> Option<string>): Result<string, OutputReference> {
    if segments == [] then Ok("")
    else
      var first := match segments[0]
                   case Text(text) => Some(text)
                   case Output(reference) => lookup(reference);
      if first.None? then Err(segments[0].reference)
      else Follow(first.value, Filled(segments[1..], lookup))
  }

  function Follow(text: string, rest: Result<string, OutputReference>): Result<string, OutputReference> {
    if rest.Err? then rest else Ok(text + rest.value)
  }

  lemma FollowTwice(first: string, second: string, rest: Result<string, OutputReference>)
    ensures Follow(first, Follow(second, rest)) == Follow(first + second, rest)
  {
    if rest.Ok? {
      assert first + (second + rest.value) == (first + second) + rest.value;
    }
  }

  /** `text` is the literals as they stand and, in the place of each reference, exactly what was looked up for it. */
  predicate Replaces(segments: seq<Segment>, lookup: OutputReference -> Option<string>, text: string) {
    if segments == [] then text == ""
    else match segments[0]
      case Text(literal) => literal <= text && Replaces(segments[1..], lookup, text[|literal|..])
      case Output(reference) =>
        match lookup(reference)
        case None => false
        case Some(output) => output <= text && Replaces(segments[1..], lookup, text[|output|..])
  }

  /** Nothing was looked up for the reference, and something was for every reference before it. */
  predicate IsFirstMissing(segments: seq<Segment>, lookup: OutputReference -> Option<string>, reference: OutputReference) {
    segments != [] &&
    match segments[0]
    case Text(_) => IsFirstMissing(segments[1..], lookup, reference)
    case Output(first) => if lookup(first).None? then reference == first else IsFirstMissing(segments[1..], lookup, reference)
  }

  lemma {:induction false} FilledReplaces(segments: seq<Segment>, lookup: OutputReference -> Option<string>)
    ensures match Filled(segments, lookup)
            case Ok(text) => Replaces(segments, lookup, text) && forall reference :: !IsFirstMissing(segments, lookup, reference)
            case Err(reference) => IsFirstMissing(segments, lookup, reference) && forall text :: !Replaces(segments, lookup, text)
  {
    if segments != [] {
      FilledReplaces(segments[1..], lookup);
      var first := if segments[0].Text? then Some(segments[0].text) else lookup(segments[0].reference);
      var rest := Filled(segments[1..], lookup);
      if first.Some? && rest.Ok? {
        assert (first.value + rest.value)[|first.value|..] == rest.value;
      }
    }
  }

  /** Only one text has every reference replaced. */
  lemma {:induction false} ReplacedIsUnique(segments: seq<Segment>, lookup: OutputReference -> Option<string>, one: string, other: string)
    requires Replaces(segments, lookup, one) && Replaces(segments, lookup, other)
    ensures one == other
  {
    if segments != [] {
      var first := if segments[0].Text? then segments[0].text else lookup(segments[0].reference).value;
      ReplacedIsUnique(segments[1..], lookup, one[|first|..], other[|first|..]);
      assert one == first + one[|first|..] && other == first + other[|first|..];
    }
  }

  /** Writes the segments out, outputs in the place of references, until an output is missing. */
  method Render(segments: seq<Segment>, lookup: OutputReference -> Option<string>)
    returns (r: Result<string, OutputReference>)
    ensures r == Filled(segments, lookup)
    ensures r.Ok? ==> Replaces(segments, lookup, r.value)
    ensures r.Err? ==> IsFirstMissing(segments, lookup, r.error)
  {
    FilledReplaces(segments, lookup);
    var rendered := "";
    assert segments[0..] == segments;
    assert Filled(segments, lookup).Ok? ==> "" + Filled(segments, lookup).value == Filled(segments, lookup).value;
    for i := 0 to |segments|
      invariant Filled(segments, lookup) == Follow(rendered, Filled(segments[i..], lookup))
    {
      assert segments[i..][1..] == segments[i + 1..];
      match segments[i] {
        case Text(text) =>
          FollowTwice(rendered, text, Filled(segments[i + 1..], lookup));
          rendered := rendered + text;
        case Output(reference) =>
          match lookup(reference) {
            case Some(output) =>
              FollowTwice(rendered, output, Filled(segments[i + 1..], lookup));
              rendered := rendered + output;
            case None => return Err(reference);
          }
      }
    }
    assert rendered + "" == rendered;
    r := Ok(rendered);
  }

  // ----- printing -----

  /** The inside of a reference, without the blanks around it. */
  function Path(reference: OutputReference): string {
    PREFIX + (reference.task + "." + reference.output.Name())
  }

  /** A reference as a manifest writes it. */
  function PrintReference(reference: OutputReference): string {
    OPEN + (" " + Path(reference) + " ") + CLOSE
  }

  function Print(segments: seq<Segment>): string {
    if segments == [] then ""
    else PrintSegment(segments[0]) + Print(segments[1..])
  }

  function PrintSegment(segment: Segment): string {
    match segment
    case Text(text) => text
    case Output(reference) => PrintReference(reference)
  }

  lemma {:induction false} PrintPrepend(text: string, segments: seq<Segment>)
    ensures Print(Prepend(text, segments)) == text + Print(segments)
  {
    if text == "" {
    } else if segments != [] && segments[0].Text? {
      var head, rest := segments[0].text, Print(segments[1..]);
      assert Prepend(text, segments) == [Text(text + head)] + segments[1..];
      PrintFront(Text(text + head), segments[1..]);
      assert (text + head) + rest == text + (head + rest);
    } else {
      PrintFront(Text(text), segments);
    }
  }

  lemma {:induction false} PrintFront(segment: Segment, segments: seq<Segment>)
    ensures Print([segment] + segments) == PrintSegment(segment) + Print(segments)
  {
    assert ([segment] + segments)[1..] == segments;
  }

  // ----- the round trip -----

  /** The printed form of a reference reads back as that reference. */
  lemma ReferenceReadsBack(reference: OutputReference)
    ensures PrintReference(reference) == "{{ tasks." + reference.task + StreamSuffix(reference.output) + " }}"
    ensures |PrintReference(reference)| >= 4
    ensures ParseReference(PrintReference(reference)) == Some(Ok(reference))
  {
    var name := reference.output.Name();
    var path := reference.task + "." + name;
    assert PrintReference(reference)[2..|PrintReference(reference)| - 2] == " " + Path(reference) + " ";
    TrimPadded(Path(reference)) by {
      assert Path(reference)[0] == 't';
      assert Path(reference)[|Path(reference)| - 1] == name[|name| - 1];
    }
    PrintIsSpelled(reference);
    StripPrefix(PREFIX, path);
    LastSeparator(reference.task, name, '.');
  }

  lemma PrintIsSpelled(reference: OutputReference)
    ensures PrintReference(reference) == "{{ tasks." + reference.task + StreamSuffix(reference.output) + " }}"
  {
    PathIsSpelled(reference);
    var inside := "tasks." + reference.task + StreamSuffix(reference.output);
    assert "{{" + (" " + inside + " ") + "}}" == "{{ " + inside + " }}";
    assert "{{ " + ("tasks." + reference.task) == "{{ tasks." + reference.task;
  }

  lemma StripPrefix(prefix: string, rest: string)
    ensures At(prefix + rest, prefix, 0) && (prefix + rest)[|prefix|..] == rest
  {
  }

  lemma TrimPadded(inner: string)
    requires inner != "" && !IsWhitespace(inner[0]) && !IsWhitespace(inner[|inner| - 1])
    ensures Trim(" " + inner + " ") == inner
  {
    var padded := " " + inner + " ";
    assert padded[1..] == inner + " ";
    assert TrimStart(inner + " ") == inner + " ";
    assert TrimStart(padded) == inner + " ";
    assert (inner + " ")[..|inner|] == inner;
    assert (inner + " ")[|inner|] == ' ';
    assert TrimEnd(inner + " ") == TrimEnd(inner) == inner;
  }

  lemma {:induction false} LastSeparator(left: string, right: string, separator: char)
    requires separator !in right
    ensures RSplitOnce(left + [separator] + right, separator) == Some((left, right))
  {
    var text := left + [separator] + right;
    if right == "" {
      assert text[..|text| - 1] == left;
    } else {
      var shorter := right[..|right| - 1];
      assert text[..|text| - 1] == left + [separator] + shorter;
      LastSeparator(left, shorter, separator);
      assert right == shorter + [right[|right| - 1]];
    }
  }

  /**
   * Parsing the printed form of a parsed template gives the same segments: what
   * is printed is a fixed point, however the placeholders were spaced.
   */
  lemma {:induction false} PrintedParsesBack(text: string)
    requires Segments(text).Ok?
    ensures Segments(Print(Segments(text).value)) == Segments(text)
    decreases |text|
  {
    match NextPlaceholder(text)
    case None =>
      PrintPrepend(text, []);
      assert text + "" == text;
    case Some(Placeholder(before, placeholder, after)) =>
      PrintedParsesBack(after);
      var rest := Print(Segments(after).value);
      match ParseReference(placeholder) {
        case Some(Ok(reference)) =>
          PrintPrepend(before, WithOutput(reference, Segments(after).value));
          assert WithOutput(reference, Segments(after).value)[1..] == Segments(after).value;
          var printed := PrintReference(reference);
          assert Print(Segments(text).value) == before + (printed + rest);
          PrintedIsPlaceholder(reference);
          FirstPlaceholder(before, printed, rest);
          ReferenceReadsBack(reference);
        case None =>
          PrintPrepend(before + placeholder, Segments(after).value);
          assert Print(Segments(text).value) == before + placeholder + rest;
          FirstPlaceholder(before, placeholder, rest);
      }
  }

  lemma PrintedIsPlaceholder(reference: OutputReference)
    ensures IsPlaceholder(PrintReference(reference))
  {
    var printed := PrintReference(reference);
    forall j: nat | 2 <= j < |printed| - 2 ensures !At(printed, CLOSE, j) {
      assert printed[j] != '}';
      assert printed[j..j + 2][0] == printed[j];
    }
    assert printed[0..2] == OPEN;
    assert printed[|printed| - 2..|printed| - 2 + 2] == CLOSE;
  }

  lemma OpensHere(before: string, placeholder: string, after: string)
    requires NoOpen(before) && IsPlaceholder(placeholder)
    ensures Find(before + placeholder + after, OPEN, 0) == Some(|before|)
  {
    var text, start := before + placeholder + after, |before|;
    assert placeholder[0] == '{' by { assert placeholder[0..2] == OPEN; }
    forall j: nat | j < start ensures !At(text, OPEN, j) {
      assert !At(before + "{", OPEN, j);
      assert text[..start + 1] == before + "{";
      assert text[j..j + 2] == text[..start + 1][j..j + 2];
    }
    assert At(text, OPEN, start) by { assert text[start..start + 2] == placeholder[0..2]; }
  }

  /** The three pieces of a text, and what stands at a place of the middle one. */
  lemma Pieces(before: string, placeholder: string, after: string)
    ensures var text, end := before + placeholder + after, |before| + |placeholder|;
            text[..|before|] == before && text[|before|..end] == placeholder && text[end..] == after
    ensures before + placeholder + after == before + (placeholder + after)
  {
  }

  lemma AtInside(before: string, placeholder: string, after: string, pattern: string, j: nat)
    requires j + |pattern| <= |placeholder|
    ensures At(before + placeholder + after, pattern, |before| + j) <==> At(placeholder, pattern, j)
  {
    var text := before + placeholder + after;
    assert text[|before| + j..|before| + j + |pattern|] == placeholder[j..j + |pattern|];
  }

  lemma ClosesHere(before: string, placeholder: string, after: string)
    requires IsPlaceholder(placeholder)
    ensures Find(before + placeholder + after, CLOSE, |before| + 2) == Some(|before| + |placeholder| - 2)
  {
    var text, start, close := before + placeholder + after, |before|, |before| + |placeholder| - 2;
    forall j: nat | start + 2 <= j < close ensures !At(text, CLOSE, j) {
      AtInside(before, placeholder, after, CLOSE, j - start);
    }
    AtInside(before, placeholder, after, CLOSE, |placeholder| - 2);
  }

  lemma FoundAt(text: string, start: nat, close: nat)
    requires Find(text, OPEN, 0) == Some(start) && start + 2 <= |text| && Find(text, CLOSE, start + 2) == Some(close)
    ensures close + 2 <= |text| && start <= close
    ensures NextPlaceholder(text) == Some(Placeholder(text[..start], text[start..close + 2], text[close + 2..]))
  {
  }

  /** The scanner stops at a whole placeholder that nothing before it opens. */
  lemma FirstPlaceholder(before: string, placeholder: string, after: string)
    requires NoOpen(before) && IsPlaceholder(placeholder)
    ensures NextPlaceholder(before + placeholder + after) == Some(Placeholder(before, placeholder, after))
    ensures NextPlaceholder(before + (placeholder + after)) == Some(Placeholder(before, placeholder, after))
  {
    OpensHere(before, placeholder, after);
    ClosesHere(before, placeholder, after);
    FoundAt(before + placeholder + after, |before|, |before| + |placeholder| - 2);
    Pieces(before, placeholder, after);
  }

  // ----- what a parse means -----

  /** The ways to write one segment: a reference may carry any blanks inside its braces. */
  ghost predicate Writes(segment: Segment, text: string) {
    match segment
    case Text(literal) => text == literal
    case Output(reference) =>
      exists left: string, right: string :: WritesReference(reference, left, right, text)
  }

  predicate WritesReference(reference: OutputReference, left: string, right: string, text: string) {
    Blank(left) && Blank(right) && text == "{{" + (left + ("tasks." + reference.task + StreamSuffix(reference.output)) + right) + "}}"
  }

  /** How a reference ends, by the stream it names. */
  function StreamSuffix(output: TaskOutput): string {
    if output == Stdout then ".stdout" else ".stderr"
  }

  lemma PathIsSpelled(reference: OutputReference)
    ensures Path(reference) == "tasks." + reference.task + StreamSuffix(reference.output)
  {
    assert reference.task + "." + reference.output.Name() == reference.task + StreamSuffix(reference.output);
  }

  /** `text` is the segments written one after another. */
  ghost predicate Spells(segments: seq<Segment>, text: string) {
    if segments == [] then text == "" else exists n: nat :: SpellsFrom(segments, text, n)
  }

  /** The first segment is written in the first `n` characters, the others in the rest. */
  ghost predicate SpellsFrom(segments: seq<Segment>, text: string, n: nat)
    requires segments != []
  {
    n <= |text| && Writes(segments[0], text[..n]) && Spells(segments[1..], text[n..])
  }

  lemma {:induction false} SpellsFront(segment: Segment, front: string, segments: seq<Segment>, rest: string)
    requires Writes(segment, front) && Spells(segments, rest)
    ensures Spells([segment] + segments, front + rest)
  {
    assert ([segment] + segments)[1..] == segments;
    assert (front + rest)[..|front|] == front && (front + rest)[|front|..] == rest;
    assert SpellsFrom([segment] + segments, front + rest, |front|);
  }

  lemma TakeFront(segments: seq<Segment>, text: string) returns (front: string, rest: string)
    requires segments != [] && Spells(segments, text)
    ensures text == front + rest && Writes(segments[0], front) && Spells(segments[1..], rest)
  {
    var n: nat :| SpellsFrom(segments, text, n);
    front, rest := text[..n], text[n..];
  }

  lemma SpellsPrepend(text: string, segments: seq<Segment>, rest: string)
    requires Spells(segments, rest)
    ensures Spells(Prepend(text, segments), text + rest)
  {
    if text == "" {
      assert text + rest == rest;
    } else if segments != [] && segments[0].Text? {
      SpellsMerge(text, segments, rest);
    } else {
      SpellsFront(Text(text), text, segments, rest);
    }
  }

  lemma {:induction false} SpellsMerge(text: string, segments: seq<Segment>, rest: string)
    requires segments != [] && segments[0].Text? && Spells(segments, rest)
    ensures Spells([Text(text + segments[0].text)] + segments[1..], text + rest)
  {
    var front, tail := TakeFront(segments, rest);
    var head := text + segments[0].text;
    SpellsFront(Text(head), head, segments[1..], tail);
    assert head + tail == text + rest;
  }

  lemma TrimEndSplits(text: string) returns (right: string)
    ensures Blank(right) && text == TrimEnd(text) + right
  {
    if text != "" && IsWhitespace(text[|text| - 1]) {
      var shorter := TrimEndSplits(text[..|text| - 1]);
      right := shorter + [text[|text| - 1]];
      assert text == text[..|text| - 1] + [text[|text| - 1]];
    } else {
      right := "";
    }
  }

  lemma TrimStartSplits(text: string) returns (left: string)
    ensures Blank(left) && text == left + TrimStart(text)
  {
    if text != "" && IsWhitespace(text[0]) {
      var shorter := TrimStartSplits(text[1..]);
      left := [text[0]] + shorter;
    } else {
      left := "";
    }
  }

  /** A placeholder that reads as a reference is that reference, up to blanks. */
  lemma ReadReferenceIsWritten(placeholder: string)
    requires |placeholder| >= 4 && At(placeholder, OPEN, 0) && At(placeholder, CLOSE, |placeholder| - 2)
    requires ParseReference(placeholder).Some? && ParseReference(placeholder).value.Ok?
    ensures Writes(Output(ParseReference(placeholder).value.value), placeholder)
  {
    var inside := placeholder[2..|placeholder| - 2];
    var reference := ParseReference(placeholder).value.value;
    var left, right := TrimSplits(inside);
    ReadReferenceIsPath(placeholder);
    BracesSplit(placeholder);
    PathIsSpelled(reference);
    assert WritesReference(reference, left, right, placeholder);
  }

  lemma BracesSplit(placeholder: string)
    requires |placeholder| >= 4 && At(placeholder, OPEN, 0) && At(placeholder, CLOSE, |placeholder| - 2)
    ensures placeholder == OPEN + placeholder[2..|placeholder| - 2] + CLOSE
  {
    assert placeholder[0..2] == OPEN && placeholder[|placeholder| - 2..|placeholder| - 2 + 2] == CLOSE;
  }

  lemma TrimSplits(text: string) returns (left: string, right: string)
    ensures Blank(left) && Blank(right) && text == left + Trim(text) + right
  {
    left := TrimStartSplits(text);
    right := TrimEndSplits(TrimStart(text));
  }

  lemma ReadReferenceIsPath(placeholder: string)
    requires |placeholder| >= 4 && ParseReference(placeholder).Some? && ParseReference(placeholder).value.Ok?
    ensures Trim(placeholder[2..|placeholder| - 2]) == Path(ParseReference(placeholder).value.value)
  {
    var inner := Trim(placeholder[2..|placeholder| - 2]);
    assert inner == PREFIX + inner[|PREFIX|..];
  }

  // ----- which placeholders are references -----

  lemma {:induction false} TrimStartDrops(left: string, inner: string)
    requires Blank(left) && inner != "" && !IsWhitespace(inner[0])
    ensures TrimStart(left + inner) == inner
  {
    if left == "" {
      assert left + inner == inner;
    } else {
      assert (left + inner)[1..] == left[1..] + inner;
      TrimStartDrops(left[1..], inner);
    }
  }

  lemma {:induction false} TrimEndDrops(inner: string, right: string)
    requires Blank(right) && inner != "" && !IsWhitespace(inner[|inner| - 1])
    ensures TrimEnd(inner + right) == inner
  {
    if right == "" {
      assert inner + right == inner;
    } else {
      assert (inner + right)[..|inner + right| - 1] == inner + right[..|right| - 1];
      TrimEndDrops(inner, right[..|right| - 1]);
    }
  }

  /** What ends in something else than a blank stays in front. */
  lemma {:induction false} TrimEndKeeps(front: string, text: string)
    requires front != "" && !IsWhitespace(front[|front| - 1])
    ensures front <= TrimEnd(front + text)
  {
    if text != "" && IsWhitespace(text[|text| - 1]) {
      assert (front + text)[..|front + text| - 1] == front + text[..|text| - 1];
      TrimEndKeeps(front, text[..|text| - 1]);
    } else if text == "" {
      assert front + text == front;
    }
  }

  lemma InsideBraces(inside: string)
    ensures var placeholder := "{{" + inside + "}}";
            |placeholder| >= 4 && placeholder[2..|placeholder| - 2] == inside
  {
  }

  /** Behind the opening braces and blanks stands the prefix of task references. */
  ghost predicate IsTaskPlaceholder(placeholder: string) {
    exists left: string, rest: string :: OpensTask(placeholder, left, rest)
  }

  predicate OpensTask(placeholder: string, left: string, rest: string) {
    Blank(left) && placeholder == "{{" + (left + ("tasks." + rest)) + "}}"
  }

  lemma TaskPrefixIsTrimmed(placeholder: string)
    requires IsPlaceholder(placeholder)
    ensures IsTaskPlaceholder(placeholder) <==> At(Trim(placeholder[2..|placeholder| - 2]), PREFIX, 0)
  {
    var inside := placeholder[2..|placeholder| - 2];
    if IsTaskPlaceholder(placeholder) {
      var left, rest :| OpensTask(placeholder, left, rest);
      InsideBraces(left + ("tasks." + rest));
      TrimStartDrops(left, "tasks." + rest);
      TrimEndKeeps("tasks.", rest);
    }
    if At(Trim(inside), PREFIX, 0) {
      var left, right := TrimSplits(inside);
      var rest := Trim(inside)[|PREFIX|..] + right;
      assert Trim(inside) == PREFIX + Trim(inside)[|PREFIX|..];
      assert inside == left + ("tasks." + rest);
      BracesSplit(placeholder);
      assert OpensTask(placeholder, left, rest);
    }
  }

  lemma WrittenReferenceIsRead(placeholder: string, reference: OutputReference)
    requires IsPlaceholder(placeholder) && Writes(Output(reference), placeholder)
    ensures ParseReference(placeholder) == Some(Ok(reference))
  {
    var left: string, right: string :| WritesReference(reference, left, right, placeholder);
    PathIsSpelled(reference);
    var path, name := Path(reference), reference.output.Name();
    InsideBraces(left + path + right);
    assert path[0] == 't' && path[|path| - 1] == name[|name| - 1];
    assert left + path + right == left + (path + right);
    TrimStartDrops(left, path + right);
    TrimEndDrops(path, right);
    StripPrefix(PREFIX, reference.task + "." + name);
    LastSeparator(reference.task, name, '.');
  }

  /**
   * A placeholder is read as a reference exactly when it spells it, whatever blanks surround it. One that only opens
   * like a reference is an error that quotes it, and any other is ordinary text.
   */
  lemma PlaceholderIsReadExactly(placeholder: string)
    requires IsPlaceholder(placeholder)
    ensures forall reference :: ParseReference(placeholder) == Some(Ok(reference)) <==> Writes(Output(reference), placeholder)
    ensures ParseReference(placeholder).None? <==> !IsTaskPlaceholder(placeholder)
    ensures ParseReference(placeholder).Some? && ParseReference(placeholder).value.Err? ==>
              ParseReference(placeholder).value.error == TemplateError(placeholder)
  {
    TaskPrefixIsTrimmed(placeholder);
    forall reference ensures ParseReference(placeholder) == Some(Ok(reference)) <==> Writes(Output(reference), placeholder) {
      if ParseReference(placeholder) == Some(Ok(reference)) {
        ReadReferenceIsWritten(placeholder);
      }
      if Writes(Output(reference), placeholder) {
        WrittenReferenceIsRead(placeholder, reference);
      }
    }
  }

  /** Opens like a reference, and spells none. */
  ghost predicate IsMalformed(placeholder: string) {
    IsTaskPlaceholder(placeholder) && forall reference :: !Writes(Output(reference), placeholder)
  }

  /** The first malformed placeholder of the text, taken from the left. */
  ghost predicate IsFirstMalformed(text: string, placeholder: string)
    decreases |text|
  {
    match NextPlaceholder(text)
    case None => false
    case Some(next) => if IsMalformed(next.placeholder) then placeholder == next.placeholder else IsFirstMalformed(next.after, placeholder)
  }

  lemma MalformedIsRefused(placeholder: string)
    requires IsPlaceholder(placeholder)
    ensures IsMalformed(placeholder) <==> ParseReference(placeholder) == Some(Err(TemplateError(placeholder)))
    ensures !IsMalformed(placeholder) <==> ParseReference(placeholder).None? || ParseReference(placeholder).value.Ok?
  {
    PlaceholderIsReadExactly(placeholder);
    if ParseReference(placeholder).Some? && ParseReference(placeholder).value.Ok? {
      assert Writes(Output(ParseReference(placeholder).value.value), placeholder);
    }
  }

  /** A text is refused exactly when it holds a malformed placeholder, and the error quotes the first one. */
  lemma {:induction false} RefusedExactly(text: string, error: TemplateError)
    ensures Segments(text) == Err(error) <==> IsFirstMalformed(text, error.placeholder)
    decreases |text|
  {
    if NextPlaceholder(text).Some? {
      var next := NextPlaceholder(text).value;
      MalformedIsRefused(next.placeholder);
      RefusedExactly(next.after, error);
    }
  }

  lemma SpellsReference(before: string, placeholder: string, reference: OutputReference, segments: seq<Segment>, after: string)
    requires Writes(Output(reference), placeholder) && Spells(segments, after)
    ensures Spells(Prepend(before, WithOutput(reference, segments)), before + placeholder + after)
  {
    SpellsFront(Output(reference), placeholder, segments, after);
    SpellsPrepend(before, WithOutput(reference, segments), placeholder + after);
    assert before + (placeholder + after) == before + placeholder + after;
  }

  lemma SpellsAll(text: string)
    ensures Spells(Prepend(text, []), text)
  {
    SpellsPrepend(text, [], "");
    assert text + "" == text;
  }

  /** What reading one placeholder adds to the segments of the rest. */
  lemma SegmentsStep(text: string)
    requires Segments(text).Ok? && NextPlaceholder(text).Some?
    ensures var p := NextPlaceholder(text).value;
            Segments(p.after).Ok? && |p.after| < |text| && text == p.before + p.placeholder + p.after
    ensures var p := NextPlaceholder(text).value;
            var read := ParseReference(p.placeholder);
            && (read.None? ==> Segments(text).value == Prepend(p.before + p.placeholder, Segments(p.after).value))
            && (read.Some? ==> read.value.Ok? && Segments(text).value == Prepend(p.before, WithOutput(read.value.value, Segments(p.after).value)))
  {
  }

  lemma SpellsStep(p: Placeholder, segments: seq<Segment>)
    requires |p.placeholder| >= 4 && At(p.placeholder, OPEN, 0) && At(p.placeholder, CLOSE, |p.placeholder| - 2)
    requires Spells(segments, p.after)
    ensures var read := ParseReference(p.placeholder);
            && (read.None? ==> Spells(Prepend(p.before + p.placeholder, segments), p.before + p.placeholder + p.after))
            && (read.Some? && read.value.Ok? ==>
                  Spells(Prepend(p.before, WithOutput(read.value.value, segments)), p.before + p.placeholder + p.after))
  {
    var read := ParseReference(p.placeholder);
    if read.None? {
      SpellsPrepend(p.before + p.placeholder, segments, p.after);
    } else if read.value.Ok? {
      ReadReferenceIsWritten(p.placeholder);
      SpellsReference(p.before, p.placeholder, read.value.value, segments, p.after);
    }
  }

  /** Nothing is lost or added: the segments spell the text they were read from. */
  lemma {:induction false} ParseSpellsText(text: string)
    requires Segments(text).Ok?
    ensures Spells(Segments(text).value, text)
    decreases |text|
  {
    if NextPlaceholder(text).None? {
      SpellsAll(text);
    } else {
      var p := NextPlaceholder(text).value;
      SegmentsStep(text);
      ParseSpellsText(p.after);
      SpellsStep(p, Segments(p.after).value);
    }
  }

  /** Text without references comes back unchanged, whatever the outputs are. */
  lemma TextWithoutReferencesIsKept(text: string, lookup: OutputReference -> Option<string>)
    requires Segments(text).Ok? && References(Segments(text).value) == []
    ensures Filled(Segments(text).value, lookup) == Ok(text)
  {
    ParseSpellsText(text);
    SpelledIsFilled(Segments(text).value, text, lookup);
  }

  lemma {:induction false} SpelledIsFilled(segments: seq<Segment>, text: string, lookup: OutputReference -> Option<string>)
    requires Spells(segments, text) && References(segments) == []
    ensures Filled(segments, lookup) == Ok(text)
  {
    if segments != [] {
      var front, rest := TakeFront(segments, text);
      SpelledIsFilled(segments[1..], rest, lookup);
    }
  }

  /** No literal text opens a placeholder. */
  predicate IsPlain(segments: seq<Segment>) {
    forall i :: 0 <= i < |segments| ==> segments[i].Text? ==> NoOpen(segments[i].text)
  }

  /** The literal text in front, empty when there is none, and the rest, which starts with a reference. */
  lemma TextThenRest(segments: seq<Segment>) returns (before: string, rest: seq<Segment>)
    requires segments != [] && Normal(segments) && IsPlain(segments)
    ensures Print(segments) == before + Print(rest) && Prepend(before, rest) == segments && |rest| <= |segments|
    ensures NoOpen(before) && Normal(rest) && IsPlain(rest) && (rest != [] ==> rest[0].Output?)
  {
    before := if segments[0].Text? then segments[0].text else "";
    rest := if segments[0].Text? then segments[1..] else segments;
    TailStays(segments);
    assert segments == [segments[0]] + segments[1..];
  }

  lemma TailStays(segments: seq<Segment>)
    requires segments != [] && Normal(segments) && IsPlain(segments)
    ensures Normal(segments[1..]) && IsPlain(segments[1..])
  {
    forall i | 0 <= i < |segments[1..]| ensures segments[1..][i] == segments[i + 1] {}
  }

  lemma ReferenceInFront(segments: seq<Segment>)
    requires segments != [] && segments[0].Output?
    ensures WithOutput(segments[0].reference, segments[1..]) == segments
    ensures Print(segments) == PrintReference(segments[0].reference) + Print(segments[1..])
  {
    assert segments == [segments[0]] + segments[1..];
  }

  /**
   * The other direction: any segments in normal form, with no opening braces in
   * their literal text, are exactly what their printed form parses to.
   */
  lemma {:induction false} PlainSegmentsReadBack(segments: seq<Segment>)
    requires Normal(segments) && IsPlain(segments)
    ensures Segments(Print(segments)) == Ok(segments)
  {
    if segments != [] {
      var before, rest := TextThenRest(segments);
      if rest == [] {
        PlainTextHasNoPlaceholder(before);
        assert before + "" == before;
      } else {
        ReferenceInFront(rest);
        TailStays(rest);
        PlainSegmentsReadBack(rest[1..]);
        ReferenceThenTail(before, rest[0].reference, rest[1..]);
      }
    }
  }

  lemma ReferenceThenTail(before: string, reference: OutputReference, tail: seq<Segment>)
    requires NoOpen(before) && Segments(Print(tail)) == Ok(tail)
    ensures Segments(before + (PrintReference(reference) + Print(tail))) == Ok(Prepend(before, WithOutput(reference, tail)))
  {
    PrintedIsPlaceholder(reference);
    FirstPlaceholder(before, PrintReference(reference), Print(tail));
    ReferenceReadsBack(reference);
  }

  lemma PlainTextHasNoPlaceholder(text: string)
    requires NoOpen(text)
    ensures NextPlaceholder(text).None?
  {
    forall j: nat | j <= |text| ensures !At(text, OPEN, j) {
      if j + 2 <= |text| {
        assert !At(text + "{", OPEN, j);
        assert (text + "{")[j..j + 2] == text[j..j + 2];
      }
    }
  }
}
