/** The cursors of a source transformation: the position reached in the source, the buffer written so far, and the
    line/column pairs that go with them while a source map is recorded. */
module TransformStates {
  import opened Wrappers
  import opened Text
  import opened Mappings

  // ----- JavaScript string operations

  function Clamp(n: int, max: int): (r: int)
    requires max >= 0
    ensures 0 <= r <= max
  {
    if n < 0 then 0 else if n > max then max else n
  }

  // s.substring(from, to): both ends are clamped and swapped when out of order
  function Substring(s: string, from: int, to: int): string {
    var a, b := Clamp(from, |s|), Clamp(to, |s|);
    if a <= b then s[a..b] else s[b..a]
  }

  // Doubling or removing one indentation step, two spaces or a tab, at the start of the text and after every newline.
  function Reindent(s: string, atStart: bool, more: bool): string {
    if s == "" then ""
    else if atStart && |s| >= 2 && s[0] == ' ' && s[1] == ' ' then
      (if more then "    " else "") + Reindent(s[2..], false, more)
    else if atStart && s[0] == '\t' then
      (if more then "\t\t" else "") + Reindent(s[1..], false, more)
    else [s[0]] + Reindent(s[1..], s[0] == '\n', more)
  }

  function ReindentTimes(s: string, times: nat, more: bool): string
    decreases times
  {
    if times == 0 then s else ReindentTimes(Reindent(s, true, more), times - 1, more)
  }

  function UpdateIndent(s: string, indentBy: int): string {
    if indentBy < 0 then ReindentTimes(s, -indentBy, false) else ReindentTimes(s, indentBy, true)
  }

  // White space of ECMA-262 5.1, sections 7.2 and 7.3: what \s matches.
  predicate IsWhite(c: char) {
    || c == '\t' || c == '\n' || c == '\U{0B}' || c == '\U{0C}' || c == '\r' || c == ' '
    || c == '\U{A0}' || c == '\U{1680}' || c == '\U{180E}' || '\U{2000}' <= c <= '\U{200A}'
    || c == '\U{2028}' || c == '\U{2029}' || c == '\U{202F}' || c == '\U{205F}' || c == '\U{3000}' || c == '\U{FEFF}'
  }

  function ReplaceNonWhite(s: string): string {
    if s == "" then "" else [if IsWhite(s[0]) then s[0] else ' '] + ReplaceNonWhite(s[1..])
  }

  function StripNonWhite(s: string): string {
    if s == "" then "" else (if IsWhite(s[0]) then [s[0]] else "") + StripNonWhite(s[1..])
  }

  function StripNonNewline(s: string): string {
    if s == "" then "" else (if s[0] == '\n' then [s[0]] else "") + StripNonNewline(s[1..])
  }

  // ----- the state and its operations

  datatype State = State(
    source: string,
    position: int,
    buffer: string,
    recording: bool,
    sourceAt: Position,
    bufferAt: Position,
    mappings: seq<Mapping>)

  const FILENAME := "source.js"

  function Initial(source: string, recording: bool): State {
    State(source, 0, "", recording, ORIGIN, ORIGIN, [])
  }

  function MappingAt(generated: Position, original: Position): Mapping {
    Mapping(generated.line, generated.column, Some(FILENAME), Some(original.line), Some(original.column), None)
  }

  // The mappings that catching up over `piece` records: one where it starts, and one at column 0 for every line break
  // but the first and the last, each noted before its line is counted.
  function CaughtMappings(generated: Position, original: Position, piece: string): seq<Mapping> {
    var n := |SplitLines(piece)|;
    [MappingAt(generated, original)] + BreakMappings(generated.line, original.line, if n > 2 then n - 2 else 0)
  }

  function BreakMappings(generatedLine: int, originalLine: int, n: nat): seq<Mapping> {
    seq(n, i requires 0 <= i < n => MappingAt(Position(generatedLine + i, 0), Position(originalLine + i, 0)))
  }

  datatype Transformer = Keep | WhiteOut | WhiteSpace | NewlinesOnly {
    function Apply(s: string): string {
      match this
      case Keep => s
      case WhiteOut => ReplaceNonWhite(s)
      case WhiteSpace => StripNonWhite(s)
      case NewlinesOnly => StripNonNewline(s)
    }
  }

  datatype Operation = Catchup(end: int, indentBy: int, transformer: Transformer) | Move(end: int) |
      Append(text: string)

  // The source that catching up to `end` reads.
  function Piece(g: State, end: int): string {
    Substring(g.source, g.position, end)
  }

  function Caught(g: State, end: int, indentBy: int, transformer: Transformer): State {
    if end < g.position then g
    else
      var piece := Piece(g, end);
      var transformed := UpdateIndent(piece, indentBy);
      var g' := g.(position := end, buffer := g.buffer + transformer.Apply(transformed));
      if g.recording && transformed != "" then
        g'.(sourceAt := Advance(g.sourceAt, piece), bufferAt := Advance(g.bufferAt, transformed),
            mappings := g.mappings + CaughtMappings(g.bufferAt, g.sourceAt, piece))
      else g'
  }

  function Moved(g: State, end: int): State {
    if !g.recording then g.(position := end)
    else
      var from := if end < g.position then 0 else g.position;
      var at := if end < g.position then ORIGIN else g.sourceAt;
      g.(position := end, sourceAt := Advance(at, Substring(g.source, from, end)))
  }

  function Appended(g: State, text: string): State {
    var g' := g.(buffer := g.buffer + text);
    if g.recording && text != "" then
      g'.(bufferAt := Advance(g.bufferAt, text), mappings := g.mappings + [MappingAt(g.bufferAt, g.sourceAt)])
    else g'
  }

  function Do(g: State, op: Operation): State {
    match op
    case Catchup(end, indentBy, transformer) => Caught(g, end, indentBy, transformer)
    case Move(end) => Moved(g, end)
    case Append(text) => Appended(g, text)
  }

  function Run(g: State, ops: seq<Operation>): State
    decreases |ops|
  {
    if ops == [] then g else Run(Do(g, ops[0]), ops[1..])
  }

  // ----- the cursors are in step with the text

  function Consumed(g: State): string {
    g.source[..Clamp(g.position, |g.source|)]
  }

  predicate SourceInStep(g: State) {
    g.sourceAt == EndOf(Consumed(g))
  }

  predicate BufferInStep(g: State) {
    g.bufferAt == EndOf(g.buffer)
  }

  // A removed indentation that leaves nothing of the piece: the program then records nothing and leaves its cursors.
  predicate Swallowed(g: State, op: Operation) {
    op.Catchup? && op.end >= g.position && Piece(g, op.end) != "" && UpdateIndent(Piece(g, op.end), op.indentBy) == ""
  }

  predicate TransformerFree(op: Operation) {
    op.Catchup? ==> op.transformer.Keep?
  }

  lemma ConsumedForward(g: State, end: int)
    requires end >= g.position
    ensures g.source[..Clamp(end, |g.source|)] == Consumed(g) + Piece(g, end)
  {
  }

  // One step keeps both cursors in step, unless it swallows a piece; swallowing always breaks the source cursor.
  lemma StepInStep(g: State, op: Operation)
    requires g.recording && SourceInStep(g) && BufferInStep(g) && TransformerFree(op)
    ensures Do(g, op).recording && Do(g, op).source == g.source
    ensures BufferInStep(Do(g, op))
    ensures SourceInStep(Do(g, op)) <==> !Swallowed(g, op)
  {
    match op
    case Catchup(end, indentBy, _) =>
      if end >= g.position {
        var piece := Piece(g, end);
        var transformed := UpdateIndent(piece, indentBy);
        ConsumedForward(g, end);
        EndOfConcat(Consumed(g), piece);
        EndOfConcat(g.buffer, transformed);
        AdvanceForward(EndOf(Consumed(g)), piece);
        IndentOfNothing(indentBy);
        assert g.buffer + "" == g.buffer;
      }
    case Move(end) =>
      if end < g.position {
        assert Substring(g.source, 0, end) == g.source[..Clamp(end, |g.source|)];
      } else {
        ConsumedForward(g, end);
        EndOfConcat(Consumed(g), Piece(g, end));
      }
    case Append(text) =>
      EndOfConcat(g.buffer, text);
      assert g.buffer + "" == g.buffer;
  }

  lemma {:induction false} ReindentNothing(times: nat, more: bool)
    ensures ReindentTimes("", times, more) == ""
  {
    if times == 0 {
    } else {
      ReindentNothing(times - 1, more);
    }
  }

  lemma IndentOfNothing(indentBy: int)
    ensures UpdateIndent("", indentBy) == ""
  {
    ReindentNothing(if indentBy < 0 then -indentBy else indentBy, indentBy >= 0);
  }

  // No step of the run swallows a piece.
  predicate NothingSwallowed(g: State, ops: seq<Operation>)
    decreases |ops|
  {
    ops == [] || (!Swallowed(g, ops[0]) && NothingSwallowed(Do(g, ops[0]), ops[1..]))
  }

  // Over every run the cursors are the positions of the end of the consumed source and of the buffer.
  lemma {:induction false} RunInStep(g: State, ops: seq<Operation>)
    requires g.recording && SourceInStep(g) && BufferInStep(g)
    requires forall op :: op in ops ==> TransformerFree(op)
    requires NothingSwallowed(g, ops)
    ensures SourceInStep(Run(g, ops)) && BufferInStep(Run(g, ops))
    decreases |ops|
  {
    if ops == [] {
    } else {
      StepInStep(g, ops[0]);
      RunInStep(Do(g, ops[0]), ops[1..]);
    }
  }

  predicate KeepsIndent(op: Operation) {
    op.Catchup? ==> op.transformer.Keep? && op.indentBy == 0
  }

  lemma {:induction false} ZeroIndentSwallowsNothing(g: State, ops: seq<Operation>)
    requires forall op :: op in ops ==> KeepsIndent(op)
    ensures NothingSwallowed(g, ops)
    decreases |ops|
  {
    if ops == [] {
    } else {
      assert KeepsIndent(ops[0]);
      ZeroIndentSwallowsNothing(Do(g, ops[0]), ops[1..]);
    }
  }

  // In particular from the initial state, with zero indentation.
  lemma ZeroIndentRunInStep(source: string, ops: seq<Operation>)
    requires forall op :: op in ops ==> KeepsIndent(op)
    ensures var g := Run(Initial(source, true), ops); SourceInStep(g) && BufferInStep(g)
  {
    var g := Initial(source, true);
    assert Consumed(g) == "";
    ZeroIndentSwallowsNothing(g, ops);
    assert forall op :: op in ops && KeepsIndent(op) ==> TransformerFree(op);
    RunInStep(g, ops);
  }

  // Removing the indentation of a piece that is nothing else leaves the source cursor behind.
  lemma SwallowingExample()
    ensures var g := Run(Initial("  x", true), [Catchup(2, -1, Keep)]); g.position == 2 && !SourceInStep(g)
  {
    var g, op := Initial("  x", true), Catchup(2, -1, Keep);
    assert Piece(g, 2) == "  ";
    assert Reindent("  ", true, false) == Reindent("  "[2..], false, false);
    assert UpdateIndent("  ", -1) == ReindentTimes("", 0, false);
    assert Consumed(g) == "";
    StepInStep(g, op);
    assert Run(g, [op]) == Run(Do(g, op), [op][1..]);
  }

  // ----- newlines

  lemma {:induction false} ReindentNewlines(s: string, atStart: bool, more: bool)
    ensures Newlines(Reindent(s, atStart, more)) == Newlines(s)
    decreases |s|
  {
    if s == "" {
    } else if atStart && |s| >= 2 && s[0] == ' ' && s[1] == ' ' {
      ReindentNewlines(s[2..], false, more);
      assert s == "  " + s[2..];
      NewlinesConcat("  ", s[2..]);
      NewlinesConcat("    ", Reindent(s[2..], false, more));
      SpacesHaveNone();
      assert "" + Reindent(s[2..], false, more) == Reindent(s[2..], false, more);
    } else if atStart && s[0] == '\t' {
      ReindentNewlines(s[1..], false, more);
      NewlinesConcat("\t\t", Reindent(s[1..], false, more));
      SpacesHaveNone();
      assert "" + Reindent(s[1..], false, more) == Reindent(s[1..], false, more);
    } else {
      ReindentNewlines(s[1..], s[0] == '\n', more);
    }
  }

  lemma SpacesHaveNone()
    ensures Newlines("  ") == Newlines("    ") == Newlines("\t\t") == 0
  {
    assert "  "[1..] == " " && "    "[1..] == "   " && "   "[1..] == "  " && "\t\t"[1..] == "\t";
  }

  lemma {:induction false} ReindentTimesNewlines(s: string, times: nat, more: bool)
    ensures Newlines(ReindentTimes(s, times, more)) == Newlines(s)
    decreases times
  {
    if times == 0 {
    } else {
      ReindentNewlines(s, true, more);
      ReindentTimesNewlines(Reindent(s, true, more), times - 1, more);
    }
  }

  lemma UpdateIndentNewlines(s: string, indentBy: int)
    ensures Newlines(UpdateIndent(s, indentBy)) == Newlines(s)
  {
    ReindentTimesNewlines(s, if indentBy < 0 then -indentBy else indentBy, indentBy >= 0);
  }

  lemma {:induction false} TransformerNewlines(t: Transformer, s: string)
    ensures Newlines(t.Apply(s)) == Newlines(s)
  {
    if s == "" {
    } else {
      TransformerNewlines(t, s[1..]);
      var rest := t.Apply(s[1..]);
      assert "" + rest == rest;
      var kept := if t.WhiteOut? && !IsWhite(s[0]) then " " else if t.Apply(s) == rest then "" else [s[0]];
      assert t.Keep? || t.Apply(s) == kept + rest;
    }
  }

  // As many newlines have been written as have been read.
  predicate LinesBalanced(g: State) {
    Newlines(g.buffer) == Newlines(Consumed(g))
  }

  // The line of the buffer cursor counts the newlines of the buffer.
  predicate LineInStep(g: State) {
    g.bufferAt.line == 1 + Newlines(g.buffer)
  }

  // Catching up in any of the four ways, or appending text without a newline.
  predicate KeepsLines(op: Operation) {
    match op
    case Catchup(_, _, _) => true
    case Move(_) => false
    case Append(text) => Newlines(text) == 0
  }

  lemma StepBalanced(g: State, op: Operation)
    requires LinesBalanced(g) && KeepsLines(op)
    ensures LinesBalanced(Do(g, op))
  {
    match op
    case Catchup(end, indentBy, transformer) =>
      if end >= g.position {
        var piece := Piece(g, end);
        var transformed := UpdateIndent(piece, indentBy);
        ConsumedForward(g, end);
        NewlinesConcat(Consumed(g), piece);
        NewlinesConcat(g.buffer, transformer.Apply(transformed));
        UpdateIndentNewlines(piece, indentBy);
        TransformerNewlines(transformer, transformed);
      }
    case Append(text) =>
      NewlinesConcat(g.buffer, text);
  }

  lemma {:induction false} RunBalanced(g: State, ops: seq<Operation>)
    requires LinesBalanced(g) && forall op :: op in ops ==> KeepsLines(op)
    ensures LinesBalanced(Run(g, ops))
    decreases |ops|
  {
    if ops == [] {
    } else {
      StepBalanced(g, ops[0]);
      RunBalanced(Do(g, ops[0]), ops[1..]);
    }
  }

  // The line of the buffer cursor stays right over every run, content transformers included.
  lemma StepLineInStep(g: State, op: Operation)
    requires g.recording && LineInStep(g)
    ensures Do(g, op).recording && LineInStep(Do(g, op))
  {
    match op
    case Catchup(end, indentBy, transformer) =>
      if end >= g.position {
        var transformed := UpdateIndent(Piece(g, end), indentBy);
        NewlinesConcat(g.buffer, transformer.Apply(transformed));
        TransformerNewlines(transformer, transformed);
        NewlinesAreLines(g.bufferAt, transformed);
      }
    case Move(_) =>
    case Append(text) =>
      NewlinesConcat(g.buffer, text);
      NewlinesAreLines(g.bufferAt, text);
  }

  lemma {:induction false} RunLineInStep(g: State, ops: seq<Operation>)
    requires g.recording && LineInStep(g)
    ensures LineInStep(Run(g, ops))
    decreases |ops|
  {
    if ops == [] {
    } else {
      StepLineInStep(g, ops[0]);
      RunLineInStep(Do(g, ops[0]), ops[1..]);
    }
  }
}
