/** What the steps of a source transformation mean: where the recorded mappings point, and what re-indenting and the
    content transformers do to a text. */
module TransformLaws {
  import opened Wrappers
  import opened Text
  import opened Mappings
  import opened TransformStates

  // ----- where the mappings point

  // The text that a step writes, before its content transformer.
  function Written(g: State, op: Operation): string {
    match op
    case Catchup(end, indentBy, _) => if end < g.position then "" else UpdateIndent(Piece(g, end), indentBy)
    case Move(_) => ""
    case Append(text) => text
  }

  // The end of the generated text points to the end of the consumed source, in the file that is transformed.
  predicate PointsBack(m: Mapping, g: State) {
    && m.generatedLine == EndOf(g.buffer).line && m.generatedColumn == EndOf(g.buffer).column
    && m.originalLine == Some(EndOf(Consumed(g)).line) && m.originalColumn == Some(EndOf(Consumed(g)).column)
    && m.source == Some("source.js") && m.name == None
  }

  // Column 0 of a generated line points to column 0 of a line of the source, both as many lines further on.
  predicate LinePointsBack(m: Mapping, g: State, further: nat) {
    && m.generatedLine == EndOf(g.buffer).line + further && m.generatedColumn == 0
    && m.originalLine == Some(EndOf(Consumed(g)).line + further) && m.originalColumn == Some(0)
    && m.source == Some("source.js") && m.name == None
  }

  // The line breaks of a step that get a mapping of their own: all but the last one of the piece that is caught up.
  function InnerBreaks(g: State, op: Operation): nat {
    if op.Catchup? && Written(g, op) != "" && Newlines(Piece(g, op.end)) > 0 then Newlines(Piece(g, op.end)) - 1 else 0
  }

  // What a step from g records: nothing if it writes nothing, else where it starts and then its inner line breaks.
  predicate Recorded(g: State, op: Operation, added: seq<Mapping>) {
    && |added| == (if Written(g, op) == "" then 0 else 1 + InnerBreaks(g, op))
    && (|added| > 0 ==> PointsBack(added[0], g))
    && (forall i :: 1 <= i < |added| ==> LinePointsBack(added[i], g, i - 1))
  }

  ghost predicate AddsRecorded(g: State, op: Operation, mappings: seq<Mapping>) {
    exists added :: mappings == g.mappings + added && Recorded(g, op, added)
  }

  lemma StepRecords(g: State, op: Operation)
    requires g.recording && SourceInStep(g) && BufferInStep(g)
    ensures AddsRecorded(g, op, Do(g, op).mappings)
  {
    hide Advance, Newlines, UpdateIndent, SplitLines, Transformer.Apply;
    var added: seq<Mapping> := [];
    match op {
      case Catchup(end, _, _) =>
        if Written(g, op) != "" {
          SplitCount(Piece(g, end));
          var breaks := BreakMappings(g.bufferAt.line, g.sourceAt.line, InnerBreaks(g, op));
          added := [MappingAt(g.bufferAt, g.sourceAt)] + breaks;
          forall i | 1 <= i < |added|
            ensures LinePointsBack(added[i], g, i - 1)
          {
            var k := i - 1;
            var generated, original := Position(g.bufferAt.line + k, 0), Position(g.sourceAt.line + k, 0);
            assert added[i] == breaks[k] == MappingAt(generated, original);
          }
        }
      case Move(_) =>
      case Append(text) =>
        if text != "" {
          added := [MappingAt(g.bufferAt, g.sourceAt)];
        }
    }
    assert Recorded(g, op, added);
    assert Do(g, op).mappings == g.mappings + added;
  }

  // ----- over runs

  // The step `op` from the state g is due to record the mapping.
  ghost predicate Records(g: State, op: Operation, m: Mapping) {
    && Written(g, op) != ""
    && (PointsBack(m, g) || exists i: nat :: i < InnerBreaks(g, op) && LinePointsBack(m, g, i))
  }

  ghost predicate RunRecords(g: State, ops: seq<Operation>, m: Mapping)
    decreases |ops|
  {
    ops != [] && (Records(g, ops[0], m) || RunRecords(Do(g, ops[0]), ops[1..], m))
  }

  lemma RecordedAreRecords(g: State, op: Operation, added: seq<Mapping>, m: Mapping)
    requires Recorded(g, op, added)
    ensures m in added <==> Records(g, op, m)
  {
    hide Written, InnerBreaks, EndOf, Consumed;
    if Records(g, op, m) {
      if PointsBack(m, g) {
        assert added[0] == m;
      } else {
        var i: nat :| i < InnerBreaks(g, op) && LinePointsBack(m, g, i);
        assert added[i + 1] == m;
      }
    }
  }

  // The mappings of a run are exactly those that its steps are due to record, each from the state before the step.
  lemma {:induction false} RunRecordsExactly(g: State, ops: seq<Operation>, m: Mapping)
    requires g.recording && SourceInStep(g) && BufferInStep(g)
    requires forall op :: op in ops ==> TransformerFree(op)
    requires NothingSwallowed(g, ops)
    ensures m in Run(g, ops).mappings <==> m in g.mappings || RunRecords(g, ops, m)
    decreases |ops|
  {
    hide Do, Swallowed, Records, Recorded, SourceInStep, BufferInStep;
    if ops == [] {
    } else {
      StepInStep(g, ops[0]);
      StepRecords(g, ops[0]);
      var added: seq<Mapping> :| Do(g, ops[0]).mappings == g.mappings + added && Recorded(g, ops[0], added);
      RecordedAreRecords(g, ops[0], added, m);
      RunRecordsExactly(Do(g, ops[0]), ops[1..], m);
    }
  }

  lemma ZeroIndentRunRecords(source: string, ops: seq<Operation>, m: Mapping)
    requires forall op :: op in ops ==> KeepsIndent(op)
    ensures m in Run(Initial(source, true), ops).mappings <==> RunRecords(Initial(source, true), ops, m)
  {
    var g := Initial(source, true);
    assert Consumed(g) == "";
    ZeroIndentSwallowsNothing(g, ops);
    assert forall op :: op in ops && KeepsIndent(op) ==> TransformerFree(op);
    RunRecordsExactly(g, ops, m);
  }

  // ----- re-indenting

  // A line that starts with an indentation step, two spaces or a tab, and the length of the step.
  predicate StartsWithStep(line: string) {
    (|line| >= 1 && line[0] == '\t') || (|line| >= 2 && line[..2] == "  ")
  }

  function StepLength(line: string): nat
    requires StartsWithStep(line)
  {
    if line[0] == '\t' then 1 else 2
  }

  // The line with the given number of steps more, each like the one it starts with, or fewer, as far as there are any.
  function IndentedLine(line: string, steps: int): string {
    if !StartsWithStep(line) then line
    else if steps >= 0 then Repeat(line[..StepLength(line)], steps) + line
    else WithoutSteps(line, -steps)
  }

  function Repeat(s: string, n: nat): string {
    if n == 0 then "" else s + Repeat(s, n - 1)
  }

  function WithoutSteps(line: string, n: nat): string {
    if n == 0 || !StartsWithStep(line) then line else WithoutSteps(line[StepLength(line)..], n - 1)
  }

  function IndentedLines(lines: seq<string>, steps: int): (r: seq<string>)
    ensures |r| == |lines|
  {
    if lines == [] then [] else [IndentedLine(lines[0], steps)] + IndentedLines(lines[1..], steps)
  }

  // Inside a line nothing is re-indented; `tail` is what follows the line.
  lemma {:induction false} ReindentInLine(line: string, tail: string, more: bool)
    requires NoNewline(line)
    ensures Reindent(line + tail, false, more) == line + Reindent(tail, false, more)
    decreases |line|
  {
    if line == "" {
      assert line + tail == tail;
      assert "" + Reindent(tail, false, more) == Reindent(tail, false, more);
    } else {
      assert line[0] in line && forall c | c in line[1..] :: c in line;
      assert (line + tail)[0] == line[0] && (line + tail)[1..] == line[1..] + tail;
      ReindentInLine(line[1..], tail, more);
      assert [line[0]] + (line[1..] + Reindent(tail, false, more)) == line + Reindent(tail, false, more);
    }
  }

  lemma ReindentStep(step: string, t: string, more: bool)
    requires step == "  " || step == "\t"
    ensures Reindent(step + t, true, more) == (if more then step + step else "") + Reindent(t, false, more)
  {
    var s := step + t;
    assert s[|step|..] == t;
    assert "  " + "  " == "    " && "\t" + "\t" == "\t\t";
  }

  lemma OneStep(line: string)
    requires StartsWithStep(line)
    ensures var step := line[..StepLength(line)];
            && (step == "  " || step == "\t")
            && IndentedLine(line, 1) == step + line && IndentedLine(line, -1) == line[StepLength(line)..]
  {
    var step := line[..StepLength(line)];
    assert Repeat(step, 1) == step + Repeat(step, 0) == step;
    assert WithoutSteps(line, 1) == WithoutSteps(line[StepLength(line)..], 0);
  }

  lemma ReindentStepAndLine(step: string, line: string, tail: string, more: bool)
    requires (step == "  " || step == "\t") && NoNewline(line)
    ensures Reindent(step + line + tail, true, more)
         == (if more then step + step else "") + line + Reindent(tail, false, more)
  {
    hide Reindent, NoNewline;
    assert step + line + tail == step + (line + tail);
    ReindentStep(step, line + tail, more);
    ReindentInLine(line, tail, more);
    var added, rest := if more then step + step else "", Reindent(tail, false, more);
    assert added + (line + rest) == added + line + rest;
  }

  lemma ReindentLine(line: string, tail: string, more: bool)
    requires NoNewline(line) && (tail == "" || tail[0] == '\n')
    ensures Reindent(line + tail, true, more)
         == IndentedLine(line, if more then 1 else -1) + Reindent(tail, false, more)
  {
    hide Reindent, IndentedLine, Repeat, WithoutSteps;
    if StartsWithStep(line) {
      var step, line' := line[..StepLength(line)], line[StepLength(line)..];
      OneStep(line);
      assert forall c | c in line' :: c in line;
      hide StartsWithStep, StepLength;
      assert line == step + line' && step + (step + line') == (step + step) + line' && "" + line' == line';
      ReindentStepAndLine(step, line', tail, more);
    } else {
      ReindentInLine(line, tail, more);
      NoStep(line, tail, more);
    }
  }

  // Without a step in front it does not matter whether a line starts there.
  lemma NoStep(line: string, tail: string, more: bool)
    requires !StartsWithStep(line) && (tail == "" || tail[0] == '\n')
    ensures Reindent(line + tail, true, more) == Reindent(line + tail, false, more)
    ensures IndentedLine(line, 1) == IndentedLine(line, -1) == line
  {
    assert |line| > 0 ==> line[0] == (line + tail)[0];
    assert |line| > 1 ==> line[..2] == [line[0], line[1]] && line[1] == (line + tail)[1];
  }

  lemma ReindentBreak(rest: string, more: bool)
    ensures Reindent("", false, more) == ""
    ensures Reindent("\n" + rest, false, more) == "\n" + Reindent(rest, true, more)
  {
    assert ("\n" + rest)[1..] == rest;
  }

  lemma {:induction false} ReindentLines(lines: seq<string>, more: bool)
    requires lines != [] && forall line :: line in lines ==> NoNewline(line)
    ensures Reindent(JoinLines(lines), true, more) == JoinLines(IndentedLines(lines, if more then 1 else -1))
  {
    hide NoNewline, Reindent, IndentedLine;
    var steps := if more then 1 else -1;
    assert lines[0] in lines && forall line | line in lines[1..] :: line in lines;
    if |lines| == 1 {
      assert lines[0] + "" == lines[0];
      ReindentLine(lines[0], "", more);
      ReindentBreak("", more);
      assert IndentedLine(lines[0], steps) + "" == IndentedLine(lines[0], steps);
      assert IndentedLines(lines, steps) == [IndentedLine(lines[0], steps)];
    } else {
      var tail := "\n" + JoinLines(lines[1..]);
      assert JoinLines(lines) == lines[0] + tail;
      ReindentLine(lines[0], tail, more);
      ReindentBreak(JoinLines(lines[1..]), more);
      ReindentLines(lines[1..], more);
      assert IndentedLines(lines, steps)[1..] == IndentedLines(lines[1..], steps);
    }
  }

  lemma {:induction false} RepeatTurned(s: string, n: nat)
    ensures Repeat(s, n) + s == s + Repeat(s, n)
  {
    if n == 0 {
      assert "" + s == s + "";
    } else {
      RepeatTurned(s, n - 1);
      assert (s + Repeat(s, n - 1)) + s == s + (Repeat(s, n - 1) + s);
    }
  }

  lemma OneStepMore(line: string, n: nat)
    ensures IndentedLine(IndentedLine(line, 1), n) == IndentedLine(line, n + 1)
  {
    if StartsWithStep(line) {
      hide WithoutSteps;
      OneStep(line);
      var step := line[..StepLength(line)];
      var line' := step + line;
      assert StartsWithStep(line') && line'[..StepLength(line')] == step;
      RepeatTurned(step, n);
      assert Repeat(step, n) + line' == (Repeat(step, n) + step) + line;
    }
  }

  lemma OneStepLess(line: string, n: nat)
    ensures IndentedLine(IndentedLine(line, -1), 0 - n) == IndentedLine(line, -1 - n)
  {
    if StartsWithStep(line) {
      OneStep(line);
      var line' := line[StepLength(line)..];
      assert WithoutSteps(line, n + 1) == WithoutSteps(line', n);
      assert n == 0 ==> IndentedLine(line', 0 - n) == line' by {
        if n == 0 && StartsWithStep(line') {
          assert Repeat(line'[..StepLength(line')], 0) + line' == line';
        }
      }
    }
  }

  lemma {:induction false} IndentedLinesAre(lines: seq<string>, steps: int, k: nat)
    requires k < |lines|
    ensures IndentedLines(lines, steps)[k] == IndentedLine(lines[k], steps)
  {
    if k == 0 {
    } else {
      IndentedLinesAre(lines[1..], steps, k - 1);
    }
  }

  lemma IndentedHasNoNewline(line: string, steps: int)
    requires NoNewline(line) && (steps == 1 || steps == -1)
    ensures NoNewline(IndentedLine(line, steps))
  {
    if StartsWithStep(line) {
      OneStep(line);
    }
  }

  lemma {:induction false} ReindentTimesLines(lines: seq<string>, times: nat, more: bool)
    requires lines != [] && forall line :: line in lines ==> NoNewline(line)
    ensures var rs := IndentedLines(lines, if more then times else 0 - times);
            && ReindentTimes(JoinLines(lines), times, more) == JoinLines(rs)
            && forall r :: r in rs ==> NoNewline(r)
    decreases times
  {
    hide Reindent, JoinLines, NoNewline, IndentedLine;
    var one, n := if more then 1 else -1, times - 1;
    var steps := if more then times else 0 - times;
    var rs := IndentedLines(lines, steps);
    if times == 0 {
      forall k | 0 <= k < |lines|
        ensures rs[k] == lines[k]
      {
        IndentedLinesAre(lines, steps, k);
        NoSteps(lines[k]);
      }
      assert rs == lines;
    } else {
      var lines' := IndentedLines(lines, one);
      var rs' := IndentedLines(lines', if more then n else 0 - n);
      forall k | 0 <= k < |lines|
        ensures NoNewline(lines'[k]) && rs'[k] == rs[k]
      {
        assert NoNewline(lines[k]);
        IndentedLinesAre(lines, steps, k);
        IndentedLinesAre(lines, one, k);
        IndentedLinesAre(lines', if more then n else 0 - n, k);
        IndentedHasNoNewline(lines[k], one);
        if more {
          OneStepMore(lines[k], n);
        } else {
          OneStepLess(lines[k], n);
        }
      }
      ReindentLines(lines, more);
      ReindentTimesLines(lines', n, more);
      assert rs' == rs;
    }
  }

  lemma NoSteps(line: string)
    ensures IndentedLine(line, 0) == line
  {
    if StartsWithStep(line) {
      assert Repeat(line[..StepLength(line)], 0) + line == line;
    }
  }

  // Updating the indentation indents every line for itself and keeps the lines.
  lemma UpdateIndentByLine(s: string, steps: int)
    ensures SplitLines(UpdateIndent(s, steps)) == IndentedLines(SplitLines(s), steps)
  {
    var lines := SplitLines(s);
    forall line | line in lines
      ensures NoNewline(line)
    {
      var k :| 0 <= k < |lines| && lines[k] == line;
      SplitPieces(s, k);
    }
    SplitJoin(s);
    ReindentTimesLines(lines, if steps < 0 then -steps else steps, steps >= 0);
    JoinSplit(IndentedLines(lines, steps));
  }

  // ----- content transformers

  // A transformer works character by character.
  lemma {:induction false} TransformerConcat(t: Transformer, a: string, b: string)
    ensures t.Apply(a + b) == t.Apply(a) + t.Apply(b)
  {
    TransformerOfNothing(t);
    hide Transformer.Apply;
    if a == "" {
      assert a + b == b && "" + t.Apply(b) == t.Apply(b);
    } else {
      assert (a + b)[0] == a[0] && (a + b)[1..] == a[1..] + b;
      TransformerConcat(t, a[1..], b);
      TransformerFirst(t, a);
      TransformerFirst(t, a + b);
    }
  }

  lemma TransformerOfNothing(t: Transformer)
    ensures t.Apply("") == ""
  {
  }

  lemma TransformerFirst(t: Transformer, s: string)
    requires s != ""
    ensures t.Apply(s) == t.Apply([s[0]]) + t.Apply(s[1..])
  {
    TransformerOne(s[0]);
    match t
    case Keep =>
      assert s == [s[0]] + s[1..];
    case WhiteOut =>
      assert t.Apply(s) == [if IsWhite(s[0]) then s[0] else ' '] + t.Apply(s[1..]);
    case WhiteSpace =>
      assert t.Apply(s) == (if IsWhite(s[0]) then [s[0]] else "") + t.Apply(s[1..]);
    case NewlinesOnly =>
      assert t.Apply(s) == (if s[0] == '\n' then [s[0]] else "") + t.Apply(s[1..]);
  }

  // What becomes of one character.
  lemma TransformerOne(c: char)
    ensures WhiteOut.Apply([c]) == [if IsWhite(c) then c else ' ']
    ensures WhiteSpace.Apply([c]) == if IsWhite(c) then [c] else ""
    ensures NewlinesOnly.Apply([c]) == if c == '\n' then [c] else ""
  {
    assert [c][1..] == "" && [c] + "" == [c];
    assert ReplaceNonWhite([c]) == [if IsWhite(c) then c else ' '] + ReplaceNonWhite("");
    assert StripNonWhite([c]) == (if IsWhite(c) then [c] else "") + StripNonWhite("");
    assert StripNonNewline([c]) == (if c == '\n' then [c] else "") + StripNonNewline("");
  }

  // Whiting out replaces whatever is not white by a space, in its place.
  lemma {:induction false} WhiteOutInPlace(s: string)
    ensures |WhiteOut.Apply(s)| == |s|
    ensures forall k :: 0 <= k < |s| ==> WhiteOut.Apply(s)[k] == if IsWhite(s[k]) then s[k] else ' '
  {
    if s == "" {
    } else {
      WhiteOutInPlace(s[1..]);
    }
  }

  // Keeping newlines leaves as many newlines as there are in the text, and nothing else.
  lemma {:induction false} NewlinesOnlyCount(s: string)
    ensures NewlinesOnly.Apply(s) == Repeat("\n", Newlines(s))
  {
    if s == "" {
    } else {
      NewlinesOnlyCount(s[1..]);
      assert Repeat("\n", 1 + Newlines(s[1..])) == "\n" + Repeat("\n", Newlines(s[1..]));
    }
  }
}
