/** The transformation state as the program keeps it, updated in place by catching up, moving and appending, and the
    traversal of a syntax tree that drives it. */
module Transformations {
  import opened Wrappers
  import opened Text
  import opened Mappings
  import opened SourceMapGenerators
  import opened TransformStates
  import opened TransformLaws

  class Transformation {
    const source: string
    const sourceMap: SourceMapGenerator?
    var position: int
    var buffer: string
    var sourceLine: int
    var sourceColumn: int
    var bufferLine: int
    var bufferColumn: int

    // The objects of the source map.
    ghost function MapObjects(): set<object>
      reads this, sourceMap
    {
      if sourceMap == null then {} else var m: SourceMapGenerator := sourceMap; {m, m.sources, m.names}
    }

    ghost predicate Valid()
      reads this, sourceMap, MapObjects()
    {
      && (sourceMap != null ==> sourceMap.Valid())
      && sourceLine >= 1 && sourceColumn >= 0 && bufferLine >= 1 && bufferColumn >= 0
    }

    ghost function Abstract(): State
      reads this, sourceMap
    {
      State(source, position, buffer, sourceMap != null, Position(sourceLine, sourceColumn),
            Position(bufferLine, bufferColumn), if sourceMap == null then [] else sourceMap.mappings)
    }

    constructor (source: string, sourceMap: SourceMapGenerator?)
      requires sourceMap != null ==> sourceMap.Valid() && sourceMap.mappings == []
      ensures Valid() && this.source == source && this.sourceMap == sourceMap
      ensures Abstract() == Initial(source, sourceMap != null)
    {
      this.source, this.sourceMap := source, sourceMap;
      position, buffer := 0, "";
      sourceLine, sourceColumn, bufferLine, bufferColumn := 1, 0, 1, 0;
    }

    // Records a mapping between two positions; the generator accepts it.
    method Record(generated: Position, original: Position)
      requires Valid() && sourceMap != null
      requires generated.line >= 1 && generated.column >= 0 && original.line >= 1 && original.column >= 0
      modifies MapObjects()
      ensures Valid() && MapObjects() == old(MapObjects())
      ensures Abstract() == old(Abstract()).(mappings := old(Abstract()).mappings + [MappingAt(generated, original)])
    {
      hide SourceMapGenerator.Valid;
      var accepted := sourceMap.AddMapping(generated, Some(original), Some(FILENAME), None);
      assert Made(generated, Some(original), Some(FILENAME), None) == MappingAt(generated, original);
    }

    // Copies the source up to `end` into the buffer, re-indented and transformed.
    method Catchup(end: int, indentBy: int, contentTransformer: Transformer)
      requires Valid()
      modifies this, MapObjects()
      ensures Valid() && MapObjects() == old(MapObjects())
      ensures Abstract() == Caught(old(Abstract()), end, indentBy, contentTransformer)
      ensures sourceMap != null && old(SourceInStep(Abstract()) && BufferInStep(Abstract())) ==>
                AddsRecorded(old(Abstract()), Operation.Catchup(end, indentBy, contentTransformer), sourceMap.mappings)
    {
      ghost var before, op := Abstract(), Operation.Catchup(end, indentBy, contentTransformer);
      if before.recording && SourceInStep(before) && BufferInStep(before) {
        StepRecords(before, op);
      }
      hide AddsRecorded, SourceInStep, BufferInStep;
      if end < position {
        return;
      }
      var piece := Substring(source, position, end);
      var transformed := UpdateIndent(piece, indentBy);
      if sourceMap != null && transformed != "" {
        SplitCount(piece);
        SplitCount(transformed);
        UpdateIndentNewlines(piece, indentBy);
        RecordPiece(piece, transformed);
      }
      buffer := buffer + contentTransformer.Apply(transformed);
      position := end;
    }

    // The mappings of one piece, and the cursors past it.
    method RecordPiece(piece: string, transformed: string)
      requires Valid() && sourceMap != null && |SplitLines(transformed)| == |SplitLines(piece)|
      modifies this, MapObjects()
      ensures Valid() && MapObjects() == old(MapObjects())
      ensures Abstract() == old(Abstract()).(
                sourceAt := Advance(old(Abstract()).sourceAt, piece),
                bufferAt := Advance(old(Abstract()).bufferAt, transformed),
                mappings := old(Abstract()).mappings
                            + CaughtMappings(old(Abstract()).bufferAt, old(Abstract()).sourceAt, piece))
    {
      hide SourceMapGenerator.Valid, Advance, SplitLines, BreakMappings, MappingAt;
      AdvanceByLines(Position(sourceLine, sourceColumn), piece);
      AdvanceByLines(Position(bufferLine, bufferColumn), transformed);
      Record(Position(bufferLine, bufferColumn), Position(sourceLine, sourceColumn));
      var sourceLines, transformedLines := SplitLines(piece), SplitLines(transformed);
      RecordBreaks(|sourceLines|);
      if |sourceLines| > 1 {
        sourceLine := sourceLine + 1;
        bufferLine := bufferLine + 1;
        sourceColumn := 0;
        bufferColumn := 0;
      }
      sourceColumn := sourceColumn + |sourceLines[|sourceLines| - 1]|;
      bufferColumn := bufferColumn + |transformedLines[|transformedLines| - 1]|;
    }

    // The line breaks inside a piece of n lines: a mapping for each line between the first and the last.
    method RecordBreaks(n: nat)
      requires Valid() && sourceMap != null
      modifies this, MapObjects()
      ensures Valid() && MapObjects() == old(MapObjects())
      ensures var k := if n > 2 then n - 2 else 0;
              var before := old(Abstract());
              Abstract() == before.(
                sourceAt := Position(before.sourceAt.line + k, before.sourceAt.column),
                bufferAt := Position(before.bufferAt.line + k, before.bufferAt.column),
                mappings := before.mappings + BreakMappings(before.bufferAt.line, before.sourceAt.line, k))
    {
      hide SourceMapGenerator.Valid, MappingAt;
      ghost var before := Abstract();
      var i := 1;
      assert before.mappings + BreakMappings(before.bufferAt.line, before.sourceAt.line, 0) == before.mappings;
      while i < n - 1
        invariant Valid() && MapObjects() == old(MapObjects())
        invariant 1 <= i && (i <= n - 1 || i == 1)
        invariant Abstract() == before.(
                    sourceAt := Position(before.sourceAt.line + i - 1, before.sourceAt.column),
                    bufferAt := Position(before.bufferAt.line + i - 1, before.bufferAt.column),
                    mappings := before.mappings + BreakMappings(before.bufferAt.line, before.sourceAt.line, i - 1))
        decreases n - i
      {
        Record(Position(bufferLine, 0), Position(sourceLine, 0));
        sourceLine := sourceLine + 1;
        bufferLine := bufferLine + 1;
        OneMoreBreak(before.mappings, before.bufferAt.line, before.sourceAt.line, i - 1);
        i := i + 1;
      }
    }

    // Moves in the source, also backwards, without touching the buffer.
    method Move(end: int)
      requires Valid()
      modifies this
      ensures Valid() && MapObjects() == old(MapObjects())
      ensures Abstract() == Moved(old(Abstract()), end)
    {
      if sourceMap != null {
        if end < position {
          position := 0;
          sourceLine := 1;
          sourceColumn := 0;
        }
        var skipped := Substring(source, position, end);
        var sourceLines := SplitLines(skipped);
        AdvanceByLines(Position(sourceLine, sourceColumn), skipped);
        if |sourceLines| > 1 {
          sourceLine := sourceLine + (|sourceLines| - 1);
          sourceColumn := 0;
        }
        sourceColumn := sourceColumn + |sourceLines[|sourceLines| - 1]|;
      }
      position := end;
    }

    // Appends text to the buffer.
    method Append(str: string)
      requires Valid()
      modifies this, MapObjects()
      ensures Valid() && MapObjects() == old(MapObjects())
      ensures Abstract() == Appended(old(Abstract()), str)
      ensures sourceMap != null && old(SourceInStep(Abstract()) && BufferInStep(Abstract())) ==>
                AddsRecorded(old(Abstract()), Operation.Append(str), sourceMap.mappings)
    {
      ghost var before, op := Abstract(), Operation.Append(str);
      if before.recording && SourceInStep(before) && BufferInStep(before) {
        StepRecords(before, op);
      }
      hide AddsRecorded, SourceInStep, BufferInStep, SourceMapGenerator.Valid, Advance, MappingAt;
      if sourceMap != null && str != "" {
        RecordText(str);
      }
      buffer := buffer + str;
    }

    // The mapping of an appended text, and the buffer cursor past it.
    method RecordText(str: string)
      requires Valid() && sourceMap != null
      modifies this, MapObjects()
      ensures Valid() && MapObjects() == old(MapObjects())
      ensures Abstract() == old(Abstract()).(
                bufferAt := Advance(old(Abstract()).bufferAt, str),
                mappings := old(Abstract()).mappings
                            + [MappingAt(old(Abstract()).bufferAt, old(Abstract()).sourceAt)])
    {
      hide SourceMapGenerator.Valid, Advance, SplitLines, MappingAt;
      AdvanceByLines(Position(bufferLine, bufferColumn), str);
      Record(Position(bufferLine, bufferColumn), Position(sourceLine, sourceColumn));
      var transformedLines := SplitLines(str);
      if |transformedLines| > 1 {
        bufferLine := bufferLine + (|transformedLines| - 1);
        bufferColumn := 0;
      }
      bufferColumn := bufferColumn + |transformedLines[|transformedLines| - 1]|;
    }
  }

  lemma OneMoreBreak(ms: seq<Mapping>, generatedLine: int, originalLine: int, k: nat)
    ensures ms + BreakMappings(generatedLine, originalLine, k)
               + [MappingAt(Position(generatedLine + k, 0), Position(originalLine + k, 0))]
         == ms + BreakMappings(generatedLine, originalLine, k + 1)
  {
  }
}
