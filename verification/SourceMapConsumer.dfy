/** The source map consumer: lazy parsing of the "mappings" string and the position queries. */
module SourceMapConsumers {
  import opened Wrappers
  import opened Text
  import opened Base64Vlq
  import opened ArraySets
  import opened Mappings
  import opened MappingCodec
  import Sorting
  import BinarySearch

  const ByGenerated: (Mapping, Mapping) -> int := (a, b) => CompareByGenerated(a, b, false)
  const ByGeneratedPosition: (Mapping, Mapping) -> int := (a, b) => CompareByGenerated(a, b, true)
  const ByOriginal: (Mapping, Mapping) -> int := (a, b) => CompareByOriginal(a, b, false)
  const ByOriginalPosition: (Mapping, Mapping) -> int := (a, b) => CompareByOriginal(a, b, true)

  // The stub that position queries search with.
  function Needle(line: int, column: int): Mapping {
    Mapping(line, column, None, None, None, None)
  }

  datatype OriginalPosition = OriginalPosition(
    source: Option<string>, line: Option<int>, column: Option<int>, name: Option<string>)

  const NOWHERE := OriginalPosition(None, None, None, None)

  function OriginalOf(m: Option<Mapping>): OriginalPosition {
    if m.None? then NOWHERE
    else OriginalPosition(m.value.source, m.value.originalLine, m.value.originalColumn, m.value.name)
  }

  // ----- what a search by generated position means

  // The last mapping, in list order, whose generated position is at or before p.
  function OwnerAt(ms: seq<Mapping>, p: Position): Option<Mapping> {
    if ms == [] then None
    else if AtOrBefore(ms[|ms| - 1].Generated(), p) then Some(ms[|ms| - 1])
    else OwnerAt(ms[..|ms| - 1], p)
  }

  ghost predicate PositionsSorted(ms: seq<Mapping>) {
    forall i, j :: 0 <= i < j < |ms| ==> AtOrBefore(ms[i].Generated(), ms[j].Generated())
  }

  ghost predicate PositionsIncrease(ms: seq<Mapping>) {
    forall i, j :: 0 <= i < j < |ms| ==> Before(ms[i].Generated(), ms[j].Generated())
  }

  lemma {:induction false} OwnerAtIndex(ms: seq<Mapping>, p: Position, k: int)
    requires -1 <= k < |ms|
    requires k >= 0 ==> AtOrBefore(ms[k].Generated(), p)
    requires forall i :: k < i < |ms| ==> !AtOrBefore(ms[i].Generated(), p)
    ensures OwnerAt(ms, p) == if k < 0 then None else Some(ms[k])
    decreases |ms|
  {
    if k < |ms| - 1 {
      OwnerAtIndex(ms[..|ms| - 1], p, k);
    }
  }

  lemma SearchIsMonotone(ms: seq<Mapping>, line: int, column: int)
    requires PositionsSorted(ms)
    ensures BinarySearch.Monotone(Needle(line, column), ms, ByGeneratedPosition)
  {
  }

  // The binary search of the consumer finds the last mapping at or before the position, up to mappings at the very
  // same position.
  lemma SearchFindsOwner(ms: seq<Mapping>, line: int, column: int)
    requires PositionsSorted(ms)
    ensures
      var found := BinarySearch.Search(Needle(line, column), ms, ByGeneratedPosition);
      var owner := OwnerAt(ms, Position(line, column));
      && (found.None? <==> owner.None?)
      && (found.Some? ==> found.value in ms && found.value.Generated() == owner.value.Generated())
      && (PositionsIncrease(ms) ==> found == owner)
  {
    hide BinarySearch.Search, BinarySearch.Answers, BinarySearch.Monotone, CompareByGenerated, PositionsSorted;
    var needle := Needle(line, column);
    var found := BinarySearch.Search(needle, ms, ByGeneratedPosition);
    SearchIsMonotone(ms, line, column);
    BinarySearch.SearchCorrect(needle, ms, ByGeneratedPosition);
    var k :| -1 <= k < |ms| && found == (if k < 0 then None else Some(ms[k]))
             && BinarySearch.Answers(k, needle, ms, ByGeneratedPosition);
    AnswerIsOwner(ms, line, column, k);
  }

  // The last of the mappings at or before a position, by its place in the list; -1 if there is none.
  predicate LastUpTo(ms: seq<Mapping>, p: Position, k: int) {
    && -1 <= k < |ms|
    && (k >= 0 ==> AtOrBefore(ms[k].Generated(), p))
    && (k + 1 < |ms| ==> Before(p, ms[k + 1].Generated()))
  }

  // A query answers with what that mapping says: its source, its line and column there, and its name.
  lemma AnswerIs(ms: seq<Mapping>, line: int, column: int, k: int)
    requires PositionsIncrease(ms) && LastUpTo(ms, Position(line, column), k)
    ensures
      var answer := OriginalOf(BinarySearch.Search(Needle(line, column), ms, ByGeneratedPosition));
      if k < 0 then answer.source == None && answer.line == None && answer.column == None && answer.name == None
      else
        && answer.source == ms[k].source && answer.name == ms[k].name
        && answer.line == ms[k].originalLine && answer.column == ms[k].originalColumn
  {
    hide BinarySearch.Search;
    var p := Position(line, column);
    forall i, j | 0 <= i < j < |ms|
      ensures AtOrBefore(ms[i].Generated(), ms[j].Generated())
    {
      assert Before(ms[i].Generated(), ms[j].Generated());
    }
    forall i | k < i < |ms|
      ensures !AtOrBefore(ms[i].Generated(), p)
    {
      assert i == k + 1 || Before(ms[k + 1].Generated(), ms[i].Generated());
    }
    SearchFindsOwner(ms, line, column);
    OwnerAtIndex(ms, p, k);
  }

  lemma AnswerIsOwner(ms: seq<Mapping>, line: int, column: int, k: int)
    requires PositionsSorted(ms) && -1 <= k < |ms|
    requires BinarySearch.Answers(k, Needle(line, column), ms, ByGeneratedPosition)
    ensures
      var owner := OwnerAt(ms, Position(line, column));
      && (k < 0 <==> owner.None?)
      && (k >= 0 ==> ms[k].Generated() == owner.value.Generated() && (PositionsIncrease(ms) ==> owner.value == ms[k]))
  {
    hide CompareByGenerated, OwnerAt;
    var needle, p := Needle(line, column), Position(line, column);
    var last := LastAtOrBefore(ms, p, |ms|);
    OwnerAtIndex(ms, p, last);
    SignIsPosition(ms, needle);
    assert needle.Generated() == p;
    if k >= 0 && ms[k].Generated() == p {
      assert k <= last;
      assert AtOrBefore(ms[k].Generated(), ms[last].Generated());
    } else {
      assert forall i | 0 <= i <= k :: ms[i] in ms && Before(ms[i].Generated(), p);
      assert forall i | k < i < |ms| :: ms[i] in ms && !AtOrBefore(ms[i].Generated(), p);
      assert last == k;
    }
  }

  lemma SignIsPosition(ms: seq<Mapping>, needle: Mapping)
    ensures forall m :: m in ms ==>
              && (ByGeneratedPosition(needle, m) == 0 <==> m.Generated() == needle.Generated())
              && (ByGeneratedPosition(needle, m) > 0 <==> Before(m.Generated(), needle.Generated()))
  {
  }

  ghost function LastAtOrBefore(ms: seq<Mapping>, p: Position, n: nat): (k: int)
    requires n <= |ms|
    ensures -1 <= k < n || (n == 0 && k == -1)
    ensures k >= 0 ==> AtOrBefore(ms[k].Generated(), p)
    ensures forall i :: k < i < n ==> !AtOrBefore(ms[i].Generated(), p)
  {
    if n == 0 then -1 else if AtOrBefore(ms[n - 1].Generated(), p) then n - 1 else LastAtOrBefore(ms, p, n - 1)
  }

  // Lists sorted by the full comparators are monotone for the comparators of the queries, so that by SearchCorrect a
  // query finds an equal element, else the last smaller one, else nothing.
  lemma SortedByGeneratedIsMonotone(ms: seq<Mapping>, needle: Mapping)
    requires Sorting.SortedBy(ByGenerated, ms)
    ensures PositionsSorted(ms)
    ensures BinarySearch.Found(BinarySearch.Search(needle, ms, ByGeneratedPosition), needle, ms, ByGeneratedPosition)
  {
    hide BinarySearch.Found, BinarySearch.Search;
    forall i, j | 0 <= i < j < |ms|
      ensures AtOrBefore(ms[i].Generated(), ms[j].Generated())
    {
      assert ByGenerated(ms[i], ms[j]) <= 0;
    }
    BinarySearch.SearchCorrect(needle, ms, ByGeneratedPosition);
  }

  lemma SortedByOriginalIsMonotone(ms: seq<Mapping>, needle: Mapping)
    requires Sorting.SortedBy(ByOriginal, ms)
    ensures BinarySearch.Found(BinarySearch.Search(needle, ms, ByOriginalPosition), needle, ms, ByOriginalPosition)
  {
    hide BinarySearch.Found, BinarySearch.Search, CompareByOriginal;
    forall i, j | 0 <= i < j < |ms|
      ensures ByOriginalPosition(needle, ms[i]) < 0 ==> ByOriginalPosition(needle, ms[j]) < 0
      ensures ByOriginalPosition(needle, ms[i]) <= 0 ==> ByOriginalPosition(needle, ms[j]) <= 0
    {
      assert ByOriginal(ms[i], ms[j]) <= 0;
      OriginalRefines(ms[i], ms[j]);
      if ByOriginalPosition(needle, ms[i]) <= 0 {
        OriginalTransitive(needle, ms[i], ms[j], true);
      }
    }
    BinarySearch.SearchCorrect(needle, ms, ByOriginalPosition);
  }

  // ----- parsing

  // What the program keeps apart for queries by original position.
  function WithOriginal(ms: seq<Mapping>): seq<Mapping> {
    if ms == [] then []
    else
      var rest := WithOriginal(ms[..|ms| - 1]);
      if ms[|ms| - 1].originalLine.Some? then rest + [ms[|ms| - 1]] else rest
  }

  // A mapping with a source has an original position.
  predicate AllComplete(ms: seq<Mapping>) {
    forall m :: m in ms && m.HasSource() ==> m.originalLine.Some? && m.originalColumn.Some?
  }

  function Prefixed(acc: seq<Mapping>, r: Result<seq<Mapping>>): Result<seq<Mapping>> {
    if r.Ok? then Ok(acc + r.value) else r
  }

  lemma ByOriginalIsPreorder()
    ensures Sorting.TotalPreorder(ByOriginal)
  {
    forall a, b
      ensures ByOriginal(a, b) <= 0 || ByOriginal(b, a) <= 0
    {
      OriginalFlip(a, b, false);
    }
    forall a, b, c | ByOriginal(a, b) <= 0 && ByOriginal(b, c) <= 0
      ensures ByOriginal(a, c) <= 0
    {
      OriginalTransitive(a, b, c, false);
    }
  }

  lemma ByGeneratedIsPreorder()
    ensures Sorting.TotalPreorder(ByGenerated)
  {
    forall a, b
      ensures ByGenerated(a, b) <= 0 || ByGenerated(b, a) <= 0
    {
      GeneratedFlip(a, b, false);
    }
    forall a, b, c | ByGenerated(a, b) <= 0 && ByGenerated(b, c) <= 0
      ensures ByGenerated(a, c) <= 0
    {
      GeneratedTransitive(a, b, c, false);
    }
  }

  class SourceMapConsumer {
    var sources: ArraySet
    var names: ArraySet
    var file: string
    var mappings: string
    // null until the first query
    var generatedMappings: Option<seq<Mapping>>
    var originalMappings: Option<seq<Mapping>>

    ghost predicate Valid()
      reads this, sources, names
    {
      && sources.Valid() && names.Valid() && sources != names
      && (generatedMappings.None? <==> originalMappings.None?)
      && (generatedMappings.Some? ==> AllComplete(generatedMappings.value))
    }

    // What the "mappings" string stands for, given the tables.
    ghost function Denoted(): Result<seq<Mapping>>
      reads this, sources, names
    {
      Read(mappings, START, sources.members, names.members)
    }

    constructor (sources: seq<string>, names: seq<string>, mappings: string, file: string)
      ensures Valid() && fresh(this.sources) && fresh(this.names)
      ensures this.sources.members == sources && this.names.members == names
      ensures this.mappings == mappings && this.file == file && generatedMappings.None?
    {
      this.names := new ArraySet.FromArray(names, true);
      this.sources := new ArraySet.FromArray(sources, true);
      this.mappings := mappings;
      this.file := file;
      this.generatedMappings, this.originalMappings := None, None;
      AddedAllCopies([], sources);
      AddedAllCopies([], names);
    }

    // Reads one segment with the running "previous" values.
    method ParseSegment(str: string, prev: Previous) returns (r: Result<(Mapping, Previous, string)>)
      requires Valid()
      ensures r == ReadSegment(str, prev, sources.members, names.members)
    {
      hide Decoded;
      var column :- Decode(str);
      var previousGeneratedColumn := prev.column + column.0;
      var rest := column.1;
      var mapping := Mapping(prev.line, previousGeneratedColumn, None, None, None, None);
      if rest == "" || AtSeparator(rest) {
        return Ok((mapping, prev.(column := previousGeneratedColumn), rest));
      }
      var source :- Decode(rest);
      var sourceName :- sources.At(prev.source + source.0);
      rest := source.1;
      if rest == "" || AtSeparator(rest) {
        return Err("Found a source, but no line and column");
      }
      var line :- Decode(rest);
      var previousOriginalLine := prev.originalLine + line.0;
      rest := line.1;
      if rest == "" || AtSeparator(rest) {
        return Err("Found a source and line, but no column");
      }
      var originalColumn :- Decode(rest);
      var previousOriginalColumn := prev.originalColumn + originalColumn.0;
      rest := originalColumn.1;
      mapping := mapping.(source := Some(sourceName),
                          originalLine := Some(previousOriginalLine + 1),
                          originalColumn := Some(previousOriginalColumn));
      var next := prev.(column := previousGeneratedColumn, source := prev.source + source.0,
                        originalLine := previousOriginalLine, originalColumn := previousOriginalColumn);
      if rest != "" && !AtSeparator(rest) {
        var name :- Decode(rest);
        var nameText :- names.At(prev.name + name.0);
        mapping := mapping.(name := Some(nameText));
        next := next.(name := prev.name + name.0);
        rest := name.1;
      }
      r := Ok((mapping, next, rest));
    }

    // A failed parse leaves the mappings read so far in place of null.
    method ParseMappings() returns (r: Result<()>)
      requires Valid()
      modifies this
      ensures Valid() && sources == old(sources) && names == old(names)
      ensures mappings == old(mappings) && file == old(file)
      ensures generatedMappings.Some?
      ensures r.Ok? <==> Denoted().Ok?
      ensures r.Ok? ==>
                && generatedMappings.value == Denoted().value
                && Sorting.SortedBy(ByOriginal, originalMappings.value)
                && Sorting.Permutation(WithOriginal(Denoted().value), originalMappings.value)
    {
      hide Read, ReadSegment, WithOriginal, Prefixed, CompareByOriginal, ByOriginal;
      var str := mappings;
      var prev := START;
      var generated: seq<Mapping>, original: seq<Mapping> := [], [];
      generatedMappings, originalMappings := Some([]), Some([]);
      ReadStart(str, prev, sources.members, names.members);
      while str != ""
        invariant Valid() && sources == old(sources) && names == old(names)
        invariant mappings == old(mappings) && file == old(file)
        invariant generatedMappings == Some(generated) && originalMappings == Some(original)
        invariant original == WithOriginal(generated)
        invariant Denoted() == Prefixed(generated, Read(str, prev, sources.members, names.members))
        decreases |str|
      {
        ReadStepExact(str, prev, sources.members, names.members, generated);
        if str[0] == ';' {
          prev := prev.(line := prev.line + 1, column := 0);
          str := str[1..];
        } else if str[0] == ',' {
          str := str[1..];
        } else {
          var segment := ParseSegment(str, prev);
          if segment.Err? {
            return Err(segment.message);
          }
          var (mapping, next, rest) := segment.value;
          WithOriginalAppend(generated, mapping);
          generated := generated + [mapping];
          generatedMappings := Some(generated);
          if mapping.originalLine.Some? {
            original := original + [mapping];
            originalMappings := Some(original);
          }
          prev, str := next, rest;
        }
      }
      ReadEnd(prev, sources.members, names.members, generated);
      ByOriginalIsPreorder();
      original := Sorting.Sort(original, ByOriginal);
      originalMappings := Some(original);
      r := Ok(());
    }

    // The position in the original source for a position in the generated code.
    method OriginalPositionFor(line: int, column: int) returns (r: Result<OriginalPosition>)
      requires Valid()
      modifies this
      ensures Valid() && sources == old(sources) && names == old(names)
      ensures mappings == old(mappings) && file == old(file)
      ensures old(generatedMappings).Some? ==> generatedMappings == old(generatedMappings)
      ensures old(generatedMappings).None? && Denoted().Ok? ==> generatedMappings == Some(Denoted().value)
      ensures old(generatedMappings).None? && Denoted().Err? ==> r.Err?
      ensures (line <= 0 || column < 0) ==> r.Err?
      ensures line > 0 && column >= 0 && (old(generatedMappings).Some? || Denoted().Ok?) ==>
                && generatedMappings.Some?
                && r == Ok(OriginalOf(BinarySearch.Search(Needle(line, column), generatedMappings.value,
                                                          ByGeneratedPosition)))
    {
      if generatedMappings.None? {
        var parsed := ParseMappings();
        if parsed.Err? {
          return Err(parsed.message);
        }
      }
      if line <= 0 {
        return Err("Line must be greater than or equal to 1");
      }
      if column < 0 {
        return Err("Column must be greater than or equal to 0");
      }
      var mapping := BinarySearch.Search(Needle(line, column), generatedMappings.value, ByGeneratedPosition);
      r := Ok(OriginalOf(mapping));
    }
  }

  lemma ReadStart(s: string, prev: Previous, sources: seq<string>, names: seq<string>)
    ensures Prefixed([], Read(s, prev, sources, names)) == Read(s, prev, sources, names)
    ensures WithOriginal([]) == []
  {
    var r := Read(s, prev, sources, names);
    if r.Ok? {
      assert [] + r.value == r.value;
    }
  }

  lemma ReadEnd(prev: Previous, sources: seq<string>, names: seq<string>, acc: seq<Mapping>)
    ensures Prefixed(acc, Read("", prev, sources, names)) == Ok(acc)
  {
    assert acc + [] == acc;
  }

  lemma WithOriginalAppend(ms: seq<Mapping>, m: Mapping)
    ensures WithOriginal(ms + [m]) == if m.originalLine.Some? then WithOriginal(ms) + [m] else WithOriginal(ms)
  {
    assert (ms + [m])[..|ms + [m]| - 1] == ms;
  }

  // One step of the reader, after the mappings `acc`.
  lemma ReadStepExact(s: string, prev: Previous, sources: seq<string>, names: seq<string>, acc: seq<Mapping>)
    requires s != ""
    ensures
      var read := Prefixed(acc, Read(s, prev, sources, names));
      if s[0] == ';' then
        read == Prefixed(acc, Read(s[1..], prev.(line := prev.line + 1, column := 0), sources, names))
      else if s[0] == ',' then
        read == Prefixed(acc, Read(s[1..], prev, sources, names))
      else
        var r := ReadSegment(s, prev, sources, names);
        if r.Err? then read == Err(r.message)
        else
          && read == Prefixed(acc + [r.value.0], Read(r.value.2, r.value.1, sources, names))
          && AllComplete([r.value.0])
  {
    hide Decoded;
    if s[0] != ';' && s[0] != ',' {
      var r := ReadSegment(s, prev, sources, names);
      if r.Ok? {
        var later := Read(r.value.2, r.value.1, sources, names);
        if later.Ok? {
          assert acc + ([r.value.0] + later.value) == acc + [r.value.0] + later.value;
        }
      }
    }
  }
}
