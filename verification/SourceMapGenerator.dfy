/** The source map generator: its mappings, its tables of sources and names, and the serialised form. */
module SourceMapGenerators {
  import opened Wrappers
  import opened Text
  import opened Base64Vlq
  import opened ArraySets
  import opened Mappings
  import opened MappingCodec
  import opened MappingRoundTrip
  import opened SourceMapConsumers
  import Sorting
  import BinarySearch

  // ----- the tables

  predicate UsesSource(ms: seq<Mapping>, s: string) {
    exists m :: m in ms && m.HasSource() && m.source.value == s
  }

  predicate UsesName(ms: seq<Mapping>, s: string) {
    exists m :: m in ms && m.HasName() && m.name.value == s
  }

  // The tables list exactly the distinct sources and names of the mappings.
  ghost predicate TablesExact(ms: seq<Mapping>, sources: seq<string>, names: seq<string>) {
    && Distinct(sources) && Distinct(names)
    && (forall s :: s in sources <==> UsesSource(ms, s))
    && (forall s :: s in names <==> UsesName(ms, s))
  }

  // A mapping with a source has an original position; the writer needs no more.
  predicate WellFormed(m: Mapping) {
    && m.generatedLine > 0
    && (m.HasSource() ==> m.originalLine.Some? && m.originalColumn.Some?)
  }

  lemma UsesAppend(ms: seq<Mapping>, m: Mapping)
    ensures forall s :: UsesSource(ms + [m], s) <==> UsesSource(ms, s) || (m.HasSource() && m.source.value == s)
    ensures forall s :: UsesName(ms + [m], s) <==> UsesName(ms, s) || (m.HasName() && m.name.value == s)
  {
    forall s
      ensures UsesSource(ms + [m], s) <==> UsesSource(ms, s) || (m.HasSource() && m.source.value == s)
      ensures UsesName(ms + [m], s) <==> UsesName(ms, s) || (m.HasName() && m.name.value == s)
    {
      assert m in ms + [m];
      assert forall x :: x in ms + [m] <==> x in ms || x == m;
    }
  }

  lemma TablesAppend(ms: seq<Mapping>, m: Mapping, sources: seq<string>, names: seq<string>)
    requires TablesExact(ms, sources, names)
    ensures TablesExact(ms + [m],
                        if m.HasSource() then Added(sources, m.source.value, false) else sources,
                        if m.HasName() then Added(names, m.name.value, false) else names)
  {
    UsesAppend(ms, m);
  }

  lemma TablesPermute(ms: seq<Mapping>, ns: seq<Mapping>, sources: seq<string>, names: seq<string>)
    requires TablesExact(ms, sources, names) && Sorting.Permutation(ms, ns)
    ensures TablesExact(ns, sources, names)
  {
    Sorting.PermutationMembers(ms, ns);
  }

  // Exact tables know everything that the writer looks up.
  lemma TablesCover(ms: seq<Mapping>, sources: seq<string>, names: seq<string>)
    requires TablesExact(ms, sources, names)
    requires forall m :: m in ms ==> WellFormed(m)
    ensures AllCovered(ms, sources, names)
  {
    forall m | m in ms
      ensures Covered(m, sources, names)
    {
      assert WellFormed(m);
      if m.HasSource() {
        assert UsesSource(ms, m.source.value);
      }
      if m.HasName() {
        assert UsesName(ms, m.name.value);
      }
    }
  }

  // ----- what a generator accepts

  predicate Acceptable(generated: Position, original: Option<Position>, source: Option<string>, name: Option<string>) {
    && generated.line > 0 && generated.column >= 0
    && if original.None? then !Truthy(source) && !Truthy(name)
       else original.value.line > 0 && original.value.column >= 0 && Truthy(source)
  }

  function Made(generated: Position, original: Option<Position>, source: Option<string>,
                name: Option<string>): (m: Mapping)
    ensures Acceptable(generated, original, source, name) ==> m.Valid() && WellFormed(m)
  {
    Mapping(generated.line, generated.column, source,
            if original.Some? then Some(original.value.line) else None,
            if original.Some? then Some(original.value.column) else None,
            name)
  }

  // ----- applying another source map

  predicate Concerns(m: Mapping, file: string) {
    m.source == Some(file) && OrZero(m.originalLine) != 0
  }

  // One mapping sent through the mappings `sub` of another map for source file `file`.
  function Remapped(m: Mapping, file: string, sub: seq<Mapping>): (r: Result<Mapping>) {
    if !Concerns(m, file) then Ok(m)
    else if OrZero(m.originalLine) <= 0 then Err("Line must be greater than or equal to 1")
    else if OrZero(m.originalColumn) < 0 then Err("Column must be greater than or equal to 0")
    else
      var original := OriginalOf(BinarySearch.Search(Needle(OrZero(m.originalLine), OrZero(m.originalColumn)), sub,
                                                     ByGeneratedPosition));
      if original.source.None? then Ok(m)
      else Ok(m.(source := original.source, originalLine := original.line, originalColumn := original.column,
                 name := if original.name.Some? && m.name.Some? then original.name else m.name))
  }

  // What a consumer answers from: the mappings it has parsed, or else those its string denotes.
  function Answering(parsed: Option<seq<Mapping>>, denoted: Result<seq<Mapping>>): seq<Mapping> {
    if parsed.Some? then parsed.value else if denoted.Ok? then denoted.value else []
  }

  // A mapping of the file at a position that cannot be queried: AddMapping makes none, but another map may bring one
  // in.
  predicate BadPosition(m: Mapping, file: string) {
    Concerns(m, file) && (OrZero(m.originalLine) <= 0 || OrZero(m.originalColumn) < 0)
  }

  // What becomes of a mapping. One of another file, or without an original line, stays. One of the file goes on to
  // where the last mapping of the other map at or before its original position leads, if that leads to a source; it
  // keeps its generated position; and its name is the one of the other map exactly when both have a name.
  lemma RemappedIs(m: Mapping, file: string, sub: seq<Mapping>, k: int)
    requires PositionsIncrease(sub) && LastUpTo(sub, Position(OrZero(m.originalLine), OrZero(m.originalColumn)), k)
    requires !BadPosition(m, file)
    ensures Remapped(m, file, sub).Ok?
    ensures
      var r := Remapped(m, file, sub).value;
      if m.source != Some(file) || OrZero(m.originalLine) == 0 || k < 0 || sub[k].source.None? then r == m
      else
        && r.Generated() == m.Generated()
        && r.source == sub[k].source
        && r.originalLine == sub[k].originalLine && r.originalColumn == sub[k].originalColumn
        && (m.name.Some? && sub[k].name.Some? ==> r.name == sub[k].name)
        && (m.name.None? || sub[k].name.None? ==> r.name == m.name)
  {
    hide BinarySearch.Search, PositionsIncrease;
    AnswerIs(sub, OrZero(m.originalLine), OrZero(m.originalColumn), k);
  }

  // Asking for the mapping fails, for its position or because the string of the consumer cannot be read.
  predicate Fails(m: Mapping, file: string, parsed: Option<seq<Mapping>>, denoted: Result<seq<Mapping>>) {
    BadPosition(m, file) || (Concerns(m, file) && parsed.None? && denoted.Err?)
  }

  ghost predicate NoneFails(ms: seq<Mapping>, file: string, parsed: Option<seq<Mapping>>,
                            denoted: Result<seq<Mapping>>) {
    forall k :: 0 <= k < |ms| ==> !Fails(ms[k], file, parsed, denoted)
  }

  // The mappings before the first one that fails have been rewritten, the others have not.
  ghost predicate StoppedAt(before: seq<Mapping>, after: seq<Mapping>, k: nat, file: string,
                            parsed: Option<seq<Mapping>>, denoted: Result<seq<Mapping>>) {
    && k < |before| == |after| && Fails(before[k], file, parsed, denoted)
    && NoneFails(before[..k], file, parsed, denoted)
    && AllRemapped(before[..k], after[..k], file, Answering(parsed, denoted))
    && after[k..] == before[k..]
  }

  class SourceMapGenerator {
    var file: string
    var sources: ArraySet
    var names: ArraySet
    var mappings: seq<Mapping>

    ghost predicate Valid()
      reads this, sources, names
    {
      && sources.Valid() && names.Valid() && sources != names
      && TablesExact(mappings, sources.members, names.members)
      && AllWellFormed(mappings)
    }

    constructor (file: string)
      ensures Valid() && fresh(sources) && fresh(names)
      ensures mappings == [] && this.file == file
    {
      this.file := file;
      sources := new ArraySet();
      names := new ArraySet();
      mappings := [];
    }

    method AddMapping(generated: Position, original: Option<Position>, source: Option<string>, name: Option<string>)
      returns (r: Result<()>)
      requires Valid()
      modifies this, sources, names
      ensures Valid() && sources == old(sources) && names == old(names) && file == old(file)
      ensures r.Ok? <==> Acceptable(generated, original, source, name)
      ensures mappings == old(mappings) + if r.Ok? then [Made(generated, original, source, name)] else []
      ensures r.Err? ==> sources.members == old(sources.members) && names.members == old(names.members)
    {
      if !Acceptable(generated, original, source, name) {
        return Err("Invalid mapping");
      }
      ghost var m := Made(generated, original, source, name);
      TablesAppend(mappings, m, sources.members, names.members);
      RecordNames(Made(generated, original, source, name), sources, names);
      mappings := mappings + [Made(generated, original, source, name)];
      r := Ok(());
    }

    // Rewrites, in place, the mappings of one source file. It stops at the first one that cannot be asked for; the
    // tables are then those of the mappings before the call, and still exact if nothing has been rewritten.
    method ApplySourceMap(consumer: SourceMapConsumer, sourceFile: string) returns (r: Result<()>)
      requires Valid() && consumer.Valid()
      modifies this, consumer
      ensures file == old(file) && consumer.Valid()
      ensures consumer.sources == old(consumer.sources) && consumer.names == old(consumer.names)
      ensures consumer.file == old(consumer.file) && consumer.Denoted() == old(consumer.Denoted())
      ensures var applied := if sourceFile == "" then consumer.file else sourceFile;
              var parsed, denoted := old(consumer.generatedMappings), consumer.Denoted();
              && (r.Ok? <==> NoneFails(old(mappings), applied, parsed, denoted))
              && (r.Ok? ==>
                    && Valid() && fresh(sources) && fresh(names)
                    && AllRemapped(old(mappings), mappings, applied, Answering(parsed, denoted))
                    && Known(parsed, denoted, consumer.generatedMappings)
                    && (consumer.generatedMappings.None? ==> NoneConcerned(old(mappings), applied)))
              && (r.Err? ==>
                    && sources == old(sources) && names == old(names)
                    && exists k :: StoppedAt(old(mappings), mappings, k, applied, parsed, denoted))
              && (r.Err? && mappings == old(mappings) ==> Valid())
              && (r.Err? && (forall m :: m in old(mappings) ==> !BadPosition(m, applied)) ==>
                    mappings == old(mappings) && Valid())
    {
      hide Remapped, WellFormed, TablesExact, Concerns, UsesSource, UsesName, Added, AllRemapped, NoneConcerned;
      hide Mapping.HasSource, Mapping.HasName, SourceMapConsumer.Valid, AllWellFormed, SourceMapConsumer.Denoted;
      hide Fails, NoneFails, Known, Answering, BadPosition, StoppedAt, Progress;
      var applied := if sourceFile == "" then consumer.file else sourceFile;
      var newSources := new ArraySet();
      var newNames := new ArraySet();
      ghost var before, parsed, denoted := mappings, consumer.generatedMappings, consumer.Denoted();
      ProgressStart(before, applied, parsed, denoted);
      for i := 0 to |mappings|
        invariant sources == old(sources) && names == old(names) && file == old(file) && |mappings| == |before|
        invariant consumer.Valid() && consumer.sources == old(consumer.sources) && consumer.names == old(consumer.names)
        invariant consumer.file == old(consumer.file) && consumer.Denoted() == denoted
        invariant newSources.Valid() && newNames.Valid() && fresh(newSources) && fresh(newNames)
        invariant Progress(before, mappings, i, applied, parsed, denoted, consumer.generatedMappings,
                           newSources.members, newNames.members)
      {
        ghost var after, now := mappings, consumer.generatedMappings;
        ProgressFacts(before, after, i, applied, parsed, denoted, now, newSources.members, newNames.members);
        MemberWellFormed(before, before[i]);
        var remapped := RemapMapping(mappings[i], consumer, applied);
        if remapped.Err? {
          return Err(remapped.message);
        }
        var mapping := remapped.value;
        ProgressStep(before, after, i, applied, parsed, denoted, now, consumer.generatedMappings, mapping,
                     newSources.members, newNames.members);
        mappings := mappings[i := mapping];
        RecordNames(mapping, newSources, newNames);
      }
      ProgressEnd(before, mappings, applied, parsed, denoted, consumer.generatedMappings,
                  newSources.members, newNames.members);
      sources := newSources;
      names := newNames;
      r := Ok(());
    }

    // The "mappings" string. The mappings are sorted in place first; each is written against the one before it.
    method SerializeMappings() returns (result: string)
      requires Valid()
      modifies this
      ensures Valid() && sources == old(sources) && names == old(names) && file == old(file)
      ensures Sorting.Permutation(old(mappings), mappings) && SortedFrom(mappings, 1)
      ensures AllCovered(mappings, sources.members, names.members)
      ensures result == Written(mappings, 0, START, sources.members, names.members)
    {
      hide Written, OneAndRest, Covered, TablesExact, AllWellFormed, SortedFrom, Deltas, After, EncodeAll,
          CompareByGenerated;
      hide AllCovered, WellFormed, Sorting.Permutation;
      SortMappings();
      result := "";
      var prev := START;
      WrittenEnd(mappings, prev, sources.members, names.members);
      ghost var sorted := mappings;
      for i := 0 to |mappings|
        invariant Valid() && sources == old(sources) && names == old(names) && file == old(file) && mappings == sorted
        invariant LineAt(mappings, i, prev.line)
        invariant result + Written(mappings, i, prev, sources.members, names.members)
               == Written(mappings, 0, START, sources.members, names.members)
      {
        var written, next := WriteMapping(i, prev);
        result := result + written;
        prev := next;
      }
      WrittenEnd(mappings, prev, sources.members, names.members);
    }

    method SortMappings()
      requires Valid()
      modifies this
      ensures Valid() && sources == old(sources) && names == old(names) && file == old(file)
      ensures Sorting.Permutation(old(mappings), mappings) && SortedFrom(mappings, 1)
      ensures AllCovered(mappings, sources.members, names.members)
    {
      hide CompareByGenerated, ByGenerated, TablesExact, AllWellFormed, AllCovered, SortedFrom, Sorting.TotalPreorder;
      ByGeneratedIsPreorder();
      ghost var unsorted := mappings;
      mappings := Sorting.Sort(mappings, ByGenerated);
      SortedPermutation(unsorted, mappings, sources.members, names.members);
    }

    // What one mapping adds to the string: nothing when it repeats the one before it.
    method WriteMapping(i: nat, prev: Previous) returns (result: string, next: Previous)
      requires Valid() && SortedFrom(mappings, 1) && AllCovered(mappings, sources.members, names.members)
      requires i < |mappings| && LineAt(mappings, i, prev.line)
      ensures LineAt(mappings, i + 1, next.line)
      ensures Written(mappings, i, prev, sources.members, names.members)
           == result + Written(mappings, i + 1, next, sources.members, names.members)
    {
      hide Written, OneAndRest, Covered, TablesExact, AllWellFormed, SortedFrom, Deltas, After, EncodeAll,
          CompareByGenerated;
      hide AllCovered, WellFormed;
      var mapping := mappings[i];
      CoveredAt(mappings, i, sources.members, names.members);
      GapFacts(mappings, i);
      WrittenStep(mappings, i, prev, sources.members, names.members);
      result, next := "", prev;
      if mapping.generatedLine != prev.line {
        result, next := WriteGap(prev, mapping.generatedLine);
      } else {
        if i > 0 {
          if CompareByGenerated(mapping, mappings[i - 1], false) == 0 {
            return;
          }
          result := ",";
        }
      }
      OneAndRestIs(mappings, i, next, sources.members, names.members);
      var segment;
      segment, next := WriteSegment(mapping, next);
      result := result + segment;
    }

    // The semicolons that lead to a later line, where columns start again at 0.
    method WriteGap(prev: Previous, line: int) returns (gap: string, next: Previous)
      requires prev.line <= line
      ensures gap == Semicolons(line - prev.line)
      ensures next == prev.(line := line, column := 0)
    {
      gap := "";
      next := prev.(column := 0);
      while line != next.line
        invariant prev.line <= next.line <= line
        invariant next == prev.(line := next.line, column := 0)
        invariant gap == Semicolons(next.line - prev.line)
        decreases line - next.line
      {
        MoreSemicolons(next.line - prev.line);
        gap := gap + ";";
        next := next.(line := next.line + 1);
      }
    }

    // The numbers of one mapping.
    method WriteSegment(mapping: Mapping, prev: Previous) returns (segment: string, next: Previous)
      requires Valid() && Covered(mapping, sources.members, names.members)
      ensures segment == EncodeAll(Deltas(mapping, prev, sources.members, names.members))
      ensures next == After(mapping, prev, sources.members, names.members)
    {
      hide Encoded, FirstIndex, EncodeAll;
      segment := Encode(mapping.generatedColumn - prev.column);
      next := prev.(line := mapping.generatedLine, column := mapping.generatedColumn);
      EncodeOne(mapping.generatedColumn - prev.column);
      if mapping.HasSource() {
        var source := sources.IndexOf(mapping.source.value).value;
        var dSource, dLine := source - prev.source, mapping.originalLine.value - 1 - prev.originalLine;
        var dColumn := mapping.originalColumn.value - prev.originalColumn;
        var s1 := Encode(dSource);
        var s2 := Encode(dLine);
        var s3 := Encode(dColumn);
        var s4 := "";
        next := next.(source := source, originalLine := mapping.originalLine.value - 1,
                      originalColumn := mapping.originalColumn.value);
        ghost var last: seq<int> := [];
        EncodeNone();
        if mapping.HasName() {
          var name := names.IndexOf(mapping.name.value).value;
          s4 := Encode(name - prev.name);
          next := next.(name := name);
          last := [name - prev.name];
          EncodeOne(name - prev.name);
        }
        EncodeFour(mapping.generatedColumn - prev.column, dSource, dLine, dColumn, last);
        assert Deltas(mapping, prev, sources.members, names.members)
            == [mapping.generatedColumn - prev.column, dSource, dLine, dColumn] + last;
        segment := segment + (s1 + (s2 + (s3 + s4)));
      } else {
        assert Deltas(mapping, prev, sources.members, names.members) == [mapping.generatedColumn - prev.column];
      }
    }
  }

  ghost predicate AllRemapped(before: seq<Mapping>, after: seq<Mapping>, applied: string, sub: seq<Mapping>) {
    |before| == |after| && forall k :: 0 <= k < |after| ==> Remapped(before[k], applied, sub) == Ok(after[k])
  }

  ghost predicate NoneConcerned(ms: seq<Mapping>, applied: string) {
    forall k :: 0 <= k < |ms| ==> !Concerns(ms[k], applied)
  }

  ghost predicate AllWellFormed(ms: seq<Mapping>) {
    forall m :: m in ms ==> WellFormed(m)
  }

  lemma MemberWellFormed(ms: seq<Mapping>, m: Mapping)
    requires AllWellFormed(ms) && m in ms
    ensures WellFormed(m)
  {
  }

  // What a consumer has parsed, after some queries.
  ghost predicate Known(parsed: Option<seq<Mapping>>, denoted: Result<seq<Mapping>>, now: Option<seq<Mapping>>) {
    now == parsed || (parsed.None? && denoted.Ok? && now == Some(denoted.value))
  }

  lemma KnownSame(parsed: Option<seq<Mapping>>, denoted: Result<seq<Mapping>>, now: Option<seq<Mapping>>,
                  m: Mapping, file: string)
    requires Known(parsed, denoted, now)
    ensures Answering(now, denoted) == Answering(parsed, denoted)
    ensures Fails(m, file, now, denoted) <==> Fails(m, file, parsed, denoted)
  {
  }

  lemma KnownMore(parsed: Option<seq<Mapping>>, denoted: Result<seq<Mapping>>,
                  now: Option<seq<Mapping>>, later: Option<seq<Mapping>>)
    requires Known(parsed, denoted, now) && Known(now, denoted, later)
    ensures Known(parsed, denoted, later)
  {
  }

  lemma Start(applied: string, parsed: Option<seq<Mapping>>, denoted: Result<seq<Mapping>>)
    ensures AllRemapped([], [], applied, Answering(parsed, denoted)) && NoneConcerned([], applied) && AllWellFormed([])
    ensures TablesExact([], [], []) && NoneFails([], applied, parsed, denoted) && Known(parsed, denoted, parsed)
  {
  }

  // One more mapping.
  lemma Extend(before: seq<Mapping>, after: seq<Mapping>, m: Mapping, m': Mapping, applied: string,
               parsed: Option<seq<Mapping>>, denoted: Result<seq<Mapping>>)
    requires AllRemapped(before, after, applied, Answering(parsed, denoted)) && AllWellFormed(after) && WellFormed(m')
    requires NoneFails(before, applied, parsed, denoted) && !Fails(m, applied, parsed, denoted)
    requires Remapped(m, applied, Answering(parsed, denoted)) == Ok(m')
    ensures AllRemapped(before + [m], after + [m'], applied, Answering(parsed, denoted)) && AllWellFormed(after + [m'])
    ensures NoneFails(before + [m], applied, parsed, denoted)
    ensures NoneConcerned(before, applied) && !Concerns(m, applied) ==> NoneConcerned(before + [m], applied)
  {
    hide BinarySearch.Search, Fails, Remapped;
  }

  // A failure at mapping k; without a bad position it comes from the string, and then nothing was rewritten before.
  lemma Stopped(before: seq<Mapping>, after: seq<Mapping>, k: nat, applied: string,
                parsed: Option<seq<Mapping>>, denoted: Result<seq<Mapping>>)
    requires k < |before| == |after| && Fails(before[k], applied, parsed, denoted)
    requires NoneFails(before[..k], applied, parsed, denoted)
    requires AllRemapped(before[..k], after[..k], applied, Answering(parsed, denoted)) && after[k..] == before[k..]
    ensures StoppedAt(before, after, k, applied, parsed, denoted) && !NoneFails(before, applied, parsed, denoted)
    ensures (forall m :: m in before ==> !BadPosition(m, applied)) ==> after == before
  {
    hide BinarySearch.Search;
    if forall m :: m in before ==> !BadPosition(m, applied) {
      assert before[k] in before;
      forall j | 0 <= j < k
        ensures after[j] == before[j]
      {
        assert before[..k][j] == before[j] && after[..k][j] == after[j];
        assert Remapped(before[j], applied, Answering(parsed, denoted)) == Ok(after[j]);
        assert !Fails(before[j], applied, parsed, denoted);
      }
      assert after == after[..k] + after[k..] && before == before[..k] + before[k..];
    }
  }

  // The mappings before index i have been rewritten, and the tables are exact for them.
  ghost predicate Progress(before: seq<Mapping>, after: seq<Mapping>, i: nat, file: string,
                           parsed: Option<seq<Mapping>>, denoted: Result<seq<Mapping>>,
                           now: Option<seq<Mapping>>, sources: seq<string>, names: seq<string>) {
    && i <= |before| == |after| && after[i..] == before[i..]
    && Known(parsed, denoted, now) && NoneFails(before[..i], file, parsed, denoted)
    && AllRemapped(before[..i], after[..i], file, Answering(parsed, denoted))
    && (now.None? ==> NoneConcerned(before[..i], file))
    && AllWellFormed(after[..i]) && TablesExact(after[..i], sources, names)
  }

  lemma ProgressStart(before: seq<Mapping>, file: string, parsed: Option<seq<Mapping>>, denoted: Result<seq<Mapping>>)
    ensures Progress(before, before, 0, file, parsed, denoted, parsed, [], [])
  {
    Start(file, parsed, denoted);
  }

  lemma ProgressFacts(before: seq<Mapping>, after: seq<Mapping>, i: nat, file: string, parsed: Option<seq<Mapping>>,
                      denoted: Result<seq<Mapping>>, now: Option<seq<Mapping>>,
                      sources: seq<string>, names: seq<string>)
    requires Progress(before, after, i, file, parsed, denoted, now, sources, names) && i < |before|
    ensures after[i] == before[i] && before[i] in before
    ensures Answering(now, denoted) == Answering(parsed, denoted)
    ensures Fails(before[i], file, now, denoted) ==>
              && StoppedAt(before, after, i, file, parsed, denoted) && !NoneFails(before, file, parsed, denoted)
              && ((forall m :: m in before ==> !BadPosition(m, file)) ==> after == before)
  {
    hide Fails, NoneFails, AllRemapped, Answering, AllWellFormed, TablesExact, Known, StoppedAt, BadPosition;
    assert after[i..][0] == before[i..][0];
    KnownSame(parsed, denoted, now, before[i], file);
    if Fails(before[i], file, now, denoted) {
      Stopped(before, after, i, file, parsed, denoted);
    }
  }

  lemma ProgressStep(before: seq<Mapping>, after: seq<Mapping>, i: nat, file: string, parsed: Option<seq<Mapping>>,
                     denoted: Result<seq<Mapping>>, now: Option<seq<Mapping>>, later: Option<seq<Mapping>>, m: Mapping,
                     sources: seq<string>, names: seq<string>)
    requires Progress(before, after, i, file, parsed, denoted, now, sources, names) && i < |before|
    requires Known(now, denoted, later) && WellFormed(m) && !Fails(before[i], file, now, denoted)
    requires Remapped(before[i], file, Answering(now, denoted)) == Ok(m)
    requires if Concerns(before[i], file) then later.Some? else later == now
    ensures Progress(before, after[i := m], i + 1, file, parsed, denoted, later,
                     if m.HasSource() then Added(sources, m.source.value, false) else sources,
                     if m.HasName() then Added(names, m.name.value, false) else names)
  {
    hide Fails, NoneFails, AllRemapped, Answering, AllWellFormed, TablesExact, Known, Remapped, WellFormed,
        NoneConcerned;
    hide Concerns, Added, Mapping.HasSource, Mapping.HasName;
    KnownSame(parsed, denoted, now, before[i], file);
    KnownMore(parsed, denoted, now, later);
    Extend(before[..i], after[..i], before[i], m, file, parsed, denoted);
    TablesAppend(after[..i], m, sources, names);
    var rest := after[i := m];
    assert rest[..i + 1] == after[..i] + [m] && before[..i + 1] == before[..i] + [before[i]];
    assert rest[i + 1..] == after[i..][1..] && before[i + 1..] == before[i..][1..];
  }

  lemma ProgressEnd(before: seq<Mapping>, after: seq<Mapping>, file: string, parsed: Option<seq<Mapping>>,
                    denoted: Result<seq<Mapping>>, now: Option<seq<Mapping>>, sources: seq<string>, names: seq<string>)
    requires Progress(before, after, |before|, file, parsed, denoted, now, sources, names)
    ensures NoneFails(before, file, parsed, denoted) && AllRemapped(before, after, file, Answering(parsed, denoted))
    ensures Known(parsed, denoted, now) && (now.None? ==> NoneConcerned(before, file))
    ensures AllWellFormed(after) && TablesExact(after, sources, names)
  {
    hide NoneFails, AllRemapped, AllWellFormed, TablesExact, NoneConcerned;
    assert after[..|before|] == after && before[..|before|] == before;
  }

  // Adds the source and the name of a mapping to a pair of tables.
  method RecordNames(mapping: Mapping, sources: ArraySet, names: ArraySet)
    requires sources.Valid() && names.Valid() && sources != names
    modifies sources, names
    ensures sources.Valid() && names.Valid()
    ensures sources.members == if mapping.HasSource() then Added(old(sources.members), mapping.source.value, false)
        else old(sources.members)
    ensures names.members == if mapping.HasName() then Added(old(names.members), mapping.name.value, false)
        else old(names.members)
  {
    if mapping.HasSource() && !sources.Has(mapping.source.value) {
      sources.Add(mapping.source.value, false);
    }
    if mapping.HasName() && !names.Has(mapping.name.value) {
      names.Add(mapping.name.value, false);
    }
  }

  // Sends one mapping through the consumer, which parses its mappings the first time that it is asked.
  method RemapMapping(mapping: Mapping, consumer: SourceMapConsumer, applied: string) returns (r: Result<Mapping>)
    requires consumer.Valid() && WellFormed(mapping)
    modifies consumer
    ensures consumer.Valid() && consumer.sources == old(consumer.sources) && consumer.names == old(consumer.names)
    ensures consumer.file == old(consumer.file)
    ensures consumer.Denoted() == old(consumer.Denoted())
    ensures r.Err? <==> Fails(mapping, applied, old(consumer.generatedMappings), consumer.Denoted())
    ensures r.Ok? ==>
              && Known(old(consumer.generatedMappings), consumer.Denoted(), consumer.generatedMappings)
              && (Concerns(mapping, applied) ==> consumer.generatedMappings.Some?)
              && Remapped(mapping, applied, Answering(old(consumer.generatedMappings), consumer.Denoted())) == r
              && WellFormed(r.value)
    ensures !Concerns(mapping, applied) ==> consumer.generatedMappings == old(consumer.generatedMappings)
  {
    hide CompareByGenerated, BinarySearch.Search;
    if !Concerns(mapping, applied) {
      return Ok(mapping);
    }
    var original := consumer.OriginalPositionFor(OrZero(mapping.originalLine), OrZero(mapping.originalColumn));
    if original.Err? {
      return Err(original.message);
    }
    var o := original.value;
    SearchComplete(OrZero(mapping.originalLine), OrZero(mapping.originalColumn), consumer.generatedMappings.value);
    r := Ok(mapping);
    if o.source.Some? {
      r := Ok(mapping.(source := o.source, originalLine := o.line, originalColumn := o.column,
                       name := if o.name.Some? && mapping.name.Some? then o.name else mapping.name));
    }
  }

  lemma SearchComplete(line: int, column: int, ms: seq<Mapping>)
    requires AllComplete(ms)
    ensures var o := OriginalOf(BinarySearch.Search(Needle(line, column), ms, ByGeneratedPosition));
            Truthy(o.source) ==> o.line.Some? && o.column.Some?
  {
    var needle := Needle(line, column);
    var found := BinarySearch.Search(needle, ms, ByGeneratedPosition);
    BinarySearch.SearchMember(needle, ms, ByGeneratedPosition);
  }

  // ----- lemmas of the serialiser

  lemma SortedPermutation(unsorted: seq<Mapping>, sorted: seq<Mapping>, sources: seq<string>, names: seq<string>)
    requires Sorting.Permutation(unsorted, sorted) && Sorting.SortedBy(ByGenerated, sorted)
    requires TablesExact(unsorted, sources, names) && AllWellFormed(unsorted)
    ensures TablesExact(sorted, sources, names) && AllWellFormed(sorted)
    ensures SortedFrom(sorted, 1) && AllCovered(sorted, sources, names)
  {
    TablesPermute(unsorted, sorted, sources, names);
    Sorting.PermutationMembers(unsorted, sorted);
    TablesCover(sorted, sources, names);
    forall i, j | 0 <= i < j < |sorted|
      ensures CompareByGenerated(sorted[i], sorted[j], false) <= 0
    {
      assert ByGenerated(sorted[i], sorted[j]) <= 0;
    }
    forall i | 0 <= i < |sorted|
      ensures 1 <= sorted[i].generatedLine
    {
      assert sorted[i] in sorted && WellFormed(sorted[i]);
    }
  }

  lemma CoveredAt(ms: seq<Mapping>, i: nat, sources: seq<string>, names: seq<string>)
    requires i < |ms| && AllCovered(ms, sources, names)
    ensures Covered(ms[i], sources, names)
  {
  }

  lemma WrittenEnd(ms: seq<Mapping>, prev: Previous, sources: seq<string>, names: seq<string>)
    requires AllCovered(ms, sources, names)
    ensures Written(ms, |ms|, prev, sources, names) == ""
    ensures LineAt(ms, 0, START.line)
    ensures "" + Written(ms, 0, START, sources, names) == Written(ms, 0, START, sources, names)
  {
  }

  lemma OneAndRestIs(ms: seq<Mapping>, i: nat, prev: Previous, sources: seq<string>, names: seq<string>)
    requires i < |ms| && AllCovered(ms, sources, names) && Covered(ms[i], sources, names)
    ensures OneAndRest(ms, i, prev, sources, names)
         == EncodeAll(Deltas(ms[i], prev, sources, names))
             + Written(ms, i + 1, After(ms[i], prev, sources, names), sources, names)
    ensures After(ms[i], prev, sources, names).line == ms[i].generatedLine
  {
  }

  lemma {:induction false} MoreSemicolons(n: nat)
    ensures Semicolons(n + 1) == Semicolons(n) + ";"
  {
    if n == 0 {
    } else {
      MoreSemicolons(n - 1);
    }
  }

  lemma EncodeOne(a: int)
    ensures EncodeAll([a]) == Encoded(a)
  {
    assert [a][1..] == [];
  }

  lemma EncodeNone()
    ensures EncodeAll([]) == ""
  {
  }

  lemma EncodeCons(a: int, ds: seq<int>)
    ensures EncodeAll([a] + ds) == Encoded(a) + EncodeAll(ds)
  {
    assert ([a] + ds)[1..] == ds;
  }

  lemma EncodeFour(a: int, b: int, c: int, d: int, rest: seq<int>)
    ensures EncodeAll([a, b, c, d] + rest) == Encoded(a) + (Encoded(b) + (Encoded(c) + (Encoded(d) + EncodeAll(rest))))
  {
    hide EncodeAll, Encoded;
    assert [a, b, c, d] + rest == [a] + ([b] + ([c] + ([d] + rest)));
    EncodeCons(a, [b] + ([c] + ([d] + rest)));
    EncodeCons(b, [c] + ([d] + rest));
    EncodeCons(c, [d] + rest);
    EncodeCons(d, rest);
  }

  // ----- the whole round trip

  // A permutation stands for the same list.
  lemma DenotesPermutation(ks: seq<Mapping>, ms: seq<Mapping>, ns: seq<Mapping>)
    requires Denotes(ks, ms) && Sorting.Permutation(ns, ms)
    ensures Denotes(ks, ns) && (AllValid(ns) ==> AllValid(ms))
  {
    hide StrictlySorted;
    Sorting.PermutationMembers(ns, ms);
  }

  lemma KeptDenotesPermutation(ms: seq<Mapping>, ns: seq<Mapping>)
    requires SortedFrom(ms, 1) && AllValid(ns) && Sorting.Permutation(ns, ms)
    ensures AllValid(ms) && Denotes(Kept(ms, 0), ns)
  {
    hide StrictlySorted, SortedFrom;
    Sorting.PermutationMembers(ns, ms);
    KeptDenotes(ms);
    DenotesPermutation(Kept(ms, 0), ms, ns);
  }

  // Externalising a generator and consuming the result. The consumer reads the distinct recorded mappings of the
  // generator in strictly increasing order, exactly when every delta fits.
  method Reload(generator: SourceMapGenerator) returns (consumer: SourceMapConsumer)
    requires generator.Valid() && AllValid(generator.mappings)
    modifies generator
    ensures consumer.Valid() && fresh(consumer)
    ensures generator.Valid() && generator.sources == old(generator.sources) && generator.names == old(generator.names)
    ensures Sorting.Permutation(old(generator.mappings), generator.mappings) && SortedFrom(generator.mappings, 1)
    ensures AllCovered(generator.mappings, generator.sources.members, generator.names.members)
    ensures Denotes(Kept(generator.mappings, 0), old(generator.mappings))
    ensures consumer.Denoted() == Ok(Kept(generator.mappings, 0))
       <==> DeltasFit(generator.mappings, 0, START, generator.sources.members, generator.names.members)
  {
    hide Read, Written, DeltasFit, Kept, Denotes, AllValid, SortedFrom, Sorting.Permutation, AllWellFormed, AllCovered;
    hide Distinct, UsesName, UsesSource;
    var mappings := generator.SerializeMappings();
    var sources, names := generator.sources.members, generator.names.members;
    consumer := new SourceMapConsumer(sources, names, mappings, generator.file);
    KeptDenotesPermutation(generator.mappings, old(generator.mappings));
    MappingsRoundTrip(generator.mappings, sources, names);
  }

  // ----- a failure that leaves the tables behind

  // A string of one segment on the first line.
  lemma OneSegment(m: Mapping, sources: seq<string>)
    requires m.generatedLine == 1 && Covered(m, sources, []) && AllSmall(Deltas(m, START, sources, []))
    requires m.Canonical() == m
    ensures Read(EncodeAll(Deltas(m, START, sources, [])), START, sources, []) == Ok([m])
  {
    hide EncodeAll, ReadSegment, After;
    var ds := Deltas(m, START, sources, []);
    SegmentRoundTrip(m, START, "", sources, []);
    assert EncodeAll(ds) + "" == EncodeAll(ds);
    EncodeAllSplit(ds, "");
    EncodedStart(ds[0], EncodeAll(ds[1..]) + "");
    ReadStep(EncodeAll(ds), START, sources, []);
    assert [m] + [] == [m];
  }

  lemma FourDigits(a: int, b: int, c: int, d: int, s: string)
    requires -16 < a < 16 && -16 < b < 16 && -16 < c < 16 && -16 < d < 16 && |s| == 4
    requires Encoded(a) == [s[0]] && Encoded(b) == [s[1]] && Encoded(c) == [s[2]] && Encoded(d) == [s[3]]
    ensures EncodeAll([a, b, c, d]) == s
  {
    hide Encoded, EncodeAll;
    EncodeFour(a, b, c, d, []);
    EncodeNone();
    assert [a, b, c, d] + [] == [a, b, c, d];
    assert [s[0]] + ([s[1]] + ([s[2]] + ([s[3]] + ""))) == s;
  }

  // A mapping at a line that cannot be queried, read from a string.
  lemma BadLineRead()
    ensures Read("KAFA", START, ["f"], []) == Ok([Mapping(1, 5, Some("f"), Some(-1), Some(0), None)])
  {
    hide Encoded, Read, EncodeAll, EncodeDigit;
    var m := Mapping(1, 5, Some("f"), Some(-1), Some(0), None);
    EncodedOne(5);
    EncodedOne(0);
    EncodedOne(-2);
    UpperDigit(10);
    UpperDigit(0);
    UpperDigit(5);
    assert Encoded(5) == [UPPER[10]] && Encoded(0) == [UPPER[0]] && Encoded(-2) == [UPPER[5]];
    FourDigits(5, 0, -2, 0, "KAFA");
    assert FirstIndex(["f"], "f") == 0;
    assert Deltas(m, START, ["f"], []) == [5, 0, -2, 0];
    OneSegment(m, ["f"]);
  }

  lemma NewSourceRead()
    ensures Read("AAAA", START, ["new"], []) == Ok([Mapping(1, 0, Some("new"), Some(1), Some(0), None)])
  {
    hide Encoded, Read, EncodeAll, EncodeDigit;
    var m := Mapping(1, 0, Some("new"), Some(1), Some(0), None);
    EncodedOne(0);
    UpperDigit(0);
    assert Encoded(0) == [UPPER[0]];
    FourDigits(0, 0, 0, 0, "AAAA");
    assert FirstIndex(["new"], "new") == 0;
    assert Deltas(m, START, ["new"], []) == [0, 0, 0, 0];
    OneSegment(m, ["new"]);
  }

  // One mapping found for its own position, and one before all mappings.
  lemma Asked(m: Mapping, line: int, column: int)
    requires m.generatedLine == 1
    ensures var found := BinarySearch.Search(Needle(line, column), [m], ByGeneratedPosition);
            found == if AtOrBefore(m.Generated(), Position(line, column)) then Some(m) else None
  {
    SearchFindsOwner([m], line, column);
    assert [m][..0] == [];
  }

  const FIRST := Mapping(1, 0, Some("f"), Some(1), Some(0), None)
  const SECOND := Mapping(1, 5, Some("f"), Some(1), Some(5), None)
  const BAD := Mapping(1, 5, Some("f"), Some(-1), Some(0), None)
  const REPLACED := Mapping(1, 0, Some("new"), Some(1), Some(0), None)

  lemma FirstApplied(after: seq<Mapping>)
    ensures NoneFails([FIRST, SECOND], "f", None, Ok([BAD]))
    ensures AllRemapped([FIRST, SECOND], after, "f", [BAD]) ==> after == [FIRST, BAD]
  {
    hide BinarySearch.Search;
    Asked(BAD, 1, 0);
    Asked(BAD, 1, 5);
    if AllRemapped([FIRST, SECOND], after, "f", [BAD]) {
      assert Remapped(FIRST, "f", [BAD]) == Ok(after[0]) && Remapped(SECOND, "f", [BAD]) == Ok(after[1]);
    }
  }

  lemma SecondApplied(after: seq<Mapping>)
    ensures !NoneFails([FIRST, BAD], "f", None, Ok([REPLACED]))
    ensures (exists k :: StoppedAt([FIRST, BAD], after, k, "f", None, Ok([REPLACED]))) ==>
              |after| == 2 && after[0].source == Some("new")
  {
    hide BinarySearch.Search;
    Asked(REPLACED, 1, 0);
    assert Fails([FIRST, BAD][1], "f", None, Ok([REPLACED])) && !Fails(FIRST, "f", None, Ok([REPLACED]));
    if k: nat :| StoppedAt([FIRST, BAD], after, k, "f", None, Ok([REPLACED])) {
      assert k == 1;
      assert Remapped([FIRST, BAD][..k][0], "f", [REPLACED]) == Ok(after[..k][0]);
    }
  }

  method TwoMappings() returns (generator: SourceMapGenerator)
    ensures fresh(generator) && fresh(generator.sources) && fresh(generator.names)
    ensures generator.Valid() && generator.mappings == [FIRST, SECOND]
  {
    hide SourceMapGenerator.Valid;
    generator := new SourceMapGenerator("out.js");
    var accepted := generator.AddMapping(Position(1, 0), Some(Position(1, 0)), Some("f"), None);
    accepted := generator.AddMapping(Position(1, 5), Some(Position(1, 5)), Some("f"), None);
  }

  method BadLineBroughtIn() returns (generator: SourceMapGenerator)
    ensures fresh(generator) && fresh(generator.sources) && fresh(generator.names)
    ensures generator.Valid() && generator.mappings == [FIRST, BAD]
  {
    hide Read, AllRemapped, NoneFails, StoppedAt, BadPosition, NoneConcerned, Known, SourceMapGenerator.Valid;
    generator := TwoMappings();
    BadLineRead();
    var consumer := new SourceMapConsumer(["f"], [], "KAFA", "f");
    FirstApplied(generator.mappings);
    var applied := generator.ApplySourceMap(consumer, "f");
    FirstApplied(generator.mappings);
  }

  // Two maps applied one after the other: the first brings in a line that cannot be queried, the second has rewritten
  // one mapping when it fails on that line. The table of sources then misses the source of a mapping, so that
  // serialising fails.
  method TableLeftBehind() returns (generator: SourceMapGenerator, r: Result<()>)
    ensures r.Err? && |generator.mappings| == 2
    ensures generator.sources.Valid() && generator.mappings[0].source == Some("new")
    ensures generator.sources.IndexOf("new").Err?
  {
    hide Read, AllRemapped, NoneFails, StoppedAt, BadPosition, NoneConcerned, Known, UsesName, AllWellFormed,
        ArraySet.Valid;
    generator := BadLineBroughtIn();
    assert !UsesSource([FIRST, BAD], "new");
    assert "new" !in generator.sources.members;
    NewSourceRead();
    var consumer := new SourceMapConsumer(["new"], [], "AAAA", "f");
    SecondApplied(generator.mappings);
    r := generator.ApplySourceMap(consumer, "f");
    SecondApplied(generator.mappings);
  }
}
