/** The "mappings" string of a source map (Source Map Revision 3 Proposal): what the generator writes and what the
    consumer reads, as functions of the running "previous" values, and the proof that reading undoes writing. */
module MappingCodec {
  import opened Wrappers
  import opened Base64Vlq
  import opened Mappings
  import opened ArraySets

  // The values that deltas are taken against.
  datatype Previous = Previous(line: int, column: int, source: int, originalLine: int, originalColumn: int, name: int)

  const START := Previous(1, 0, 0, 0, 0, 0)

  // ----- writing

  // The generator's tables know every source and name that will be written.
  predicate Covered(m: Mapping, sources: seq<string>, names: seq<string>) {
    m.HasSource() ==>
      && m.source.value in sources
      && m.originalLine.Some? && m.originalColumn.Some?
      && (m.HasName() ==> m.name.value in names)
  }

  predicate AllCovered(ms: seq<Mapping>, sources: seq<string>, names: seq<string>) {
    forall m :: m in ms ==> Covered(m, sources, names)
  }

  function Deltas(m: Mapping, prev: Previous, sources: seq<string>, names: seq<string>): (ds: seq<int>)
    requires Covered(m, sources, names)
  {
    [m.generatedColumn - prev.column] +
    if !m.HasSource() then []
    else
      [FirstIndex(sources, m.source.value) - prev.source,
       m.originalLine.value - 1 - prev.originalLine,
       m.originalColumn.value - prev.originalColumn] +
      if m.HasName() then [FirstIndex(names, m.name.value) - prev.name] else []
  }

  function After(m: Mapping, prev: Previous, sources: seq<string>, names: seq<string>): Previous
    requires Covered(m, sources, names)
  {
    var prev := prev.(line := m.generatedLine, column := m.generatedColumn);
    if !m.HasSource() then prev
    else
      var prev := prev.(source := FirstIndex(sources, m.source.value),
                        originalLine := m.originalLine.value - 1,
                        originalColumn := m.originalColumn.value);
      if m.HasName() then prev.(name := FirstIndex(names, m.name.value)) else prev
  }

  function EncodeAll(ds: seq<int>): string {
    if ds == [] then "" else Encoded(ds[0]) + EncodeAll(ds[1..])
  }

  function Semicolons(n: nat): string {
    if n == 0 then "" else ";" + Semicolons(n - 1)
  }

  // Sorted by generated position, starting no earlier than line `line`.
  predicate SortedFrom(ms: seq<Mapping>, line: int) {
    && (forall i, j :: 0 <= i < j < |ms| ==> CompareByGenerated(ms[i], ms[j], false) <= 0)
    && (forall i :: 0 <= i < |ms| ==> line <= ms[i].generatedLine)
  }

  // A mapping that the writer skips: equal, for the comparator, to the one before it.
  predicate Skipped(ms: seq<Mapping>, i: nat)
    requires i < |ms|
  {
    i > 0 && CompareByGenerated(ms[i], ms[i - 1], false) == 0
  }

  // What is written for the mappings from index i on.
  function Written(ms: seq<Mapping>, i: nat, prev: Previous, sources: seq<string>, names: seq<string>): string
    requires i <= |ms| && AllCovered(ms, sources, names)
    decreases |ms| - i, 1
  {
    if i == |ms| then ""
    else
      var m := ms[i];
      assert m in ms;
      if m.generatedLine > prev.line then
        var prev' := prev.(line := m.generatedLine, column := 0);
        Semicolons(m.generatedLine - prev.line) + OneAndRest(ms, i, prev', sources, names)
      else if Skipped(ms, i) then Written(ms, i + 1, prev, sources, names)
      else
        (if i > 0 then "," else "") + OneAndRest(ms, i, prev, sources, names)
  }

  // The segment of mapping i and everything after it.
  function OneAndRest(ms: seq<Mapping>, i: nat, prev: Previous, sources: seq<string>, names: seq<string>): string
    requires i < |ms| && AllCovered(ms, sources, names) && Covered(ms[i], sources, names)
    decreases |ms| - i, 0
  {
    EncodeAll(Deltas(ms[i], prev, sources, names))
    + Written(ms, i + 1, After(ms[i], prev, sources, names), sources, names)
  }

  // ----- reading

  predicate AtSeparator(s: string) {
    s != "" && (s[0] == ',' || s[0] == ';')
  }

  function TableAt(table: seq<string>, idx: int): Result<string> {
    if 0 <= idx < |table| then Ok(table[idx]) else Err("No element indexed by that number")
  }

  // One segment: the mapping, the new previous values and the rest of the string.
  function ReadSegment(s: string, prev: Previous, sources: seq<string>, names: seq<string>)
    : (r: Result<(Mapping, Previous, string)>)
    ensures r.Ok? ==> |r.value.2| < |s|
  {
    var (dColumn, s) :- Decoded(s);
    var prev := prev.(column := prev.column + dColumn);
    if s == "" || AtSeparator(s) then Ok((Mapping(prev.line, prev.column, None, None, None, None), prev, s))
    else
      var (dSource, s) :- Decoded(s);
      var source :- TableAt(sources, prev.source + dSource);
      if s == "" || AtSeparator(s) then Err("Found a source, but no line and column")
      else
        var (dLine, s) :- Decoded(s);
        if s == "" || AtSeparator(s) then Err("Found a source and line, but no column")
        else
          var (dOriginalColumn, s) :- Decoded(s);
          var prev := prev.(source := prev.source + dSource,
                            originalLine := prev.originalLine + dLine,
                            originalColumn := prev.originalColumn + dOriginalColumn);
          var m := Mapping(prev.line, prev.column, Some(source),
                           Some(prev.originalLine + 1), Some(prev.originalColumn), None);
          if s == "" || AtSeparator(s) then Ok((m, prev, s))
          else
            var (dName, s) :- Decoded(s);
            var name :- TableAt(names, prev.name + dName);
            Ok((m.(name := Some(name)), prev.(name := prev.name + dName), s))
  }

  function Read(s: string, prev: Previous, sources: seq<string>, names: seq<string>): Result<seq<Mapping>>
    decreases |s|
  {
    if s == "" then Ok([])
    else if s[0] == ';' then Read(s[1..], prev.(line := prev.line + 1, column := 0), sources, names)
    else if s[0] == ',' then Read(s[1..], prev, sources, names)
    else
      var (m, prev, rest) :- ReadSegment(s, prev, sources, names);
      var ms :- Read(rest, prev, sources, names);
      Ok([m] + ms)
  }

  // ----- the round trip

  predicate Small(d: int) {
    -0x4000_0000 < d < 0x4000_0000
  }

  predicate AllSmall(ds: seq<int>) {
    forall k :: 0 <= k < |ds| ==> Small(ds[k])
  }

  // Every delta that is written fits the 32-bit shifts of the number codec.
  predicate DeltasFit(ms: seq<Mapping>, i: nat, prev: Previous, sources: seq<string>, names: seq<string>)
    requires i <= |ms| && AllCovered(ms, sources, names)
    decreases |ms| - i, 1
  {
    i == |ms| ||
    var m := ms[i];
    assert m in ms;
    if m.generatedLine > prev.line then
      OneFits(ms, i, prev.(line := m.generatedLine, column := 0), sources, names)
    else if Skipped(ms, i) then DeltasFit(ms, i + 1, prev, sources, names)
    else OneFits(ms, i, prev, sources, names)
  }

  predicate OneFits(ms: seq<Mapping>, i: nat, prev: Previous, sources: seq<string>, names: seq<string>)
    requires i < |ms| && AllCovered(ms, sources, names) && Covered(ms[i], sources, names)
    decreases |ms| - i, 0
  {
    && AllSmall(Deltas(ms[i], prev, sources, names))
    && DeltasFit(ms, i + 1, After(ms[i], prev, sources, names), sources, names)
  }

  // The mappings that are not skipped, as the format records them.
  function Kept(ms: seq<Mapping>, i: nat): seq<Mapping>
    requires i <= |ms|
    decreases |ms| - i
  {
    if i == |ms| then []
    else if Skipped(ms, i) then Kept(ms, i + 1)
    else [ms[i].Canonical()] + Kept(ms, i + 1)
  }

  // The first character of an encoded number is no separator.
  lemma EncodedStart(d: int, rest: string)
    ensures Encoded(d) + rest != "" && !AtSeparator(Encoded(d) + rest)
  {
    EncodedHasNoSeparators(d);
    assert Encoded(d)[0] in Encoded(d);
  }

  lemma EncodeAllSplit(ds: seq<int>, rest: string)
    requires ds != []
    ensures EncodeAll(ds) + rest == Encoded(ds[0]) + (EncodeAll(ds[1..]) + rest)
  {
    assert EncodeAll(ds) == Encoded(ds[0]) + EncodeAll(ds[1..]);
  }

  // Reading one segment recovers the mapping, every optional field included.
  lemma SegmentRoundTrip(m: Mapping, prev: Previous, rest: string, sources: seq<string>, names: seq<string>)
    requires Covered(m, sources, names) && AllSmall(Deltas(m, prev, sources, names))
    requires prev.line == m.generatedLine
    requires rest == "" || AtSeparator(rest)
    ensures ReadSegment(EncodeAll(Deltas(m, prev, sources, names)) + rest, prev, sources, names)
         == Ok((m.Canonical(), After(m, prev, sources, names), rest))
  {
    hide Decoded, Encoded, FirstIndex, EncodeAll, Wrap31;
    var ds := Deltas(m, prev, sources, names);
    PeelAll(ds, rest);
    assert Decoded(EncodeAll(ds[0..]) + rest) == Ok((ds[0], EncodeAll(ds[1..]) + rest));
    if m.HasSource() {
      assert Decoded(EncodeAll(ds[1..]) + rest) == Ok((ds[1], EncodeAll(ds[2..]) + rest));
      assert Decoded(EncodeAll(ds[2..]) + rest) == Ok((ds[2], EncodeAll(ds[3..]) + rest));
      assert Decoded(EncodeAll(ds[3..]) + rest) == Ok((ds[3], EncodeAll(ds[4..]) + rest));
      if m.HasName() {
        assert Decoded(EncodeAll(ds[4..]) + rest) == Ok((ds[4], EncodeAll(ds[5..]) + rest));
      }
    }
  }

  lemma Nothing(ds: seq<int>, rest: string)
    requires |ds| == 0
    ensures EncodeAll(ds) + rest == rest
  {
  }

  // Decoding takes the first number off, wrapped, and leaves the others; a number is never mistaken for a separator.
  lemma Peel(ds: seq<int>, rest: string)
    requires |ds| > 0
    ensures Decoded(EncodeAll(ds) + rest) == Ok((Wrap31(ds[0]), EncodeAll(ds[1..]) + rest))
    ensures EncodeAll(ds) + rest != "" && !AtSeparator(EncodeAll(ds) + rest)
    ensures Wrap31(ds[0]) == ds[0] <==> Small(ds[0])
  {
    EncodeAllSplit(ds, rest);
    DecodeEncode(ds[0], EncodeAll(ds[1..]) + rest);
    Wrap31Exact(ds[0]);
    EncodedStart(ds[0], EncodeAll(ds[1..]) + rest);
  }

  lemma PeelAll(ds: seq<int>, rest: string)
    requires |ds| == 1 || |ds| == 4 || |ds| == 5
    ensures forall k :: 0 <= k < |ds| ==>
              && Decoded(EncodeAll(ds[k..]) + rest) == Ok((Wrap31(ds[k]), EncodeAll(ds[k + 1..]) + rest))
              && EncodeAll(ds[k..]) + rest != "" && !AtSeparator(EncodeAll(ds[k..]) + rest)
              && (Wrap31(ds[k]) == ds[k] <==> Small(ds[k]))
    ensures EncodeAll(ds[|ds|..]) + rest == rest
    ensures EncodeAll(ds[0..]) == EncodeAll(ds)
  {
    hide Decoded, EncodeAll, AtSeparator, Wrap31, Small;
    forall k | 0 <= k < |ds|
      ensures
        && Decoded(EncodeAll(ds[k..]) + rest) == Ok((Wrap31(ds[k]), EncodeAll(ds[k + 1..]) + rest))
        && EncodeAll(ds[k..]) + rest != "" && !AtSeparator(EncodeAll(ds[k..]) + rest)
        && (Wrap31(ds[k]) == ds[k] <==> Small(ds[k]))
    {
      Peel(ds[k..], rest);
      assert ds[k..][1..] == ds[k + 1..];
    }
    Nothing(ds[|ds|..], rest);
    assert ds[0..] == ds;
  }

  // A delta that does not fit shows: the segment is rejected or another mapping is read.
  lemma SegmentMismatch(m: Mapping, prev: Previous, rest: string, sources: seq<string>, names: seq<string>)
    requires Covered(m, sources, names) && !AllSmall(Deltas(m, prev, sources, names))
    requires Distinct(sources) && Distinct(names)
    requires rest == "" || AtSeparator(rest)
    ensures var r := ReadSegment(EncodeAll(Deltas(m, prev, sources, names)) + rest, prev, sources, names);
            r.Ok? ==> r.value.0 != m.Canonical()
  {
    hide Decoded, Encoded, FirstIndex, EncodeAll, Wrap31;
    var ds := Deltas(m, prev, sources, names);
    PeelAll(ds, rest);
    assert Decoded(EncodeAll(ds[0..]) + rest) == Ok((Wrap31(ds[0]), EncodeAll(ds[1..]) + rest));
    if m.HasSource() && Small(ds[0]) {
      assert Decoded(EncodeAll(ds[1..]) + rest) == Ok((Wrap31(ds[1]), EncodeAll(ds[2..]) + rest));
      if Small(ds[1]) {
        assert Decoded(EncodeAll(ds[2..]) + rest) == Ok((Wrap31(ds[2]), EncodeAll(ds[3..]) + rest));
        assert Decoded(EncodeAll(ds[3..]) + rest) == Ok((Wrap31(ds[3]), EncodeAll(ds[4..]) + rest));
        if m.HasName() && Small(ds[2]) && Small(ds[3]) {
          assert Decoded(EncodeAll(ds[4..]) + rest) == Ok((Wrap31(ds[4]), EncodeAll(ds[5..]) + rest));
        }
      }
    }
  }

  lemma {:induction false} ReadSemicolons(n: nat, rest: string, prev: Previous, sources: seq<string>,
                                          names: seq<string>)
    ensures Read(Semicolons(n) + rest, prev, sources, names)
         == Read(rest, if n == 0 then prev else prev.(line := prev.line + n, column := 0), sources, names)
    decreases n
  {
    if n == 0 {
      assert Semicolons(n) + rest == rest;
    } else {
      assert (Semicolons(n) + rest)[0] == ';' && (Semicolons(n) + rest)[1..] == Semicolons(n - 1) + rest;
      ReadSemicolons(n - 1, rest, prev.(line := prev.line + 1, column := 0), sources, names);
    }
  }

  lemma ReadComma(comma: bool, rest: string, prev: Previous, sources: seq<string>, names: seq<string>)
    ensures Read((if comma then "," else "") + rest, prev, sources, names) == Read(rest, prev, sources, names)
  {
    if comma {
      assert ("," + rest)[0] == ',' && ("," + rest)[1..] == rest;
    } else {
      assert "" + rest == rest;
    }
  }

  // Sorted mappings never go back a line, and a skipped one stays on its line.
  lemma GapFacts(ms: seq<Mapping>, i: nat)
    requires i < |ms| && SortedFrom(ms, 1)
    ensures ms[i].generatedLine >= if i == 0 then 1 else ms[i - 1].generatedLine
    ensures Skipped(ms, i) ==> i > 0 && Kept(ms, i) == Kept(ms, i + 1) && ms[i].generatedLine == ms[i - 1].generatedLine
  {
    assert i > 0 ==> CompareByGenerated(ms[i - 1], ms[i], false) <= 0;
  }

  // The previous line, while the writer stands before mapping i.
  predicate LineAt(ms: seq<Mapping>, i: nat, line: int)
    requires i <= |ms|
  {
    line == if i == 0 then 1 else ms[i - 1].generatedLine
  }

  // After the first mapping, what is still to be written starts with a separator.
  lemma {:induction false} WrittenStart(ms: seq<Mapping>, i: nat, prev: Previous, sources: seq<string>,
                                        names: seq<string>)
    requires 0 < i <= |ms| && AllCovered(ms, sources, names) && SortedFrom(ms, 1)
    requires LineAt(ms, i, prev.line)
    ensures var w := Written(ms, i, prev, sources, names); w == "" || AtSeparator(w)
    decreases |ms| - i
  {
    if i < |ms| && ms[i].generatedLine <= prev.line && Skipped(ms, i) {
      WrittenStart(ms, i + 1, prev, sources, names);
    }
  }

  // Reading what is written from mapping i on gives the mappings that are kept from i on, exactly when the deltas fit.
  lemma {:induction false} ReadWritten(ms: seq<Mapping>, i: nat, prev: Previous, sources: seq<string>,
                                       names: seq<string>)
    requires i <= |ms| && AllCovered(ms, sources, names) && SortedFrom(ms, 1)
    requires Distinct(sources) && Distinct(names)
    requires LineAt(ms, i, prev.line)
    ensures Read(Written(ms, i, prev, sources, names), prev, sources, names) == Ok(Kept(ms, i))
       <==> DeltasFit(ms, i, prev, sources, names)
    decreases |ms| - i, 1, 1
  {
    if i == |ms| {
    } else {
      assert ms[i] in ms;
      ReadNext(ms, i, prev, sources, names);
    }
  }

  lemma {:induction false} ReadNext(ms: seq<Mapping>, i: nat, prev: Previous, sources: seq<string>, names: seq<string>)
    requires i < |ms| && AllCovered(ms, sources, names) && SortedFrom(ms, 1)
    requires Distinct(sources) && Distinct(names)
    requires LineAt(ms, i, prev.line) && Covered(ms[i], sources, names)
    ensures Read(Written(ms, i, prev, sources, names), prev, sources, names) == Ok(Kept(ms, i))
       <==> DeltasFit(ms, i, prev, sources, names)
    decreases |ms| - i, 1, 0
  {
    hide Written, DeltasFit, OneFits, Read, Semicolons, CompareByGenerated, SortedFrom, OneAndRest, Mapping.Canonical;
    hide Kept, Skipped, Covered, AllCovered, Distinct;
    var m := ms[i];
    GapFacts(ms, i);
    WrittenStep(ms, i, prev, sources, names);
    if m.generatedLine > prev.line {
      var prev' := prev.(line := m.generatedLine, column := 0);
      ReadOne(ms, i, prev', sources, names);
      ReadSemicolons(m.generatedLine - prev.line, OneAndRest(ms, i, prev', sources, names), prev, sources, names);
    } else if Skipped(ms, i) {
      ReadWritten(ms, i + 1, prev, sources, names);
    } else {
      ReadOne(ms, i, prev, sources, names);
      ReadComma(i > 0, OneAndRest(ms, i, prev, sources, names), prev, sources, names);
    }
  }

  // One step of the writer and of the condition on its deltas.
  lemma WrittenStep(ms: seq<Mapping>, i: nat, prev: Previous, sources: seq<string>, names: seq<string>)
    requires i < |ms| && AllCovered(ms, sources, names) && Covered(ms[i], sources, names)
    ensures
      var written := Written(ms, i, prev, sources, names);
      var fit := DeltasFit(ms, i, prev, sources, names);
      if ms[i].generatedLine > prev.line then
        var prev' := prev.(line := ms[i].generatedLine, column := 0);
        && written == Semicolons(ms[i].generatedLine - prev.line) + OneAndRest(ms, i, prev', sources, names)
        && fit == OneFits(ms, i, prev', sources, names)
      else if Skipped(ms, i) then
        && written == Written(ms, i + 1, prev, sources, names)
        && fit == DeltasFit(ms, i + 1, prev, sources, names)
      else
        && written == (if i > 0 then "," else "") + OneAndRest(ms, i, prev, sources, names)
        && fit == OneFits(ms, i, prev, sources, names)
  {
    hide CompareByGenerated, Semicolons, Deltas, After, EncodeAll, Skipped, AllSmall;
  }

  // One step of the reader.
  lemma ReadStep(s: string, prev: Previous, sources: seq<string>, names: seq<string>)
    requires s != "" && !AtSeparator(s)
    ensures var r := ReadSegment(s, prev, sources, names);
            if r.Err? then Read(s, prev, sources, names).Err?
            else
              var later := Read(r.value.2, r.value.1, sources, names);
              if later.Err? then Read(s, prev, sources, names).Err?
              else Read(s, prev, sources, names) == Ok([r.value.0] + later.value)
  {
    hide ReadSegment;
  }

  lemma {:induction false} ReadOne(ms: seq<Mapping>, i: nat, prev: Previous, sources: seq<string>, names: seq<string>)
    requires i < |ms| && AllCovered(ms, sources, names) && SortedFrom(ms, 1)
    requires Distinct(sources) && Distinct(names)
    requires Covered(ms[i], sources, names) && !Skipped(ms, i)
    requires prev.line == ms[i].generatedLine
    ensures Read(OneAndRest(ms, i, prev, sources, names), prev, sources, names) == Ok(Kept(ms, i))
       <==> OneFits(ms, i, prev, sources, names)
    decreases |ms| - i, 0
  {
    var m := ms[i];
    var ds := Deltas(m, prev, sources, names);
    var next := After(m, prev, sources, names);
    assert next.line == m.generatedLine && |ds| > 0;
    var rest := Written(ms, i + 1, next, sources, names);
    var s := EncodeAll(ds) + rest;
    var later := Kept(ms, i + 1);
    assert OneAndRest(ms, i, prev, sources, names) == s && Kept(ms, i) == [m.Canonical()] + later;
    assert OneFits(ms, i, prev, sources, names) == (AllSmall(ds) && DeltasFit(ms, i + 1, next, sources, names));
    assert LineAt(ms, i + 1, next.line);
    hide Deltas, After, EncodeAll, Read, ReadSegment, Mapping.Canonical, Written, DeltasFit, OneFits, SortedFrom,
        Distinct;
    hide AllSmall, Kept, OneAndRest, Skipped, Covered, CompareByGenerated, AllCovered, LineAt;
    WrittenStart(ms, i + 1, next, sources, names);
    Peel(ds, rest);
    ReadStep(s, prev, sources, names);
    if AllSmall(ds) {
      SegmentRoundTrip(m, prev, rest, sources, names);
      ReadWritten(ms, i + 1, next, sources, names);
      ConsEqual(m.Canonical(), later, Read(rest, next, sources, names));
    } else {
      SegmentMismatch(m, prev, rest, sources, names);
    }
  }

  lemma ConsEqual(m: Mapping, ms: seq<Mapping>, r: Result<seq<Mapping>>)
    ensures r.Ok? ==> ([m] + r.value == [m] + ms <==> r == Ok(ms))
  {
    if r.Ok? {
      assert ([m] + r.value)[1..] == r.value && ([m] + ms)[1..] == ms;
    }
  }
}
