/** Turning source nodes into code with a source map, and back. */
module SourceNodeMap {
  import opened Wrappers
  import opened Text
  import opened ArraySets
  import opened Mappings
  import opened MappingCodec
  import opened MappingRoundTrip
  import opened SourceMapConsumers
  import opened SourceMapGenerators
  import opened Pieces
  import opened SourceNodes
  import SourceNodeCut
  import Sorting

  // A snippet gets a mapping only when its source, line and column are all known.
  predicate Active(o: OriginalPosition) {
    o.source.Some? && o.line.Some? && o.column.Some?
  }

  function Effective(o: OriginalPosition): OriginalPosition {
    if Active(o) then o else NOWHERE
  }

  function EffectiveAll(os: seq<OriginalPosition>): seq<OriginalPosition> {
    seq(|os|, k requires 0 <= k < |os| => Effective(os[k]))
  }

  // The positions that the generator takes without an error.
  predicate Usable(o: OriginalPosition) {
    Active(o) ==> o.source.value != "" && o.line.value > 0 && o.column.value >= 0
  }

  ghost predicate AllUsable(ps: seq<Piece>) {
    forall p :: p in ps ==> Usable(p.origin)
  }

  // The state after the snippets `ps`: the mappings so far and the original position of the last of them.
  ghost predicate Mapped(ps: seq<Piece>, code: string, ms: seq<Mapping>, last: OriginalPosition, active: bool) {
    && code == Code(ps)
    && PositionsIncrease(ms) && |ms| <= |ps|
    && (forall m :: m in ms ==> Before(m.Generated(), EndOf(code)) && StartsPiece(m, ps))
    && AttributedBy(EffectiveAll(Origins(ps)), code, ms)
    && (if active then Active(last) && OriginOf(SourceNodeCut.Previous(ms, |ms|)) == last
        else last.source.None? && OriginOf(SourceNodeCut.Previous(ms, |ms|)) == NOWHERE)
  }

  // The mapping stands exactly where one of the pieces starts, and for what that piece is attributed to.
  ghost predicate StartsPiece(m: Mapping, ps: seq<Piece>) {
    exists j :: 0 <= j < |ps| && m.Generated() == EndOf(Code(ps[..j])) && OriginOf(Some(m)) == Effective(ps[j].origin)
  }

  lemma StartsPieceMore(m: Mapping, ps: seq<Piece>, piece: Piece)
    requires StartsPiece(m, ps) || (m.Generated() == EndOf(Code(ps)) && OriginOf(Some(m)) == Effective(piece.origin))
    ensures StartsPiece(m, ps + [piece])
  {
    var qs := ps + [piece];
    if StartsPiece(m, ps) {
      var j :| 0 <= j < |ps| && m.Generated() == EndOf(Code(ps[..j])) && OriginOf(Some(m)) == Effective(ps[j].origin);
      assert qs[..j] == ps[..j] && qs[j] == ps[j];
    } else {
      assert qs[..|ps|] == ps && qs[|ps|] == piece;
    }
  }

  // A mapping added at the end of the code takes over from there and nowhere before.
  lemma OwnerAfterAdd(ms: seq<Mapping>, added: seq<Mapping>, code: string, text: string, k: nat)
    requires |added| <= 1 && PositionsIncrease(ms) && k < |code + text|
    requires forall m :: m in ms ==> Before(m.Generated(), EndOf(code))
    requires forall m :: m in added ==> m.Generated() == EndOf(code)
    ensures var ms' := ms + added;
            var pos := EndOf((code + text)[..k]);
            OwnerAt(ms', pos) == if k < |code| then OwnerAt(ms, pos) else SourceNodeCut.Previous(ms', |ms'|)
  {
    var ms' := ms + added;
    var all := code + text;
    var pos := EndOf(all[..k]);
    assert all[..|code|] == code;
    if k < |code| {
      PrefixesAdvance(all, k, |code|);
      if |added| == 1 {
        assert ms'[..|ms'| - 1] == ms;
        assert ms'[|ms'| - 1] in added;
      } else {
        assert ms' == ms;
      }
    } else {
      PrefixesAdvance(all, |code|, k);
      if |ms'| > 0 {
        assert ms'[|ms'| - 1] in ms || ms'[|ms'| - 1] in added;
      }
    }
  }

  lemma MappedMore(ps: seq<Piece>, code: string, ms: seq<Mapping>, last: OriginalPosition, active: bool,
                   piece: Piece, added: seq<Mapping>, last': OriginalPosition, active': bool)
    requires Mapped(ps, code, ms, last, active) && piece.code != ""
    requires |added| <= 1 && forall m :: m in added ==> m.Generated() == EndOf(code)
    requires OriginOf(SourceNodeCut.Previous(ms + added, |ms + added|)) == Effective(piece.origin)
    requires if active' then last' == piece.origin && Active(last') else last'.source.None? && !Active(piece.origin)
    ensures Mapped(ps + [piece], code + piece.code, ms + added, last', active')
  {
    var ms' := ms + added;
    var text := piece.code;
    var code' := code + text;
    PiecesAppend(ps, piece);
    EndOfConcat(code, text);
    AdvanceForward(EndOf(code), text);
    forall m | m in ms'
      ensures Before(m.Generated(), EndOf(code')) && StartsPiece(m, ps + [piece])
    {
      assert m in ms || (m in added && ms' == ms + [m]);
      StartsPieceMore(m, ps, piece);
    }
    var os, os' := EffectiveAll(Origins(ps)), EffectiveAll(Origins(ps + [piece]));
    forall k | 0 <= k < |code'|
      ensures os'[k] == OriginOf(OwnerAt(ms', EndOf(code'[..k])))
    {
      OwnerAfterAdd(ms, added, code, text, k);
      if k < |code| {
        assert code'[..k] == code[..k];
        assert os'[k] == os[k];
      } else {
        assert Origins(ps + [piece])[k] == piece.origin;
      }
    }
    assert PositionsIncrease(ms') by {
      forall i, j | 0 <= i < j < |ms'|
        ensures Before(ms'[i].Generated(), ms'[j].Generated())
      {
        assert ms'[i] in ms;
        assert j == |ms| ==> ms'[j] in added;
      }
    }
  }

  lemma MappedStart()
    ensures Mapped([], "", [], NOWHERE, false)
    ensures EndOf("") == Position(1, 0)
  {
  }

  // The generated position after a chunk, counted character by character.
  method CountChunk(line: int, column: int, chunk: string) returns (line': int, column': int)
    ensures Position(line', column') == Advance(Position(line, column), chunk)
  {
    line', column' := line, column;
    for i := 0 to |chunk|
      invariant Advance(Position(line', column'), chunk[i..]) == Advance(Position(line, column), chunk)
    {
      if chunk[i] == '\n' {
        line' := line' + 1;
        column' := 0;
      } else {
        column' := column' + 1;
      }
      assert chunk[i..][0] == chunk[i] && chunk[i..][1..] == chunk[i + 1..];
    }
  }

  // The mapping that one snippet adds, if any.
  method MapSnippet(sourceMap: SourceMapGenerator, original: OriginalPosition, generated: Position,
                    last: OriginalPosition, active: bool)
    returns (r: Result<(OriginalPosition, bool)>, ghost added: seq<Mapping>)
    requires sourceMap.Valid() && generated.line > 0 && generated.column >= 0
    requires if active then Active(last) && Usable(last) else last.source.None?
    requires OriginOf(SourceNodeCut.Previous(sourceMap.mappings, |sourceMap.mappings|))
          == if active then last else NOWHERE
    modifies sourceMap, sourceMap.sources, sourceMap.names
    ensures sourceMap.Valid() && sourceMap.sources == old(sourceMap.sources) && sourceMap.names == old(sourceMap.names)
    ensures r.Ok? <==> Usable(original)
    ensures r.Ok? ==>
              && sourceMap.mappings == old(sourceMap.mappings) + added && |added| <= 1
              && (forall m :: m in added ==> m.Generated() == generated && m.Valid())
              && OriginOf(SourceNodeCut.Previous(sourceMap.mappings, |sourceMap.mappings|)) == Effective(original)
              && if r.value.1 then r.value.0 == original && Active(original)
                 else r.value.0.source.None? && !Active(original)
  {
    hide TablesExact, AllWellFormed, ArraySet.Valid;
    added := [];
    if original.source.Some? && original.line.Some? && original.column.Some? {
      if last.source != original.source || last.line != original.line || last.column != original.column
         || last.name != original.name {
        var accepted :- sourceMap.AddMapping(generated, Some(Position(original.line.value, original.column.value)),
                                              original.source, original.name);
        added := [Made(generated, Some(Position(original.line.value, original.column.value)), original.source,
                       original.name)];
      }
      r := Ok((original, true));
    } else if active {
      var accepted := sourceMap.AddMapping(generated, None, None, None);
      added := [Made(generated, None, None, None)];
      r := Ok((last.(source := None), false));
    } else {
      r := Ok((last, false));
    }
  }

  // The code of a tree with its source map; Err stands for the error of a mapping that the generator rejects.
  method ToStringWithSourceMap(node: SourceNode, file: string) returns (r: Result<(string, SourceMapGenerator)>)
    requires node.Valid()
    ensures r.Ok? <==> AllUsable(node.pieces)
    ensures r.Ok? ==>
              var (code, sourceMap) := r.value;
              && sourceMap.Valid() && fresh(sourceMap) && fresh(sourceMap.sources) && fresh(sourceMap.names)
              && code == Code(node.pieces)
              && PositionsIncrease(sourceMap.mappings) && AllValid(sourceMap.mappings)
              && |sourceMap.mappings| <= |node.pieces|
              && (forall m :: m in sourceMap.mappings ==> StartsPiece(m, node.pieces))
              && AttributedBy(EffectiveAll(Origins(node.pieces)), code, sourceMap.mappings)
  {
    hide AttributedBy, Code, Origins, PositionsIncrease, StartsPiece, Mapping.Valid, TablesExact, Advance,
        AllWellFormed, ArraySet.Valid;
    hide OriginOf, PiecesOf, SourceMapGenerator.Valid, Effective, Usable, Active, EffectiveAll;
    var calls := node.Walk();
    var generatedCode, line, column := "", 1, 0;
    var sourceMap := new SourceMapGenerator(file);
    var sourceMappingActive, last := false, NOWHERE;
    MappedStart();
    for i := 0 to |calls|
      invariant sourceMap.Valid() && fresh(sourceMap) && fresh(sourceMap.sources) && fresh(sourceMap.names)
      invariant Mapped(calls[..i], generatedCode, sourceMap.mappings, last, sourceMappingActive)
      invariant Position(line, column) == EndOf(generatedCode)
      invariant AllUsable(calls[..i]) && AllValid(sourceMap.mappings)
      invariant sourceMappingActive ==> Usable(last)
    {
      var piece := calls[i];
      ghost var before := sourceMap.mappings;
      assert calls[..i + 1] == calls[..i] + [piece] && piece in calls;
      var mapped, added := MapSnippet(sourceMap, piece.origin, Position(line, column), last, sourceMappingActive);
      if mapped.Err? {
        return Err(mapped.message);
      }
      MappedMore(calls[..i], generatedCode, before, last, sourceMappingActive, piece, added, mapped.value.0,
                 mapped.value.1);
      EndOfConcat(generatedCode, piece.code);
      last, sourceMappingActive := mapped.value.0, mapped.value.1;
      generatedCode := generatedCode + piece.code;
      line, column := CountChunk(line, column, piece.code);
    }
    assert calls[..|calls|] == calls;
    r := Ok((generatedCode, sourceMap));
  }

  // ----- there and back

  // What the source map format keeps of an attribution: an empty name is no name.
  function Recorded(o: OriginalPosition): OriginalPosition {
    if Active(o) then o.(name := if Truthy(o.name) then o.name else None) else NOWHERE
  }

  function RecordedAll(os: seq<OriginalPosition>): seq<OriginalPosition> {
    seq(|os|, k requires 0 <= k < |os| => Recorded(os[k]))
  }

  // Mappings at increasing positions are kept one by one.
  lemma {:induction false} KeptAll(ms: seq<Mapping>, i: nat)
    requires i <= |ms| && PositionsIncrease(ms)
    ensures |Kept(ms, i)| == |ms| - i
    ensures forall k :: i <= k < |ms| ==> Kept(ms, i)[k - i] == ms[k].Canonical()
    decreases |ms| - i
  {
    hide CompareByGenerated, Mapping.Canonical, PositionsIncrease;
    if i == |ms| {
    } else {
      NotSkipped(ms, i);
      KeptAll(ms, i + 1);
      forall k | i <= k < |ms|
        ensures Kept(ms, i)[k - i] == ms[k].Canonical()
      {
        assert k > i ==> Kept(ms, i)[k - i] == Kept(ms, i + 1)[k - (i + 1)];
      }
    }
  }

  lemma NotSkipped(ms: seq<Mapping>, i: nat)
    requires i < |ms| && PositionsIncrease(ms)
    ensures !Skipped(ms, i)
  {
    assert i > 0 ==> Before(ms[i - 1].Generated(), ms[i].Generated());
  }

  // The head of a sorted list is at or before all the others.
  lemma HeadFirst(ns: seq<Mapping>, n: Mapping)
    requires SortedFrom(ns, 1) && n in ns
    ensures AtOrBefore(ns[0].Generated(), n.Generated())
  {
    var i :| 0 <= i < |ns| && ns[i] == n;
    assert i > 0 ==> CompareByGenerated(ns[0], ns[i], false) <= 0;
  }

  lemma HeadIsStrictlyFirst(ms: seq<Mapping>, n: Mapping)
    requires PositionsIncrease(ms) && n in ms
    ensures n == ms[0] || Before(ms[0].Generated(), n.Generated())
  {
  }

  // A sorted permutation of mappings at increasing positions is the same list.
  lemma {:induction false} SortedIsSame(ms: seq<Mapping>, ns: seq<Mapping>)
    requires PositionsIncrease(ms) && SortedFrom(ns, 1) && Sorting.Permutation(ms, ns)
    ensures ms == ns
  {
    hide CompareByGenerated, PositionsIncrease, SortedFrom, Sorting.Permutation;
    Sorting.PermutationMembers(ms, ns);
    if ms == [] {
    } else {
      HeadFirst(ns, ms[0]);
      HeadIsStrictlyFirst(ms, ns[0]);
      TailIncreases(ms);
      TailSorted(ns);
      Sorting.TailPermutation(ms, ns);
      SortedIsSame(ms[1..], ns[1..]);
      assert ms == [ms[0]] + ms[1..] && ns == [ns[0]] + ns[1..];
    }
  }

  lemma TailIncreases(ms: seq<Mapping>)
    requires |ms| > 0 && PositionsIncrease(ms)
    ensures PositionsIncrease(ms[1..])
  {
  }

  lemma TailSorted(ns: seq<Mapping>)
    requires |ns| > 0 && SortedFrom(ns, 1)
    ensures SortedFrom(ns[1..], 1)
  {
    hide CompareByGenerated;
  }

  lemma {:induction false} OwnerCanonical(ms: seq<Mapping>, ks: seq<Mapping>, p: Position)
    requires |ks| == |ms| && forall k :: 0 <= k < |ms| ==> ks[k] == ms[k].Canonical()
    ensures OwnerAt(ms, p).None? <==> OwnerAt(ks, p).None?
    ensures OwnerAt(ms, p).Some? ==>
        OwnerAt(ks, p) == Some(OwnerAt(ms, p).value.Canonical()) && OwnerAt(ms, p).value in ms
    decreases |ms|
  {
    if ms == [] {
    } else {
      OwnerCanonical(ms[..|ms| - 1], ks[..|ks| - 1], p);
    }
  }

  lemma {:induction false} TableSize(table: seq<string>, used: seq<Option<string>>)
    requires Distinct(table) && forall s :: s in table ==> Some(s) in used
    ensures |table| <= |used|
    decreases |table|
  {
    if table == [] {
    } else {
      var n := |table| - 1;
      var s := table[n];
      var k :| 0 <= k < |used| && used[k] == Some(s);
      var others := used[..k] + used[k + 1..];
      forall t | t in table[..n]
        ensures Some(t) in others
      {
        var j :| 0 <= j < |used| && used[j] == Some(t);
        assert j < k ==> others[j] == Some(t);
        assert j > k ==> others[j - 1] == Some(t);
      }
      TableSize(table[..n], others);
    }
  }

  lemma TablesSmall(ms: seq<Mapping>, sources: seq<string>, names: seq<string>)
    requires TablesExact(ms, sources, names)
    ensures |sources| <= |ms| && |names| <= |ms|
  {
    var usedSources := seq(|ms|, k requires 0 <= k < |ms| => ms[k].source);
    forall s | s in sources
      ensures Some(s) in usedSources
    {
      var m :| m in ms && m.HasSource() && m.source.value == s;
      var k :| 0 <= k < |ms| && ms[k] == m;
      assert usedSources[k] == Some(s);
    }
    TableSize(sources, usedSources);
    var usedNames := seq(|ms|, k requires 0 <= k < |ms| => ms[k].name);
    forall s | s in names
      ensures Some(s) in usedNames
    {
      var m :| m in ms && m.HasName() && m.name.value == s;
      var k :| 0 <= k < |ms| && ms[k] == m;
      assert usedNames[k] == Some(s);
    }
    TableSize(names, usedNames);
  }

  // Code, trees and positions small enough for the number codec.
  ghost predicate Small(ps: seq<Piece>) {
    && |Code(ps)| < LIMIT && |ps| <= LIMIT
    && forall p :: p in ps && Active(p.origin) ==> p.origin.line.value <= LIMIT && p.origin.column.value < LIMIT
  }

  lemma {:induction false} OriginsFromPieces(ps: seq<Piece>, k: nat)
    requires k < |Origins(ps)|
    ensures exists p :: p in ps && p.origin == Origins(ps)[k]
  {
    if k < |ps[0].code| {
      assert ps[0] in ps;
    } else {
      OriginsFromPieces(ps[1..], k - |ps[0].code|);
    }
  }

  lemma {:induction false} ColumnBound(p: Position, s: string)
    ensures Advance(p, s).column <= p.column + |s| || Advance(p, s).column <= |s|
    decreases |s|
  {
    if s == "" {
    } else {
      ColumnBound(Step(p, s[0]), s[1..]);
    }
  }

  lemma {:induction false} CodePrefix(ps: seq<Piece>, j: nat)
    requires j <= |ps|
    ensures Code(ps[..j]) <= Code(ps)
  {
    assert ps == ps[..j] + ps[j..];
    PiecesConcat(ps[..j], ps[j..]);
  }

  lemma MappingsSmall(ps: seq<Piece>, ms: seq<Mapping>)
    requires Small(ps) && AllUsable(ps) && AllValid(ms) && (forall m :: m in ms ==> StartsPiece(m, ps))
    ensures forall m :: m in ms ==> WithinLimit(m)
  {
    forall m | m in ms
      ensures WithinLimit(m)
    {
      assert m.Valid() && StartsPiece(m, ps);
      var j :| 0 <= j < |ps| && m.Generated() == EndOf(Code(ps[..j])) && OriginOf(Some(m)) == Effective(ps[j].origin);
      CodePrefix(ps, j);
      ColumnBound(ORIGIN, Code(ps[..j]));
      assert ps[j] in ps;
    }
  }

  // The mappings that the consumer reads attribute the code as the tree did.
  lemma ReadBackAttributes(ps: seq<Piece>, ms: seq<Mapping>, ks: seq<Mapping>)
    requires AttributedBy(EffectiveAll(Origins(ps)), Code(ps), ms) && AllValid(ms)
    requires |ks| == |ms| && forall k :: 0 <= k < |ms| ==> ks[k] == ms[k].Canonical()
    ensures AttributedBy(RecordedAll(Origins(ps)), Code(ps), ks)
  {
    var code, os := Code(ps), Origins(ps);
    forall k | 0 <= k < |code|
      ensures RecordedAll(os)[k] == OriginOf(OwnerAt(ks, EndOf(code[..k])))
    {
      var p := EndOf(code[..k]);
      OwnerCanonical(ms, ks, p);
      assert EffectiveAll(os)[k] == OriginOf(OwnerAt(ms, p));
      if OwnerAt(ms, p).Some? {
        var m := OwnerAt(ms, p).value;
        assert m.Valid();
      }
    }
  }

  lemma PieceStartsInText(ps: seq<Piece>, m: Mapping)
    requires StartsPiece(m, ps)
    ensures InText(m.Generated(), Code(ps))
  {
    hide Effective, InText;
    var j :| 0 <= j < |ps| && m.Generated() == EndOf(Code(ps[..j])) && OriginOf(Some(m)) == Effective(ps[j].origin);
    CodePrefix(ps, j);
    var c := Code(ps[..j]);
    assert Code(ps)[..|c|] == c;
    PrefixEndsInText(Code(ps), |c|);
  }

  lemma CanonicalPositions(ps: seq<Piece>, ms: seq<Mapping>, ks: seq<Mapping>)
    requires PositionsIncrease(ms) && (forall m :: m in ms ==> StartsPiece(m, ps))
    requires |ks| == |ms| && forall k :: 0 <= k < |ms| ==> ks[k] == ms[k].Canonical()
    ensures SourceNodeCut.Fitting(ks, Code(ps)) && PositionsIncrease(ks)
  {
    hide StartsPiece, Code;
    forall i, j | 0 <= i < j < |ks|
      ensures Before(ks[i].Generated(), ks[j].Generated())
    {
      assert Before(ms[i].Generated(), ms[j].Generated());
    }
    forall n | n in ks
      ensures InText(n.Generated(), Code(ps))
    {
      var k :| 0 <= k < |ks| && ks[k] == n;
      assert ms[k] in ms && n.Generated() == ms[k].Generated();
      PieceStartsInText(ps, ms[k]);
    }
  }

  // Two attributions by the same mappings agree.
  lemma AttributionUnique(os: seq<OriginalPosition>, os': seq<OriginalPosition>, code: string, ms: seq<Mapping>)
    requires AttributedBy(os, code, ms) && AttributedBy(os', code, ms)
    ensures os == os'
  {
  }

  // Externalising the map of a tree, consuming it and cutting the code along it gives a tree with the same code, whose
  // characters carry the attributions of the original tree as far as the format records them.
  method ThereAndBack(node: SourceNode, file: string) returns (r: Result<SourceNode>)
    requires node.Valid()
    ensures AllUsable(node.pieces) && Small(node.pieces) ==>
              && r.Ok? && r.value.Valid()
              && Code(r.value.pieces) == Code(node.pieces)
              && Origins(r.value.pieces) == RecordedAll(Origins(node.pieces))
  {
    hide Read, Kept, Code, Origins, AttributedBy, RecordedAll, EffectiveAll, DeltasFit, OneFits, TablesExact,
        AllCovered;
    hide AllUsable, Small, StartsPiece, PositionsIncrease, AllValid, SortedFrom, Denotes, Sorting.Permutation;
    hide SourceNodeCut.Fitting, SourceNodeCut.Ordered, SourceNode.Valid, SourceMapConsumer.Valid,
        SourceMapGenerator.Valid;
    ghost var ps := node.pieces;
    var mapped := ToStringWithSourceMap(node, file);
    if mapped.Err? {
      return Err(mapped.message);
    }
    var (code, sourceMap) := mapped.value;
    ghost var ms := sourceMap.mappings;
    var consumer := Reload(sourceMap);
    SortedIsSame(ms, sourceMap.mappings);
    ValidTables(sourceMap);
    ghost var ks := Kept(ms, 0);
    ReadBack(ps, ms, ks, sourceMap.sources.members, sourceMap.names.members);
    var parsed := consumer.ParseMappings();
    if parsed.Err? {
      return Err(parsed.message);
    }
    r := SourceNodeCut.FromStringWithSourceMap(code, consumer.generatedMappings.value);
    if AllUsable(ps) && Small(ps) {
      AttributionUnique(Origins(r.value.pieces), RecordedAll(Origins(ps)), code, ks);
    }
  }

  lemma ValidTables(generator: SourceMapGenerator)
    requires generator.Valid()
    ensures TablesExact(generator.mappings, generator.sources.members, generator.names.members)
  {
  }

  lemma ReadBack(ps: seq<Piece>, ms: seq<Mapping>, ks: seq<Mapping>, sources: seq<string>, names: seq<string>)
    requires PositionsIncrease(ms) && AllValid(ms) && (forall m :: m in ms ==> StartsPiece(m, ps)) && |ms| <= |ps|
    requires AttributedBy(EffectiveAll(Origins(ps)), Code(ps), ms)
    requires TablesExact(ms, sources, names) && AllCovered(ms, sources, names)
    requires ks == Kept(ms, 0)
    ensures SourceNodeCut.Fitting(ks, Code(ps)) && SourceNodeCut.Ordered(ks, Code(ps))
    ensures AttributedBy(RecordedAll(Origins(ps)), Code(ps), ks)
    ensures AllUsable(ps) && Small(ps) ==> DeltasFit(ms, 0, START, sources, names)
  {
    hide AttributedBy, Origins, Code, PositionsIncrease, StartsPiece, TablesExact, AllUsable, EffectiveAll, RecordedAll;
    hide DeltasFit, AllValid, AllCovered, Kept, OneFits, Mapping.Canonical, Mapping.Valid;
    KeptAll(ms, 0);
    ReadBackAttributes(ps, ms, ks);
    CanonicalPositions(ps, ms, ks);
    if AllUsable(ps) && Small(ps) {
      MappingsSmall(ps, ms);
      TablesSmall(ms, sources, names);
      WithinLimitFits(ms, 0, START, sources, names);
    }
  }
}
