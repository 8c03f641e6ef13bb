/** Cutting generated code into source nodes along the mappings of a source map. */
module SourceNodeCut {
  import opened Wrappers
  import opened Text
  import opened Mappings
  import opened SourceMapConsumers
  import opened Pieces
  import opened SourceNodes
  import BinarySearch

  // ----- JavaScript string and array operations

  function Min(a: int, b: int): int {
    if a < b then a else b
  }

  function Max(a: int, b: int): int {
    if a > b then a else b
  }

  // s.substr(0, length)
  function SubstrTo(s: string, length: int): string {
    if length <= 0 then "" else s[..Min(length, |s|)]
  }

  // s.substr(start): a negative start counts from the end
  function SubstrFrom(s: string, start: int): string {
    if start < 0 then s[Max(|s| + start, 0)..] else s[Min(start, |s|)..]
  }

  // lines.shift() + "\n", and what is left; a missing line reads as the text "undefined"
  function Shift(lines: seq<string>): (string, seq<string>) {
    if lines == [] then ("undefined\n", []) else (lines[0] + "\n", lines[1..])
  }

  // ----- lines and parts of lines

  // A first line that is followed by others ends with a newline.
  lemma SplitHead(s: string)
    requires |SplitLines(s)| > 1
    ensures var ls := SplitLines(s);
            var n := |ls[0]| + 1;
            && n <= |s| && s[..n] == ls[0] + "\n" && SplitLines(s[n..]) == ls[1..]
  {
    var ls := SplitLines(s);
    SplitJoin(s);
    SplitPieces(s, 0);
    var rest := JoinLines(ls[1..]);
    assert s == ls[0] + "\n" + rest;
    SplitFirst(ls[0], rest);
    assert ls == [ls[0]] + SplitLines(rest);
    assert s[|ls[0]| + 1..] == rest;
  }

  lemma TakeWithin(line: string, tail: string, n: nat)
    requires n <= |line|
    ensures (line + tail)[..n] == line[..n] && (line + tail)[n..] == line[n..] + tail
  {
  }

  lemma NoNewlineWithin(line: string, n: nat)
    requires NoNewline(line) && n <= |line|
    ensures NoNewline(line[..n]) && NoNewline(line[n..])
  {
    assert forall c | c in line[..n] :: c in line;
    assert forall c | c in line[n..] :: c in line;
  }

  // Part of the first line.
  lemma SplitWithin(s: string, n: nat)
    requires n <= |SplitLines(s)[0]|
    ensures var ls := SplitLines(s);
            && n <= |s| && s[..n] == ls[0][..n] && NoNewline(s[..n])
            && SplitLines(s[n..]) == [ls[0][n..]] + ls[1..]
  {
    hide SplitLines, NoNewline, JoinLines;
    var ls := SplitLines(s);
    var line := ls[0];
    SplitJoin(s);
    SplitPieces(s, 0);
    NoNewlineWithin(line, n);
    if |ls| == 1 {
      OneLine(ls);
      TakeWithin(line, "", n);
      assert line + "" == line;
      SplitFirst(line[n..], "");
      assert ls[1..] == [] && [line[n..]] + [] == [line[n..]];
    } else {
      SplitHead(s);
      var rest := s[|line| + 1..];
      assert s == s[..|line| + 1] + rest;
      assert s == line + ("\n" + rest);
      TakeWithin(line, "\n" + rest, n);
      assert line[n..] + ("\n" + rest) == line[n..] + "\n" + rest;
      SplitFirst(line[n..], rest);
    }
  }

  lemma OneLine(ls: seq<string>)
    requires |ls| == 1
    ensures JoinLines(ls) == ls[0]
  {
  }

  // ----- progress through the code

  // The mappings are in order and on lines that exist; Fitting mappings also stay inside their lines.
  ghost predicate Ordered(ms: seq<Mapping>, code: string) {
    PositionsSorted(ms) && forall m :: m in ms ==> LineInText(m.Generated(), code)
  }

  ghost predicate Fitting(ms: seq<Mapping>, code: string) {
    Ordered(ms, code) && forall m :: m in ms ==> InText(m.Generated(), code)
  }

  // The mapping that code before mapping i belongs to.
  function Previous(ms: seq<Mapping>, i: nat): Option<Mapping>
    requires i <= |ms|
  {
    if i == 0 then None else Some(ms[i - 1])
  }

  // `done` has been taken off the code and attributed as `os`; what remains starts at (line, column).
  ghost predicate Reached(done: string, os: seq<OriginalPosition>, remaining: seq<string>, code: string,
                          ms: seq<Mapping>,
                          line: int, column: int) {
    var lines := SplitLines(code);
    && |os| == |done| <= |code| && done == code[..|done|]
    && remaining == SplitLines(code[|done|..])
    && remaining != [] && 1 <= line <= |lines| && column >= 0 && remaining[1..] == lines[line..]
    && (Fitting(ms, code) ==>
          && EndOf(done) == Position(line, column)
          && |remaining[0]| + column == |lines[line - 1]|
          && forall k :: 0 <= k < |done| ==> os[k] == OriginOf(OwnerAt(ms, EndOf(code[..k]))))
  }

  lemma ReachedStart(code: string, ms: seq<Mapping>)
    ensures Reached("", [], SplitLines(code), code, ms, 1, 0)
  {
    assert code[0..] == code;
    assert SplitLines(code)[1..] == SplitLines(code)[1..];
  }

  // Between the positions of two neighbouring mappings every character belongs to the first of them.
  lemma OwnerBetween(ms: seq<Mapping>, i: nat, code: string, p: nat, q: nat, k: nat)
    requires PositionsSorted(ms) && i <= |ms| && p <= k < q <= |code|
    requires i > 0 ==> AtOrBefore(ms[i - 1].Generated(), EndOf(code[..p]))
    requires i < |ms| ==> AtOrBefore(EndOf(code[..q]), ms[i].Generated())
    ensures OwnerAt(ms, EndOf(code[..k])) == Previous(ms, i)
  {
    PrefixesAdvance(code, p, k);
    PrefixesAdvance(code, k, q);
    var pos := EndOf(code[..k]);
    forall j | i - 1 < j < |ms|
      ensures !AtOrBefore(ms[j].Generated(), pos)
    {
      assert j > i ==> AtOrBefore(ms[i].Generated(), ms[j].Generated());
    }
    OwnerAtIndex(ms, pos, i - 1);
  }

  lemma OwnMore(done: string, os: seq<OriginalPosition>, code: string, ms: seq<Mapping>, i: nat, text: string)
    requires |os| == |done| && |done + text| <= |code| && done + text == code[..|done + text|]
    requires forall k :: 0 <= k < |done| ==> os[k] == OriginOf(OwnerAt(ms, EndOf(code[..k])))
    requires PositionsSorted(ms) && i <= |ms|
    requires i > 0 ==> AtOrBefore(ms[i - 1].Generated(), EndOf(done))
    requires i < |ms| ==> AtOrBefore(EndOf(done + text), ms[i].Generated())
    ensures forall k :: 0 <= k < |done + text| ==>
              (os + Repeat(|text|, OriginOf(Previous(ms, i))))[k] == OriginOf(OwnerAt(ms, EndOf(code[..k])))
  {
    assert code[..|done|] == done;
    var o := OriginOf(Previous(ms, i));
    forall k | |done| <= k < |done + text|
      ensures (os + Repeat(|text|, o))[k] == OriginOf(OwnerAt(ms, EndOf(code[..k])))
    {
      OwnerBetween(ms, i, code, |done|, |done + text|, k);
    }
  }

  // Taking a whole line, with its newline, on the way to mapping i.
  lemma TakeLine(done: string, os: seq<OriginalPosition>, remaining: seq<string>, code: string, ms: seq<Mapping>,
                 i: nat,
                 line: int, column: int)
    requires Ordered(ms, code) && i < |ms| && line < ms[i].generatedLine
    requires Reached(done, os, remaining, code, ms, line, column)
    requires i > 0 ==> AtOrBefore(ms[i - 1].Generated(), Position(line, column))
    ensures var (text, rest) := Shift(remaining);
            Reached(done + text, os + Repeat(|text|, OriginOf(Previous(ms, i))), rest, code, ms, line + 1, 0)
  {
    assert ms[i] in ms;
    var s := code[|done|..];
    SplitHead(s);
    SplitPieces(s, 0);
    var text := remaining[0] + "\n";
    assert code == done + s && code[..|done + text|] == done + text && code[|done + text|..] == s[|text|..];
    if Fitting(ms, code) {
      EndOfConcat(done, text);
      AdvanceInLine(EndOf(done), remaining[0]);
      AdvanceConcat(EndOf(done), remaining[0], "\n");
      assert "\n"[1..] == "";
      OwnMore(done, os, code, ms, i, text);
    }
  }

  // Taking the rest of the way to the column of mapping i.
  lemma TakeColumns(done: string, os: seq<OriginalPosition>, remaining: seq<string>, code: string, ms: seq<Mapping>,
                    i: nat,
                    line: int, column: int)
    requires Ordered(ms, code) && i < |ms| && line == ms[i].generatedLine && column <= ms[i].generatedColumn
    requires Reached(done, os, remaining, code, ms, line, column)
    requires i > 0 ==> AtOrBefore(ms[i - 1].Generated(), Position(line, column))
    ensures var n := ms[i].generatedColumn - column;
            var text, left := SubstrTo(remaining[0], n), SubstrFrom(remaining[0], n);
            Reached(done + text, os + Repeat(|text|, OriginOf(Previous(ms, i))), [left] + remaining[1..], code, ms,
                    line, ms[i].generatedColumn)
  {
    assert ms[i] in ms;
    var s := code[|done|..];
    var n := ms[i].generatedColumn - column;
    var n' := Min(n, |remaining[0]|);
    SplitWithin(s, n');
    var text := SubstrTo(remaining[0], n);
    assert text == remaining[0][..n'] == s[..n'];
    assert code == done + s && code[..|done + text|] == done + text && code[|done + text|..] == s[n'..];
    if Fitting(ms, code) {
      assert InText(ms[i].Generated(), code) && n' == n;
      EndOfConcat(done, text);
      AdvanceInLine(EndOf(done), text);
      OwnMore(done, os, code, ms, i, text);
    }
  }

  // Taking everything that is left after the last mapping.
  lemma TakeRest(done: string, os: seq<OriginalPosition>, remaining: seq<string>, code: string, ms: seq<Mapping>,
                 line: int, column: int)
    requires Ordered(ms, code) && Reached(done, os, remaining, code, ms, line, column)
    requires |ms| > 0 ==> AtOrBefore(ms[|ms| - 1].Generated(), Position(line, column))
    ensures var text := JoinLines(remaining);
            && done + text == code
            && (Fitting(ms, code) ==>
                  AttributedBy(os + Repeat(|text|, OriginOf(Previous(ms, |ms|))), code, ms))
  {
    var s := code[|done|..];
    SplitJoin(s);
    assert code == done + s && code[..|done + s|] == done + s;
    if Fitting(ms, code) {
      OwnMore(done, os, code, ms, |ms|, s);
    }
  }

  // ----- the program

  // Attributes code to a mapping, as a child of its own, or to nothing.
  method AddMappingWithCode(node: SourceNode, mapping: Option<Mapping>, code: string)
    requires node.Valid() && node.origin == NOWHERE
    modifies node
    ensures node.Valid() && fresh(node.Repr - old(node.Repr))
    ensures Code(node.pieces) == old(Code(node.pieces)) + code
    ensures Origins(node.pieces) == old(Origins(node.pieces)) + Repeat(|code|, OriginOf(mapping))
  {
    ghost var before := node.pieces;
    PiecesAppend(before, Piece(code, OriginOf(mapping)));
    if code == "" {
      assert Repeat(0, OriginOf(mapping)) == [];
      assert Origins(before) + [] == Origins(before) && Code(before) + "" == Code(before);
      assert before + [] == before;
    }
    if mapping.None? || mapping.value.source.None? {
      node.Add(Snippet(code));
    } else {
      var child := new SourceNode(OriginalOf(mapping), code);
      node.Add(Node(child));
    }
  }

  // The remaining lines and the position of the first of them in the code.
  datatype Cursor = Cursor(remaining: seq<string>, line: int, column: int)

  ghost predicate At(done: string, os: seq<OriginalPosition>, c: Cursor, code: string, ms: seq<Mapping>) {
    Ordered(ms, code) ==> Reached(done, os, c.remaining, code, ms, c.line, c.column)
  }

  // The cursor stands where the mapping before i put it.
  ghost predicate AtPrevious(ms: seq<Mapping>, i: nat, c: Cursor)
    requires i <= |ms|
  {
    i > 0 ==> ms[i - 1].Generated() == Position(c.line, c.column)
  }

  // A cursor that takes whole lines does not fall behind the previous mapping.
  ghost predicate PastPrevious(ms: seq<Mapping>, i: nat, c: Cursor)
    requires i <= |ms|
  {
    i > 0 ==> AtOrBefore(ms[i - 1].Generated(), Position(c.line, c.column))
  }

  lemma AtFacts(done: string, os: seq<OriginalPosition>, c: Cursor, code: string, ms: seq<Mapping>, i: nat)
    requires At(done, os, c, code, ms) && i < |ms|
    ensures Ordered(ms, code) ==> c.remaining != [] && ms[i].generatedLine >= 1 && ms[i].generatedColumn >= 0
    ensures Ordered(ms, code) && i > 0 ==> AtOrBefore(ms[i - 1].Generated(), ms[i].Generated())
  {
    assert ms[i] in ms;
  }

  lemma RepeatMore(os: seq<OriginalPosition>, a: string, b: string, o: OriginalPosition)
    ensures os + Repeat(|a|, o) + Repeat(|b|, o) == os + Repeat(|a + b|, o)
  {
  }

  // Code before the first mapping, each line as a snippet of its own.
  method TakeUnmapped(node: SourceNode, mapping: Mapping, cursor: Cursor, ghost code: string, ghost ms: seq<Mapping>)
    returns (r: Result<Cursor>)
    requires node.Valid() && node.origin == NOWHERE && |ms| > 0 && mapping == ms[0]
    requires At(Code(node.pieces), Origins(node.pieces), cursor, code, ms)
    requires cursor.column == 0 && cursor.line == 1
    modifies node
    ensures node.Valid() && fresh(node.Repr - old(node.Repr))
    ensures Ordered(ms, code) ==> r.Ok?
    ensures r.Ok? ==> At(Code(node.pieces), Origins(node.pieces), r.value, code, ms)
    ensures r.Ok? && Ordered(ms, code) ==> AtPrevious(ms, 1, r.value)
  {
    hide Reached, Code, Origins, SubstrTo, SubstrFrom, SourceNode.Valid, Shift;
    var c := cursor;
    AtFacts(Code(node.pieces), Origins(node.pieces), c, code, ms, 0);
    while c.line < mapping.generatedLine
      invariant node.Valid() && fresh(node.Repr - old(node.Repr))
      invariant At(Code(node.pieces), Origins(node.pieces), c, code, ms)
      invariant c.column == 0 && (Ordered(ms, code) ==> c.line <= mapping.generatedLine)
      decreases mapping.generatedLine - c.line
    {
      if Ordered(ms, code) {
        TakeLine(Code(node.pieces), Origins(node.pieces), c.remaining, code, ms, 0, c.line, c.column);
      }
      var (text, rest) := Shift(c.remaining);
      AddMappingWithCode(node, None, text);
      c := Cursor(rest, c.line + 1, 0);
    }
    AtFacts(Code(node.pieces), Origins(node.pieces), c, code, ms, 0);
    if c.column < mapping.generatedColumn {
      if c.remaining == [] {
        return Err("nextLine is undefined");
      }
      if Ordered(ms, code) {
        TakeColumns(Code(node.pieces), Origins(node.pieces), c.remaining, code, ms, 0, c.line, c.column);
      }
      var nextLine := c.remaining[0];
      AddMappingWithCode(node, None, SubstrTo(nextLine, mapping.generatedColumn));
      c := Cursor([SubstrFrom(nextLine, mapping.generatedColumn)] + c.remaining[1..], c.line, mapping.generatedColumn);
    }
    r := Ok(c);
  }

  // Whole lines, and then part of a line, on the way to mapping i on a later line.
  method TakeLines(mapping: Mapping, cursor: Cursor, ghost done: string, ghost os: seq<OriginalPosition>,
                   ghost code: string, ghost ms: seq<Mapping>, ghost i: nat)
    returns (r: Result<(string, Cursor)>)
    requires 0 < i < |ms| && mapping == ms[i] && cursor.line < mapping.generatedLine
    requires At(done, os, cursor, code, ms) && (Ordered(ms, code) ==> AtPrevious(ms, i, cursor))
    ensures Ordered(ms, code) ==> r.Ok?
    ensures r.Ok? ==> At(done + r.value.0, os + Repeat(|r.value.0|, OriginOf(Some(ms[i - 1]))), r.value.1, code, ms)
    ensures r.Ok? && Ordered(ms, code) ==> AtPrevious(ms, i + 1, r.value.1)
  {
    hide Reached, SubstrTo, SubstrFrom, Shift;
    ghost var o := OriginOf(Some(ms[i - 1]));
    var taken := "";
    var c := cursor;
    assert done + "" == done && os + Repeat(0, o) == os;
    AtFacts(done, os, c, code, ms, i);
    while true
      invariant c.line < mapping.generatedLine
      invariant At(done + taken, os + Repeat(|taken|, o), c, code, ms)
      invariant Ordered(ms, code) ==> PastPrevious(ms, i, c)
      decreases mapping.generatedLine - c.line
    {
      ghost var os' := os + Repeat(|taken|, o);
      if Ordered(ms, code) {
        TakeLine(done + taken, os', c.remaining, code, ms, i, c.line, c.column);
      }
      var (text, rest) := Shift(c.remaining);
      RepeatMore(os, taken, text, o);
      assert done + taken + text == done + (taken + text);
      taken := taken + text;
      c := Cursor(rest, c.line + 1, 0);
      if c.line >= mapping.generatedLine {
        break;
      }
    }
    AtFacts(done + taken, os + Repeat(|taken|, o), c, code, ms, i);
    if c.column < mapping.generatedColumn {
      if c.remaining == [] {
        return Err("nextLine is undefined");
      }
      if Ordered(ms, code) {
        TakeColumns(done + taken, os + Repeat(|taken|, o), c.remaining, code, ms, i, c.line, c.column);
      }
      var nextLine := c.remaining[0];
      var text := SubstrTo(nextLine, mapping.generatedColumn);
      RepeatMore(os, taken, text, o);
      assert done + taken + text == done + (taken + text);
      taken := taken + text;
      c := Cursor([SubstrFrom(nextLine, mapping.generatedColumn)] + c.remaining[1..], c.line, mapping.generatedColumn);
    }
    r := Ok((taken, c));
  }

  // Cuts the code along the mappings; Err stands for the TypeError of a mapping beyond the last line.
  method FromStringWithSourceMap(code: string, mappings: seq<Mapping>) returns (r: Result<SourceNode>)
    ensures r.Ok? ==> r.value.Valid() && fresh(r.value.Repr)
    ensures Ordered(mappings, code) ==> r.Ok? && Code(r.value.pieces) == code
    ensures Fitting(mappings, code) ==> r.Ok? && AttributedBy(Origins(r.value.pieces), code, mappings)
  {
    hide Reached, SubstrTo, SubstrFrom, Shift, SourceNode.Valid, AttributedBy, Code, Origins;
    var node := new SourceNode(NOWHERE, "");
    var c := Cursor(SplitLines(code), 1, 0);
    var lastMapping: Option<Mapping> := None;
    CodeOfNothing();
    ReachedStart(code, mappings);
    for i := 0 to |mappings|
      invariant node.Valid() && fresh(node.Repr) && node.origin == NOWHERE
      invariant lastMapping == Previous(mappings, i)
      invariant i == 0 ==> c == Cursor(SplitLines(code), 1, 0)
      invariant At(Code(node.pieces), Origins(node.pieces), c, code, mappings)
      invariant Ordered(mappings, code) ==> AtPrevious(mappings, i, c)
    {
      var mapping := mappings[i];
      AtFacts(Code(node.pieces), Origins(node.pieces), c, code, mappings, i);
      if lastMapping.None? {
        var taken := TakeUnmapped(node, mapping, c, code, mappings);
        if taken.Err? {
          return Err(taken.message);
        }
        c := taken.value;
      } else if c.line < mapping.generatedLine {
        var taken := TakeLines(mapping, c, Code(node.pieces), Origins(node.pieces), code, mappings, i);
        if taken.Err? {
          return Err(taken.message);
        }
        AddMappingWithCode(node, lastMapping, taken.value.0);
        c := taken.value.1;
      } else {
        if c.remaining == [] {
          return Err("nextLine is undefined");
        }
        if Ordered(mappings, code) {
          TakeColumns(Code(node.pieces), Origins(node.pieces), c.remaining, code, mappings, i, c.line, c.column);
        }
        var nextLine := c.remaining[0];
        var length := mapping.generatedColumn - c.column;
        AddMappingWithCode(node, lastMapping, SubstrTo(nextLine, length));
        c := Cursor([SubstrFrom(nextLine, length)] + c.remaining[1..], c.line, mapping.generatedColumn);
      }
      lastMapping := Some(mapping);
    }
    if Ordered(mappings, code) {
      TakeRest(Code(node.pieces), Origins(node.pieces), c.remaining, code, mappings, c.line, c.column);
    }
    AddMappingWithCode(node, lastMapping, JoinLines(c.remaining));
    r := Ok(node);
  }

  lemma CodeOfNothing()
    ensures Code([]) == "" && Origins([]) == []
  {
  }

  // For mappings at distinct positions, every character carries what a position query for it answers.
  lemma AttributionIsSearch(os: seq<OriginalPosition>, code: string, ms: seq<Mapping>, k: nat)
    requires AttributedBy(os, code, ms) && PositionsIncrease(ms) && k < |code|
    ensures var p := EndOf(code[..k]);
            os[k] == OriginOf(BinarySearch.Search(Needle(p.line, p.column), ms, ByGeneratedPosition))
  {
    var p := EndOf(code[..k]);
    SearchFindsOwner(ms, p.line, p.column);
  }
}
