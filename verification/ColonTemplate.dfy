/** Text with colon variables: finding them, and filling them in by insertion at remembered places. */
module ColonTemplates {
  import opened Wrappers
  import opened PathDots

  // ----- the pattern of a variable

  // The characters a variable may consist of.
  predicate NameChar(c: char) {
    'a' <= c <= 'z' || 'A' <= c <= 'Z' || '0' <= c <= '9' || c == '-' || c == '_' || c == '.' || c == '[' || c == ']'
  }

  // Those are the letters, the digits and five signs.
  lemma NameCharsAre(c: char)
    ensures NameChar(c) <==>
            || c in {'a', 'b', 'c', 'd', 'e', 'f', 'g', 'h', 'i', 'j', 'k', 'l', 'm'}
            || c in {'n', 'o', 'p', 'q', 'r', 's', 't', 'u', 'v', 'w', 'x', 'y', 'z'}
            || c in {'A', 'B', 'C', 'D', 'E', 'F', 'G', 'H', 'I', 'J', 'K', 'L', 'M'}
            || c in {'N', 'O', 'P', 'Q', 'R', 'S', 'T', 'U', 'V', 'W', 'X', 'Y', 'Z'}
            || c in {'0', '1', '2', '3', '4', '5', '6', '7', '8', '9'}
            || c in {'-', '_', '.', '[', ']'}
  {
    var n := c as int;
    assert c == n as char;
  }

  // What counts as part of a word is left to the character tables, except for the characters of the pattern itself.
  ghost predicate WordTable(isWord: char -> bool) {
    && (forall c :: 'a' <= c <= 'z' || 'A' <= c <= 'Z' || '0' <= c <= '9' || c == '_' ==> isWord(c))
    && !isWord('-') && !isWord('.') && !isWord('[') && !isWord(']') && !isWord('}')
  }

  predicate Boundary(isWord: char -> bool, s: string, e: nat)
    requires e <= |s|
  {
    (e > 0 && isWord(s[e - 1])) != (e < |s| && isWord(s[e]))
  }

  // A variable at a place: its name lies between group and groupEnd, and the text goes on at end.
  datatype Match = Match(start: nat, group: nat, groupEnd: nat, end: nat)

  // What the pattern admits.
  predicate Admits(isWord: char -> bool, s: string, m: Match) {
    && m.start < m.group < m.groupEnd <= m.end <= |s|
    && s[m.start] == ':' && (m.group == m.start + 1 || (m.group == m.start + 2 && s[m.start + 1] == '{'))
    && (forall k :: m.group <= k < m.groupEnd ==> NameChar(s[k]))
    && Boundary(isWord, s, m.groupEnd)
    && (m.end == m.groupEnd || (m.end == m.groupEnd + 1 && s[m.groupEnd] == '}'))
  }

  // The end of the run of variable characters.
  function RunEnd(s: string, from: nat): (r: nat)
    requires from <= |s|
    ensures from <= r <= |s| && (forall k :: from <= k < r ==> NameChar(s[k])) && (r < |s| ==> !NameChar(s[r]))
    decreases |s| - from
  {
    if from < |s| && NameChar(s[from]) then RunEnd(s, from + 1) else from
  }

  // Backtracks from the end of the run to the last word boundary after the first character; the start itself if there
  // is none.
  function LastBoundary(isWord: char -> bool, s: string, g: nat, r: nat): (e: nat)
    requires g <= r <= |s|
    ensures g <= e <= r && (e > g ==> Boundary(isWord, s, e))
    ensures forall k :: e < k <= r ==> k > g && !Boundary(isWord, s, k)
  {
    if r == g then g else if Boundary(isWord, s, r) then r else LastBoundary(isWord, s, g, r - 1)
  }

  // The match at one place, if there is one.
  function MatchAt(isWord: char -> bool, s: string, i: nat): Option<Match>
    requires i < |s|
  {
    if s[i] != ':' then None
    else
      var g := if i + 1 < |s| && s[i + 1] == '{' then i + 2 else i + 1;
      var e := LastBoundary(isWord, s, g, RunEnd(s, g));
      if e == g then None else Some(Match(i, g, e, if e < |s| && s[e] == '}' then e + 1 else e))
  }

  function FindMatch(isWord: char -> bool, s: string, from: nat): Option<Match>
    requires from <= |s|
    decreases |s| - from
  {
    if from == |s| then None
    else
      var m := MatchAt(isWord, s, from);
      if m.Some? then m else FindMatch(isWord, s, from + 1)
  }

  // The match found is one the pattern admits; nothing it admits starts earlier or, starting there, has a longer name.
  lemma {:induction false} FindsFirst(isWord: char -> bool, s: string, from: nat)
    requires from <= |s|
    ensures var m := FindMatch(isWord, s, from);
            && (m.Some? ==> from <= m.value.start && Admits(isWord, s, m.value))
            && (forall n :: Admits(isWord, s, n) && n.start >= from ==>
                  m.Some? && (m.value.start < n.start || (m.value.start == n.start && n.groupEnd <= m.value.groupEnd)))
    decreases |s| - from
  {
    if from == |s| {
    } else {
      FindsFirst(isWord, s, from + 1);
      forall n | Admits(isWord, s, n) && n.start == from
        ensures var m := MatchAt(isWord, s, from); m.Some? && n.groupEnd <= m.value.groupEnd
      {
        AdmittedEnd(isWord, s, n);
      }
    }
  }

  lemma AdmittedEnd(isWord: char -> bool, s: string, n: Match)
    requires Admits(isWord, s, n)
    ensures var m := MatchAt(isWord, s, n.start); m.Some? && n.groupEnd <= m.value.groupEnd
  {
    var i := n.start;
    var g := if i + 1 < |s| && s[i + 1] == '{' then i + 2 else i + 1;
    assert NameChar(s[n.group]);
    assert n.group == g;
    var r := RunEnd(s, g);
    assert n.groupEnd <= r;
  }

  // ----- a text as a sequence of pieces

  datatype Piece = Literal(text: string) | Hole(path: Path)

  function Prepend(pieces: seq<Piece>, rest: Result<seq<Piece>>): Result<seq<Piece>> {
    if rest.Err? then rest else Ok(pieces + rest.value)
  }

  // The text from left to right; a variable whose path cannot be parsed makes the whole text invalid.
  function Pieces(isWord: char -> bool, s: string, from: nat): Result<seq<Piece>>
    requires from <= |s|
    decreases |s| - from
  {
    var m := FindMatch(isWord, s, from);
    if m.None? then Ok([Literal(s[from..])])
    else
      FindsFirst(isWord, s, from);
      var path := Parsed(s[m.value.group..m.value.groupEnd]);
      if path.Err? then Err(path.message)
      else Prepend([Literal(s[from..m.value.start]), Hole(path.value)], Pieces(isWord, s, m.value.end))
  }

  // Filling in, piece by piece.
  function Fill(pieces: seq<Piece>, value: Path -> string): string {
    if pieces == [] then ""
    else (if pieces[0].Literal? then pieces[0].text else value(pieces[0].path)) + Fill(pieces[1..], value)
  }

  // ----- the compiled form

  datatype Variable = Variable(path: Path, pos: nat)
  datatype Template =
    | WithVariables(original: string, base: string, entries: seq<Variable>)
    | WithoutVariables(original: string)

  function Base(pieces: seq<Piece>): string {
    if pieces == [] then "" else (if pieces[0].Literal? then pieces[0].text else "") + Base(pieces[1..])
  }

  // The variables with their places in the base.
  function Entries(pieces: seq<Piece>, pos: nat): seq<Variable> {
    if pieces == [] then []
    else if pieces[0].Literal? then Entries(pieces[1..], pos + |pieces[0].text|)
    else [Variable(pieces[0].path, pos)] + Entries(pieces[1..], pos)
  }

  function Compiled(isWord: char -> bool, s: string): Result<Template> {
    var pieces := Pieces(isWord, s, 0);
    if pieces.Err? then Err(pieces.message)
    else if Entries(pieces.value, 0) == [] then Ok(WithoutVariables(s))
    else Ok(WithVariables(s, Base(pieces.value), Entries(pieces.value, 0)))
  }

  lemma {:induction false} BaseConcat(x: seq<Piece>, y: seq<Piece>)
    ensures Base(x + y) == Base(x) + Base(y)
  {
    if x == [] {
      assert x + y == y;
    } else {
      assert (x + y)[0] == x[0] && (x + y)[1..] == x[1..] + y;
      BaseConcat(x[1..], y);
    }
  }

  lemma {:induction false} EntriesConcat(x: seq<Piece>, y: seq<Piece>, pos: nat)
    ensures Entries(x + y, pos) == Entries(x, pos) + Entries(y, pos + |Base(x)|)
  {
    if x == [] {
      assert x + y == y;
    } else {
      assert (x + y)[0] == x[0] && (x + y)[1..] == x[1..] + y;
      EntriesConcat(x[1..], y, if x[0].Literal? then pos + |x[0].text| else pos);
    }
  }

  lemma LiteralAndHole(text: string, path: Path, pos: nat)
    ensures var x := [Literal(text), Hole(path)]; Base(x) == text && Entries(x, pos) == [Variable(path, pos + |text|)]
  {
    var x := [Literal(text), Hole(path)];
    assert x[1..] == [Hole(path)] && x[1..][1..] == [];
    assert Base(x[1..]) == "" + Base([]) == "";
    assert Base(x) == text + "";
    assert Entries(x[1..], pos + |text|) == [Variable(path, pos + |text|)] + Entries([], pos + |text|);
  }

  lemma OnlyLiteral(text: string, pos: nat)
    ensures Base([Literal(text)]) == text && Entries([Literal(text)], pos) == []
  {
    assert [Literal(text)][1..] == [];
    assert text + Base([]) == text;
  }

  lemma PrependTwice(x: seq<Piece>, y: seq<Piece>, rest: Result<seq<Piece>>)
    ensures Prepend(x, Prepend(y, rest)) == Prepend(x + y, rest) && Prepend([], rest) == rest
  {
    if rest.Ok? {
      assert x + (y + rest.value) == x + y + rest.value && [] + rest.value == rest.value;
    }
  }

  method Build(isWord: char -> bool, val: string) returns (template: Result<Template>)
    ensures template == Compiled(isWord, val)
  {
    hide Base, Entries, FindMatch, Parsed, Prepend;
    var sb := "";
    var entries: seq<Variable> := [];
    var pos := 0;
    ghost var pieces: seq<Piece> := [];
    PrependTwice([], [], Pieces(isWord, val, 0));
    NoPieces();
    var m := FindMatch(isWord, val, pos);
    while m.Some?
      invariant pos <= |val| && m == FindMatch(isWord, val, pos)
      invariant sb == Base(pieces) && entries == Entries(pieces, 0)
      invariant Prepend(pieces, Pieces(isWord, val, pos)) == Pieces(isWord, val, 0)
      decreases |val| - pos
    {
      FindsFirst(isWord, val, pos);
      var start, end := m.value.start, m.value.end;
      var path := Parse(val[m.value.group..m.value.groupEnd]);
      if path.Err? {
        PrependError(pieces, path.message);
        return Err(path.message);
      }
      ghost var more := [Literal(val[pos..start]), Hole(path.value)];
      PrependTwice(pieces, more, Pieces(isWord, val, end));
      BaseConcat(pieces, more);
      EntriesConcat(pieces, more, 0);
      LiteralAndHole(val[pos..start], path.value, |sb|);
      pieces := pieces + more;
      if start > pos {
        sb := sb + val[pos..start];
      } else {
        assert val[pos..start] == "" && sb + "" == sb;
      }
      entries := entries + [Variable(path.value, |sb|)];
      pos := end;
      m := FindMatch(isWord, val, pos);
    }
    ghost var last := [Literal(val[pos..])];
    PrependOk(pieces, last);
    BaseConcat(pieces, last);
    EntriesConcat(pieces, last, 0);
    OnlyLiteral(val[pos..], |sb|);
    assert entries + [] == entries && val[pos..|val|] == val[pos..];
    if pos < |val| {
      sb := sb + val[pos..|val|];
    } else {
      assert val[pos..] == "" && sb + "" == sb;
    }
    if |entries| > 0 {
      template := Ok(WithVariables(val, sb, entries));
    } else {
      template := Ok(WithoutVariables(val));
    }
  }

  lemma NoPieces()
    ensures Base([]) == "" && Entries([], 0) == []
  {
  }

  lemma PrependError(x: seq<Piece>, message: string)
    ensures Prepend(x, Err(message)) == Err(message)
  {
  }

  lemma PrependOk(x: seq<Piece>, y: seq<Piece>)
    ensures Prepend(x, Ok(y)) == Ok(x + y)
  {
  }

  // ----- filling in by insertion

  // Places in ascending order within the base.
  predicate Ascending(entries: seq<Variable>, from: nat, to: nat) {
    && (forall k :: 0 <= k < |entries| ==> from <= entries[k].pos <= to)
    && (forall j, k :: 0 <= j < k < |entries| ==> entries[j].pos <= entries[k].pos)
  }

  // The base with the values between its parts.
  function Spliced(base: string, from: nat, entries: seq<Variable>, value: Path -> string): string
    requires from <= |base| && Ascending(entries, from, |base|)
    decreases |entries|
  {
    if entries == [] then base[from..]
    else base[from..entries[0].pos] + value(entries[0].path) + Spliced(base, entries[0].pos, entries[1..], value)
  }

  // A missing value is filled in as nothing.
  function OrNothing(lookup: Path -> Option<string>): Path -> string {
    path => if lookup(path).Some? then lookup(path).value else ""
  }

  function Insert(s: string, at: nat, val: string): string
    requires at <= |s|
  {
    s[..at] + val + s[at..]
  }

  lemma SpliceStep(base: string, from: nat, pos: nat, done: string, val: string, rest: string)
    requires from <= pos <= |base|
    ensures Insert(done + base[from..], |done| + (pos - from), val) == done + base[from..pos] + val + base[pos..]
    ensures done + (base[from..pos] + val + rest) == done + base[from..pos] + val + rest
  {
    var s := done + base[from..];
    assert s[..|done| + (pos - from)] == done + base[from..pos];
    assert s[|done| + (pos - from)..] == base[pos..];
  }

  lemma SplicedRest(base: string, from: nat, entries: seq<Variable>, i: nat, value: Path -> string)
    requires from <= |base| && i < |entries| && Ascending(entries[i..], from, |base|)
    ensures from <= entries[i].pos <= |base| && Ascending(entries[i + 1..], entries[i].pos, |base|)
    ensures Spliced(base, from, entries[i..], value)
         == base[from..entries[i].pos] + value(entries[i].path) + Spliced(base, entries[i].pos, entries[i + 1..], value)
  {
    var rest := entries[i..];
    assert rest[0] == entries[i] && rest[1..] == entries[i + 1..];
    assert forall k | 0 <= k < |rest| - 1 :: rest[1..][k] == rest[k + 1];
  }

  method Apply(base: string, entries: seq<Variable>, lookup: Path -> Option<string>) returns (output: string)
    requires Ascending(entries, 0, |base|)
    ensures output == Spliced(base, 0, entries, OrNothing(lookup))
  {
    hide Ascending, Spliced, Insert;
    output := base;
    var offset := 0;
    ghost var value := OrNothing(lookup);
    ghost var done: string, from: nat := "", 0;
    assert entries[0..] == entries && base[0..] == base && "" + base == base;
    for i := 0 to |entries|
      invariant from <= |base| && Ascending(entries[i..], from, |base|)
      invariant output == done + base[from..] && |done| == from + offset
      invariant done + Spliced(base, from, entries[i..], value) == Spliced(base, 0, entries, value)
    {
      var variable := entries[i];
      SplicedRest(base, from, entries, i, value);
      var val := lookup(variable.path);
      ghost var text := value(variable.path);
      SpliceStep(base, from, variable.pos, done, text, Spliced(base, variable.pos, entries[i + 1..], value));
      if val.Some? {
        output := Insert(output, variable.pos + offset, val.value);
        offset := offset + |val.value|;
      } else {
        InsertNothing(output, |done| + (variable.pos - from));
      }
      done, from := done + base[from..variable.pos] + text, variable.pos;
    }
    assert entries[|entries|..] == [];
    SplicedEnd(base, from, value);
  }

  lemma InsertNothing(s: string, at: nat)
    requires at <= |s|
    ensures Insert(s, at, "") == s
  {
  }

  lemma SplicedEnd(base: string, from: nat, value: Path -> string)
    requires from <= |base|
    ensures Ascending([], from, |base|) && Spliced(base, from, [], value) == base[from..]
  {
  }

  function Constantly(val: string): Path -> string {
    _ => val
  }

  // The same placeholder for every variable.
  method WithPlaceholder(base: string, entries: seq<Variable>, val: string) returns (output: string)
    requires Ascending(entries, 0, |base|)
    ensures output == Spliced(base, 0, entries, Constantly(val))
  {
    hide Ascending, Spliced, Insert;
    output := base;
    var offset := 0;
    ghost var value := Constantly(val);
    ghost var done: string, from: nat := "", 0;
    assert entries[0..] == entries && base[0..] == base && "" + base == base;
    for i := 0 to |entries|
      invariant from <= |base| && Ascending(entries[i..], from, |base|)
      invariant output == done + base[from..] && |done| == from + offset
      invariant done + Spliced(base, from, entries[i..], value) == Spliced(base, 0, entries, value)
    {
      var variable := entries[i];
      SplicedRest(base, from, entries, i, value);
      SpliceStep(base, from, variable.pos, done, val, Spliced(base, variable.pos, entries[i + 1..], value));
      output := Insert(output, variable.pos + offset, val);
      offset := offset + |val|;
      done, from := done + base[from..variable.pos] + val, variable.pos;
    }
    assert entries[|entries|..] == [];
    SplicedEnd(base, from, value);
  }

  // ----- insertion is filling in from left to right

  lemma AscendingCons(first: Variable, rest: seq<Variable>, from: nat, to: nat)
    requires from == first.pos <= to && Ascending(rest, from, to)
    ensures Ascending([first] + rest, from, to)
  {
    var all := [first] + rest;
    assert forall k | 0 < k < |all| :: all[k] == rest[k - 1];
  }

  lemma AscendingWider(entries: seq<Variable>, from: nat, to: nat, start: nat)
    requires start <= from && Ascending(entries, from, to)
    ensures Ascending(entries, start, to)
  {
  }

  lemma {:induction false} EntriesAscend(pieces: seq<Piece>, pos: nat)
    ensures Ascending(Entries(pieces, pos), pos, pos + |Base(pieces)|)
  {
    if pieces == [] {
    } else {
      hide Ascending;
      var rest := pieces[1..];
      if pieces[0].Literal? {
        var next := pos + |pieces[0].text|;
        EntriesAscend(rest, next);
        assert pos + |Base(pieces)| == next + |Base(rest)|;
        AscendingWider(Entries(rest, next), next, next + |Base(rest)|, pos);
      } else {
        EntriesAscend(rest, pos);
        AscendingCons(Variable(pieces[0].path, pos), Entries(rest, pos), pos, pos + |Base(rest)|);
      }
    }
  }

  lemma SplicedLater(base: string, from: nat, to: nat, entries: seq<Variable>, value: Path -> string)
    requires from <= to <= |base| && Ascending(entries, to, |base|)
    ensures Spliced(base, from, entries, value) == base[from..to] + Spliced(base, to, entries, value)
  {
    if entries == [] {
      assert base[from..] == base[from..to] + base[to..];
    } else {
      var pos := entries[0].pos;
      var rest := value(entries[0].path) + Spliced(base, pos, entries[1..], value);
      assert base[from..pos] == base[from..to] + base[to..pos];
      assert base[from..pos] + value(entries[0].path) + Spliced(base, pos, entries[1..], value)
          == base[from..pos] + rest;
      assert base[to..pos] + value(entries[0].path) + Spliced(base, pos, entries[1..], value) == base[to..pos] + rest;
    }
  }

  lemma {:induction false} SplicedPieces(done: string, pieces: seq<Piece>, value: Path -> string)
    ensures Ascending(Entries(pieces, |done|), |done|, |done + Base(pieces)|)
    ensures Spliced(done + Base(pieces), |done|, Entries(pieces, |done|), value) == Fill(pieces, value)
    decreases |pieces|
  {
    hide Ascending, Spliced;
    EntriesAscend(pieces, |done|);
    var base := done + Base(pieces);
    if pieces == [] {
      SplicedEnd(base, |done|, value);
    } else {
      var rest := pieces[1..];
      if pieces[0].Literal? {
        var text := pieces[0].text;
        assert done + text + Base(rest) == base;
        SplicedPieces(done + text, rest, value);
        SplicedLater(base, |done|, |done + text|, Entries(rest, |done + text|), value);
        assert base[|done|..|done + text|] == text;
      } else {
        assert base == done + Base(rest);
        SplicedPieces(done, rest, value);
        var entries := Entries(pieces, |done|);
        assert entries[0..] == entries && entries[1..] == Entries(rest, |done|);
        SplicedRest(base, |done|, entries, 0, value);
        assert base[|done|..|done|] == "";
      }
    }
  }

  // A compiled text filled in by insertion is its pieces filled in from left to right,
  // and a text without variables is filled in as it is.
  lemma CompiledIsPieces(isWord: char -> bool, s: string, value: Path -> string)
    requires Compiled(isWord, s).Ok?
    ensures Pieces(isWord, s, 0).Ok?
    ensures var filled := Fill(Pieces(isWord, s, 0).value, value);
            match Compiled(isWord, s).value
            case WithVariables(original, base, entries) =>
              original == s && Ascending(entries, 0, |base|) && Spliced(base, 0, entries, value) == filled
            case WithoutVariables(original) => original == s == filled
  {
    hide Ascending, Spliced, FindMatch, Parsed;
    var pieces := Pieces(isWord, s, 0).value;
    SplicedPieces("", pieces, value);
    assert "" + Base(pieces) == Base(pieces);
    if Entries(pieces, 0) == [] {
      NoEntries(isWord, s);
      assert s[0..] == s;
      assert [Literal(s)][1..] == [];
      assert s + Fill([], value) == s;
    }
  }

  lemma NoEntries(isWord: char -> bool, s: string)
    requires Pieces(isWord, s, 0).Ok? && Entries(Pieces(isWord, s, 0).value, 0) == []
    ensures Pieces(isWord, s, 0).value == [Literal(s[0..])]
  {
    hide Parsed, FindMatch;
    var m := FindMatch(isWord, s, 0);
    if m.Some? {
      FindsFirst(isWord, s, 0);
      var path := Parsed(s[m.value.group..m.value.groupEnd]).value;
      var head := [Literal(s[0..m.value.start]), Hole(path)];
      var rest := Pieces(isWord, s, m.value.end).value;
      EntriesConcat(head, rest, 0);
      LiteralAndHole(s[0..m.value.start], path, 0);
      assert false;
    }
  }

  // ----- written texts are read as they were meant

  function Source(pieces: seq<Piece>): string {
    if pieces == [] then ""
    else PieceText(pieces[0]) + Source(pieces[1..])
  }

  // A path that can be written between braces: it survives being printed, in characters of variables and with a word
  // character last.
  ghost predicate Writable(isWord: char -> bool, path: Path) {
    var d := Dots(path);
    WellFormed(path) && d != "" && (forall k :: 0 <= k < |d| ==> NameChar(d[k])) && isWord(d[|d| - 1])
  }

  ghost predicate AllWritable(isWord: char -> bool, pieces: seq<Piece>) {
    forall k :: 0 <= k < |pieces| ==>
      if pieces[k].Literal? then ':' !in pieces[k].text else Writable(isWord, pieces[k].path)
  }

  lemma {:induction false} RunThrough(s: string, from: nat, to: nat)
    requires from <= to < |s| && (forall k :: from <= k < to ==> NameChar(s[k])) && !NameChar(s[to])
    ensures RunEnd(s, from) == to
    decreases |s| - from
  {
    if from < to {
      RunThrough(s, from + 1, to);
    }
  }

  lemma {:induction false} SkipLiteral(isWord: char -> bool, s: string, from: nat, to: nat)
    requires from <= to <= |s| && ':' !in s[from..to]
    ensures FindMatch(isWord, s, from) == FindMatch(isWord, s, to)
    decreases |s| - from
  {
    if from < to {
      assert s[from] == s[from..to][0];
      assert forall c | c in s[from + 1..to] :: c in s[from..to] by {
        assert s[from..to][1..] == s[from + 1..to];
      }
      SkipLiteral(isWord, s, from + 1, to);
    }
  }

  lemma FillHead(text: string, path: Path, rest: seq<Piece>, value: Path -> string)
    ensures Fill([Literal(text), Hole(path)] + rest, value) == text + value(path) + Fill(rest, value)
    ensures Fill([Literal(text)], value) == text
  {
    var all := [Literal(text), Hole(path)] + rest;
    assert all[1..] == [Hole(path)] + rest && all[1..][1..] == rest;
    assert text + (value(path) + Fill(rest, value)) == text + value(path) + Fill(rest, value);
    assert [Literal(text)][1..] == [];
    assert text + Fill([], value) == text;
  }

  lemma LiteralRead(isWord: char -> bool, s: string, from: nat, to: nat, value: Path -> string)
    requires from <= to <= |s| && ':' !in s[from..to] && Pieces(isWord, s, to).Ok?
    ensures Pieces(isWord, s, from).Ok?
    ensures Fill(Pieces(isWord, s, from).value, value) == s[from..to] + Fill(Pieces(isWord, s, to).value, value)
  {
    hide FindMatch, Parsed, Fill;
    SkipLiteral(isWord, s, from, to);
    var m := FindMatch(isWord, s, to);
    FindsFirst(isWord, s, to);
    if m.None? {
      FillHead(s[from..], [], [], value);
      FillHead(s[to..], [], [], value);
      assert s[from..] == s[from..to] + s[to..];
    } else {
      var path := Parsed(s[m.value.group..m.value.groupEnd]).value;
      var rest := Pieces(isWord, s, m.value.end).value;
      FillHead(s[from..m.value.start], path, rest, value);
      FillHead(s[to..m.value.start], path, rest, value);
      assert s[from..m.value.start] == s[from..to] + s[to..m.value.start];
      assert s[from..to] + s[to..m.value.start] + value(path) + Fill(rest, value)
          == s[from..to] + (s[to..m.value.start] + value(path) + Fill(rest, value));
    }
  }

  lemma HoleMatched(isWord: char -> bool, s: string, from: nat, d: string)
    requires WordTable(isWord) && d != "" && (forall k :: 0 <= k < |d| ==> NameChar(d[k])) && isWord(d[|d| - 1])
    requires from + |d| + 3 <= |s| && s[from..from + |d| + 3] == ":{" + d + "}"
    ensures FindMatch(isWord, s, from) == Some(Match(from, from + 2, from + 2 + |d|, from + 3 + |d|))
    ensures s[from + 2..from + 2 + |d|] == d
  {
    hide WordTable, NameChar, RunEnd;
    var g, e := from + 2, from + 2 + |d|;
    HoleChars(s, from, d);
    assert !NameChar('}') by {
      BraceIsNoName();
    }
    RunThrough(s, g, e);
    BraceIsNoWord(isWord);
    assert s[e - 1] == d[|d| - 1];
    assert Boundary(isWord, s, e);
    assert LastBoundary(isWord, s, g, e) == e;
  }

  lemma HoleChars(s: string, from: nat, d: string)
    requires from + |d| + 3 <= |s| && s[from..from + |d| + 3] == ":{" + d + "}"
    ensures s[from] == ':' && s[from + 1] == '{' && s[from + 2 + |d|] == '}'
    ensures forall k :: from + 2 <= k < from + 2 + |d| ==> s[k] == d[k - from - 2]
    ensures s[from + 2..from + 2 + |d|] == d
  {
    var w := s[from..from + |d| + 3];
    assert w[0] == s[from] && w[1] == s[from + 1] && w[2 + |d|] == s[from + 2 + |d|];
    forall k | from + 2 <= k < from + 2 + |d|
      ensures s[k] == d[k - from - 2]
    {
      assert w[k - from] == d[k - from - 2];
    }
  }

  lemma BraceIsNoName()
    ensures !NameChar('}')
  {
  }

  lemma BraceIsNoWord(isWord: char -> bool)
    requires WordTable(isWord)
    ensures !isWord('}')
  {
  }

  lemma HoleRead(isWord: char -> bool, s: string, from: nat, path: Path, value: Path -> string)
    requires WordTable(isWord) && Writable(isWord, path)
    requires var d := Dots(path); from + |d| + 3 <= |s| && s[from..from + |d| + 3] == ":{" + d + "}"
    requires Pieces(isWord, s, from + |Dots(path)| + 3).Ok?
    ensures Pieces(isWord, s, from).Ok?
    ensures Fill(Pieces(isWord, s, from).value, value)
         == value(path) + Fill(Pieces(isWord, s, from + |Dots(path)| + 3).value, value)
  {
    hide FindMatch, Parsed, Fill, WordTable, WellFormed, Dots;
    var d := Dots(path);
    HoleMatched(isWord, s, from, d);
    DotsRoundTrip(path);
    FillHead(s[from..from], path, Pieces(isWord, s, from + |d| + 3).value, value);
    assert s[from..from] == "";
    assert "" + value(path) == value(path);
  }

  function PieceText(piece: Piece): string {
    if piece.Literal? then piece.text else ":{" + Dots(piece.path) + "}"
  }

  lemma TextAt(s: string, from: nat, text: string, rest: string)
    requires from <= |s| && s[from..] == text + rest
    ensures from + |text| <= |s| && s[from..from + |text|] == text && s[from + |text|..] == rest
  {
    var t := s[from..];
    assert t[..|text|] == text && t[|text|..] == rest;
  }

  lemma {:induction false} SourceRead(isWord: char -> bool, s: string, from: nat, pieces: seq<Piece>,
                                      value: Path -> string)
    requires WordTable(isWord) && AllWritable(isWord, pieces)
    requires from <= |s| && s[from..] == Source(pieces)
    ensures Pieces(isWord, s, from).Ok? && Fill(Pieces(isWord, s, from).value, value) == Fill(pieces, value)
    decreases |pieces|
  {
    hide Pieces, WordTable, Writable, PieceText;
    if pieces == [] {
      assert s[from..] == "";
      assert from == |s|;
      AtEnd(isWord, s, value);
    } else {
      var rest := pieces[1..];
      assert AllWritable(isWord, rest) by {
        assert forall k | 0 <= k < |rest| :: rest[k] == pieces[k + 1];
      }
      var text := PieceText(pieces[0]);
      TextAt(s, from, text, Source(rest));
      SourceRead(isWord, s, from + |text|, rest, value);
      assert if pieces[0].Literal? then ':' !in pieces[0].text else Writable(isWord, pieces[0].path);
      PieceRead(isWord, s, from, pieces[0], value);
    }
  }

  lemma PieceRead(isWord: char -> bool, s: string, from: nat, piece: Piece, value: Path -> string)
    requires WordTable(isWord) && if piece.Literal? then ':' !in piece.text else Writable(isWord, piece.path)
    requires from + |PieceText(piece)| <= |s| && s[from..from + |PieceText(piece)|] == PieceText(piece)
    requires Pieces(isWord, s, from + |PieceText(piece)|).Ok?
    ensures Pieces(isWord, s, from).Ok?
    ensures Fill(Pieces(isWord, s, from).value, value)
         == (if piece.Literal? then piece.text else value(piece.path))
             + Fill(Pieces(isWord, s, from + |PieceText(piece)|).value, value)
  {
    hide Pieces, WordTable, Writable, Fill, Dots;
    if piece.Literal? {
      LiteralRead(isWord, s, from, from + |piece.text|, value);
    } else {
      HoleRead(isWord, s, from, piece.path, value);
    }
  }

  lemma AtEnd(isWord: char -> bool, s: string, value: Path -> string)
    ensures Pieces(isWord, s, |s|).Ok? && Fill(Pieces(isWord, s, |s|).value, value) == ""
  {
    assert s[|s|..] == "";
    FillHead(s[|s|..], [], [], value);
  }

  // A text written with its variables between braces is filled in as written: compiling loses and adds nothing.
  lemma WrittenIsRead(isWord: char -> bool, pieces: seq<Piece>, value: Path -> string)
    requires WordTable(isWord) && AllWritable(isWord, pieces)
    ensures var t := Compiled(isWord, Source(pieces));
            t.Ok? && match t.value
              case WithVariables(_, base, entries) =>
                Ascending(entries, 0, |base|) && Spliced(base, 0, entries, value) == Fill(pieces, value)
              case WithoutVariables(original) => original == Fill(pieces, value)
  {
    hide Pieces, Ascending, Spliced, AllWritable, WordTable, Fill;
    assert Source(pieces)[0..] == Source(pieces);
    SourceRead(isWord, Source(pieces), 0, pieces, value);
    CompiledIsPieces(isWord, Source(pieces), value);
  }
}
