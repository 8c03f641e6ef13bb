/** Lines, and the line/column position of the end of a text. Lines count from 1 and columns from 0, as in the
    source map format; only '\n' ends a line. */
module Text {

  datatype Position = Position(line: int, column: int)

  const ORIGIN := Position(1, 0)

  function Step(p: Position, c: char): Position {
    if c == '\n' then Position(p.line + 1, 0) else Position(p.line, p.column + 1)
  }

  // The position reached by reading `s` from `p`.
  function Advance(p: Position, s: string): (r: Position)
    ensures r.line >= p.line
    ensures p.column >= 0 ==> r.column >= 0
    decreases |s|
  {
    if s == "" then p else Advance(Step(p, s[0]), s[1..])
  }

  function EndOf(s: string): (r: Position)
    ensures r.line >= 1 && r.column >= 0
  {
    Advance(ORIGIN, s)
  }

  predicate Before(p: Position, q: Position) {
    p.line < q.line || (p.line == q.line && p.column < q.column)
  }

  predicate AtOrBefore(p: Position, q: Position) {
    p == q || Before(p, q)
  }

  lemma {:induction false} AdvanceConcat(p: Position, s: string, t: string)
    ensures Advance(p, s + t) == Advance(Advance(p, s), t)
    decreases |s|
  {
    if s == "" {
      assert s + t == t;
    } else {
      assert (s + t)[0] == s[0] && (s + t)[1..] == s[1..] + t;
      AdvanceConcat(Step(p, s[0]), s[1..], t);
    }
  }

  lemma EndOfConcat(s: string, t: string)
    ensures EndOf(s + t) == Advance(EndOf(s), t)
  {
    AdvanceConcat(ORIGIN, s, t);
  }

  // Reading moves forward.
  lemma {:induction false} AdvanceForward(p: Position, s: string)
    ensures AtOrBefore(p, Advance(p, s))
    ensures s != "" && p.column >= 0 ==> Before(p, Advance(p, s))
    decreases |s|
  {
    if s == "" {
    } else {
      AdvanceForward(Step(p, s[0]), s[1..]);
    }
  }

  // ----- newlines

  function Newlines(s: string): nat {
    if s == "" then 0 else (if s[0] == '\n' then 1 else 0) + Newlines(s[1..])
  }

  lemma {:induction false} NewlinesConcat(s: string, t: string)
    ensures Newlines(s + t) == Newlines(s) + Newlines(t)
  {
    if s == "" {
      assert s + t == t;
    } else {
      assert (s + t)[0] == s[0] && (s + t)[1..] == s[1..] + t;
      NewlinesConcat(s[1..], t);
    }
  }

  lemma {:induction false} NewlinesAreLines(p: Position, s: string)
    ensures Advance(p, s).line == p.line + Newlines(s)
    decreases |s|
  {
    if s == "" {
    } else {
      NewlinesAreLines(Step(p, s[0]), s[1..]);
    }
  }

  // ----- splitting at '\n'

  // JavaScript's split('\n'): always at least one piece.
  function SplitLines(s: string): (ls: seq<string>)
    ensures |ls| >= 1
  {
    if s == "" then [""]
    else
      var rest := SplitLines(s[1..]);
      if s[0] == '\n' then [""] + rest else [[s[0]] + rest[0]] + rest[1..]
  }

  // JavaScript's join("\n")
  function JoinLines(ls: seq<string>): string {
    if |ls| == 0 then "" else if |ls| == 1 then ls[0] else ls[0] + "\n" + JoinLines(ls[1..])
  }

  predicate NoNewline(s: string) {
    '\n' !in s
  }

  lemma {:induction false} SplitJoin(s: string)
    ensures JoinLines(SplitLines(s)) == s
  {
    if s == "" {
    } else {
      var rest := SplitLines(s[1..]);
      SplitJoin(s[1..]);
      if s[0] == '\n' {
        assert ([""] + rest)[1..] == rest;
      } else {
        assert SplitLines(s)[1..] == rest[1..];
      }
    }
  }

  lemma {:induction false} SplitPieces(s: string, k: nat)
    requires k < |SplitLines(s)|
    ensures NoNewline(SplitLines(s)[k])
  {
    if s == "" {
    } else {
      if s[0] == '\n' {
        if k > 0 {
          SplitPieces(s[1..], k - 1);
        }
      } else {
        SplitPieces(s[1..], k);
      }
    }
  }

  lemma {:induction false} SplitCount(s: string)
    ensures |SplitLines(s)| == Newlines(s) + 1
  {
    if s == "" {
    } else {
      SplitCount(s[1..]);
    }
  }

  // A line without newline, alone or followed by a newline and more text.
  lemma {:induction false} SplitFirst(line: string, rest: string)
    requires NoNewline(line)
    ensures SplitLines(line) == [line]
    ensures SplitLines(line + "\n" + rest) == [line] + SplitLines(rest)
  {
    var s := line + "\n" + rest;
    if line == "" {
      assert s[0] == '\n' && s[1..] == rest;
    } else {
      assert line[0] in line && forall c | c in line[1..] :: c in line;
      assert s[0] == line[0] && s[1..] == line[1..] + "\n" + rest;
      SplitFirst(line[1..], rest);
      assert [line[0]] + line[1..] == line;
    }
  }

  lemma {:induction false} JoinSplit(lines: seq<string>)
    requires lines != [] && forall line :: line in lines ==> NoNewline(line)
    ensures SplitLines(JoinLines(lines)) == lines
  {
    assert lines[0] in lines && forall line | line in lines[1..] :: line in lines;
    if |lines| == 1 {
      SplitFirst(lines[0], "");
      assert lines == [lines[0]];
    } else {
      SplitFirst(lines[0], JoinLines(lines[1..]));
      JoinSplit(lines[1..]);
      assert lines == [lines[0]] + lines[1..];
    }
  }

  // The pieces determine where reading ends.
  lemma {:induction false} AdvanceByLines(p: Position, s: string)
    ensures Advance(p, s) ==
      var ls := SplitLines(s);
      if |ls| == 1 then Position(p.line, p.column + |ls[0]|) else Position(p.line + |ls| - 1, |ls[|ls| - 1]|)
    decreases |s|
  {
    if s == "" {
    } else {
      AdvanceByLines(Step(p, s[0]), s[1..]);
    }
  }

  lemma AdvanceInLine(p: Position, s: string)
    requires NoNewline(s)
    ensures Advance(p, s) == Position(p.line, p.column + |s|)
  {
    AdvanceByLines(p, s);
    SplitFirst(s, "");
  }
}
