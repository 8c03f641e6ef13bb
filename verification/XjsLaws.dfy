/** What the parts of JSX text are, without the functions that find them: its lines, their blanks and what is left of
    them; and where they come to stand in the rendered text. */
module XjsLaws {
  import opened Text
  import opened XjsLiteral

  // ----- what trimming leaves

  // `t` is one slice of the line, with tabs as spaces and only spaces around it. Before the first line break nothing is
  // cut off in front and after the last one nothing at the end; elsewhere all spaces are.
  ghost predicate IsTrimmed(line: string, first: bool, last: bool, t: string) {
    exists i, j :: IsCut(line, first, last, i, j, t)
  }

  ghost predicate IsCut(line: string, first: bool, last: bool, i: int, j: int, t: string) {
    && 0 <= i <= j <= |line| && t == Untabbed(line)[i..j]
    && (forall k :: 0 <= k < i || j <= k < |line| ==> line[k] == ' ' || line[k] == '\t')
    && (if first then i == 0 else t != "" ==> t[0] != ' ')
    && (if last then j == |line| else t != "" ==> t[|t| - 1] != ' ')
  }

  lemma {:induction false} TrimLeftIs(s: string) returns (i: nat)
    ensures i <= |s| && TrimLeft(s) == s[i..] && forall k :: 0 <= k < i ==> s[k] == ' '
    ensures i < |s| ==> s[i] != ' '
  {
    if s != "" && s[0] == ' ' {
      i := TrimLeftIs(s[1..]);
      i := i + 1;
    } else {
      i := 0;
    }
  }

  lemma {:induction false} TrimRightIs(s: string) returns (j: nat)
    ensures j <= |s| && TrimRight(s) == s[..j] && forall k :: j <= k < |s| ==> s[k] == ' '
    ensures j > 0 ==> s[j - 1] != ' '
  {
    if s != "" && s[|s| - 1] == ' ' {
      j := TrimRightIs(s[..|s| - 1]);
    } else {
      j := |s|;
    }
  }

  lemma TrimmedIs(lines: seq<string>, k: nat)
    requires k < |lines|
    ensures IsTrimmed(lines[k], k == 0, k == |lines| - 1, Trimmed(lines, k))
  {
    hide TrimLeft, TrimRight;
    var line := lines[k];
    var s := Untabbed(line);
    var i, j := 0, |s|;
    if k > 0 {
      i := TrimLeftIs(s);
    }
    var t := s[i..];
    if k < |lines| - 1 {
      j := TrimRightIs(t);
      j := i + j;
    }
    assert s[i..j] == t[..j - i];
    assert IsCut(line, k == 0, k == |lines| - 1, i, j, Trimmed(lines, k));
  }

  // There is no other such text.
  lemma TrimmedOnly(line: string, first: bool, last: bool, t: string, u: string)
    requires IsTrimmed(line, first, last, t) && IsTrimmed(line, first, last, u)
    ensures t == u
  {
    hide IsCut;
    var i, j :| IsCut(line, first, last, i, j, t);
    var a, b :| IsCut(line, first, last, a, b, u);
    CutWithin(line, first, last, i, j, t, a, b, u);
    CutWithin(line, first, last, a, b, u, i, j, t);
  }

  // The character at either end of a cut is one that every other cut has to have.
  lemma CutWithin(line: string, first: bool, last: bool, i: int, j: int, t: string, a: int, b: int, u: string)
    requires IsCut(line, first, last, i, j, t) && IsCut(line, first, last, a, b, u)
    ensures t != "" ==> u != "" && a <= i && j <= b
    ensures i == a && j == b ==> t == u
  {
    if t != "" {
      var s := Untabbed(line);
      assert t[0] == s[i] && t[|t| - 1] == s[j - 1];
    }
  }

  // ----- the blanks of a line

  predicate Blank(c: char) {
    c == ' ' || c == '\t'
  }

  // The longest blank start of a line, and the longest blank end.
  lemma {:induction false} LeadingBlanksIs(line: string)
    ensures var lead := LeadingBlanks(line);
            && lead <= line && (forall c :: c in lead ==> Blank(c))
            && (|lead| < |line| ==> !Blank(line[|lead|]))
  {
    if line == "" || !Blank(line[0]) {
    } else {
      LeadingBlanksIs(line[1..]);
    }
  }

  lemma {:induction false} TrailingBlanksIs(line: string)
    ensures var n := |TrailingBlanks(line)|;
            && n <= |line| && TrailingBlanks(line) == line[|line| - n..]
            && (forall c :: c in TrailingBlanks(line) ==> Blank(c))
            && (n < |line| ==> !Blank(line[|line| - n - 1]))
  {
    if line == "" || !Blank(line[|line| - 1]) {
    } else {
      TrailingBlanksIs(line[..|line| - 1]);
    }
  }

  // ----- the lines of a text

  // The lines with their line breaks between them.
  function Woven(lines: seq<string>, breaks: seq<string>): string
    requires |lines| == |breaks| + 1
  {
    if breaks == [] then lines[0] else lines[0] + breaks[0] + Woven(lines[1..], breaks[1..])
  }

  predicate IsBreak(s: string) {
    s == "\r\n" || s == "\n" || s == "\r"
  }

  // No line holds a part of a line break, and a carriage return before a newline is one break with it.
  ghost predicate Broken(lines: seq<string>, breaks: seq<string>) {
    && |lines| == |breaks| + 1
    && (forall k :: 0 <= k < |lines| ==> '\n' !in lines[k] && '\r' !in lines[k])
    && (forall k :: 0 <= k < |breaks| ==> IsBreak(breaks[k]))
    && (forall k :: 0 <= k < |breaks| - 1 ==> breaks[k] == "\r" && lines[k + 1] == "" ==> breaks[k + 1] != "\n")
  }

  lemma {:induction false} SplitBreaksIs(s: string) returns (breaks: seq<string>)
    ensures Broken(SplitBreaks(s), breaks) && Woven(SplitBreaks(s), breaks) == s
    decreases |s|
  {
    hide Broken, Woven;
    if s == "" {
      breaks := NoBreaks();
    } else if s[0] == '\r' && |s| >= 2 && s[1] == '\n' {
      breaks := SplitBreaksIs(s[2..]);
      BreakInFront(SplitBreaks(s[2..]), breaks, "\r\n", s[2..]);
      breaks := ["\r\n"] + breaks;
      assert s == "\r\n" + s[2..];
    } else if s[0] == '\n' || s[0] == '\r' {
      breaks := SplitBreaksIs(s[1..]);
      BreakInFront(SplitBreaks(s[1..]), breaks, [s[0]], s[1..]);
      breaks := [[s[0]]] + breaks;
      assert s == [s[0]] + s[1..];
    } else {
      breaks := SplitBreaksIs(s[1..]);
      CharacterInFront(SplitBreaks(s[1..]), breaks, s[0]);
      assert s == [s[0]] + s[1..];
    }
  }

  lemma NoBreaks() returns (breaks: seq<string>)
    ensures Broken([""], breaks) && Woven([""], breaks) == ""
  {
    breaks := [];
  }

  lemma BreakInFront(lines: seq<string>, breaks: seq<string>, b: string, s: string)
    requires Broken(lines, breaks) && Woven(lines, breaks) == s && IsBreak(b)
    requires b == "\r" && s != "" ==> s[0] != '\n'
    ensures Broken([""] + lines, [b] + breaks) && Woven([""] + lines, [b] + breaks) == b + s
  {
    var ls, bs := [""] + lines, [b] + breaks;
    assert ls[1..] == lines && bs[1..] == breaks && ls[0] + b == b;
    if b == "\r" && breaks != [] && lines[0] == "" {
      assert s == "" + breaks[0] + Woven(lines[1..], breaks[1..]);
      assert s[0] == breaks[0][0];
    }
    forall k | 0 <= k < |bs| - 1 && bs[k] == "\r" && ls[k + 1] == ""
      ensures bs[k + 1] != "\n"
    {
      assert k > 0 ==> breaks[k - 1] == "\r" && lines[k] == "";
    }
  }

  lemma CharacterInFront(lines: seq<string>, breaks: seq<string>, c: char)
    requires Broken(lines, breaks) && c != '\n' && c != '\r'
    ensures var ls := [[c] + lines[0]] + lines[1..];
            Broken(ls, breaks) && Woven(ls, breaks) == [c] + Woven(lines, breaks)
  {
    var ls := [[c] + lines[0]] + lines[1..];
    assert ls[1..] == lines[1..];
    forall k | 0 <= k < |ls|
      ensures '\n' !in ls[k] && '\r' !in ls[k]
    {
      assert k > 0 ==> ls[k] == lines[k];
    }
    if breaks != [] {
      var later := Woven(lines[1..], breaks[1..]);
      assert [c] + lines[0] + breaks[0] + later == [c] + (lines[0] + breaks[0] + later);
    }
  }

  // ----- what is kept

  // The lines `at` which something is kept, in order.
  ghost predicate KeptAt(lines: seq<string>, k: nat, kept: seq<string>, at: seq<nat>)
    requires k <= |lines|
  {
    && |at| == |kept|
    && (forall i :: 0 <= i < |at| ==> k <= at[i] < |lines| && kept[i] == Trimmed(lines, at[i]))
    && (forall i, j :: 0 <= i < j < |at| ==> at[i] < at[j])
    && (forall j: nat :: k <= j < |lines| ==> (j in at <==> Trimmed(lines, j) != ""))
  }

  lemma {:induction false} KeptIs(lines: seq<string>, k: nat) returns (at: seq<nat>)
    requires k <= |lines|
    ensures KeptAt(lines, k, Kept(lines, k), at)
    decreases |lines| - k
  {
    hide Trimmed;
    if k == |lines| {
      at := [];
    } else {
      at := KeptIs(lines, k + 1);
      var kept, t := Kept(lines, k + 1), Trimmed(lines, k);
      assert Kept(lines, k) == if t != "" then [t] + kept else kept;
      hide Kept;
      OneMoreKept(lines, k, kept, at);
      if t != "" {
        at := [k] + at;
      }
    }
  }

  lemma OneMoreKept(lines: seq<string>, k: nat, kept: seq<string>, at: seq<nat>)
    requires k < |lines| && KeptAt(lines, k + 1, kept, at)
    ensures var t := Trimmed(lines, k);
            if t != "" then KeptAt(lines, k, [t] + kept, [k] + at) else KeptAt(lines, k, kept, at)
  {
    hide Trimmed;
    var t := Trimmed(lines, k);
    if t != "" {
      var at' := [k] + at;
      assert forall j: nat :: j in at' <==> j == k || j in at;
    }
  }

  lemma {:induction false} JoinSpacesConcat(a: seq<string>, b: seq<string>)
    requires a != [] && b != []
    ensures JoinSpaces(a + b) == JoinSpaces(a) + " " + JoinSpaces(b)
  {
    if |a| == 1 {
      assert (a + b)[1..] == b;
    } else {
      assert (a + b)[1..] == a[1..] + b;
      JoinSpacesConcat(a[1..], b);
      var rest, more := JoinSpaces(a[1..]), JoinSpaces(b);
      assert a[0] + " " + (rest + " " + more) == (a[0] + " " + rest) + " " + more;
    }
  }

  // What the text means: its lines, trimmed; those of them with something left; and single spaces between these.
  lemma MeaningIs(value: string) returns (texts: seq<string>, at: seq<nat>)
    ensures var lines := SplitBreaks(value);
            && |texts| == |lines|
            && (forall k :: 0 <= k < |lines| ==> IsTrimmed(lines[k], k == 0, k == |lines| - 1, texts[k]))
            && (forall i :: 0 <= i < |at| ==> at[i] < |texts|)
            && (forall i, j :: 0 <= i < j < |at| ==> at[i] < at[j])
            && (forall j: nat :: j < |texts| ==> (j in at <==> texts[j] != ""))
            && Meaning(value) == JoinSpaces(seq(|at|, i requires 0 <= i < |at| => texts[at[i]]))
  {
    hide Trimmed, IsTrimmed, JoinSpaces, Kept;
    var lines := SplitBreaks(value);
    texts := seq(|lines|, k requires 0 <= k < |lines| => Trimmed(lines, k));
    forall k | 0 <= k < |lines|
      ensures IsTrimmed(lines[k], k == 0, k == |lines| - 1, texts[k])
    {
      TrimmedIs(lines, k);
    }
    at := KeptIs(lines, 0);
    assert seq(|at|, i requires 0 <= i < |at| => texts[at[i]]) == Kept(lines, 0);
  }

  // ----- where things stand in the rendered text

  predicate EndsWith(s: string, t: string) {
    |t| <= |s| && s[|s| - |t|..] == t
  }

  // How line k of the text is rendered, after `start` on the first one: its blanks stand where they stood, the literal
  // starts in the column of its text, and a line without text is copied.
  ghost predicate Placed(lines: seq<string>, k: nat, start: string, out: string)
    requires k < |lines|
  {
    var lead := if k > 0 then LeadingBlanks(lines[k]) else start;
    && lead <= out
    && (HasText(lines[k]) ==> |out| > |lead| && out[|lead|] == '"')
    && (HasText(lines[k]) && k < |lines| - 1 ==> EndsWith(out, TrailingBlanks(lines[k])))
    && (!HasText(lines[k]) && k > 0 ==> out == lines[k])
  }

  lemma {:induction false} NoneCounted(s: string)
    ensures Newlines(s) == 0 <==> NoNewline(s)
  {
    if s == "" {
    } else {
      NoneCounted(s[1..]);
      assert s == [s[0]] + s[1..];
    }
  }

  lemma Assembled(lead: string, literal: string, after: string, trail: string)
    requires |literal| > 0 && literal[0] == '"'
    requires NoNewline(lead) && NoNewline(literal) && NoNewline(after) && NoNewline(trail)
    ensures var out := lead + (literal + after + trail);
            NoNewline(out) && lead <= out && |out| > |lead| && out[|lead|] == '"' && EndsWith(out, trail)
  {
    var out := lead + (literal + after + trail);
    assert out[|out| - |trail|..] == trail;
  }

  lemma QuietBlanks(line: string)
    ensures NoNewline(LeadingBlanks(line)) && NoNewline(TrailingBlanks(line))
  {
    hide LeadingBlanks, TrailingBlanks;
    LeadingBlanksIs(line);
    TrailingBlanksIs(line);
  }

  lemma QuietLiteral(s: string)
    ensures NoNewline(Stringify(s)) && |Stringify(s)| > 0 && Stringify(s)[0] == '"'
  {
    hide EscapeAll, Newlines, NoNewline;
    StringifyNewlines(s);
    NoneCounted(Stringify(s));
  }

  // What follows the literal of a line.
  function Following(k: nat, last: nat, isLast: bool, end: string): string {
    if k != last then " + ' ' +" else end + if isLast then "" else ", "
  }

  lemma QuietFollowing(k: nat, last: nat, isLast: bool, end: string)
    requires NoNewline(end)
    ensures NoNewline(Following(k, last, isLast, end))
  {
  }

  // One line as it is rendered.
  lemma LineTextIs(lines: seq<string>, k: nat, last: nat, isLast: bool, end: string) returns (out: string)
    requires k < |lines| && NoNewline(end) && (last == 0 || (last < |lines| && HasText(lines[last])))
    ensures LineText(lines, k, last, isLast, end) == out + if k < |lines| - 1 then "\n" else ""
    ensures NoNewline(out) && Placed(lines, k, "", out)
  {
    hide Trimmed, LeadingBlanks, TrailingBlanks, Stringify, NoNewline, EndsWith, HasText;
    var trimmed := Trimmed(lines, k);
    var lead := if k > 0 then LeadingBlanks(lines[k]) else "";
    var after := Following(k, last, isLast, end);
    var trail := if trimmed != "" && k < |lines| - 1 then TrailingBlanks(lines[k]) else "";
    QuietBlanks(lines[k]);
    QuietLiteral(trimmed);
    QuietFollowing(k, last, isLast, end);
    NoneCounted("");
    TextIsKept(lines, k);
    if trimmed != "" || k == last {
      Assembled(lead, Stringify(trimmed), after, trail);
      out := lead + (Stringify(trimmed) + after + trail);
    } else {
      out := lead;
      assert lead + "" == lead;
      if k > 0 {
        BlankLine(lines[k]);
      }
    }
  }

  lemma BlankLine(line: string)
    requires !HasText(line)
    ensures LeadingBlanks(line) == line
  {
    LeadingBlanksIs(line);
  }

  // A line, alone or in front of others.
  lemma LinesFromStep(lines: seq<string>, k: nat, last: nat, isLast: bool, end: string, line: string)
    requires k < |lines| && NoNewline(line)
    requires LineText(lines, k, last, isLast, end) == line + if k < |lines| - 1 then "\n" else ""
    ensures SplitLines(LinesFrom(lines, k, last, isLast, end))
         == [line] + if k == |lines| - 1 then [] else SplitLines(LinesFrom(lines, k + 1, last, isLast, end))
  {
    hide LineText, NoNewline, SplitLines;
    var rest := LinesFrom(lines, k + 1, last, isLast, end);
    SplitFirst(line, rest);
    if k == |lines| - 1 {
      assert LinesFrom(lines, k, last, isLast, end) == line + "" + "" == line;
    } else {
      assert LinesFrom(lines, k, last, isLast, end) == line + "\n" + rest;
    }
  }

  lemma {:induction false} LinesFromAre(lines: seq<string>, k: nat, last: nat, isLast: bool, end: string)
    requires k < |lines| && NoNewline(end) && (last == 0 || (last < |lines| && HasText(lines[last])))
    ensures var out := SplitLines(LinesFrom(lines, k, last, isLast, end));
            && |out| == |lines| - k
            && forall j :: 0 <= j < |out| ==> Placed(lines, k + j, "", out[j])
    decreases |lines| - k
  {
    hide HasText, Placed, LineText, NoNewline, SplitLines, LinesFrom;
    var line := LineTextIs(lines, k, last, isLast, end);
    LinesFromStep(lines, k, last, isLast, end, line);
    if k == |lines| - 1 {
    } else {
      LinesFromAre(lines, k + 1, last, isLast, end);
      var later := SplitLines(LinesFrom(lines, k + 1, last, isLast, end));
      forall j | 0 <= j < |later| + 1
        ensures Placed(lines, k + j, "", ([line] + later)[j])
      {
        assert j > 0 ==> Placed(lines, k + 1 + (j - 1), "", later[j - 1]);
      }
    }
  }

  lemma RenderedIsLines(value: string, isLast: bool, start: string, end: string)
    ensures var lines := SplitBreaks(value);
            Rendered(value, isLast, start, end)
              == start + LinesFrom(lines, 0, LastNonEmpty(lines, |lines|), isLast, end)
  {
    hide LineText, LinesFrom, Core, Tail, SplitBreaks, LastNonEmpty;
    var lines := SplitBreaks(value);
    var last := LastNonEmpty(lines, |lines|);
    var text := LinesFrom(lines, 0, last, isLast, end);
    LinesAreRendered(lines, 0, last, isLast, end);
    RegroupRendered("", start, Core(lines, 0, last), end, if isLast then "" else ", ", Tail(lines, last));
    assert "" + start == start && "" + Rendered(value, isLast, start, end) == Rendered(value, isLast, start, end);
  }

  // The rendered text has the lines of the literal, each with its blanks and its literal in place.
  lemma RenderedInPlace(value: string, isLast: bool, start: string, end: string)
    requires NoNewline(start) && NoNewline(end)
    ensures var lines, out := SplitBreaks(value), SplitLines(Rendered(value, isLast, start, end));
            && |out| == |lines|
            && forall k :: 0 <= k < |lines| ==> Placed(lines, k, start, out[k])
  {
    hide *;
    var lines := SplitBreaks(value);
    var last := LastNonEmpty(lines, |lines|);
    var text := LinesFrom(lines, 0, last, isLast, end);
    RenderedIsLines(value, isLast, start, end);
    LinesFromAre(lines, 0, last, isLast, end);
    InFront(start, text);
    var out := SplitLines(text);
    forall k | 0 <= k < |lines|
      ensures Placed(lines, k, start, SplitLines(start + text)[k])
    {
      assert Placed(lines, 0 + k, "", out[k]);
      if k == 0 {
        PlacedAfter(lines, start, out[0]);
      } else {
        OtherLine(lines, k, start, out[k]);
      }
    }
  }

  lemma {:induction false} InFront(start: string, s: string)
    requires NoNewline(start)
    ensures SplitLines(start + s) == [start + SplitLines(s)[0]] + SplitLines(s)[1..]
  {
    if start == "" {
      assert start + s == s && "" + SplitLines(s)[0] == SplitLines(s)[0];
    } else {
      assert start[0] in start && forall c | c in start[1..] :: c in start;
      assert (start + s)[1..] == start[1..] + s;
      InFront(start[1..], s);
      assert [start[0]] + (start[1..] + SplitLines(s)[0]) == start + SplitLines(s)[0];
    }
  }

  lemma PlacedAfter(lines: seq<string>, start: string, out: string)
    requires lines != [] && Placed(lines, 0, "", out)
    ensures Placed(lines, 0, start, start + out)
  {
    hide HasText, TrailingBlanks;
    assert |out| > 0 ==> (start + out)[|start|] == out[0];
    var n := |TrailingBlanks(lines[0])|;
    assert n <= |out| ==> (start + out)[|start + out| - n..] == out[|out| - n..];
  }

  lemma OtherLine(lines: seq<string>, k: nat, start: string, out: string)
    requires 0 < k < |lines| && Placed(lines, k, "", out)
    ensures Placed(lines, k, start, out)
  {
  }
}
