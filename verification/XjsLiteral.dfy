/** Rendering JSX text as a JavaScript string expression. */
module XjsLiteral {
  import opened Wrappers
  import opened Text
  import opened Transformations

  // ----- lines of JSX text

  // split(/\r\n|\n|\r/)
  function SplitBreaks(s: string): (ls: seq<string>)
    ensures |ls| >= 1
  {
    if s == "" then [""]
    else if s[0] == '\r' && |s| >= 2 && s[1] == '\n' then [""] + SplitBreaks(s[2..])
    else if s[0] == '\n' || s[0] == '\r' then [""] + SplitBreaks(s[1..])
    else
      var rest := SplitBreaks(s[1..]);
      [[s[0]] + rest[0]] + rest[1..]
  }

  // /[^ \t]/ matches
  predicate HasText(line: string) {
    exists i :: 0 <= i < |line| && line[i] != ' ' && line[i] != '\t'
  }

  // replace(/\t/g, ' ')
  function Untabbed(line: string): (r: string)
    ensures |r| == |line| && forall i :: 0 <= i < |line| ==> r[i] == if line[i] == '\t' then ' ' else line[i]
  {
    seq(|line|, i requires 0 <= i < |line| => if line[i] == '\t' then ' ' else line[i])
  }

  function TrimLeft(s: string): string {
    if s != "" && s[0] == ' ' then TrimLeft(s[1..]) else s
  }

  function TrimRight(s: string): string {
    if s != "" && s[|s| - 1] == ' ' then TrimRight(s[..|s| - 1]) else s
  }

  // match(/^[ \t]*/)[0] and match(/[ \t]*$/)[0]
  function LeadingBlanks(line: string): string {
    if line != "" && (line[0] == ' ' || line[0] == '\t') then [line[0]] + LeadingBlanks(line[1..]) else ""
  }

  function TrailingBlanks(line: string): string {
    if line != "" && (line[|line| - 1] == ' ' || line[|line| - 1] == '\t')
    then TrailingBlanks(line[..|line| - 1]) + [line[|line| - 1]] else ""
  }

  // A line with tabs as spaces and without the blanks that touch a line break.
  function Trimmed(lines: seq<string>, k: nat): string
    requires k < |lines|
  {
    var s := Untabbed(lines[k]);
    var s := if k > 0 then TrimLeft(s) else s;
    if k < |lines| - 1 then TrimRight(s) else s
  }

  // The last line with text among the first n, or line 0.
  function LastNonEmpty(lines: seq<string>, n: nat): (k: nat)
    requires n <= |lines|
    ensures k < n || k == 0
    ensures forall j :: k < j < n ==> !HasText(lines[j])
    ensures k > 0 ==> HasText(lines[k])
  {
    if n == 0 then 0 else if HasText(lines[n - 1]) then n - 1 else LastNonEmpty(lines, n - 1)
  }

  // ----- what the text means

  // The lines that have something left, in order.
  function Kept(lines: seq<string>, k: nat): seq<string>
    requires k <= |lines|
    decreases |lines| - k
  {
    if k == |lines| then []
    else (if Trimmed(lines, k) != "" then [Trimmed(lines, k)] else []) + Kept(lines, k + 1)
  }

  function JoinSpaces(ss: seq<string>): string {
    if ss == [] then "" else if |ss| == 1 then ss[0] else ss[0] + " " + JoinSpaces(ss[1..])
  }

  function Meaning(value: string): string {
    JoinSpaces(Kept(SplitBreaks(value), 0))
  }

  // ----- JSON.stringify on a string

  function HexDigit(n: int): char
    requires 0 <= n < 16
  {
    if n < 10 then ('0' as int + n) as char else ('a' as int + n - 10) as char
  }

  function Escape(c: char): string {
    if c == '"' then "\\\"" else if c == '\\' then "\\\\"
    else if c == '\U{08}' then "\\b" else if c == '\t' then "\\t" else if c == '\n' then "\\n"
    else if c == '\U{0C}' then "\\f" else if c == '\r' then "\\r"
    else if c < ' ' then "\\u00" + [HexDigit(c as int / 16), HexDigit(c as int % 16)]
    else [c]
  }

  function EscapeAll(s: string): string {
    if s == "" then "" else Escape(s[0]) + EscapeAll(s[1..])
  }

  function Stringify(s: string): string {
    "\"" + EscapeAll(s) + "\""
  }

  // ----- reading string expressions (ECMA-262, sections 7.8.4 and 11.6.1): literals joined by +

  function HexValue(c: char): Option<int> {
    if '0' <= c <= '9' then Some(c as int - '0' as int)
    else if 'a' <= c <= 'f' then Some(c as int - 'a' as int + 10)
    else if 'A' <= c <= 'F' then Some(c as int - 'A' as int + 10)
    else None
  }

  // The character that an escape stands for, and the rest of the text.
  function ReadEscape(s: string): Option<(char, string)> {
    if s == "" then None
    else if s[0] == 'u' then
      if |s| < 5 then None
      else
        var a, b, c, d := HexValue(s[1]), HexValue(s[2]), HexValue(s[3]), HexValue(s[4]);
        if a.None? || b.None? || c.None? || d.None? then None
        else
          var n := ((a.value * 16 + b.value) * 16 + c.value) * 16 + d.value;
          if 0 <= n < 0xD800 || 0xE000 <= n < 0x1_0000 then Some((n as char, s[5..])) else None
    else if s[0] == 'b' then Some(('\U{08}', s[1..]))
    else if s[0] == 't' then Some(('\t', s[1..]))
    else if s[0] == 'n' then Some(('\n', s[1..]))
    else if s[0] == 'f' then Some(('\U{0C}', s[1..]))
    else if s[0] == 'r' then Some(('\r', s[1..]))
    else if s[0] == '"' || s[0] == '\\' || s[0] == '\'' then Some((s[0], s[1..]))
    else None
  }

  // The value of a literal whose opening quote has been read, and the text after its closing quote.
  function ReadLiteral(s: string, quote: char): (r: Option<(string, string)>)
    ensures r.Some? ==> |r.value.1| < |s|
    decreases |s|
  {
    if s == "" || s[0] == '\n' || s[0] == '\r' then None
    else if s[0] == quote then Some(("", s[1..]))
    else if s[0] == '\\' then
      var e := ReadEscape(s[1..]);
      if e.None? || |e.value.1| >= |s| then None
      else
        var r := ReadLiteral(e.value.1, quote);
        if r.None? then None else Some(([e.value.0] + r.value.0, r.value.1))
    else
      var r := ReadLiteral(s[1..], quote);
      if r.None? then None else Some(([s[0]] + r.value.0, r.value.1))
  }

  predicate IsSpace(c: char) {
    c == ' ' || c == '\t' || c == '\n'
  }

  function SkipSpace(s: string): (r: string)
    ensures |r| <= |s|
  {
    if s != "" && IsSpace(s[0]) then SkipSpace(s[1..]) else s
  }

  // The value of a whole text of literals joined by +.
  function Evaluate(s: string): Option<string>
    decreases |s|
  {
    var t := SkipSpace(s);
    if t == "" || (t[0] != '"' && t[0] != '\'') then None
    else
      var r := ReadLiteral(t[1..], t[0]);
      if r.None? then None
      else
        var u := SkipSpace(r.value.1);
        if u == "" then Some(r.value.0)
        else if u[0] != '+' then None
        else
          var rest := Evaluate(u[1..]);
          if rest.None? then None else Some(r.value.0 + rest.value)
  }

  // ----- what is rendered

  // The lines up to the last one with text: the expression.
  function Core(lines: seq<string>, k: nat, last: nat): string
    requires k <= last < |lines|
    decreases last - k
  {
    var trimmed := Trimmed(lines, k);
    (if k > 0 then LeadingBlanks(lines[k]) else "") +
    if k == last then Stringify(trimmed)
    else
      (if trimmed != "" then Stringify(trimmed) + " + ' ' +" + TrailingBlanks(lines[k]) else "")
      + "\n" + Core(lines, k + 1, last)
  }

  // What follows the expression: blanks and line breaks.
  function Tail(lines: seq<string>, last: nat): string
    requires last < |lines|
  {
    if last == |lines| - 1 then ""
    else (if Trimmed(lines, last) != "" then TrailingBlanks(lines[last]) else "") + "\n" + BlankLines(lines, last + 1)
  }

  function BlankLines(lines: seq<string>, k: nat): string
    requires 0 < k < |lines|
    decreases |lines| - k
  {
    LeadingBlanks(lines[k]) + if k == |lines| - 1 then "" else "\n" + BlankLines(lines, k + 1)
  }

  function Rendered(value: string, isLast: bool, start: string, end: string): string {
    var lines := SplitBreaks(value);
    var last := LastNonEmpty(lines, |lines|);
    start + Core(lines, 0, last) + end + (if isLast then "" else ", ") + Tail(lines, last)
  }

  // ----- the expression evaluates to the meaning

  lemma HexRoundTrip(n: int)
    requires 0 <= n < 16
    ensures HexValue(HexDigit(n)) == Some(n)
  {
  }

  lemma EscapeRead(c: char, rest: string)
    ensures Escape(c)[0] != '\n' && Escape(c)[0] != '\r' && Escape(c)[0] != '"'
    ensures if |Escape(c)| > 1 then Escape(c)[0] == '\\' && ReadEscape(Escape(c)[1..] + rest) == Some((c, rest))
            else Escape(c) == [c] && c != '\\'
  {
    var e := Escape(c)[1..] + rest;
    if |Escape(c)| == 2 {
      assert e[1..] == rest;
    } else if |Escape(c)| > 2 {
      var n := c as int;
      HexRoundTrip(n / 16);
      HexRoundTrip(n % 16);
      assert e[0] == 'u' && e[1] == '0' && e[2] == '0' && e[3] == HexDigit(n / 16) && e[4] == HexDigit(n % 16);
      assert e[5..] == rest;
    }
  }

  // One escaped character in front of the rest of a literal.
  lemma ReadEscaped(c: char, later: string)
    requires ReadLiteral(later, '"').Some?
    ensures ReadLiteral(Escape(c) + later, '"')
         == Some(([c] + ReadLiteral(later, '"').value.0, ReadLiteral(later, '"').value.1))
  {
    EscapeRead(c, later);
    var e := Escape(c);
    hide Escape, ReadEscape;
    var text := e + later;
    assert text[0] == e[0] && text[1..] == e[1..] + later;
    assert |e| == 1 ==> e[1..] + later == later;
  }

  // JSON.stringify is undone by reading the literal.
  lemma {:induction false} StringifyRead(s: string, rest: string)
    ensures ReadLiteral(EscapeAll(s) + ("\"" + rest), '"') == Some((s, rest))
  {
    hide Escape, ReadEscape;
    var close := "\"" + rest;
    if s == "" {
      assert EscapeAll(s) + close == close;
      assert close[0] == '"' && close[1..] == rest;
    } else {
      var later := EscapeAll(s[1..]) + close;
      assert EscapeAll(s) + close == Escape(s[0]) + later;
      StringifyRead(s[1..], rest);
      ReadEscaped(s[0], later);
      assert s == [s[0]] + s[1..];
    }
  }

  predicate AllSpace(s: string) {
    forall c :: c in s ==> IsSpace(c)
  }

  lemma {:induction false} SkipAll(ws: string, s: string)
    requires AllSpace(ws)
    ensures SkipSpace(ws + s) == SkipSpace(s) && Evaluate(ws + s) == Evaluate(s)
  {
    if ws == "" {
      assert ws + s == s;
    } else {
      assert ws[0] in ws && (ws + s)[0] == ws[0] && (ws + s)[1..] == ws[1..] + s;
      assert forall c | c in ws[1..] :: c in ws;
      SkipAll(ws[1..], s);
    }
  }

  lemma EvaluateLiteral(t: string, rest: string)
    ensures var s := Stringify(t) + rest;
            SkipSpace(s) == s && s != "" && s[0] == '"' && ReadLiteral(s[1..], s[0]) == Some((t, rest))
  {
    var s := Stringify(t) + rest;
    StringifyRead(t, rest);
    assert s[1..] == EscapeAll(t) + ("\"" + rest);
  }

  lemma LiteralEnd(t: string)
    ensures Evaluate(Stringify(t)) == Some(t)
  {
    EvaluateLiteral(t, "");
    assert Stringify(t) + "" == Stringify(t);
  }

  // A literal, a plus and the rest.
  lemma EvaluatePlus(s: string, value: string, after: string, rest: string)
    requires SkipSpace(s) != "" && (SkipSpace(s)[0] == '"' || SkipSpace(s)[0] == '\'')
    requires ReadLiteral(SkipSpace(s)[1..], SkipSpace(s)[0]) == Some((value, after))
    requires SkipSpace(after) == "+" + rest && Evaluate(rest).Some?
    ensures Evaluate(s) == Some(value + Evaluate(rest).value)
  {
    hide ReadLiteral, SkipSpace;
    assert ("+" + rest)[1..] == rest;
  }

  lemma SkipOne(s: string)
    requires s != "" && !IsSpace(s[0])
    ensures SkipSpace(s) == s && SkipSpace(" " + s) == s
  {
    assert (" " + s)[1..] == s;
  }

  // A literal joined to a space and to the rest.
  lemma LiteralPlus(t: string, rest: string)
    requires Evaluate(rest).Some?
    ensures Evaluate(Stringify(t) + (" + ' ' +" + rest)) == Some(t + (" " + Evaluate(rest).value))
  {
    hide Stringify, ReadLiteral, Evaluate;
    var second := " ' ' +" + rest;
    var after := " + ' ' +" + rest;
    EvaluateLiteral(t, after);
    SkipOne("+" + second);
    assert after == " " + ("+" + second);
    SpaceLiteral(rest);
    EvaluatePlus(Stringify(t) + after, t, after, second);
  }

  lemma SpaceLiteral(rest: string)
    requires Evaluate(rest).Some?
    ensures Evaluate(" ' ' +" + rest) == Some(" " + Evaluate(rest).value)
  {
    hide Evaluate;
    var s := " ' ' +" + rest;
    var after := " +" + rest;
    var literal := "' '" + after;
    SkipOne(literal);
    assert s == " " + literal;
    ReadSpace(after);
    SkipOne("+" + rest);
    assert after == " " + ("+" + rest) && literal[1..] == " '" + after;
    EvaluatePlus(s, " ", after, rest);
  }

  lemma ReadSpace(after: string)
    ensures ReadLiteral(" '" + after, '\'') == Some((" ", after))
  {
    var s := " '" + after;
    assert s[1..] == "'" + after && s[1..][1..] == after;
    assert ReadLiteral(s[1..], '\'') == Some(("", after));
    assert [s[0]] + "" == " ";
  }

  lemma {:induction false} BlanksAreSpace(line: string)
    ensures AllSpace(LeadingBlanks(line)) && AllSpace(TrailingBlanks(line))
    ensures Newlines(LeadingBlanks(line)) == 0 && Newlines(TrailingBlanks(line)) == 0
    decreases |line|
  {
    if line == "" {
    } else {
      BlanksAreSpace(line[1..]);
      BlanksAreSpace(line[..|line| - 1]);
      NewlinesConcat(TrailingBlanks(line[..|line| - 1]), [line[|line| - 1]]);
    }
  }

  // The lines from k to the last one with text, joined by single spaces.
  function Joined(lines: seq<string>, k: nat, last: nat): string
    requires k <= last < |lines|
    decreases last - k
  {
    if k == last then Trimmed(lines, k)
    else if Trimmed(lines, k) == "" then Joined(lines, k + 1, last)
    else Trimmed(lines, k) + (" " + Joined(lines, k + 1, last))
  }

  lemma {:induction false} CoreEvaluates(lines: seq<string>, k: nat, last: nat)
    requires k <= last < |lines|
    ensures Evaluate(Core(lines, k, last)) == Some(Joined(lines, k, last))
    decreases last - k
  {
    hide Evaluate, Stringify, Trimmed, LeadingBlanks, TrailingBlanks, AllSpace, Joined;
    var trimmed := Trimmed(lines, k);
    var lead := if k > 0 then LeadingBlanks(lines[k]) else "";
    BlanksAreSpace(lines[k]);
    SpaceFacts(lead, TrailingBlanks(lines[k]));
    JoinedStep(lines, k, last);
    if k == last {
      LiteralEnd(trimmed);
      SkipAll(lead, Stringify(trimmed));
    } else {
      var later := Core(lines, k + 1, last);
      CoreEvaluates(lines, k + 1, last);
      if trimmed != "" {
        var trail := TrailingBlanks(lines[k]);
        var rest := (trail + "\n") + later;
        var text := Stringify(trimmed) + (" + ' ' +" + rest);
        SkipAll(trail + "\n", later);
        LiteralPlus(trimmed, rest);
        SkipAll(lead, text);
        CoreText(lines, k, last);
      } else {
        SkipAll(lead + "\n", later);
        CoreText(lines, k, last);
      }
    }
  }

  lemma JoinedStep(lines: seq<string>, k: nat, last: nat)
    requires k <= last < |lines|
    ensures Joined(lines, k, last) ==
            if k == last then Trimmed(lines, k)
            else if Trimmed(lines, k) == "" then Joined(lines, k + 1, last)
            else Trimmed(lines, k) + (" " + Joined(lines, k + 1, last))
  {
  }

  lemma SpaceFacts(lead: string, trail: string)
    requires (AllSpace(lead) || lead == "") && AllSpace(trail)
    ensures AllSpace(lead) && AllSpace(lead + "\n") && AllSpace(trail + "\n")
  {
  }

  // One line of the core, regrouped.
  lemma CoreText(lines: seq<string>, k: nat, last: nat)
    requires k < last < |lines|
    ensures
      var lead := if k > 0 then LeadingBlanks(lines[k]) else "";
      var trimmed, trail, later := Trimmed(lines, k), TrailingBlanks(lines[k]), Core(lines, k + 1, last);
      Core(lines, k, last) ==
        if trimmed != "" then lead + (Stringify(trimmed) + (" + ' ' +" + ((trail + "\n") + later)))
        else (lead + "\n") + later
  {
    hide Stringify, Trimmed, LeadingBlanks, TrailingBlanks;
    var trimmed, trail, later := Trimmed(lines, k), TrailingBlanks(lines[k]), Core(lines, k + 1, last);
    var plus := " + ' ' +";
    assert Stringify(trimmed) + plus + trail + "\n" + later == Stringify(trimmed) + (plus + ((trail + "\n") + later));
    assert "" + "\n" + later == "\n" + later;
  }

  // A line without text leaves nothing, unless it is the only one.
  lemma {:induction false} TrimLeftBlank(s: string)
    requires forall i :: 0 <= i < |s| ==> s[i] == ' '
    ensures TrimLeft(s) == ""
  {
    if s == "" {
    } else {
      TrimLeftBlank(s[1..]);
    }
  }

  lemma {:induction false} TrimLeftText(s: string, i: nat)
    requires i < |s| && s[i] != ' '
    ensures TrimLeft(s) != "" && exists j :: 0 <= j < |TrimLeft(s)| && TrimLeft(s)[j] != ' '
  {
    if s[0] == ' ' {
      TrimLeftText(s[1..], i - 1);
    }
  }

  lemma {:induction false} TrimRightText(s: string, i: nat)
    requires i < |s| && s[i] != ' '
    ensures TrimRight(s) != ""
  {
    if s[|s| - 1] == ' ' {
      TrimRightText(s[..|s| - 1], i);
    }
  }

  lemma TextIsKept(lines: seq<string>, k: nat)
    requires k < |lines|
    ensures HasText(lines[k]) ==> Trimmed(lines, k) != ""
    ensures !HasText(lines[k]) && k > 0 ==> Trimmed(lines, k) == ""
  {
    var s := Untabbed(lines[k]);
    if HasText(lines[k]) {
      var i :| 0 <= i < |lines[k]| && lines[k][i] != ' ' && lines[k][i] != '\t';
      TrimLeftText(s, i);
      var t := if k > 0 then TrimLeft(s) else s;
      assert exists j :: 0 <= j < |t| && t[j] != ' ' by {
        assert s[i] != ' ';
      }
      var j :| 0 <= j < |t| && t[j] != ' ';
      TrimRightText(t, j);
    } else {
      TrimLeftBlank(s);
    }
  }

  lemma {:induction false} NothingAfterLast(lines: seq<string>, last: nat, k: nat)
    requires last < k <= |lines| && forall j :: last < j < |lines| ==> !HasText(lines[j])
    ensures Kept(lines, k) == []
    decreases |lines| - k
  {
    hide HasText, Trimmed;
    if k == |lines| {
    } else {
      TextIsKept(lines, k);
      NothingAfterLast(lines, last, k + 1);
    }
  }

  lemma {:induction false} JoinedIsMeaning(lines: seq<string>, k: nat, last: nat)
    requires k <= last < |lines|
    requires forall j :: last < j < |lines| ==> !HasText(lines[j])
    requires last > 0 ==> HasText(lines[last])
    ensures Joined(lines, k, last) == JoinSpaces(Kept(lines, k))
    ensures last > 0 ==> Kept(lines, k) != []
    decreases last - k
  {
    hide Trimmed, HasText;
    TextIsKept(lines, last);
    NothingAfterLast(lines, last, last + 1);
    if k < last {
      JoinedIsMeaning(lines, k + 1, last);
      var t := Trimmed(lines, k);
      var later := Kept(lines, k + 1);
      assert Kept(lines, k) == (if t != "" then [t] else []) + later;
      if t != "" {
        assert ([t] + later)[1..] == later;
        assert t + " " + JoinSpaces(later) == t + (" " + JoinSpaces(later));
      } else {
        assert [] + later == later;
      }
    } else {
      assert Kept(lines, k) == (if Trimmed(lines, k) != "" then [Trimmed(lines, k)] else []) + [];
    }
  }

  // ----- line breaks

  function LineBreaks(s: string): nat {
    if s == "" then 0
    else if s[0] == '\r' && |s| >= 2 && s[1] == '\n' then 1 + LineBreaks(s[2..])
    else (if s[0] == '\n' || s[0] == '\r' then 1 else 0) + LineBreaks(s[1..])
  }

  lemma {:induction false} BreaksAreLines(s: string)
    ensures |SplitBreaks(s)| == LineBreaks(s) + 1
    decreases |s|
  {
    if s == "" {
    } else if s[0] == '\r' && |s| >= 2 && s[1] == '\n' {
      BreaksAreLines(s[2..]);
    } else {
      BreaksAreLines(s[1..]);
    }
  }

  lemma {:induction false} EscapeAllNewlines(s: string)
    ensures Newlines(EscapeAll(s)) == 0
  {
    if s == "" {
    } else {
      EscapeAllNewlines(s[1..]);
      NewlinesConcat(Escape(s[0]), EscapeAll(s[1..]));
      EscapeNewlines(s[0]);
    }
  }

  lemma EscapeNewlines(c: char)
    ensures Newlines(Escape(c)) == 0
  {
    var e := Escape(c);
    assert forall i | 0 <= i < |e| :: e[i] != '\n';
    NoneFound(e);
  }

  lemma {:induction false} NoneFound(s: string)
    requires forall i :: 0 <= i < |s| ==> s[i] != '\n'
    ensures Newlines(s) == 0
  {
    if s == "" {
    } else {
      NoneFound(s[1..]);
    }
  }

  lemma StringifyNewlines(s: string)
    ensures Newlines(Stringify(s)) == 0
  {
    EscapeAllNewlines(s);
    NewlinesConcat("\"" + EscapeAll(s), "\"");
    NewlinesConcat("\"", EscapeAll(s));
    NoneFound("\"");
  }

  lemma {:induction false} CoreNewlines(lines: seq<string>, k: nat, last: nat)
    requires k <= last < |lines|
    ensures Newlines(Core(lines, k, last)) == last - k
    decreases last - k
  {
    hide Trimmed, LeadingBlanks, TrailingBlanks, Stringify;
    var trimmed := Trimmed(lines, k);
    var lead := if k > 0 then LeadingBlanks(lines[k]) else "";
    BlanksAreSpace(lines[k]);
    StringifyNewlines(trimmed);
    assert Newlines(lead) == 0;
    if k == last {
      NewlinesConcat(lead, Stringify(trimmed));
    } else {
      CoreNewlines(lines, k + 1, last);
      var trail := TrailingBlanks(lines[k]);
      var plus := " + ' ' +";
      NoneFound(plus);
      var text := if trimmed != "" then Stringify(trimmed) + plus + trail else "";
      NewlinesConcat(Stringify(trimmed) + plus, trail);
      NewlinesConcat(Stringify(trimmed), plus);
      assert Newlines(text) == 0;
      NewlineAndMore(lead, text, Core(lines, k + 1, last));
      assert Core(lines, k, last) == lead + (text + "\n" + Core(lines, k + 1, last));
    }
  }

  lemma NewlineAndMore(a: string, b: string, c: string)
    requires Newlines(a) == Newlines(b) == 0
    ensures Newlines(a + (b + "\n" + c)) == 1 + Newlines(c)
  {
    NewlinesConcat(a, b + "\n" + c);
    NewlinesConcat(b + "\n", c);
    NewlinesConcat(b, "\n");
  }

  lemma {:induction false} BlankLinesSpace(lines: seq<string>, k: nat)
    requires 0 < k < |lines|
    ensures AllSpace(BlankLines(lines, k)) && Newlines(BlankLines(lines, k)) == |lines| - 1 - k
    decreases |lines| - k
  {
    hide LeadingBlanks;
    BlanksAreSpace(lines[k]);
    var lead := LeadingBlanks(lines[k]);
    if k < |lines| - 1 {
      BlankLinesSpace(lines, k + 1);
      NewlineAndMore(lead, "", BlankLines(lines, k + 1));
      assert BlankLines(lines, k) == lead + ("" + "\n" + BlankLines(lines, k + 1));
    } else {
      assert lead + "" == lead;
    }
  }

  lemma TailSpace(lines: seq<string>, last: nat)
    requires last < |lines|
    ensures AllSpace(Tail(lines, last)) && Newlines(Tail(lines, last)) == |lines| - 1 - last
  {
    hide TrailingBlanks, Trimmed;
    if last < |lines| - 1 {
      BlanksAreSpace(lines[last]);
      BlankLinesSpace(lines, last + 1);
      var trail := if Trimmed(lines, last) != "" then TrailingBlanks(lines[last]) else "";
      NewlineAndMore("", trail, BlankLines(lines, last + 1));
      assert Tail(lines, last) == "" + (trail + "\n" + BlankLines(lines, last + 1));
    }
  }

  // The rendered text is an expression for the meaning of the JSX text, then what the caller asked for, then blanks;
  // and it has one newline for every line break of the JSX text.
  lemma RenderedMeaning(value: string, isLast: bool, start: string, end: string)
    ensures
      var lines := SplitBreaks(value);
      var last := LastNonEmpty(lines, |lines|);
      var core, tail := Core(lines, 0, last), Tail(lines, last);
      && Rendered(value, isLast, start, end) == start + core + end + (if isLast then "" else ", ") + tail
      && Evaluate(core) == Some(Meaning(value))
      && AllSpace(tail)
      && Newlines(core) + Newlines(tail) == LineBreaks(value)
  {
    var lines := SplitBreaks(value);
    var last := LastNonEmpty(lines, |lines|);
    CoreEvaluates(lines, 0, last);
    JoinedIsMeaning(lines, 0, last);
    CoreNewlines(lines, 0, last);
    TailSpace(lines, last);
    BreaksAreLines(value);
  }

  // ----- the program

  // What is appended for one line.
  function LineText(lines: seq<string>, k: nat, last: nat, isLast: bool, end: string): string
    requires k < |lines|
  {
    var trimmed := Trimmed(lines, k);
    (if k > 0 then LeadingBlanks(lines[k]) else "")
    + (if trimmed != "" || k == last then
         Stringify(trimmed) + (if k != last then " + ' ' +" else end + if isLast then "" else ", ")
         + (if trimmed != "" && k < |lines| - 1 then TrailingBlanks(lines[k]) else "")
       else "")
    + (if k < |lines| - 1 then "\n" else "")
  }

  function LinesFrom(lines: seq<string>, k: nat, last: nat, isLast: bool, end: string): string
    requires k <= |lines|
    decreases |lines| - k
  {
    if k == |lines| then "" else LineText(lines, k, last, isLast, end) + LinesFrom(lines, k + 1, last, isLast, end)
  }

  lemma {:induction false} BlankLinesFrom(lines: seq<string>, k: nat, last: nat, isLast: bool, end: string)
    requires last < k < |lines| && forall j :: last < j < |lines| ==> !HasText(lines[j])
    ensures LinesFrom(lines, k, last, isLast, end) == BlankLines(lines, k)
    decreases |lines| - k
  {
    hide LeadingBlanks, TrailingBlanks, Trimmed, HasText;
    TextIsKept(lines, k);
    var lead := LeadingBlanks(lines[k]);
    if k < |lines| - 1 {
      BlankLinesFrom(lines, k + 1, last, isLast, end);
      assert LineText(lines, k, last, isLast, end) == lead + "" + "\n";
    } else {
      assert LineText(lines, k, last, isLast, end) == lead + "" + "";
      assert LinesFrom(lines, k + 1, last, isLast, end) == "";
      assert lead + "" == lead;
    }
  }

  lemma {:induction false} LinesAreRendered(lines: seq<string>, k: nat, last: nat, isLast: bool, end: string)
    requires k <= last < |lines| && forall j :: last < j < |lines| ==> !HasText(lines[j])
    ensures LinesFrom(lines, k, last, isLast, end)
         == Core(lines, k, last) + (end + ((if isLast then "" else ", ") + Tail(lines, last)))
    decreases last - k
  {
    hide LeadingBlanks, TrailingBlanks, Trimmed, HasText, Stringify, BlankLines;
    var lead := if k > 0 then LeadingBlanks(lines[k]) else "";
    var trimmed := Trimmed(lines, k);
    var comma := if isLast then "" else ", ";
    var trail := if trimmed != "" && k < |lines| - 1 then TrailingBlanks(lines[k]) else "";
    var newline := if k < |lines| - 1 then "\n" else "";
    var later := LinesFrom(lines, k + 1, last, isLast, end);
    if k == last {
      if k < |lines| - 1 {
        BlankLinesFrom(lines, k + 1, last, isLast, end);
      }
      assert Tail(lines, last) == (trail + newline) + later;
      Regroup(lead, Stringify(trimmed), end, comma, trail, newline, later);
    } else {
      LinesAreRendered(lines, k + 1, last, isLast, end);
      if trimmed != "" {
        RegroupMore(lead, Stringify(trimmed) + " + ' ' +" + trail, Core(lines, k + 1, last), end,
                    comma + Tail(lines, last));
      } else {
        RegroupMore(lead, "", Core(lines, k + 1, last), end, comma + Tail(lines, last));
      }
    }
  }

  lemma Regroup(a: string, b: string, c: string, d: string, e: string, f: string, g: string)
    ensures (a + (b + (c + d) + e) + f) + g == (a + b) + (c + (d + ((e + f) + g)))
  {
  }

  lemma RegroupMore(a: string, b: string, c: string, d: string, e: string)
    ensures (a + b + "\n") + (c + (d + e)) == (a + (b + "\n" + c)) + (d + e)
  {
  }

  method RenderXJSLiteral(t: Transformation, value: string, rangeEnd: int, isLast: bool, start: string, end: string)
    requires t.Valid()
    modifies t, t.MapObjects()
    ensures t.Valid() && t.MapObjects() == old(t.MapObjects())
    ensures t.buffer == old(t.buffer) + Rendered(value, isLast, start, end)
    ensures t.position == rangeEnd
  {
    hide Transformation.Valid, LeadingBlanks, TrailingBlanks, Trimmed, Stringify, SplitBreaks,
        Transformation.MapObjects, HasText;
    hide LinesFrom, Core, Tail, Rendered, Advance, LastNonEmpty;
    var lines := SplitBreaks(value);
    t.Append(start);
    var lastNonEmptyLine := 0;
    for index := 0 to |lines|
      invariant t.Valid() && t.MapObjects() == old(t.MapObjects()) && t.buffer == old(t.buffer) + start
      invariant lastNonEmptyLine == LastNonEmpty(lines, index)
    {
      LastStep(lines, index);
      if HasText(lines[index]) {
        lastNonEmptyLine := index;
      }
    }
    ghost var before := t.buffer;
    for index := 0 to |lines|
      invariant t.Valid() && t.MapObjects() == old(t.MapObjects())
      invariant t.buffer + LinesFrom(lines, index, lastNonEmptyLine, isLast, end)
             == before + LinesFrom(lines, 0, lastNonEmptyLine, isLast, end)
    {
      LinesStep(lines, index, lastNonEmptyLine, isLast, end, t.buffer);
      RenderLine(t, lines, index, lastNonEmptyLine, isLast, end);
    }
    LinesEnd(value, isLast, start, end, old(t.buffer), t.buffer);
    t.Move(rangeEnd);
  }

  // One line.
  method RenderLine(t: Transformation, lines: seq<string>, index: nat, lastNonEmptyLine: nat, isLast: bool, end: string)
    requires t.Valid() && index < |lines|
    modifies t, t.MapObjects()
    ensures t.Valid() && t.MapObjects() == old(t.MapObjects())
    ensures t.buffer == old(t.buffer) + LineText(lines, index, lastNonEmptyLine, isLast, end)
  {
    hide Transformation.Valid, LeadingBlanks, TrailingBlanks, Trimmed, Stringify, Transformation.MapObjects, Advance;
    var line := lines[index];
    var trimmedLine := Trimmed(lines, index);
    AppendIf(t, index > 0, LeadingBlanks(line));
    if trimmedLine != "" || index == lastNonEmptyLine {
      RenderText(t, trimmedLine, index == lastNonEmptyLine, isLast, end);
      AppendIf(t, trimmedLine != "" && index < |lines| - 1, TrailingBlanks(line));
    }
    AppendIf(t, index < |lines| - 1, "\n");
    ghost var text := Stringify(trimmedLine)
                      + if index != lastNonEmptyLine then " + ' ' +" else end + if isLast then "" else ", ";
    RegroupLine(old(t.buffer), if index > 0 then LeadingBlanks(line) else "", text,
                if trimmedLine != "" && index < |lines| - 1 then TrailingBlanks(line) else "",
                if index < |lines| - 1 then "\n" else "");
  }

  lemma RegroupLine(o: string, a: string, b: string, c: string, d: string)
    ensures (((o + a) + b) + c) + d == o + (a + (b + c) + d)
    ensures (o + a) + d == o + (a + "" + d)
  {
  }

  method RenderText(t: Transformation, trimmedLine: string, isLastNonEmptyLine: bool, isLast: bool, end: string)
    requires t.Valid()
    modifies t, t.MapObjects()
    ensures t.Valid() && t.MapObjects() == old(t.MapObjects())
    ensures t.buffer == old(t.buffer) +
              (Stringify(trimmedLine) + if !isLastNonEmptyLine then " + ' ' +" else end + if isLast then "" else ", ")
  {
    hide Transformation.Valid, Stringify, Transformation.MapObjects, Advance;
    t.Append(Stringify(trimmedLine) + if !isLastNonEmptyLine then " + ' ' +" else "");
    if isLastNonEmptyLine {
      t.Append(end);
      AppendIf(t, !isLast, ", ");
    }
  }

  method AppendIf(t: Transformation, condition: bool, text: string)
    requires t.Valid()
    modifies t, t.MapObjects()
    ensures t.Valid() && t.MapObjects() == old(t.MapObjects())
    ensures t.buffer == old(t.buffer) + if condition then text else ""
  {
    if condition {
      t.Append(text);
    }
  }

  lemma LastStep(lines: seq<string>, n: nat)
    requires n < |lines|
    ensures LastNonEmpty(lines, 0) == 0
    ensures LastNonEmpty(lines, n + 1) == if HasText(lines[n]) then n else LastNonEmpty(lines, n)
  {
  }

  lemma LinesStep(lines: seq<string>, k: nat, last: nat, isLast: bool, end: string, before: string)
    requires k < |lines|
    ensures before + LinesFrom(lines, k, last, isLast, end)
         == (before + LineText(lines, k, last, isLast, end)) + LinesFrom(lines, k + 1, last, isLast, end)
  {
    hide LineText;
  }

  lemma LinesEnd(value: string, isLast: bool, start: string, end: string, before: string, after: string)
    requires var lines := SplitBreaks(value);
             var last := LastNonEmpty(lines, |lines|);
             after + LinesFrom(lines, |lines|, last, isLast, end) == (before + start)
                 + LinesFrom(lines, 0, last, isLast, end)
    ensures after == before + Rendered(value, isLast, start, end)
  {
    hide LineText, Core, Tail, HasText, SplitBreaks, LastNonEmpty;
    var lines := SplitBreaks(value);
    var last := LastNonEmpty(lines, |lines|);
    LinesAreRendered(lines, 0, last, isLast, end);
    assert after + "" == after;
    RegroupRendered(before, start, Core(lines, 0, last), end, if isLast then "" else ", ", Tail(lines, last));
  }

  lemma RegroupRendered(before: string, start: string, core: string, end: string, comma: string, tail: string)
    ensures (before + start) + (core + (end + (comma + tail))) == before + (start + core + end + comma + tail)
  {
  }
}
