/** Paths as dotted text: printing with escaped dots, and parsing that text. */
module PathDots {
  import opened Wrappers

  const MAX_INT := 0x7fff_ffff

  // The int of the program.
  type Int = i: int | -MAX_INT - 1 <= i <= MAX_INT

  datatype Element = Name(name: string) | Index(index: Int) | NextIndex
  type Path = seq<Element>

  predicate Indexical(e: Element) {
    !e.Name?
  }

  // ----- decimal numbers

  function Digit(n: nat): char
    requires n < 10
  {
    "0123456789"[n]
  }

  predicate IsDigit(c: char) {
    '0' <= c <= '9'
  }

  function Decimal(n: nat): (s: string)
    ensures s != "" && forall k :: 0 <= k < |s| ==> IsDigit(s[k])
  {
    if n < 10 then [Digit(n)] else Decimal(n / 10) + [Digit(n % 10)]
  }

  predicate AllDigits(s: string) {
    s != "" && forall k :: 0 <= k < |s| ==> IsDigit(s[k])
  }

  function ValueOf(s: string): nat
    requires forall k :: 0 <= k < |s| ==> IsDigit(s[k])
  {
    if s == "" then 0
    else
      var last := s[|s| - 1];
      assert IsDigit(last);
      ValueOf(s[..|s| - 1]) * 10 + (last as int - '0' as int)
  }

  lemma {:induction false} DecimalValue(n: nat)
    ensures ValueOf(Decimal(n)) == n
  {
    var s := Decimal(n);
    if n >= 10 {
      DecimalValue(n / 10);
      assert s[..|s| - 1] == Decimal(n / 10);
    } else {
      assert s[..0] == "";
    }
  }

  // ----- printing

  function Escape(name: string): string {
    if name == "" then "" else (if name[0] == '.' then "\\." else [name[0]]) + Escape(name[1..])
  }

  function InnerText(e: Element): string
    requires Indexical(e)
  {
    if e.NextIndex? then "+"
    else
      var i: int := e.index;
      if i < 0 then "-" + Decimal(-i) else Decimal(i)
  }

  function IndexText(e: Element): string
    requires Indexical(e)
  {
    "[" + InnerText(e) + "]"
  }

  function ElementText(e: Element): string {
    if e.Name? then Escape(e.name) else IndexText(e)
  }

  function Dots(p: Path): string {
    if p == [] then ""
    else ElementText(p[0]) + (if |p| > 1 && p[1].Name? then "." else "") + Dots(p[1..])
  }

  function Separator(p: Path, i: nat): string
    requires i < |p|
  {
    if i < |p| - 1 && p[i + 1].Name? then "." else ""
  }

  lemma DotsFrom(p: Path, i: nat)
    requires i < |p|
    ensures Dots(p[i..]) == ElementText(p[i]) + Separator(p, i) + Dots(p[i + 1..])
  {
    hide ElementText;
    assert p[i..][0] == p[i] && p[i..][1..] == p[i + 1..];
  }

  method Print(p: Path) returns (b: string)
    ensures b == Dots(p)
  {
    hide Dots, Escape, IndexText, Separator;
    b := "";
    assert p[0..] == p;
    for i := 0 to |p|
      invariant b + Dots(p[i..]) == Dots(p)
    {
      var e := p[i];
      DotsFrom(p, i);
      var text := if e.Name? then Escape(e.name) else IndexText(e);
      Regroup(b, text, Separator(p, i), Dots(p[i + 1..]));
      b := b + text;
      b := b + Separator(p, i);
    }
    assert p[|p|..] == [];
    NoDots();
    assert b + "" == b;
  }

  lemma NoDots()
    ensures Dots([]) == ""
  {
  }

  lemma ExampleElements()
    ensures ElementText(Name("a")) == "a" && ElementText(Name("b.c")) == "b\\.c"
    ensures ElementText(Index(37)) == "[37]" && ElementText(NextIndex) == "[+]"
  {
    EscapePlain('a', "");
    EscapePlain('b', ".c");
    EscapePlain('c', "");
    assert ".c"[1..] == "c" && Escape(".c") == "\\." + Escape("c");
    assert Decimal(37) == Decimal(3) + [Digit(7)] == "37";
  }

  lemma DotsCons(e: Element, rest: Path, text: string)
    requires Dots(rest) == text
    ensures Dots([e] + rest) == ElementText(e) + (if rest != [] && rest[0].Name? then "." else "") + text
  {
    hide ElementText;
    assert ([e] + rest)[1..] == rest;
  }

  // A name, an index, a name with a dot and the place after the last element.
  lemma DotsExample()
    ensures Dots([Name("a"), Index(37), Name("b.c"), NextIndex]) == "a[37].b\\.c[+]"
  {
    ExampleElements();
    NoDots();
    hide Dots, ElementText, Escape, Decimal, InnerText, IndexText, Separator;
    var p3 := [NextIndex] + [];
    var p2 := [Name("b.c")] + p3;
    var p1 := [Index(37)] + p2;
    DotsCons(NextIndex, [], "");
    DotsCons(Name("b.c"), p3, "[+]");
    DotsCons(Index(37), p2, "b\\.c[+]");
    DotsCons(Name("a"), p1, "[37].b\\.c[+]");
    assert [Name("a")] + p1 == [Name("a"), Index(37), Name("b.c"), NextIndex];
  }

  lemma EscapePlain(c: char, rest: string)
    requires c != '.'
    ensures Escape([c] + rest) == [c] + Escape(rest) && Escape("") == ""
  {
    assert ([c] + rest)[1..] == rest;
  }

  lemma Regroup(a: string, b: string, c: string, d: string)
    ensures a + (b + c + d) == a + b + c + d
  {
  }

  // ----- parsing

  // Where the next separator is found: a character that is no backslash, followed by dots.
  function Find(value: string, from: nat): (start: nat)
    requires from <= |value|
    ensures from <= start <= |value|
    decreases |value| - from
  {
    if from == |value| then from
    else if value[from] != '\\' && from + 1 < |value| && value[from + 1] == '.' then from
    else Find(value, from + 1)
  }

  // The end of a run of dots.
  function DotsEnd(value: string, from: nat): (end: nat)
    requires from <= |value|
    ensures from <= end <= |value|
    decreases |value| - from
  {
    if from < |value| && value[from] == '.' then DotsEnd(value, from + 1) else from
  }

  function Strip(s: string): string {
    if s == "" then "" else (if s[0] == '\\' then "" else [s[0]]) + Strip(s[1..])
  }

  predicate Bracket(c: char) {
    c == '[' || c == ']'
  }

  function FirstBracket(s: string): (k: nat)
    ensures k <= |s| && (forall j :: 0 <= j < k ==> !Bracket(s[j])) && (k < |s| ==> Bracket(s[k]))
  {
    if s == "" || Bracket(s[0]) then 0 else FirstBracket(s[1..]) + 1
  }

  // Text without brackets followed by one index in brackets: the text and what is inside the brackets.
  function MatchIndex(s: string): Option<(string, string)> {
    var k := FirstBracket(s);
    if k + 1 < |s| && s[k] == '[' && s[|s| - 1] == ']' then
      var inner := s[k + 1..|s| - 1];
      if inner == "" || inner == "+" || AllDigits(inner) then Some((s[..k], inner)) else None
    else None
  }

  // What one segment adds; a number too large for an int cannot be parsed.
  function Added(s: string): Result<Path> {
    var m := MatchIndex(s);
    if m.None? then Ok([Name(s)])
    else
      var names := if m.value.0 != "" then [Name(m.value.0)] else [];
      if m.value.1 == "" || m.value.1 == "+" then Ok(names + [NextIndex])
      else if ValueOf(m.value.1) > MAX_INT then Err("NumberFormatException")
      else Ok(names + [Index(ValueOf(m.value.1))])
  }

  function AddedTo(elements: Path, rest: Result<Path>): Result<Path> {
    if rest.Err? then rest else Ok(elements + rest.value)
  }

  function Parsed(value: string): Result<Path>
    decreases |value|
  {
    var start := Find(value, 0);
    if start == |value| then (if value == "" then Ok([]) else Added(Strip(value)))
    else
      var first := Added(Strip(value[..start + 1]));
      Followed(first, Parsed(value[DotsEnd(value, start + 1)..]))
  }

  function Followed(first: Result<Path>, rest: Result<Path>): Result<Path> {
    if first.Err? then first else AddedTo(first.value, rest)
  }

  lemma ParsedFrom(value: string, pos: nat)
    requires pos <= |value|
    ensures var start := Find(value, pos);
            Parsed(value[pos..]) ==
              if start == |value| then (if pos == |value| then Ok([]) else Added(Strip(value[pos..])))
              else Followed(Added(Strip(value[pos..start + 1])), Parsed(value[DotsEnd(value, start + 1)..]))
  {
    hide Find, DotsEnd, Added, Strip, Followed;
    var start := Find(value, pos);
    FindFrom(value, pos);
    if start < |value| {
      DotsEndFrom(value, pos, start + 1);
      var end := DotsEnd(value, start + 1);
      assert value[pos..][..start - pos + 1] == value[pos..start + 1];
      assert value[pos..][end - pos..] == value[end..];
    }
  }

  method Parse(value: string) returns (path: Result<Path>)
    ensures path == Parsed(value)
  {
    hide Parsed, Find, DotsEnd, Added, Strip, AddedTo;
    var elements: Path := [];
    var pos := 0;
    assert value[0..] == value;
    SkipNothing(Parsed(value));
    var start := Find(value, pos);
    while start < |value|
      invariant pos <= |value| && start == Find(value, pos)
      invariant AddedTo(elements, Parsed(value[pos..])) == Parsed(value)
      decreases |value| - pos
    {
      ParsedFrom(value, pos);
      var added := Added(Strip(value[pos..start + 1]));
      var end := DotsEnd(value, start + 1);
      ghost var rest := Parsed(value[end..]);
      if added.Err? {
        AddToError(elements, added);
        return added;
      }
      AddTwice(elements, added.value, rest);
      elements, pos := elements + added.value, end;
      start := Find(value, pos);
    }
    ParsedFrom(value, pos);
    if pos < |value| {
      assert value[pos..|value|] == value[pos..];
      var added := Added(Strip(value[pos..|value|]));
      if added.Err? {
        AddToError(elements, added);
        return added;
      }
      AddToOk(elements, added.value);
      elements := elements + added.value;
    } else {
      AddToOk(elements, []);
      assert elements + [] == elements;
    }
    path := Ok(elements);
  }

  lemma AddToError(x: Path, rest: Result<Path>)
    requires rest.Err?
    ensures AddedTo(x, rest) == rest
  {
  }

  lemma AddToOk(x: Path, y: Path)
    ensures AddedTo(x, Ok(y)) == Ok(x + y)
  {
  }

  lemma SkipNothing(r: Result<Path>)
    ensures AddedTo([], r) == r
  {
    if r.Ok? {
      assert [] + r.value == r.value;
    }
  }

  lemma AddTwice(x: Path, y: Path, rest: Result<Path>)
    ensures AddedTo(x, AddedTo(y, rest)) == AddedTo(x + y, rest)
  {
    if rest.Ok? {
      assert x + (y + rest.value) == x + y + rest.value;
    }
  }

  lemma {:induction false} FindShift(value: string, pos: nat, from: nat)
    requires pos <= from <= |value|
    ensures Find(value[pos..], from - pos) == Find(value, from) - pos
    decreases |value| - from
  {
    if from == |value| {
    } else {
      FindShift(value, pos, from + 1);
    }
  }

  lemma FindFrom(value: string, pos: nat)
    requires pos <= |value|
    ensures Find(value[pos..], 0) == Find(value, pos) - pos
  {
    FindShift(value, pos, pos);
  }

  lemma {:induction false} DotsEndFrom(value: string, pos: nat, from: nat)
    requires pos <= from <= |value|
    ensures DotsEnd(value[pos..], from - pos) == DotsEnd(value, from) - pos
    decreases |value| - from
  {
    if from == |value| {
    } else {
      DotsEndFrom(value, pos, from + 1);
    }
  }

  // ----- the round trip

  // An element that survives being printed and parsed, with the one after it.
  predicate ElementOk(e: Element, next: Option<Element>) {
    if e.Name? then
      && e.name != "" && '\\' !in e.name
      && if next.Some? && Indexical(next.value) then FirstBracket(e.name) == |e.name| else MatchIndex(e.name).None?
    else (e.Index? ==> e.index >= 0) && (next.Some? ==> next.value.Name?)
  }

  function After(p: Path, i: nat): Option<Element>
    requires i < |p|
  {
    if i + 1 < |p| then Some(p[i + 1]) else None
  }

  // The paths that survive: names are not empty and have no backslash, a name alone does not look like an index,
  // a name before an index has no bracket, no index is negative and no two indexical elements follow each other.
  ghost predicate WellFormed(p: Path) {
    forall i :: 0 <= i < |p| ==> ElementOk(p[i], After(p, i))
  }

  // Names with something in them and no backslash.
  predicate PlainNames(p: Path) {
    forall i :: 0 <= i < |p| && p[i].Name? ==> p[i].name != "" && '\\' !in p[i].name
  }

  // The elements up to the next separator.
  function GroupEnd(p: Path): (n: nat)
    requires p != []
    ensures 1 <= n <= |p| && (forall i :: 0 < i < n ==> Indexical(p[i])) && (n < |p| ==> p[n].Name?)
  {
    if |p| == 1 || p[1].Name? then 1 else GroupEnd(p[1..]) + 1
  }

  // All dots are escaped, and the text does not end in a backslash.
  predicate Closed(t: string) {
    && t != "" && t[|t| - 1] != '\\'
    && forall k :: 0 <= k < |t| && t[k] == '.' ==> k > 0 && t[k - 1] == '\\'
  }

  lemma ClosedConcat(s: string, t: string)
    requires Closed(s) && Closed(t)
    ensures Closed(s + t)
  {
    var u := s + t;
    forall k | 0 <= k < |u| && u[k] == '.'
      ensures k > 0 && u[k - 1] == '\\'
    {
      if k < |s| {
        assert s[k] == '.';
      } else {
        assert t[k - |s|] == '.';
      }
    }
  }

  lemma {:induction false} EscapeClosed(name: string)
    requires name != "" && '\\' !in name
    ensures Closed(Escape(name))
  {
    var first := if name[0] == '.' then "\\." else [name[0]];
    assert Closed(first) by {
      assert name[0] in name;
    }
    if |name| > 1 {
      assert forall c | c in name[1..] :: c in name;
      EscapeClosed(name[1..]);
      ClosedConcat(first, Escape(name[1..]));
    } else {
      assert name[1..] == "" && first + "" == first;
    }
  }

  lemma InnerPlain(e: Element)
    requires Indexical(e)
    ensures forall k :: 0 <= k < |InnerText(e)| ==>
        InnerText(e)[k] != '.' && InnerText(e)[k] != '\\' && !Bracket(InnerText(e)[k])
    ensures InnerText(e) != ""
  {
    if e.Index? {
      var i: int := e.index;
      var d := Decimal(if i < 0 then -i else i);
      assert forall j | 0 <= j < |d| :: IsDigit(d[j]);
    }
  }

  lemma ElementClosed(e: Element)
    requires e.Name? ==> e.name != "" && '\\' !in e.name
    ensures Closed(ElementText(e))
  {
    if e.Name? {
      EscapeClosed(e.name);
    } else {
      InnerPlain(e);
    }
  }

  // The texts of a group one after the other, and as they are once the backslashes are gone.
  function GroupText(g: Path): string {
    if g == [] then "" else ElementText(g[0]) + GroupText(g[1..])
  }

  function PlainText(g: Path): string {
    if g == [] then "" else (if g[0].Name? then g[0].name else IndexText(g[0])) + PlainText(g[1..])
  }

  lemma {:induction false} GroupClosed(g: Path)
    requires g != [] && PlainNames(g)
    ensures Closed(GroupText(g))
  {
    ElementClosed(g[0]);
    if |g| > 1 {
      assert PlainNames(g[1..]) by {
        assert forall i | 0 <= i < |g| - 1 :: g[1..][i] == g[i + 1];
      }
      GroupClosed(g[1..]);
      ClosedConcat(ElementText(g[0]), GroupText(g[1..]));
    } else {
      assert GroupText(g[1..]) == "" && ElementText(g[0]) + "" == ElementText(g[0]);
    }
  }

  lemma {:induction false} StripConcat(s: string, t: string)
    ensures Strip(s + t) == Strip(s) + Strip(t)
  {
    if s == "" {
      assert s + t == t;
    } else {
      assert (s + t)[0] == s[0] && (s + t)[1..] == s[1..] + t;
      StripConcat(s[1..], t);
    }
  }

  lemma StripFirst(c: char)
    requires c != '\\'
    ensures Strip([c]) == [c] && Strip("\\.") == "."
  {
    assert "\\."[1..] == "." && "."[1..] == "" && [c][1..] == "";
    assert Strip(".") == ['.'] + Strip("");
    assert Strip([c]) == [c] + Strip("");
  }

  lemma {:induction false} StripEscape(name: string)
    requires '\\' !in name
    ensures Strip(Escape(name)) == name
  {
    hide Strip;
    if name == "" {
      StripNothing();
    } else {
      assert name[0] in name && forall c | c in name[1..] :: c in name;
      StripEscape(name[1..]);
      var first := if name[0] == '.' then "\\." else [name[0]];
      assert Escape(name) == first + Escape(name[1..]);
      hide Escape;
      StripConcat(first, Escape(name[1..]));
      StripFirst(name[0]);
      assert [name[0]] + name[1..] == name;
    }
  }

  lemma StripNothing()
    ensures Strip("") == ""
  {
  }

  lemma {:induction false} StripPlain(s: string)
    requires '\\' !in s
    ensures Strip(s) == s
  {
    if s == "" {
    } else {
      assert s[0] in s && forall c | c in s[1..] :: c in s;
      StripPlain(s[1..]);
    }
  }

  lemma IndexTextPlain(e: Element)
    requires Indexical(e)
    ensures '\\' !in IndexText(e)
  {
    InnerPlain(e);
  }

  lemma {:induction false} StripGroup(g: Path)
    requires PlainNames(g)
    ensures Strip(GroupText(g)) == PlainText(g)
  {
    if g == [] {
    } else {
      assert PlainNames(g[1..]) by {
        assert forall i | 0 <= i < |g| - 1 :: g[1..][i] == g[i + 1];
      }
      StripGroup(g[1..]);
      StripConcat(ElementText(g[0]), GroupText(g[1..]));
      if g[0].Name? {
        StripEscape(g[0].name);
      } else {
        IndexTextPlain(g[0]);
        StripPlain(IndexText(g[0]));
      }
    }
  }

  // ----- finding the separators

  lemma {:induction false} NoSeparatorInside(t: string, rest: string, from: nat)
    requires Closed(t) && from < |t|
    ensures Find(t + rest, from) == Find(t + rest, |t| - 1)
    decreases |t| - from
  {
    var s := t + rest;
    if from < |t| - 1 {
      assert s[from] == t[from] && s[from + 1] == t[from + 1];
      NoSeparatorInside(t, rest, from + 1);
    }
  }

  lemma ParsedGroup(t: string)
    requires Closed(t)
    ensures Parsed(t) == Added(Strip(t))
  {
    NoSeparatorInside(t, "", 0);
    assert t + "" == t;
    assert Find(t, |t| - 1) == |t|;
  }

  lemma ParsedSeparated(t: string, rest: string)
    requires Closed(t) && rest != "" && rest[0] != '.'
    ensures Parsed(t + "." + rest) == Followed(Added(Strip(t)), Parsed(rest))
  {
    hide Parsed, Followed, Added, Strip;
    var s := t + "." + rest;
    assert s == t + ("." + rest);
    NoSeparatorInside(t, "." + rest, 0);
    var last := |t| - 1;
    assert s[last] == t[last] && s[last + 1] == '.' && s[last + 2] == rest[0];
    assert Find(s, 0) == last;
    assert DotsEnd(s, last + 1) == last + 2;
    assert s[0..last + 1] == t && s[last + 2..] == rest && s[0..] == s;
    ParsedFrom(s, 0);
  }

  lemma {:induction false} DotsOfGroup(p: Path)
    requires p != []
    ensures var n := GroupEnd(p);
            Dots(p) == GroupText(p[..n]) + if n < |p| then "." + Dots(p[n..]) else ""
  {
    hide ElementText;
    var n := GroupEnd(p);
    var text, rest := ElementText(p[0]), p[1..];
    assert p[..n][0] == p[0] && p[..n][1..] == rest[..n - 1];
    if n == 1 {
      assert GroupText(rest[..0]) == "" && text + "" == text;
      assert n == |p| ==> rest == [];
      assert text + "." + Dots(rest) == text + ("." + Dots(rest));
    } else {
      DotsOfGroup(rest);
      assert rest[n - 1..] == p[n..];
      var more := if n < |p| then "." + Dots(p[n..]) else "";
      assert text + "" + (GroupText(rest[..n - 1]) + more) == text + GroupText(rest[..n - 1]) + more;
    }
  }

  lemma DotsStart(p: Path)
    requires p != [] && PlainNames(p)
    ensures Dots(p) != "" && Dots(p)[0] != '.'
  {
    hide ElementText, Dots;
    ElementClosed(p[0]);
    DotsFrom(p, 0);
    assert p[0..] == p;
    var t := ElementText(p[0]);
    assert Dots(p)[0] == t[0];
  }

  // Parsing takes the groups one by one.
  lemma ParsedDots(p: Path)
    requires p != [] && PlainNames(p)
    ensures var n := GroupEnd(p);
            Parsed(Dots(p)) == if n < |p| then Followed(Added(PlainText(p[..n])), Parsed(Dots(p[n..])))
                else Added(PlainText(p))
  {
    hide Parsed, Added, Dots, Strip, PlainText, GroupText, Followed, Closed;
    var n := GroupEnd(p);
    var g := p[..n];
    assert PlainNames(g) && PlainNames(p[n..]);
    DotsOfGroup(p);
    GroupClosed(g);
    StripGroup(g);
    if n < |p| {
      DotsStart(p[n..]);
      assert GroupText(g) + ("." + Dots(p[n..])) == GroupText(g) + "." + Dots(p[n..]);
      ParsedSeparated(GroupText(g), Dots(p[n..]));
    } else {
      assert g == p && GroupText(g) + "" == GroupText(g);
      ParsedGroup(GroupText(g));
    }
  }

  // ----- one group

  // What a group must be to come back.
  predicate GroupOk(g: Path) {
    if g == [] then false
    else if g[0].Name? then
      if |g| == 1 then MatchIndex(g[0].name).None?
      else |g| == 2 && FirstBracket(g[0].name) == |g[0].name| && (g[1].Index? ==> g[1].index >= 0)
    else |g| == 1 && (g[0].Index? ==> g[0].index >= 0)
  }

  lemma {:induction false} FirstBracketOf(s: string, t: string)
    requires FirstBracket(s) == |s| && t != "" && Bracket(t[0])
    ensures FirstBracket(s + t) == |s|
  {
    if s == "" {
      assert s + t == t;
    } else {
      assert (s + t)[0] == s[0] && (s + t)[1..] == s[1..] + t;
      FirstBracketOf(s[1..], t);
    }
  }

  // Two brackets before the last character cannot be one index.
  lemma NoIndexAround(s: string, k: nat, j: nat)
    requires k < j < |s| - 1 && Bracket(s[k]) && Bracket(s[j])
    ensures MatchIndex(s) == None
  {
    var f := FirstBracket(s);
    assert f <= k;
    var inner := s[f + 1..|s| - 1];
    assert inner[j - f - 1] == s[j];
    assert inner != "" && inner != "+";
    assert !IsDigit(s[j]);
  }

  lemma MatchBracketed(name: string, inner: string)
    requires FirstBracket(name) == |name|
    ensures MatchIndex(name + ("[" + inner + "]")) == if inner == "" || inner == "+" || AllDigits(inner)
        then Some((name, inner)) else None
  {
    hide AllDigits, FirstBracket;
    var s := name + ("[" + inner + "]");
    FirstBracketOf(name, "[" + inner + "]");
    BracketSlices(name, inner, s);
  }

  lemma BracketSlices(name: string, inner: string, s: string)
    requires s == name + ("[" + inner + "]")
    ensures |s| == |name| + |inner| + 2 && s[..|name|] == name && s[|name|] == '[' && s[|s| - 1] == ']'
    ensures s[|name| + 1..|s| - 1] == inner
  {
    assert forall k | 0 <= k < |inner| :: s[|name| + 1 + k] == inner[k];
  }

  // A name and one printed index, or a printed index alone.
  lemma SingleIndex(name: string, e: Element)
    requires Indexical(e) && FirstBracket(name) == |name|
    ensures
      var names := if name != "" then [Name(name)] else [];
      var added := Added(name + IndexText(e));
      if e.NextIndex? || e.index >= 0 then added == Ok(names + [e]) else added == Ok([Name(name + IndexText(e))])
  {
    hide MatchIndex, FirstBracket, Decimal, ValueOf;
    MatchBracketed(name, InnerText(e));
    if e.Index? {
      var i: int := e.index;
      if i >= 0 {
        DecimalValue(i);
        assert IsDigit(Decimal(i)[0]);
      } else {
        assert InnerText(e)[0] == '-';
      }
    }
  }

  // A name of its own.
  lemma NameAlone(name: string)
    requires name != ""
    ensures if MatchIndex(name).None? then Added(name) == Ok([Name(name)])
            else Added(name).Err? || (Added(name).value != [] && Added(name).value[0] != Name(name))
  {
    hide AllDigits, ValueOf, FirstBracket;
    var m := MatchIndex(name);
    if m.Some? {
      assert |m.value.0| < |name|;
    }
  }

  // A group comes back exactly when it is as it must be; otherwise its first element differs or it cannot be parsed.
  lemma GroupRoundTrip(g: Path)
    requires g != [] && PlainNames(g) && forall i :: 0 < i < |g| ==> Indexical(g[i])
    ensures GroupOk(g) ==> Added(PlainText(g)) == Ok(g)
    ensures !GroupOk(g) ==>
        Added(PlainText(g)).Err? || (Added(PlainText(g)).value != [] && Added(PlainText(g)).value[0] != g[0])
  {
    hide IndexText, MatchIndex, Added, FirstBracket;
    var s := PlainText(g);
    if |g| == 1 {
      assert g[1..] == [];
      if g[0].Name? {
        assert s == g[0].name + "" == g[0].name;
        NameAlone(s);
        assert g == [Name(s)];
      } else {
        assert s == IndexText(g[0]) + "" == "" + IndexText(g[0]);
        SingleIndex("", g[0]);
        assert g == [] + [g[0]];
      }
    } else if |g| == 2 && g[0].Name? && FirstBracket(g[0].name) == |g[0].name| {
      NameAndIndex(g);
    } else {
      SeveralBrackets(g);
    }
  }

  lemma NameAndIndex(g: Path)
    requires |g| == 2 && PlainNames(g) && g[0].Name? && Indexical(g[1]) && FirstBracket(g[0].name) == |g[0].name|
    ensures if g[1].NextIndex? || g[1].index >= 0 then Added(PlainText(g)) == Ok(g)
            else Added(PlainText(g)).Ok? && Added(PlainText(g)).value != [] && Added(PlainText(g)).value[0] != g[0]
  {
    hide MatchIndex, Added, FirstBracket, InnerText;
    assert g[1..] == [g[1]] && [g[1]][1..] == [];
    assert PlainText([g[1]]) == IndexText(g[1]) + "" == IndexText(g[1]);
    SingleIndex(g[0].name, g[1]);
    assert g == [g[0]] + [g[1]];
  }

  lemma IndexTextShape(e: Element)
    requires Indexical(e)
    ensures var t := IndexText(e); |t| >= 3 && t[0] == '[' && t[|t| - 1] == ']'
  {
  }

  lemma SeveralBrackets(g: Path)
    requires |g| >= 2 && PlainNames(g) && forall i :: 0 < i < |g| ==> Indexical(g[i])
    requires |g| == 2 && g[0].Name? ==> FirstBracket(g[0].name) < |g[0].name|
    ensures Added(PlainText(g)) == Ok([Name(PlainText(g))]) && [Name(PlainText(g))][0] != g[0]
  {
    hide IndexText;
    var first := if g[0].Name? then g[0].name else IndexText(g[0]);
    var second := IndexText(g[1]);
    IndexTextShape(g[1]);
    var s := PlainText(g);
    assert s == first + (second + PlainText(g[1..][1..]));
    assert s[|first|] == '[' && s[|first| + |second| - 1] == ']';
    if g[0].Name? && FirstBracket(g[0].name) == |g[0].name| {
      var third := IndexText(g[2]);
      IndexTextShape(g[2]);
      assert g[1..][1..][0] == g[2];
      assert s == first + (second + (third + PlainText(g[1..][1..][1..])));
      assert |s| > |first| + |second|;
      NoIndexAround(s, |first|, |first| + |second| - 1);
    } else {
      if g[0].Name? {
        var k := FirstBracket(first);
        assert s[k] == first[k];
        NoIndexAround(s, k, |first|);
      } else {
        IndexTextShape(g[0]);
        assert s[0] == first[0];
        NoIndexAround(s, 0, |first|);
      }
    }
  }

  // ----- all groups

  lemma GroupElements(p: Path)
    requires p != [] && PlainNames(p)
    ensures var n := GroupEnd(p); GroupOk(p[..n]) <==> forall i :: 0 <= i < n ==> ElementOk(p[i], After(p, i))
  {
    hide MatchIndex, FirstBracket;
    var n := GroupEnd(p);
    assert n < |p| ==> p[n].Name?;
    if forall i :: 0 <= i < n ==> ElementOk(p[i], After(p, i)) {
      assert ElementOk(p[0], After(p, 0));
      assert n > 1 ==> ElementOk(p[1], After(p, 1));
    }
  }

  // The elements from n on are those of the rest.
  lemma SameElements(p: Path, n: nat, i: nat)
    requires n <= i < |p|
    ensures p[n..][i - n] == p[i] && After(p[n..], i - n) == After(p, i)
  {
  }

  lemma WellFormedGroups(p: Path)
    requires p != [] && PlainNames(p)
    ensures var n := GroupEnd(p); WellFormed(p) <==> GroupOk(p[..n]) && (n < |p| ==> WellFormed(p[n..]))
  {
    hide ElementOk, GroupOk, After, GroupEnd;
    var n := GroupEnd(p);
    var rest := p[n..];
    GroupElements(p);
    forall i | n <= i < |p|
      ensures ElementOk(p[i], After(p, i)) <==> ElementOk(rest[i - n], After(rest, i - n))
    {
      SameElements(p, n, i);
    }
    forall j | 0 <= j < |rest|
      ensures ElementOk(p[n + j], After(p, n + j)) <==> ElementOk(rest[j], After(rest, j))
    {
      SameElements(p, n, n + j);
    }
  }

  lemma {:induction false} RoundTripPlain(p: Path)
    requires PlainNames(p)
    ensures Parsed(Dots(p)) == Ok(p) <==> WellFormed(p)
    decreases |p|
  {
    hide Parsed, Dots, Added, PlainText, GroupOk, WellFormed;
    if p == [] {
      NoPath();
    } else {
      var n := GroupEnd(p);
      var g, rest := p[..n], p[n..];
      assert PlainNames(g) && PlainNames(rest);
      ParsedDots(p);
      GroupRoundTrip(g);
      WellFormedGroups(p);
      if n < |p| {
        RoundTripPlain(rest);
        assert g + rest == p;
        Prefixed(g, rest, Added(PlainText(g)), Parsed(Dots(rest)));
      } else {
        assert g == p;
      }
    }
  }

  lemma NoPath()
    ensures Parsed(Dots([])) == Ok([]) && WellFormed([])
  {
  }

  lemma Prefixed(g: Path, rest: Path, first: Result<Path>, parsed: Result<Path>)
    requires g != [] && (first == Ok(g) || first.Err? || (first.value != [] && first.value[0] != g[0]))
    ensures Followed(first, parsed) == Ok(g + rest) <==> first == Ok(g) && parsed == Ok(rest)
  {
    if first.Ok? && parsed.Ok? {
      var x := first.value + parsed.value;
      if x == g + rest {
        assert x[0] == first.value[0] == g[0];
        assert parsed.value == x[|g|..] == rest;
      }
    }
  }

  // ----- names that never come back

  predicate NoBackslash(p: Path) {
    forall i :: 0 <= i < |p| && p[i].Name? ==> '\\' !in p[i].name
  }

  predicate NoEmpty(p: Path) {
    forall i :: 0 <= i < |p| && p[i].Name? ==> p[i].name != ""
  }

  lemma {:induction false} StripNames(s: string)
    ensures '\\' !in Strip(s)
    ensures s != "" && s[|s| - 1] != '\\' ==> Strip(s) != ""
  {
    if s == "" {
    } else {
      StripNames(s[1..]);
      assert |s| > 1 ==> s[1..][|s| - 2] == s[|s| - 1];
    }
  }

  lemma AddedNames(s: string)
    requires '\\' !in s && Added(s).Ok?
    ensures NoBackslash(Added(s).value) && (s != "" ==> NoEmpty(Added(s).value))
  {
    hide AllDigits, ValueOf, FirstBracket;
    var m := MatchIndex(s);
    if m.Some? {
      assert forall c | c in m.value.0 :: c in s;
    }
  }

  lemma {:induction false} ParsedNames(value: string)
    requires Parsed(value).Ok?
    ensures NoBackslash(Parsed(value).value)
    ensures value == "" || value[|value| - 1] != '\\' ==> NoEmpty(Parsed(value).value)
    decreases |value|
  {
    hide Added, Strip;
    var start := Find(value, 0);
    if start == |value| {
      if value != "" {
        StripNames(value);
        AddedNames(Strip(value));
      }
    } else {
      var segment, end := value[..start + 1], DotsEnd(value, start + 1);
      StripNames(segment);
      AddedNames(Strip(segment));
      FindsCharacter(value, 0);
      assert segment[|segment| - 1] == value[start];
      var rest := value[end..];
      ParsedNames(rest);
      assert rest != "" ==> rest[|rest| - 1] == value[|value| - 1];
    }
  }

  lemma {:induction false} FindsCharacter(value: string, from: nat)
    requires from <= |value| && Find(value, from) < |value|
    ensures value[Find(value, from)] != '\\'
    decreases |value| - from
  {
    if !(value[from] != '\\' && from + 1 < |value| && value[from + 1] == '.') {
      FindsCharacter(value, from + 1);
    }
  }

  predicate NoTrailing(s: string) {
    s == "" || s[|s| - 1] != '\\'
  }

  lemma ElementNoTrailing(e: Element)
    requires e.Name? ==> '\\' !in e.name
    ensures NoTrailing(ElementText(e))
  {
    if e.Index? || e.NextIndex? || e.name != "" {
      ElementClosed(e);
    }
  }

  lemma {:induction false} DotsNoTrailing(p: Path)
    requires NoBackslash(p)
    ensures NoTrailing(Dots(p))
  {
    hide ElementText;
    if p == [] {
    } else {
      assert NoBackslash(p[1..]) by {
        assert forall i | 0 <= i < |p| - 1 :: p[1..][i] == p[i + 1];
      }
      ElementNoTrailing(p[0]);
      DotsNoTrailing(p[1..]);
    }
  }

  // A path comes back from its dotted text exactly when it is well formed.
  lemma DotsRoundTrip(p: Path)
    ensures Parsed(Dots(p)) == Ok(p) <==> WellFormed(p)
  {
    hide Parsed, Dots;
    if PlainNames(p) {
      RoundTripPlain(p);
    } else if Parsed(Dots(p)) == Ok(p) {
      ParsedNames(Dots(p));
      assert NoBackslash(p);
      DotsNoTrailing(p);
      assert false;
    }
  }

  predicate Plain(c: char) {
    c != '\\' && !Bracket(c)
  }

  // In particular: names of other characters, dots among them, non-negative indexes, no two indexical elements in a
  // row.
  lemma PlainPathsRoundTrip(p: Path)
    requires forall i :: 0 <= i < |p| && p[i].Name? ==> p[i].name != "" && forall k :: 0 <= k < |p[i].name| ==>
        Plain(p[i].name[k])
    requires forall i :: 0 <= i < |p| && p[i].Index? ==> p[i].index >= 0
    requires forall i :: 0 <= i < |p| - 1 && Indexical(p[i]) ==> p[i + 1].Name?
    ensures Parsed(Dots(p)) == Ok(p)
  {
    forall i | 0 <= i < |p| && p[i].Name?
      ensures ElementOk(p[i], After(p, i))
    {
      var name := p[i].name;
      assert forall k | 0 <= k < |name| :: Plain(name[k]);
    }
    DotsRoundTrip(p);
  }
}
