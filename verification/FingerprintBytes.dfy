/** The bytes that the fingerprint of a request is taken of, when two observations give the same bytes,
    and a class of data on which they never do. */
module FingerprintBytes {
  import opened Wrappers
  import opened DataTrees
  import opened ReadObservation
  import opened RenderCaching

  // ----- text

  // UTF-8.
  function CharBytes(c: char): (bytes: seq<int>)
    ensures bytes != []
  {
    var n := c as int;
    if n < 0x80 then [n]
    else if n < 0x800 then [0xC0 + n / 64, 0x80 + n % 64]
    else if n < 0x1_0000 then [0xE0 + n / 4096, 0x80 + n / 64 % 64, 0x80 + n % 64]
    else [0xF0 + n / 262144, 0x80 + n / 4096 % 64, 0x80 + n / 64 % 64, 0x80 + n % 64]
  }

  function TextBytes(s: string): seq<int> {
    if s == "" then [] else CharBytes(s[0]) + TextBytes(s[1..])
  }

  // The number in a list of bytes of the form above.
  function CharNumber(b: seq<int>): int {
    if |b| == 1 then b[0]
    else if |b| == 2 then (b[0] - 0xC0) * 64 + (b[1] - 0x80)
    else if |b| == 3 then ((b[0] - 0xE0) * 64 + (b[1] - 0x80)) * 64 + (b[2] - 0x80)
    else if |b| == 4 then (((b[0] - 0xF0) * 64 + (b[1] - 0x80)) * 64 + (b[2] - 0x80)) * 64 + (b[3] - 0x80)
    else 0
  }

  lemma CharNumberOf(c: char)
    ensures CharNumber(CharBytes(c)) == c as int
  {
    var n := c as int;
    assert n / 4096 == n / 64 / 64 && n / 262144 == n / 4096 / 64;
    assert n == n / 64 * 64 + n % 64 && n / 64 == n / 4096 * 64 + n / 64 % 64;
    assert n / 4096 == n / 262144 * 64 + n / 4096 % 64;
  }

  lemma SameChar(c: char, d: char)
    requires CharBytes(c) == CharBytes(d)
    ensures c == d
  {
    CharNumberOf(c);
    CharNumberOf(d);
  }

  // The first byte says how many there are.
  function LeadLength(b: int): nat {
    if b < 0x80 then 1 else if b < 0xE0 then 2 else if b < 0xF0 then 3 else 4
  }

  lemma CharLength(c: char)
    ensures |CharBytes(c)| == LeadLength(CharBytes(c)[0])
  {
  }

  lemma FirstPart(x: seq<int>, r: seq<int>, y: seq<int>, s: seq<int>)
    requires x + r == y + s && |x| == |y|
    ensures x == y && r == s
  {
    assert x == (x + r)[..|x|] && y == (y + s)[..|y|];
    assert r == (x + r)[|x|..] && s == (y + s)[|y|..];
  }

  lemma CharStep(c: char, r: seq<int>, d: char, s: seq<int>)
    requires CharBytes(c) + r == CharBytes(d) + s
    ensures c == d && r == s
  {
    hide CharBytes;
    assert CharBytes(c)[0] == (CharBytes(c) + r)[0] == (CharBytes(d) + s)[0] == CharBytes(d)[0];
    CharLength(c);
    CharLength(d);
    FirstPart(CharBytes(c), r, CharBytes(d), s);
    SameChar(c, d);
  }

  // Different texts have different bytes.
  lemma {:induction false} SameText(s: string, t: string)
    requires TextBytes(s) == TextBytes(t)
    ensures s == t
  {
    hide CharBytes;
    if s == "" || t == "" {
      assert s == "" && t == "";
    } else {
      CharStep(s[0], TextBytes(s[1..]), t[0], TextBytes(t[1..]));
      SameText(s[1..], t[1..]);
      assert s == [s[0]] + s[1..] && t == [t[0]] + t[1..];
    }
  }

  lemma {:induction false} TextConcat(s: string, t: string)
    ensures TextBytes(s + t) == TextBytes(s) + TextBytes(t)
  {
    hide CharBytes;
    if s == "" {
      assert s + t == t;
    } else {
      assert (s + t)[0] == s[0] && (s + t)[1..] == s[1..] + t;
      TextConcat(s[1..], t);
    }
  }

  lemma {:induction false} TextIsBytes(s: string)
    ensures forall k :: 0 <= k < |TextBytes(s)| ==> 0 <= TextBytes(s)[k] < 256
    ensures '\0' !in s ==> 0 !in TextBytes(s)
  {
    if s == "" {
    } else {
      TextIsBytes(s[1..]);
      assert s[0] in s && forall c | c in s[1..] :: c in s;
      CharIsBytes(s[0]);
      var first, rest := CharBytes(s[0]), TextBytes(s[1..]);
      assert forall k | |first| <= k < |first + rest| :: (first + rest)[k] == rest[k - |first|];
    }
  }

  lemma CharIsBytes(c: char)
    ensures forall k :: 0 <= k < |CharBytes(c)| ==> 0 <= CharBytes(c)[k] < 256
    ensures c != '\0' ==> 0 !in CharBytes(c)
  {
  }

  // ----- numbers and paths

  // Four bytes, the lowest first.
  function IntBytes(n: int): (bytes: seq<int>)
    ensures |bytes| == 4
  {
    [n % 256, n / 256 % 256, n / 65536 % 256, n / 16777216 % 256]
  }

  // Four and two bytes, the highest first, as in the byte form of a path.
  function BigEndian(n: int): seq<int> {
    [n / 16777216 % 256, n / 65536 % 256, n / 256 % 256, n % 256]
  }

  function Short(n: int): seq<int> {
    [n / 256 % 256, n % 256]
  }

  // Names are written with the zero character in two bytes.
  function NameBytes(s: string): seq<int> {
    if s == "" then [] else (if s[0] == '\0' then [0xC0, 0x80] else CharBytes(s[0])) + NameBytes(s[1..])
  }

  function ElementsForm(p: Path): seq<int> {
    if p == [] then []
    else
      (if p[0].Name? then [1] + Short(|NameBytes(p[0].name)|) + NameBytes(p[0].name) else [0] + BigEndian(p[0].index))
      + ElementsForm(p[1..])
  }

  function PathBytes(p: Path): seq<int> {
    BigEndian(|p|) + ElementsForm(p)
  }

  lemma SameInt(n: int, m: int)
    requires IntBytes(n) == IntBytes(m)
    requires n - m < 0x1_0000_0000 && m - n < 0x1_0000_0000
    ensures n == m
  {
    assert IntBytes(n)[0] == IntBytes(m)[0] && IntBytes(n)[1] == IntBytes(m)[1];
    assert IntBytes(n)[2] == IntBytes(m)[2] && IntBytes(n)[3] == IntBytes(m)[3];
    Rebuilt(n);
    Rebuilt(m);
  }

  lemma Rebuilt(n: int)
    ensures n == n % 256 + n / 256 % 256 * 256 + n / 65536 % 256 * 65536 + n / 16777216 % 256 * 16777216
              + n / 16777216 / 256 * 0x1_0000_0000
  {
    assert n / 65536 == n / 256 / 256 && n / 16777216 == n / 65536 / 256;
  }

  // ----- content

  // A missing value is one zero byte.
  function ContentBytes(c: Option<Content>): seq<int> {
    match c
    case None => [0]
    case Some(NullContent) => [0]
    case Some(Utf8(text)) => TextBytes(text)
    case Some(Integer(n)) => IntBytes(n)
    case Some(Boolean(b)) => if b then [1] else [0]
  }

  // Values hashed as a single zero byte, and as a single one byte.
  predicate ZeroByte(c: Option<Content>) {
    c == None || c == Some(NullContent) || c == Some(Boolean(false)) || c == Some(Utf8("\0"))
  }

  predicate OneByte(c: Option<Content>) {
    c == Some(Boolean(true)) || c == Some(Utf8("\U{0001}"))
  }

  // A text whose four bytes are those of a number.
  predicate TextOfNumber(a: Option<Content>, b: Option<Content>) {
    a.Some? && a.value.Utf8? && b.Some? && b.value.Integer? && TextBytes(a.value.text) == IntBytes(b.value.number)
  }

  predicate LooksLike(a: Option<Content>, b: Option<Content>) {
    a == b || (ZeroByte(a) && ZeroByte(b)) || (OneByte(a) && OneByte(b)) || TextOfNumber(a, b) || TextOfNumber(b, a)
  }

  lemma SingleByte(t: string, c: char)
    requires c as int < 0x80
    ensures TextBytes(t) == [c as int] <==> t == [c]
    ensures TextBytes([c]) == [c as int]
  {
    assert [c][1..] == "";
    assert TextBytes([c]) == CharBytes(c) + TextBytes("");
    if TextBytes(t) == [c as int] {
      SameText(t, [c]);
    }
  }

  // Exactly when two values are hashed alike.
  lemma SameContentBytes(a: Option<Content>, b: Option<Content>)
    ensures ContentBytes(a) == ContentBytes(b) <==> LooksLike(a, b)
  {
    hide TextBytes, IntBytes;
    if a.Some? && a.value.Utf8? {
      SingleByte(a.value.text, '\0');
      SingleByte(a.value.text, '\U{0001}');
    }
    if b.Some? && b.value.Utf8? {
      SingleByte(b.value.text, '\0');
      SingleByte(b.value.text, '\U{0001}');
    }
    if ContentBytes(a) == ContentBytes(b) {
      if a.Some? && b.Some? && a.value.Utf8? && b.value.Utf8? {
        SameText(a.value.text, b.value.text);
      } else if a.Some? && b.Some? && a.value.Integer? && b.value.Integer? {
        SameInt(a.value.number, b.value.number);
      }
    }
  }

  // A text is hashed like some number exactly when it takes four bytes.
  lemma FourByteTexts(t: string)
    ensures (exists n: Int :: TextBytes(t) == IntBytes(n)) <==> |TextBytes(t)| == 4
  {
    if |TextBytes(t)| == 4 {
      TextIsBytes(t);
      var n := NumberOf(TextBytes(t));
    }
  }

  lemma NumberOf(b: seq<int>) returns (n: Int)
    requires |b| == 4 && forall k :: 0 <= k < 4 ==> 0 <= b[k] < 256
    ensures IntBytes(n) == b
  {
    var m := b[0] + b[1] * 256 + b[2] * 65536 + b[3] * 16777216;
    n := if m <= 0x7fff_ffff then m else m - 0x1_0000_0000;
    var top := if m <= 0x7fff_ffff then b[3] else b[3] - 256;
    assert n == b[0] + 256 * (b[1] + 256 * (b[2] + 256 * top));
    Digit(n, b[0], b[1] + 256 * (b[2] + 256 * top));
    Digit(n / 256, b[1], b[2] + 256 * top);
    Digit(n / 256 / 256, b[2], top);
    assert n / 65536 == n / 256 / 256 && n / 16777216 == n / 65536 / 256;
  }

  lemma Digit(n: int, low: int, high: int)
    requires n == low + 256 * high && 0 <= low < 256
    ensures n % 256 == low && n / 256 == high
  {
  }

  // ----- an observation

  function ValuesBytes(values: seq<(Path, Option<Content>)>): seq<int> {
    if values == [] then []
    else PathBytes(values[0].0) + (ContentBytes(values[0].1) + ([0] + ValuesBytes(values[1..])))
  }

  function ElementBytes(e: Element): seq<int> {
    if e.Name? then TextBytes(e.name) else IntBytes(e.index)
  }

  function NamesBytes(es: seq<Element>): seq<int> {
    if es == [] then [] else ElementBytes(es[0]) + NamesBytes(es[1..])
  }

  function KeysBytes(keys: seq<seq<Element>>): seq<int> {
    if keys == [] then [] else NamesBytes(keys[0]) + ([0] + KeysBytes(keys[1..]))
  }

  // Everything that is put into the hash, the hash of the template last.
  function Hashed(template: seq<int>, o: Observation): seq<int> {
    IntBytes(o.size) + (IntBytes(|o.values|) + (ValuesBytes(o.values) + ([1]
      + (IntBytes(|o.keys|) + (KeysBytes(o.keys) + ([1] + template))))))
  }

  // ----- exactly when one value or one list of keys makes no difference

  lemma {:induction false} ValuesConcat(x: seq<(Path, Option<Content>)>, y: seq<(Path, Option<Content>)>)
    ensures ValuesBytes(x + y) == ValuesBytes(x) + ValuesBytes(y)
  {
    hide PathBytes, ContentBytes;
    if x == [] {
      assert x + y == y;
    } else {
      assert (x + y)[0] == x[0] && (x + y)[1..] == x[1..] + y;
      ValuesConcat(x[1..], y);
    }
  }

  lemma {:induction false} KeysConcat(x: seq<seq<Element>>, y: seq<seq<Element>>)
    ensures KeysBytes(x + y) == KeysBytes(x) + KeysBytes(y)
  {
    hide NamesBytes;
    if x == [] {
      assert x + y == y;
    } else {
      assert (x + y)[0] == x[0] && (x + y)[1..] == x[1..] + y;
      KeysConcat(x[1..], y);
    }
  }

  lemma SameMiddle(x: seq<int>, m: seq<int>, n: seq<int>, y: seq<int>)
    ensures x + (m + y) == x + (n + y) <==> m == n
  {
    if x + (m + y) == x + (n + y) {
      FirstPart(x, m + y, x, n + y);
      assert |m + y| == |n + y|;
      FirstPart(m, y, n, y);
    }
  }

  lemma AroundValue(template: seq<int>, o: Observation, k: nat, p: Path) returns (before: seq<int>, after: seq<int>)
    requires k < |o.values|
    ensures forall a :: Hashed(template, o.(values := o.values[k := (p, a)])) == before + (ContentBytes(a) + after)
  {
    hide IntBytes, PathBytes, ContentBytes, KeysBytes;
    var front, back := o.values[..k], o.values[k + 1..];
    var rest := [1] + (IntBytes(|o.keys|) + (KeysBytes(o.keys) + ([1] + template)));
    before := IntBytes(o.size) + (IntBytes(|o.values|) + (ValuesBytes(front) + PathBytes(p)));
    after := [0] + ValuesBytes(back) + rest;
    forall a
      ensures Hashed(template, o.(values := o.values[k := (p, a)])) == before + (ContentBytes(a) + after)
    {
      var values := o.values[k := (p, a)];
      assert values == front + ([(p, a)] + back);
      ValuesConcat(front, [(p, a)] + back);
      assert ([(p, a)] + back)[1..] == back;
      RegroupValue(IntBytes(o.size), IntBytes(|o.values|), ValuesBytes(front), PathBytes(p), ContentBytes(a),
                   ValuesBytes(back), rest);
    }
  }

  lemma RegroupValue(a: seq<int>, b: seq<int>, c: seq<int>, d: seq<int>, e: seq<int>, f: seq<int>, g: seq<int>)
    ensures a + (b + (c + (d + (e + ([0] + f))) + g)) == (a + (b + (c + d))) + (e + ([0] + f + g))
  {
  }

  // One value makes no difference to the bytes exactly when it looks like the other.
  lemma OneValueCollides(template: seq<int>, o: Observation, k: nat, p: Path, a: Option<Content>, b: Option<Content>)
    requires k < |o.values|
    ensures Hashed(template, o.(values := o.values[k := (p, a)]))
        == Hashed(template, o.(values := o.values[k := (p, b)]))
       <==> LooksLike(a, b)
  {
    hide Hashed, ContentBytes, LooksLike;
    var before, after := AroundValue(template, o, k, p);
    SameMiddle(before, ContentBytes(a), ContentBytes(b), after);
    SameContentBytes(a, b);
  }

  lemma AroundKeys(template: seq<int>, o: Observation, k: nat) returns (before: seq<int>, after: seq<int>)
    requires k < |o.keys|
    ensures forall es :: Hashed(template, o.(keys := o.keys[k := es])) == before + (NamesBytes(es) + after)
  {
    hide IntBytes, ValuesBytes, NamesBytes;
    var front, back := o.keys[..k], o.keys[k + 1..];
    before := IntBytes(o.size)
        + (IntBytes(|o.values|) + (ValuesBytes(o.values) + ([1] + (IntBytes(|o.keys|) + KeysBytes(front)))));
    after := [0] + KeysBytes(back) + ([1] + template);
    forall es
      ensures Hashed(template, o.(keys := o.keys[k := es])) == before + (NamesBytes(es) + after)
    {
      var keys := o.keys[k := es];
      assert keys == front + ([es] + back);
      KeysConcat(front, [es] + back);
      assert ([es] + back)[1..] == back;
      RegroupKeys(IntBytes(o.size), IntBytes(|o.values|), ValuesBytes(o.values), IntBytes(|o.keys|), KeysBytes(front),
                  NamesBytes(es), KeysBytes(back), [1] + template);
    }
  }

  lemma RegroupKeys(a: seq<int>, b: seq<int>, c: seq<int>, d: seq<int>, e: seq<int>, f: seq<int>, g: seq<int>,
                    h: seq<int>)
    ensures a + (b + (c + ([1] + (d + (e + (f + ([0] + g)) + h))))) == (a + (b + (c + ([1] + (d + e)))))
        + (f + ([0] + g + h))
  {
  }

  // The names one after the other.
  function RunTogether(es: seq<Element>): string
    requires forall e :: e in es ==> e.Name?
  {
    if es == [] then "" else es[0].name + RunTogether(es[1..])
  }

  lemma {:induction false} NamesAreText(es: seq<Element>)
    requires forall e :: e in es ==> e.Name?
    ensures NamesBytes(es) == TextBytes(RunTogether(es))
  {
    hide TextBytes;
    if es == [] {
      NoText();
    } else {
      NamesAreText(es[1..]);
      TextConcat(es[0].name, RunTogether(es[1..]));
    }
  }

  lemma NoText()
    ensures TextBytes("") == []
  {
  }

  // One list of keys makes no difference exactly when its names, run together, are the same text.
  lemma OneKeyListCollides(template: seq<int>, o: Observation, k: nat, es: seq<Element>, fs: seq<Element>)
    requires k < |o.keys|
    requires (forall e :: e in es ==> e.Name?) && (forall e :: e in fs ==> e.Name?)
    ensures Hashed(template, o.(keys := o.keys[k := es])) == Hashed(template, o.(keys := o.keys[k := fs]))
       <==> RunTogether(es) == RunTogether(fs)
  {
    hide Hashed, NamesBytes, TextBytes, RunTogether;
    var before, after := AroundKeys(template, o, k);
    SameMiddle(before, NamesBytes(es), NamesBytes(fs), after);
    NamesAreText(es);
    NamesAreText(fs);
    if NamesBytes(es) == NamesBytes(fs) {
      SameText(RunTogether(es), RunTogether(fs));
    }
  }

  // A missing value and false give the same bytes, and so do the keys "ab" and "a", "b".
  lemma NullLikeFalse(template: seq<int>, o: Observation, k: nat, p: Path)
    requires k < |o.values|
    ensures Hashed(template, o.(values := o.values[k := (p, None)]))
         == Hashed(template, o.(values := o.values[k := (p, Some(Boolean(false)))]))
  {
    hide Hashed;
    OneValueCollides(template, o, k, p, None, Some(Boolean(false)));
  }

  lemma KeysRunTogether(template: seq<int>, o: Observation, k: nat)
    requires k < |o.keys|
    ensures Hashed(template, o.(keys := o.keys[k := [Name("ab")]]))
         == Hashed(template, o.(keys := o.keys[k := [Name("a"), Name("b")]]))
  {
    hide Hashed;
    var ab, a_b := [Name("ab")], [Name("a"), Name("b")];
    assert ab[1..] == [] && a_b[1..] == [Name("b")] && [Name("b")][1..] == [];
    assert RunTogether([Name("b")]) == "b" + RunTogether([]) && RunTogether(ab) == "ab" + RunTogether([]);
    assert RunTogether(a_b) == "a" + RunTogether([Name("b")]);
    OneKeyListCollides(template, o, k, ab, a_b);
  }

  // ----- data that is always told apart

  // What a value may be at one path: texts have no zero character, and those that may be missing are not empty.
  datatype Kind = Nothing | Text | MaybeText | Number | Truth | MaybeTrue

  predicate Fits(kind: Kind, c: Option<Content>) {
    match kind
    case Nothing => c == None
    case Text => c.Some? && c.value.Utf8? && '\0' !in c.value.text
    case MaybeText => c == None || (c.value.Utf8? && c.value.text != "" && '\0' !in c.value.text)
    case Number => c.Some? && c.value.Integer?
    case Truth => c.Some? && c.value.Boolean?
    case MaybeTrue => c == None || c == Some(Boolean(true))
  }

  // Names of which none starts with another, without a zero character.
  predicate Vocabulary(names: set<string>) {
    && (forall a :: a in names ==> a != "" && '\0' !in a)
    && (forall a, b :: a in names && b in names && a <= b ==> a == b)
  }

  predicate KeysFit(names: set<string>, es: seq<Element>) {
    forall e :: e in es ==> e.Name? && e.name in names
  }

  lemma NoZeroBefore(x: seq<int>, r: seq<int>, y: seq<int>, s: seq<int>)
    requires 0 !in y && x + ([0] + r) == y + ([0] + s)
    ensures |y| <= |x|
  {
    var all := x + ([0] + r);
    forall k | 0 <= k < |y|
      ensures all[k] != 0
    {
      assert (y + ([0] + s))[k] == y[k];
    }
    assert all[|x|] == 0;
  }

  lemma SplitAtZero(x: seq<int>, r: seq<int>, y: seq<int>, s: seq<int>)
    requires 0 !in x && 0 !in y && x + ([0] + r) == y + ([0] + s)
    ensures x == y && r == s
  {
    NoZeroBefore(x, r, y, s);
    NoZeroBefore(y, s, x, r);
    FirstPart(x, [0] + r, y, [0] + s);
    assert r == ([0] + r)[1..] && s == ([0] + s)[1..];
  }

  lemma TextStart(t: string)
    requires t != ""
    ensures TextBytes(t) != []
  {
  }

  lemma ContentStep(kind: Kind, a: Option<Content>, r: seq<int>, b: Option<Content>, s: seq<int>)
    requires Fits(kind, a) && Fits(kind, b)
    requires ContentBytes(a) + ([0] + r) == ContentBytes(b) + ([0] + s)
    ensures a == b && r == s
  {
    hide TextBytes, IntBytes;
    match kind
    case Text =>
      TextStep(a.value.text, r, b.value.text, s);
    case MaybeText =>
      if a.Some? && b.Some? {
        TextStep(a.value.text, r, b.value.text, s);
      } else if a.Some? {
        TextOrZero(a.value.text, r, s);
      } else if b.Some? {
        TextOrZero(b.value.text, s, r);
      } else {
        FirstPart([0], [0] + r, [0], [0] + s);
        FirstPart([0], r, [0], s);
      }
    case _ =>
      FirstPart(ContentBytes(a), [0] + r, ContentBytes(b), [0] + s);
      FirstPart([0], r, [0], s);
      SameContentBytes(a, b);
  }

  lemma TextStep(t: string, r: seq<int>, v: string, s: seq<int>)
    requires '\0' !in t && '\0' !in v && TextBytes(t) + ([0] + r) == TextBytes(v) + ([0] + s)
    ensures t == v && r == s
  {
    TextIsBytes(t);
    TextIsBytes(v);
    SplitAtZero(TextBytes(t), r, TextBytes(v), s);
    SameText(t, v);
  }

  lemma TextOrZero(t: string, r: seq<int>, s: seq<int>)
    requires '\0' !in t && t != ""
    ensures TextBytes(t) + ([0] + r) != [0] + ([0] + s)
  {
    hide TextBytes;
    TextIsBytes(t);
    TextStart(t);
    assert (TextBytes(t) + ([0] + r))[0] == TextBytes(t)[0] && TextBytes(t)[0] in TextBytes(t);
    assert ([0] + ([0] + s))[0] == 0;
  }

  // Lists of values at the same paths, of the kinds given for them.
  ghost predicate SamePaths(values: seq<(Path, Option<Content>)>, others: seq<(Path, Option<Content>)>,
                            kinds: Path -> Kind) {
    && |values| == |others|
    && forall k :: 0 <= k < |values| ==>
         values[k].0 == others[k].0 && Fits(kinds(values[k].0), values[k].1) && Fits(kinds(values[k].0), others[k].1)
  }

  lemma {:induction false} ValuesStep(values: seq<(Path, Option<Content>)>, r: seq<int>,
                                      others: seq<(Path, Option<Content>)>, s: seq<int>, kinds: Path -> Kind)
    requires SamePaths(values, others, kinds)
    requires ValuesBytes(values) + r == ValuesBytes(others) + s
    ensures values == others && r == s
    decreases |values|
  {
    hide PathBytes, ContentBytes, Fits;
    if values == [] {
      assert ValuesBytes(values) + r == r && ValuesBytes(others) + s == s;
    } else {
      var x, y := values[0], others[0];
      var more, less := ValuesBytes(values[1..]), ValuesBytes(others[1..]);
      assert PathBytes(x.0) + (ContentBytes(x.1) + ([0] + (more + r))) == ValuesBytes(values) + r;
      assert PathBytes(y.0) + (ContentBytes(y.1) + ([0] + (less + s))) == ValuesBytes(others) + s;
      FirstPart(PathBytes(x.0), ContentBytes(x.1) + ([0] + (more + r)), PathBytes(y.0),
                ContentBytes(y.1) + ([0] + (less + s)));
      ContentStep(kinds(x.0), x.1, more + r, y.1, less + s);
      ValuesStep(values[1..], r, others[1..], s, kinds);
      assert values == [x] + values[1..] && others == [y] + others[1..];
    }
  }

  lemma {:induction false} SameNames(names: set<string>, es: seq<Element>, fs: seq<Element>)
    requires Vocabulary(names) && KeysFit(names, es) && KeysFit(names, fs)
    requires RunTogether(es) == RunTogether(fs)
    ensures es == fs
  {
    NotEmptyTogether(names, es);
    NotEmptyTogether(names, fs);
    if es != [] && fs != [] {
      var a, b, all := es[0].name, fs[0].name, RunTogether(es);
      assert a <= all && b <= all;
      Prefixes(a, b, all);
      assert es[0].name in names && fs[0].name in names;
      assert RunTogether(es[1..]) == all[|a|..] && RunTogether(fs[1..]) == all[|b|..];
      SameNames(names, es[1..], fs[1..]);
      assert es == [es[0]] + es[1..] && fs == [fs[0]] + fs[1..];
    }
  }

  lemma NotEmptyTogether(names: set<string>, es: seq<Element>)
    requires Vocabulary(names) && KeysFit(names, es)
    ensures RunTogether(es) == "" <==> es == []
  {
    if es != [] {
      assert es[0].name in names;
    }
  }

  lemma Prefixes(a: string, b: string, all: string)
    requires a <= all && b <= all
    ensures a <= b || b <= a
  {
    if |a| <= |b| {
      assert a == all[..|a|] == b[..|a|];
    } else {
      assert b == all[..|b|] == a[..|b|];
    }
  }

  lemma {:induction false} NoZeroTogether(names: set<string>, es: seq<Element>)
    requires Vocabulary(names) && KeysFit(names, es)
    ensures '\0' !in RunTogether(es)
  {
    if es == [] {
    } else {
      NoZeroTogether(names, es[1..]);
      assert es[0].name in names;
    }
  }

  lemma NamesStep(names: set<string>, es: seq<Element>, r: seq<int>, fs: seq<Element>, s: seq<int>)
    requires Vocabulary(names) && KeysFit(names, es) && KeysFit(names, fs)
    requires NamesBytes(es) + ([0] + r) == NamesBytes(fs) + ([0] + s)
    ensures es == fs && r == s
  {
    hide NamesBytes, TextBytes, RunTogether;
    NamesAreText(es);
    NamesAreText(fs);
    NoZeroTogether(names, es);
    NoZeroTogether(names, fs);
    TextStep(RunTogether(es), r, RunTogether(fs), s);
    SameNames(names, es, fs);
  }

  // Lists of keys of the vocabularies given for their paths.
  ghost predicate SameVocabularies(paths: seq<Path>, keys: seq<seq<Element>>, others: seq<seq<Element>>,
                                   words: Path -> set<string>) {
    && |keys| == |others| == |paths|
    && forall k :: 0 <= k < |paths| ==>
         Vocabulary(words(paths[k])) && KeysFit(words(paths[k]), keys[k]) && KeysFit(words(paths[k]), others[k])
  }

  lemma {:induction false} KeysStep(paths: seq<Path>, keys: seq<seq<Element>>, r: seq<int>, others: seq<seq<Element>>,
                                    s: seq<int>, words: Path -> set<string>)
    requires SameVocabularies(paths, keys, others, words)
    requires KeysBytes(keys) + r == KeysBytes(others) + s
    ensures keys == others && r == s
    decreases |keys|
  {
    hide NamesBytes, Vocabulary, KeysFit;
    if keys == [] {
      assert KeysBytes(keys) + r == r && KeysBytes(others) + s == s;
    } else {
      var more, less := KeysBytes(keys[1..]), KeysBytes(others[1..]);
      assert NamesBytes(keys[0]) + ([0] + (more + r)) == KeysBytes(keys) + r;
      assert NamesBytes(others[0]) + ([0] + (less + s)) == KeysBytes(others) + s;
      NamesStep(words(paths[0]), keys[0], more + r, others[0], less + s);
      KeysStep(paths[1..], keys[1..], r, others[1..], s, words);
      assert keys == [keys[0]] + keys[1..] && others == [others[0]] + others[1..];
    }
  }

  const MAX_INT := 0x7fff_ffff

  // Values of one kind for each path, keys of one vocabulary for each path, and sizes that an int can hold.
  ghost predicate Tame(c: Config, u: Usage, kinds: Path -> Kind, words: Path -> set<string>) {
    && |u.values| <= MAX_INT && |u.keys| <= MAX_INT
    && (forall d :: u.data(d) ==> |Elements(Input(c, d))| <= MAX_INT)
    && (forall d, p :: u.data(d) && p in u.values ==> Fits(kinds(p), PlainOf(DataAt(d, p))))
    && (forall p :: p in u.keys ==> Vocabulary(words(p)))
    && (forall d, p :: u.data(d) && p in u.keys ==> KeysFit(words(p), Elements(DataAt(d, p))))
  }

  // No two of the given bytes have the same hash.
  ghost predicate CollisionFree(hash: seq<int> -> string, inputs: iset<seq<int>>) {
    forall x, y :: x in inputs && y in inputs && hash(x) == hash(y) ==> x == y
  }

  // All that is ever hashed for a usage.
  ghost function BytesOf(c: Config, u: Usage, template: seq<int>): iset<seq<int>> {
    iset d, v, i | u.data(d) && v <= u.values && i <= u.keys :: Hashed(template, Observe(c, d, v, i))
  }

  // The fingerprint is a hash of the bytes.
  ghost predicate HashOfBytes(c: Config, hash: seq<int> -> string, template: seq<int>) {
    forall o :: c.fingerprint(o) == Some(hash(Hashed(template, o)))
  }

  // What follows the values.
  function AfterValues(template: seq<int>, o: Observation): seq<int> {
    [1] + (IntBytes(|o.keys|) + (KeysBytes(o.keys) + ([1] + template)))
  }

  // The bytes begin with the size of the input, the number of values, and the values.
  lemma SameBytes(template: seq<int>, o: Observation, q: Observation)
    requires Hashed(template, o) == Hashed(template, q)
    requires o.size <= MAX_INT && q.size <= MAX_INT
    requires |o.values| <= MAX_INT && |q.values| <= MAX_INT
    ensures o.size == q.size && |o.values| == |q.values|
    ensures ValuesBytes(o.values) + AfterValues(template, o) == ValuesBytes(q.values) + AfterValues(template, q)
  {
    hide IntBytes, ValuesBytes, KeysBytes;
    var x, y := ValuesBytes(o.values) + AfterValues(template, o), ValuesBytes(q.values) + AfterValues(template, q);
    FirstPart(IntBytes(o.size), IntBytes(|o.values|) + x, IntBytes(q.size), IntBytes(|q.values|) + y);
    FirstPart(IntBytes(|o.values|), x, IntBytes(|q.values|), y);
    SameInt(o.size, q.size);
    SameInt(|o.values|, |q.values|);
  }

  lemma SameKeyBytes(template: seq<int>, o: Observation, q: Observation)
    requires AfterValues(template, o) == AfterValues(template, q)
    requires |o.keys| <= MAX_INT && |q.keys| <= MAX_INT
    ensures |o.keys| == |q.keys| && KeysBytes(o.keys) + ([1] + template) == KeysBytes(q.keys) + ([1] + template)
  {
    hide IntBytes, KeysBytes;
    var x, y := o.keys, q.keys;
    var r, s := KeysBytes(x) + ([1] + template), KeysBytes(y) + ([1] + template);
    FirstPart([1], IntBytes(|x|) + r, [1], IntBytes(|y|) + s);
    FirstPart(IntBytes(|x|), r, IntBytes(|y|), s);
    SameInt(|x|, |y|);
  }

  lemma Subsets<T>(x: set<T>, y: set<T>)
    requires x <= y
    ensures |x| <= |y|
  {
    assert y == x + (y - x);
  }

  lemma SameValues(c: Config, u: Usage, kinds: Path -> Kind, words: Path -> set<string>,
                   d: Data, e: Data, v: set<Path>, r: seq<int>, s: seq<int>)
    requires Listing(c.list) && Tame(c, u, kinds, words) && u.data(d) && u.data(e) && v <= u.values
    requires ValuesBytes(ValuesAt(d, c.list(v))) + r == ValuesBytes(ValuesAt(e, c.list(v))) + s
    ensures ValuesAt(d, c.list(v)) == ValuesAt(e, c.list(v)) && r == s
  {
    hide ValuesBytes, Fits, Vocabulary, KeysFit, PlainOf, DataAt;
    var vs := c.list(v);
    var x, y := ValuesAt(d, vs), ValuesAt(e, vs);
    forall k | 0 <= k < |vs|
      ensures Fits(kinds(vs[k]), x[k].1) && Fits(kinds(vs[k]), y[k].1)
    {
      assert vs[k] in v;
    }
    ValuesStep(x, r, y, s, kinds);
  }

  lemma SameKeys(c: Config, u: Usage, kinds: Path -> Kind, words: Path -> set<string>,
                 d: Data, e: Data, i: set<Path>, r: seq<int>)
    requires Listing(c.list) && Tame(c, u, kinds, words) && u.data(d) && u.data(e) && i <= u.keys
    requires KeysBytes(ElementsAt(d, c.list(i))) + r == KeysBytes(ElementsAt(e, c.list(i))) + r
    ensures ElementsAt(d, c.list(i)) == ElementsAt(e, c.list(i))
  {
    hide KeysBytes, Fits, Vocabulary, KeysFit, PlainOf, DataAt, Elements;
    var ks := c.list(i);
    var x, y := ElementsAt(d, ks), ElementsAt(e, ks);
    forall k | 0 <= k < |ks|
      ensures Vocabulary(words(ks[k])) && KeysFit(words(ks[k]), x[k]) && KeysFit(words(ks[k]), y[k])
    {
      assert ks[k] in i;
    }
    KeysStep(ks, x, r, y, r, words);
  }

  lemma TameSizes(c: Config, u: Usage, kinds: Path -> Kind, words: Path -> set<string>, d: Data, v: set<Path>,
                  i: set<Path>)
    requires Listing(c.list) && Tame(c, u, kinds, words) && u.data(d) && v <= u.values && i <= u.keys
    ensures var o := Observe(c, d, v, i);
            && o.size <= MAX_INT && |o.values| == |v| <= MAX_INT && |o.keys| == |i| <= MAX_INT
            && o.values == ValuesAt(d, c.list(v)) && o.keys == ElementsAt(d, c.list(i))
  {
    hide Fits, Vocabulary, KeysFit, PlainOf;
    Subsets(v, u.values);
    Subsets(i, u.keys);
  }

  // Equal bytes, of data of fixed kinds and vocabularies, come from equal observations.
  lemma SameHashed(c: Config, u: Usage, kinds: Path -> Kind, words: Path -> set<string>, template: seq<int>,
                   d: Data, v: set<Path>, i: set<Path>, e: Data, w: set<Path>, j: set<Path>)
    requires Listing(c.list) && Tame(c, u, kinds, words) && u.data(d) && u.data(e)
    requires v <= w <= u.values && i <= j <= u.keys
    requires Hashed(template, Observe(c, d, v, i)) == Hashed(template, Observe(c, e, w, j))
    ensures Observe(c, d, v, i) == Observe(c, e, w, j)
  {
    hide Hashed, IntBytes, ValuesBytes, KeysBytes, Tame, Listing, ValuesAt, ElementsAt, Observe;
    var o, q := Observe(c, d, v, i), Observe(c, e, w, j);
    TameSizes(c, u, kinds, words, d, v, i);
    TameSizes(c, u, kinds, words, e, w, j);
    SameBytes(template, o, q);
    SameSize(v, w);
    SameValues(c, u, kinds, words, d, e, v, AfterValues(template, o), AfterValues(template, q));
    SameKeyBytes(template, o, q);
    SameSize(i, j);
    SameKeys(c, u, kinds, words, d, e, i, [1] + template);
  }

  // On tame data a hash without collisions tells observations apart, so the cache is right.
  lemma TameIsApart(c: Config, u: Usage, kinds: Path -> Kind, words: Path -> set<string>,
                    hash: seq<int> -> string, template: seq<int>)
    requires Listing(c.list) && HashOfBytes(c, hash, template) && Tame(c, u, kinds, words)
    requires CollisionFree(hash, BytesOf(c, u, template))
    ensures Apart(c, u)
  {
    hide Hashed, Observe, Tame, Listing;
    forall d, e, v, i, w, j |
      u.data(d) && u.data(e) && v <= w <= u.values && i <= j <= u.keys
      && Tag(c, d, v, i).Some? && Tag(c, d, v, i) == Tag(c, e, w, j)
      ensures Observe(c, d, v, i) == Observe(c, e, w, j)
    {
      var x, y := Hashed(template, Observe(c, d, v, i)), Hashed(template, Observe(c, e, w, j));
      assert x in BytesOf(c, u, template) && y in BytesOf(c, u, template) && hash(x) == hash(y);
      SameHashed(c, u, kinds, words, template, d, v, i, e, w, j);
    }
  }
}
