/** What the conditions on the use of the render cache amount to: exactly when data with equal observations give
    the same pages, exactly when the page of one value is served for another, and that the conditions can be met. */
module RenderCacheLimits {
  import opened Wrappers
  import opened DataTrees
  import opened ReadObservation
  import opened RenderCaching
  import opened FingerprintBytes

  // ----- templates that read once

  function ReadOnce(action: Action, choose: Read -> string): Template {
    answers => if answers == [] then action else Finish(choose(answers[0]))
  }

  predicate NamesIn(p: Path) {
    forall k :: 0 <= k < |p| ==> p[k].Name?
  }

  lemma ReadOncePage(m: Data, action: Action, choose: Read -> string)
    requires !action.Finish? && NamesIn(action.at)
    ensures var t := ReadOnce(action, choose);
            && NamesOnly(t) && Halts(t, m)
            && Fresh(t, m) == if !DataAt(m, action.at).Node? then Broken
                              else Rendered(choose(ReadOf(m, action)), ValueNoted(m, action), KeysNoted(action))
  {
    var t := ReadOnce(action, choose);
    assert t([]) == action;
    if DataAt(m, action.at).Node? {
      var read := ReadOf(m, action);
      assert [] + [read] == [read] && t([read]) == Finish(choose(read));
      assert RenderFor(t, m, [read], 0) == Some(Rendered(choose(read), {}, {}));
      assert ValueNoted(m, action) + {} == ValueNoted(m, action) && KeysNoted(action) + {} == KeysNoted(action);
    }
    FreshIs(t, m, 1);
  }

  // ----- when data give the same pages

  ghost predicate Within(page: Rendering, values: set<Path>, keys: set<Path>) {
    page.Rendered? && page.valuePaths <= values && page.iteratedPaths <= keys
  }

  // Every template that reads, of x, nothing but the given values and key lists gives the same page for y.
  ghost predicate SamePages(x: Data, y: Data, values: set<Path>, keys: set<Path>) {
    forall t: Template ::
      NamesOnly(t) && Halts(t, x) && Within(Fresh(t, x), values, keys) ==> Halts(t, y) && Fresh(t, y) == Fresh(t, x)
  }

  // A map stays a map, at every path of names.
  ghost predicate MapsStay(x: Data, y: Data) {
    forall p :: NamesIn(p) && DataAt(x, p).Node? ==> DataAt(y, p).Node?
  }

  // A value at one of the given paths, read from its map.
  ghost predicate ValueRead(x: Data, values: set<Path>, p: Path, key: string) {
    NamesIn(p) && DataAt(x, p).Node? && p + [Name(key)] in values && !DataAt(x, p + [Name(key)]).Node?
  }

  // A value stays the same value, and does not become a map.
  ghost predicate ValuesStay(x: Data, y: Data, values: set<Path>) {
    forall p, key :: ValueRead(x, values, p, key) ==>
      !DataAt(y, p + [Name(key)]).Node? && PlainOf(DataAt(y, p + [Name(key)])) == PlainOf(DataAt(x, p + [Name(key)]))
  }

  ghost predicate KeysStay(x: Data, y: Data, keys: set<Path>) {
    forall p :: NamesIn(p) && DataAt(x, p).Node? && p in keys ==> KeysOf(DataAt(y, p)) == KeysOf(DataAt(x, p))
  }

  lemma ChildAt(d: Data, p: Path, key: string)
    ensures DataAt(d, p + [Name(key)]) == At(DataAt(d, p), Name(key))
  {
    DataAtConcat(d, p, [Name(key)]);
    assert [Name(key)][1..] == [];
  }

  lemma ReadStays(x: Data, y: Data, values: set<Path>, keys: set<Path>, action: Action)
    requires MapsStay(x, y) && ValuesStay(x, y, values) && KeysStay(x, y, keys)
    requires !action.Finish? && NamesIn(action.at) && DataAt(x, action.at).Node?
    requires ValueNoted(x, action) <= values && KeysNoted(action) <= keys
    ensures DataAt(y, action.at).Node? && ReadOf(y, action) == ReadOf(x, action)
    ensures ValueNoted(y, action) == ValueNoted(x, action)
  {
    hide DataAt, PlainOf;
    if action.Get? {
      var child := action.at + [Name(action.key)];
      ChildAt(x, action.at, action.key);
      ChildAt(y, action.at, action.key);
      assert NamesIn(child);
      if !DataAt(x, child).Node? {
        assert child in ValueNoted(x, action);
      }
    } else {
      assert action.at in KeysNoted(action);
    }
  }

  lemma {:induction false} RenderingStays(t: Template, x: Data, y: Data, values: set<Path>, keys: set<Path>,
                                          answers: seq<Read>, n: nat)
    requires MapsStay(x, y) && ValuesStay(x, y, values) && KeysStay(x, y, keys) && NamesOnly(t)
    requires RenderFor(t, x, answers, n).Some? && Within(RenderFor(t, x, answers, n).value, values, keys)
    ensures RenderFor(t, y, answers, n) == RenderFor(t, x, answers, n)
    decreases n
  {
    hide MapsStay, ValuesStay, KeysStay, ReadOf, ValueNoted, KeysNoted, DataAt;
    var action := t(answers);
    if action.Finish? {
    } else {
      assert NamesIn(action.at) && DataAt(x, action.at).Node? && n > 0;
      ReadStays(x, y, values, keys, action);
      RenderingStays(t, x, y, values, keys, answers + [ReadOf(x, action)], n - 1);
    }
  }

  // One read that templates are free to make of x is the same of y, if pages are.
  lemma SameRead(x: Data, y: Data, values: set<Path>, keys: set<Path>, action: Action)
    requires SamePages(x, y, values, keys)
    requires !action.Finish? && NamesIn(action.at) && DataAt(x, action.at).Node?
    requires ValueNoted(x, action) <= values && KeysNoted(action) <= keys
    ensures DataAt(y, action.at).Node? && ReadOf(y, action) == ReadOf(x, action)
  {
    var expected := ReadOf(x, action);
    var choose := read => if read == expected then "same" else "other";
    var t := ReadOnce(action, choose);
    ReadOncePage(x, action, choose);
    ReadOncePage(y, action, choose);
    assert Within(Fresh(t, x), values, keys);
    assert Fresh(t, y) == Fresh(t, x);
  }

  // Exactly when two data give the same page to every template that reads only given values and key lists.
  lemma SamePagesExactly(x: Data, y: Data, values: set<Path>, keys: set<Path>)
    requires x.Node? && y.Node?
    ensures SamePages(x, y, values, keys) <==> MapsStay(x, y) && ValuesStay(x, y, values) && KeysStay(x, y, keys)
  {
    if MapsStay(x, y) && ValuesStay(x, y, values) && KeysStay(x, y, keys) {
      StayingGivesSamePages(x, y, values, keys);
    }
    if SamePages(x, y, values, keys) {
      SamePagesMeanStaying(x, y, values, keys);
    }
  }

  lemma StayingGivesSamePages(x: Data, y: Data, values: set<Path>, keys: set<Path>)
    requires MapsStay(x, y) && ValuesStay(x, y, values) && KeysStay(x, y, keys)
    ensures SamePages(x, y, values, keys)
  {
    hide MapsStay, ValuesStay, KeysStay, RenderFor, NamesOnly;
    forall t: Template | NamesOnly(t) && Halts(t, x) && Within(Fresh(t, x), values, keys)
      ensures Halts(t, y) && Fresh(t, y) == Fresh(t, x)
    {
      var n: nat :| RenderFor(t, x, [], n).Some?;
      FreshIs(t, x, n);
      RenderingStays(t, x, y, values, keys, [], n);
      FreshIs(t, y, n);
    }
  }

  lemma SamePagesMeanStaying(x: Data, y: Data, values: set<Path>, keys: set<Path>)
    requires x.Node? && y.Node? && SamePages(x, y, values, keys)
    ensures MapsStay(x, y) && ValuesStay(x, y, values) && KeysStay(x, y, keys)
  {
    hide SamePages, DataAt, PlainOf;
    forall p | NamesIn(p) && DataAt(x, p).Node?
      ensures DataAt(y, p).Node?
    {
      MapStays(x, y, values, keys, p);
    }
    forall p, key | ValueRead(x, values, p, key)
      ensures !DataAt(y, p + [Name(key)]).Node?
      ensures PlainOf(DataAt(y, p + [Name(key)])) == PlainOf(DataAt(x, p + [Name(key)]))
    {
      ChildAt(x, p, key);
      ChildAt(y, p, key);
      SameRead(x, y, values, keys, Get(p, key));
    }
    forall p | NamesIn(p) && DataAt(x, p).Node? && p in keys
      ensures KeysOf(DataAt(y, p)) == KeysOf(DataAt(x, p))
    {
      SameRead(x, y, values, keys, Keys(p));
    }
  }

  lemma {:induction false} MapStays(x: Data, y: Data, values: set<Path>, keys: set<Path>, p: Path)
    requires x.Node? && y.Node? && SamePages(x, y, values, keys) && NamesIn(p) && DataAt(x, p).Node?
    ensures DataAt(y, p).Node?
  {
    hide SamePages;
    if p == [] {
    } else {
      var front, key := p[..|p| - 1], p[|p| - 1].name;
      assert p == front + [Name(key)];
      ChildAt(x, front, key);
      ChildAt(y, front, key);
      OnlyMapsHaveChildren(DataAt(x, front), key);
      SameRead(x, y, values, keys, Get(front, key));
    }
  }

  lemma OnlyMapsHaveChildren(d: Data, key: string)
    requires At(d, Name(key)).Node?
    ensures d.Node?
  {
  }

  // Data with equal observations give the same pages exactly when maps stay maps and no value becomes one;
  // that is what a fixed shape provides and the observation does not say.
  lemma EqualObservationsSamePages(c: Config, d: Data, e: Data, values: set<Path>, keys: set<Path>)
    requires Listing(c.list) && Input(c, d).Node? && Input(c, e).Node? && NoHoles(Input(c, d)) && NoHoles(Input(c, e))
    requires Observe(c, d, Absolute(c, values), Absolute(c, keys))
        == Observe(c, e, Absolute(c, values), Absolute(c, keys))
    ensures SamePages(Input(c, d), Input(c, e), values, keys)
       <==> MapsStay(Input(c, d), Input(c, e)) && NoNewMaps(Input(c, d), Input(c, e), values)
  {
    hide SamePages, NoHoles, Listing, Observe, DataAt, Elements;
    var x, y := Input(c, d), Input(c, e);
    SamePagesExactly(x, y, values, keys);
    AgreeByObservation(c, d, e, Absolute(c, values), Absolute(c, keys), Rendered("", values, keys));
    if MapsStay(x, y) {
      forall p | NamesIn(p) && DataAt(x, p).Node? && p in keys
        ensures KeysOf(DataAt(y, p)) == KeysOf(DataAt(x, p))
      {
        SameKeys(x, y, p);
      }
    }
  }

  ghost predicate NoNewMaps(x: Data, y: Data, values: set<Path>) {
    forall p, key :: ValueRead(x, values, p, key) ==>
      !DataAt(y, p + [Name(key)]).Node?
  }

  lemma SameKeys(x: Data, y: Data, p: Path)
    requires NoHoles(x) && NoHoles(y) && DataAt(x, p).Node? && DataAt(y, p).Node?
    requires Elements(DataAt(x, p)) == Elements(DataAt(y, p))
    ensures KeysOf(DataAt(y, p)) == KeysOf(DataAt(x, p))
  {
    var dx, dy := DataAt(x, p), DataAt(y, p);
    NoHolesAt(x, p);
    NoHolesAt(y, p);
    forall i | 0 <= i < |dx.entries|
      ensures dx.entries[i].element == dy.entries[i].element
    {
      assert Elements(dx)[i] == Elements(dy)[i];
    }
    KeysOfElements(dx.entries, dy.entries);
  }

  // ----- a template that looks at one value

  // Data with one key "x".
  function WithX(x: Data): Data {
    Node([Entry(Name("x"), x)])
  }

  const AT_X: Path := [Name("x")]

  ghost predicate LooksAtX(c: Config, choose: Read -> string) {
    c.inputPath == [] && c.mainResponse && c.template == ReadOnce(Get([], "x"), choose) && Listing(c.list)
  }

  function ReadOfX(x: Data): Read {
    if x.Node? then MapRead else PlainRead(PlainOf(x))
  }

  lemma ReadX(x: Data)
    ensures DataAt(WithX(x), []) == WithX(x) && At(WithX(x), Name("x")) == x
    ensures DataAt(WithX(x), AT_X) == x
    ensures Elements(WithX(x)) == AT_X
  {
    assert Place(WithX(x).entries, Name("x")) == 0;
    assert AT_X[1..] == [];
  }

  lemma PageOfX(c: Config, choose: Read -> string, x: Data)
    requires LooksAtX(c, choose)
    ensures Ready(c, WithX(x))
    ensures Uncached(c, WithX(x)) == Rendered(choose(ReadOfX(x)), if x.Node? then {} else {AT_X}, {})
  {
    ReadX(x);
    ReadOncePage(WithX(x), Get([], "x"), choose);
    assert [] + AT_X == AT_X;
  }

  lemma NoPaths(c: Config)
    requires Listing(c.list) && c.inputPath == []
    ensures c.list({}) == [] && c.list({AT_X}) == [AT_X]
    ensures Absolute(c, {}) == {} && Absolute(c, {AT_X}) == {AT_X}
  {
    assert |c.list({})| == 0;
    var paths := c.list({AT_X});
    assert paths[0] in paths && |paths| == 1;
    assert [] + AT_X == AT_X;
  }

  lemma ObservedX(c: Config, choose: Read -> string, x: Data)
    requires LooksAtX(c, choose)
    ensures Observe(c, WithX(x), {}, {}) == Observation(1, [], [])
    ensures Observe(c, WithX(x), {AT_X}, {}) == Observation(1, [(AT_X, PlainOf(x))], [])
  {
    hide PlainOf;
    NoPaths(c);
    ReadX(x);
    assert ValuesAt(WithX(x), [AT_X]) == [(AT_X, PlainOf(x))];
  }

  // ----- a value in the place of a map

  function SayShape(read: Read): string {
    if read.MapRead? then "map" else "plain"
  }

  // A nested map is not noted as read, so a value in its place is served the page of the map, however good the
  // fingerprint.
  lemma ShapeMustStay(c: Config)
    requires LooksAtX(c, SayShape) && forall o :: c.fingerprint(o).Some? && c.fingerprint(o).value != ""
    ensures
      var mapped, plain := WithX(Node([])), WithX(Leaf(Integer(1)));
      && Ready(c, mapped) && Ready(c, plain)
      && var next := Step(c, State(true, {}, {}, map[]), Request(mapped, ""), Uncached(c, mapped)).0;
      && Step(c, next, Request(plain, ""), Uncached(c, plain)).1.Page?
      && Step(c, next, Request(plain, ""), Uncached(c, plain)).1.body == "map"
      && Uncached(c, plain).Rendered? && Uncached(c, plain).body == "plain"
  {
    hide Observe, LooksAtX, Absolute;
    var mapped, plain := WithX(Node([])), WithX(Leaf(Integer(1)));
    PageOfX(c, SayShape, Node([]));
    PageOfX(c, SayShape, Leaf(Integer(1)));
    ObservedX(c, SayShape, Node([]));
    ObservedX(c, SayShape, Leaf(Integer(1)));
    LooksFacts(c, SayShape);
    var tag := Tag(c, mapped, {}, {});
    var next := Step(c, State(true, {}, {}, map[]), Request(mapped, ""), Uncached(c, mapped)).0;
    assert next == State(true, {}, {}, map[tag.value := "map"]);
  }

  lemma LooksFacts(c: Config, choose: Read -> string)
    requires LooksAtX(c, choose)
    ensures c.mainResponse && Absolute(c, {}) == {} && Absolute(c, {AT_X}) == {AT_X}
  {
    NoPaths(c);
  }

  // ----- one value in the place of another

  // After two requests for data whose page reads one value, the cache has that page for no value and for that value.
  lemma ServedTwice(c: Config, choose: Read -> string, x: Data) returns (twice: State)
    requires LooksAtX(c, choose) && !x.Node? && forall o :: c.fingerprint(o).Some? && c.fingerprint(o).value != ""
    requires c.fingerprint(Observation(1, [], [])) != c.fingerprint(Observation(1, [(AT_X, PlainOf(x))], []))
    ensures Ready(c, WithX(x))
    ensures var r, page := Request(WithX(x), ""), Uncached(c, WithX(x));
            twice == Step(c, Step(c, State(true, {}, {}, map[]), r, page).0, r, page).0
    ensures twice == State(true, {AT_X}, {}, map[
      c.fingerprint(Observation(1, [], [])).value := choose(ReadOfX(x)),
      c.fingerprint(Observation(1, [(AT_X, PlainOf(x))], [])).value := choose(ReadOfX(x))])
  {
    hide Observe, LooksAtX, Absolute, PlainOf;
    PageOfX(c, choose, x);
    ObservedX(c, choose, x);
    LooksFacts(c, choose);
    var r, page := Request(WithX(x), ""), Uncached(c, WithX(x));
    var body := choose(ReadOfX(x));
    var once := Step(c, State(true, {}, {}, map[]), r, page).0;
    assert once == State(true, {AT_X}, {}, map[c.fingerprint(Observation(1, [], [])).value := body]);
    assert {AT_X} + {AT_X} == {AT_X};
    twice := Step(c, once, r, page).0;
  }

  // All that is hashed in a run over data with one of two values at "x".
  ghost function BytesOfTwo(template: seq<int>, a: Option<Content>, b: Option<Content>): iset<seq<int>> {
    iset{Hashed(template, Observation(1, [], [])), Hashed(template, Observation(1, [(AT_X, a)], [])),
         Hashed(template, Observation(1, [(AT_X, b)], []))}
  }

  // Without collisions of the hash, the page of one value is served for another exactly when the two look alike in
  // bytes.
  lemma ServedForOther(c: Config, choose: Read -> string, hash: seq<int> -> string, template: seq<int>, x: Data,
                       y: Data)
    requires LooksAtX(c, choose) && !x.Node? && !y.Node?
    requires HashOfBytes(c, hash, template) && forall bytes :: hash(bytes) != ""
    requires CollisionFree(hash, BytesOfTwo(template, PlainOf(x), PlainOf(y)))
    ensures Ready(c, WithX(x)) && Ready(c, WithX(y))
    ensures
      var r, page := Request(WithX(x), ""), Uncached(c, WithX(x));
      var twice := Step(c, Step(c, State(true, {}, {}, map[]), r, page).0, r, page).0;
      var response := Step(c, twice, Request(WithX(y), ""), Uncached(c, WithX(y))).1;
      && response.Page?
      && response.body == choose(ReadOfX(if LooksLike(PlainOf(x), PlainOf(y)) then x else y))
  {
    hide Observe, LooksAtX, Absolute, PlainOf, LooksLike, CollisionFree, HashOfBytes;
    Fingerprints(c, hash, template, PlainOf(x), PlainOf(y));
    var twice := ServedTwice(c, choose, x);
    PageOfX(c, choose, y);
    ObservedX(c, choose, y);
    LooksFacts(c, choose);
    assert {AT_X} + {AT_X} == {AT_X};
  }

  lemma Fingerprints(c: Config, hash: seq<int> -> string, template: seq<int>, a: Option<Content>, b: Option<Content>)
    requires HashOfBytes(c, hash, template) && forall bytes :: hash(bytes) != ""
    requires CollisionFree(hash, BytesOfTwo(template, a, b))
    ensures forall o :: c.fingerprint(o).Some? && c.fingerprint(o).value != ""
    ensures c.fingerprint(Observation(1, [], [])) != c.fingerprint(Observation(1, [(AT_X, a)], []))
    ensures c.fingerprint(Observation(1, [], [])) != c.fingerprint(Observation(1, [(AT_X, b)], []))
    ensures c.fingerprint(Observation(1, [(AT_X, a)], [])) == c.fingerprint(Observation(1, [(AT_X, b)], []))
       <==> LooksLike(a, b)
  {
    hide Hashed, LooksLike;
    forall o
      ensures c.fingerprint(o).Some? && c.fingerprint(o).value != ""
    {
      assert c.fingerprint(o) == Some(hash(Hashed(template, o)));
    }
    var none := Observation(1, [], []);
    var one, two := Observation(1, [(AT_X, a)], []), Observation(1, [(AT_X, b)], []);
    DifferentCount(template, none, one);
    DifferentCount(template, none, two);
    OneValueCollides(template, one, 0, AT_X, a, b);
    assert one.(values := one.values[0 := (AT_X, a)]) == one && one.(values := one.values[0 := (AT_X, b)]) == two;
    assert c.fingerprint(none) == Some(hash(Hashed(template, none)));
    assert c.fingerprint(one) == Some(hash(Hashed(template, one)));
    assert c.fingerprint(two) == Some(hash(Hashed(template, two)));
  }

  lemma DifferentCount(template: seq<int>, o: Observation, q: Observation)
    requires o.size == q.size == 1 && |o.values| == 0 && |q.values| == 1
    ensures Hashed(template, o) != Hashed(template, q)
  {
    hide Hashed;
    if Hashed(template, o) == Hashed(template, q) {
      SameBytes(template, o, q);
    }
  }

  function SayFalse(read: Read): string {
    if read == PlainRead(Some(Boolean(false))) then "no" else "missing"
  }

  // For instance the page for false where the value is missing.
  lemma FalseServedForMissing(c: Config, hash: seq<int> -> string, template: seq<int>)
    requires LooksAtX(c, SayFalse)
    requires HashOfBytes(c, hash, template) && forall bytes :: hash(bytes) != ""
    requires CollisionFree(hash, BytesOfTwo(template, Some(Boolean(false)), None))
    ensures
      var no, missing := WithX(Leaf(Boolean(false))), WithX(Leaf(NullContent));
      && Ready(c, no) && Ready(c, missing)
      && var r, page := Request(no, ""), Uncached(c, no);
      && var twice := Step(c, Step(c, State(true, {}, {}, map[]), r, page).0, r, page).0;
      && Step(c, twice, Request(missing, ""), Uncached(c, missing)).1.Page?
      && Step(c, twice, Request(missing, ""), Uncached(c, missing)).1.body == "no"
      && Uncached(c, missing).Rendered? && Uncached(c, missing).body == "missing"
  {
    hide LooksAtX, HashOfBytes, CollisionFree, Step, Ready, Uncached;
    ServedForOther(c, SayFalse, hash, template, Leaf(Boolean(false)), Leaf(NullContent));
    PageOfX(c, SayFalse, Leaf(NullContent));
  }

  // ----- the conditions can be met

  // Any values of one kind at "x".
  ghost function UsageOfX(kind: Kind): Usage {
    Usage(d => exists content :: d == WithX(Leaf(content)) && Fits(kind, PlainOf(Leaf(content))), {AT_X}, {})
  }

  lemma {:induction false} ShapeOfX(x: Content, y: Content, p: Path)
    ensures DataAt(WithX(Leaf(x)), p).Node? ==> DataAt(WithX(Leaf(y)), p).Node?
  {
    if p == [] {
    } else {
      var child := At(WithX(Leaf(x)), p[0]);
      assert child == Leaf(x) || child == Absent;
      NoMapBelow(child, p[1..]);
    }
  }

  // Over all values of one kind the cache is right: its conditions hold for any hash of the bytes without collisions.
  lemma ValuesOfOneKind(c: Config, choose: Read -> string, hash: seq<int> -> string, template: seq<int>, kind: Kind)
    requires LooksAtX(c, choose) && HashOfBytes(c, hash, template)
    requires CollisionFree(hash, BytesOf(c, UsageOfX(kind), template))
    ensures Suitable(c, UsageOfX(kind))
  {
    hide HashOfBytes, CollisionFree, BytesOf, Fits, Observe, Tag, Hashed;
    var u := UsageOfX(kind);
    forall d | u.data(d)
      ensures Input(c, d).Node? && NoHoles(Input(c, d)) && Ready(c, d) && |Elements(Input(c, d))| == 1
      ensures Fits(kind, PlainOf(DataAt(d, AT_X)))
      ensures Covers(c, Uncached(c, d), u.values, u.keys)
    {
      var content :| d == WithX(Leaf(content)) && Fits(kind, PlainOf(Leaf(content)));
      ReadX(Leaf(content));
      PageOfX(c, choose, Leaf(content));
      NoPaths(c);
      assert NoHoles(Leaf(content));
    }
    forall d, e | u.data(d) && u.data(e)
      ensures SameShape(Input(c, d), Input(c, e))
    {
      var x :| d == WithX(Leaf(x)) && Fits(kind, PlainOf(Leaf(x)));
      var y :| e == WithX(Leaf(y)) && Fits(kind, PlainOf(Leaf(y)));
      forall p
        ensures DataAt(d, p).Node? <==> DataAt(e, p).Node?
      {
        ShapeOfX(x, y, p);
        ShapeOfX(y, x, p);
      }
    }
    assert Tame(c, u, _ => kind, _ => {});
    TameIsApart(c, u, _ => kind, _ => {}, hash, template);
  }

  // Among them are different values with different pages.
  lemma TextsOfOneKind()
    ensures UsageOfX(Text).data(WithX(Leaf(Utf8("a")))) && UsageOfX(Text).data(WithX(Leaf(Utf8("b"))))
  {
  }
}
