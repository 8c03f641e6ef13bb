/** The render cache as a step function over requests, and what holds over all its runs. */
module RenderCaching {
  import opened Wrappers
  import opened DataTrees
  import opened ReadObservation

  // What is fed to the fingerprint of a request: the size of the input, the paths ever read with their values,
  // and the elements found at the paths ever iterated, without those paths.
  datatype Observation = Observation(size: nat, values: seq<(Path, Option<Content>)>, keys: seq<seq<Element>>)

  // The order in which a hash map lists a set of paths, and a fingerprint, missing when something cannot be hashed.
  datatype Config = Config(inputPath: Path, mainResponse: bool, template: Template, list: set<Path> -> seq<Path>,
                           fingerprint: Observation -> Option<string>)

  datatype State = State(useCache: bool, valuePaths: set<Path>, iteratedPaths: set<Path>, cache: map<string, string>)

  datatype Request = Request(data: Data, ifNoneMatch: string)
  datatype Response = NotModified | Page(body: string, etag: Option<string>) | Failure

  function Input(c: Config, d: Data): Data {
    DataAt(d, c.inputPath)
  }

  function ValuesAt(d: Data, paths: seq<Path>): (values: seq<(Path, Option<Content>)>)
    ensures |values| == |paths|
    ensures forall k :: 0 <= k < |paths| ==> values[k] == (paths[k], PlainOf(DataAt(d, paths[k])))
  {
    if paths == [] then []
    else ValuesAt(d, paths[..|paths| - 1]) + [(paths[|paths| - 1], PlainOf(DataAt(d, paths[|paths| - 1])))]
  }

  function ElementsAt(d: Data, paths: seq<Path>): (keys: seq<seq<Element>>)
    ensures |keys| == |paths|
    ensures forall k :: 0 <= k < |paths| ==> keys[k] == Elements(DataAt(d, paths[k]))
  {
    if paths == [] then []
    else ElementsAt(d, paths[..|paths| - 1]) + [Elements(DataAt(d, paths[|paths| - 1]))]
  }

  function Observe(c: Config, d: Data, values: set<Path>, iterated: set<Path>): Observation {
    Observation(|Elements(Input(c, d))|, ValuesAt(d, c.list(values)), ElementsAt(d, c.list(iterated)))
  }

  function Tag(c: Config, d: Data, values: set<Path>, iterated: set<Path>): Option<string> {
    c.fingerprint(Observe(c, d, values, iterated))
  }

  ghost predicate Ready(c: Config, d: Data) {
    NamesOnly(c.template) && (Input(c, d).Node? ==> Halts(c.template, Input(c, d)))
  }

  // The page without any cache.
  ghost function Uncached(c: Config, d: Data): Rendering
    requires Ready(c, d)
  {
    if Input(c, d).Node? then Fresh(c.template, Input(c, d)) else Broken
  }

  function Absolute(c: Config, paths: set<Path>): set<Path> {
    set p | p in paths :: c.inputPath + p
  }

  function Answer(c: Config, body: string, etag: Option<string>, ifNoneMatch: string): Response {
    if etag == None || !c.mainResponse then Page(body, None)
    else if etag.value == ifNoneMatch then NotModified
    else Page(body, etag)
  }

  // One request, for the page that a rendering of its data would give.
  function Step(c: Config, s: State, r: Request, page: Rendering): (State, Response) {
    if !s.useCache then
      (s, if page.Broken? then Failure else Page(page.body, None))
    else
      var etag := Tag(c, r.data, s.valuePaths, s.iteratedPaths);
      var s := s.(useCache := etag.Some?);
      if etag.Some? && c.mainResponse && etag.value == r.ifNoneMatch then (s, NotModified)
      else if etag.Some? && etag.value in s.cache then (s, Answer(c, s.cache[etag.value], etag, r.ifNoneMatch))
      else if page.Broken? then (s, Failure)
      else
        var values := s.valuePaths + Absolute(c, page.valuePaths);
        var iterated := s.iteratedPaths + Absolute(c, page.iteratedPaths);
        var cache := if etag.Some? then s.cache[etag.value := page.body] else s.cache;
        var changed := values != s.valuePaths || iterated != s.iteratedPaths;
        var newTag := if changed then Tag(c, r.data, values, iterated) else etag;
        (State(s.useCache, values, iterated, cache), Answer(c, page.body, newTag, r.ifNoneMatch))
  }

  // ----- runs

  // Between requests the cache may drop any of its entries.
  datatype Event = Serve(request: Request) | Evict(kept: set<string>)

  // A response with what is known around it: whether the cache was still in use, and the sets of paths after it.
  datatype Served = Served(request: Request, response: Response, cached: bool, values: set<Path>, iterated: set<Path>)

  function Kept(cache: map<string, string>, kept: set<string>): map<string, string> {
    map k | k in cache && k in kept :: cache[k]
  }

  ghost predicate AllReady(c: Config, events: seq<Event>) {
    forall k :: 0 <= k < |events| && events[k].Serve? ==> Ready(c, events[k].request.data)
  }

  // The state after a run, and what has been served.
  ghost function Run(c: Config, attemptCache: bool, events: seq<Event>): (State, seq<Served>)
    requires AllReady(c, events)
    decreases |events|
  {
    if events == [] then (State(attemptCache, {}, {}, map[]), [])
    else
      var (s, served) := Run(c, attemptCache, events[..|events| - 1]);
      match events[|events| - 1]
      case Evict(kept) => (s.(cache := Kept(s.cache, kept)), served)
      case Serve(r) =>
        var (next, response) := Step(c, s, r, Uncached(c, r.data));
        (next, served + [Served(r, response, s.useCache, next.valuePaths, next.iteratedPaths)])
  }

  // ----- the data a cached template is meant for

  ghost predicate SameShape(x: Data, y: Data) {
    forall p :: DataAt(x, p).Node? <==> DataAt(y, p).Node?
  }

  // The paths of a set, each once.
  ghost predicate Listing(list: set<Path> -> seq<Path>) {
    forall s: set<Path> :: |list(s)| == |s| && forall p :: p in list(s) <==> p in s
  }

  // How a cached template is used: the data it is given, and the paths it may read and iterate.
  datatype Usage = Usage(data: Data -> bool, values: set<Path>, keys: set<Path>)

  // The input is a map without holes, the same paths are maps in all data, and reading stays within the given paths.
  ghost predicate Regular(c: Config, u: Usage) {
    && Listing(c.list)
    && (forall d :: u.data(d) ==> Input(c, d).Node? && NoHoles(Input(c, d)) && Ready(c, d))
    && (forall d, e :: u.data(d) && u.data(e) ==> SameShape(Input(c, d), Input(c, e)))
    && (forall d :: u.data(d) && Ready(c, d) && Uncached(c, d).Rendered? ==>
        Covers(c, Uncached(c, d), u.values, u.keys))
  }

  // Equal tags come from equal observations, as long as one observes no more paths than the other.
  ghost predicate Apart(c: Config, u: Usage) {
    forall d, e, v, i, w, j ::
      u.data(d) && u.data(e) && v <= w <= u.values && i <= j <= u.keys
      && Tag(c, d, v, i).Some? && Tag(c, d, v, i) == Tag(c, e, w, j) ==>
      Observe(c, d, v, i) == Observe(c, e, w, j)
  }

  ghost predicate Suitable(c: Config, u: Usage) {
    Regular(c, u) && Apart(c, u)
  }

  ghost predicate AllIn(u: Usage, events: seq<Event>) {
    forall k :: 0 <= k < |events| && events[k].Serve? ==> u.data(events[k].request.data)
  }

  // What a rendering has noted is all covered by two sets of paths.
  ghost predicate Covers(c: Config, page: Rendering, values: set<Path>, iterated: set<Path>) {
    page.Rendered? && Absolute(c, page.valuePaths) <= values && Absolute(c, page.iteratedPaths) <= iterated
  }

  // ----- a rendering depends on nothing but what it has noted

  ghost predicate Agree(x: Data, y: Data, values: set<Path>, iterated: set<Path>) {
    && (forall p :: p in values ==> PlainOf(DataAt(x, p)) == PlainOf(DataAt(y, p)))
    && (forall p :: p in iterated ==> Elements(DataAt(x, p)) == Elements(DataAt(y, p)))
  }

  lemma {:induction false} NoHolesAt(d: Data, p: Path)
    requires NoHoles(d)
    ensures NoHoles(DataAt(d, p))
    decreases |p|
  {
    if p == [] {
    } else {
      NoHolesAt(At(d, p[0]), p[1..]);
    }
  }

  lemma {:induction false} KeysOfElements(x: seq<Entry>, y: seq<Entry>)
    requires |x| == |y|
    requires forall i :: 0 <= i < |x| ==> x[i].element == y[i].element && x[i].data != Absent && y[i].data != Absent
    ensures KeysFrom(x) == KeysFrom(y)
  {
    if x == [] {
    } else {
      KeysOfElements(x[1..], y[1..]);
    }
  }

  lemma SameRead(x: Data, y: Data, action: Action)
    requires !action.Finish? && SameShape(x, y) && NoHoles(x) && NoHoles(y) && DataAt(x, action.at).Node?
    requires Agree(x, y, ValueNoted(x, action), KeysNoted(action))
    ensures ReadOf(x, action) == ReadOf(y, action)
  {
    var at := action.at;
    var dx, dy := DataAt(x, at), DataAt(y, at);
    assert dy.Node?;
    if action.Keys? {
      NoHolesAt(x, at);
      NoHolesAt(y, at);
      assert Elements(dx) == Elements(dy);
      forall i | 0 <= i < |dx.entries|
        ensures dx.entries[i].element == dy.entries[i].element
      {
        assert Elements(dx)[i] == Elements(dy)[i];
      }
      KeysOfElements(dx.entries, dy.entries);
    } else {
      var e := Name(action.key);
      DataAtConcat(x, at, [e]);
      DataAtConcat(y, at, [e]);
      assert DataAt(dx, [e]) == At(dx, e) && DataAt(dy, [e]) == At(dy, e) by {
        assert [e][1..] == [];
      }
      assert DataAt(x, at + [e]).Node? <==> DataAt(y, at + [e]).Node?;
    }
  }

  lemma {:induction false} SameRendering(t: Template, x: Data, y: Data, answers: seq<Read>, n: nat)
    requires SameShape(x, y) && NoHoles(x) && NoHoles(y)
    requires RenderFor(t, x, answers, n).Some? && RenderFor(t, x, answers, n).value.Rendered?
    requires var r := RenderFor(t, x, answers, n).value; Agree(x, y, r.valuePaths, r.iteratedPaths)
    ensures RenderFor(t, y, answers, n) == RenderFor(t, x, answers, n)
    decreases n
  {
    hide ReadOf, DataAt, NoHoles;
    var action := t(answers);
    if !action.Finish? {
      var rest := RenderFor(t, x, answers + [ReadOf(x, action)], n - 1).value;
      assert DataAt(y, action.at).Node?;
      SameRead(x, y, action);
      SameNoted(x, y, action);
      SameRendering(t, x, y, answers + [ReadOf(x, action)], n - 1);
    }
  }

  lemma SameNoted(x: Data, y: Data, action: Action)
    requires !action.Finish? && ReadOf(x, action) == ReadOf(y, action)
    ensures ValueNoted(x, action) == ValueNoted(y, action)
  {
  }

  lemma AgreeByObservation(c: Config, d: Data, e: Data, values: set<Path>, iterated: set<Path>, page: Rendering)
    requires Listing(c.list) && Observe(c, d, values, iterated) == Observe(c, e, values, iterated)
    requires Covers(c, page, values, iterated)
    ensures Agree(Input(c, d), Input(c, e), page.valuePaths, page.iteratedPaths)
  {
    forall p | p in page.valuePaths
      ensures PlainOf(DataAt(Input(c, d), p)) == PlainOf(DataAt(Input(c, e), p))
    {
      assert c.inputPath + p in Absolute(c, page.valuePaths);
      ObservedValue(c, d, e, values, iterated, c.inputPath + p);
      DataAtConcat(d, c.inputPath, p);
      DataAtConcat(e, c.inputPath, p);
    }
    forall p | p in page.iteratedPaths
      ensures Elements(DataAt(Input(c, d), p)) == Elements(DataAt(Input(c, e), p))
    {
      assert c.inputPath + p in Absolute(c, page.iteratedPaths);
      ObservedKeys(c, d, e, values, iterated, c.inputPath + p);
      DataAtConcat(d, c.inputPath, p);
      DataAtConcat(e, c.inputPath, p);
    }
  }

  lemma ObservedValue(c: Config, d: Data, e: Data, values: set<Path>, iterated: set<Path>, p: Path)
    requires Listing(c.list) && Observe(c, d, values, iterated) == Observe(c, e, values, iterated) && p in values
    ensures PlainOf(DataAt(d, p)) == PlainOf(DataAt(e, p))
  {
    var paths := c.list(values);
    var k :| 0 <= k < |paths| && paths[k] == p;
    assert ValuesAt(d, paths)[k] == ValuesAt(e, paths)[k];
  }

  lemma ObservedKeys(c: Config, d: Data, e: Data, values: set<Path>, iterated: set<Path>, p: Path)
    requires Listing(c.list) && Observe(c, d, values, iterated) == Observe(c, e, values, iterated) && p in iterated
    ensures Elements(DataAt(d, p)) == Elements(DataAt(e, p))
  {
    var paths := c.list(iterated);
    var k :| 0 <= k < |paths| && paths[k] == p;
    assert ElementsAt(d, paths)[k] == ElementsAt(e, paths)[k];
  }

  lemma SameSize<T>(x: set<T>, y: set<T>)
    requires x <= y && |x| == |y|
    ensures x == y
  {
    assert y == x + (y - x);
  }

  // Observing as many paths is observing the same, among sets of paths of which one contains the other.
  lemma SameObservationSamePaths(c: Config, d: Data, v: set<Path>, i: set<Path>, e: Data, w: set<Path>, j: set<Path>)
    requires Listing(c.list) && v <= w && i <= j
    requires Observe(c, d, v, i) == Observe(c, e, w, j)
    ensures v == w && i == j
  {
    assert |ValuesAt(d, c.list(v))| == |v| && |ValuesAt(e, c.list(w))| == |w|;
    assert |ElementsAt(d, c.list(i))| == |i| && |ElementsAt(e, c.list(j))| == |j|;
    SameSize(v, w);
    SameSize(i, j);
  }

  // The same tag stands for the same sets of paths, and for the same page when they cover what one of the pages reads.
  lemma SameTagSamePage(c: Config, u: Usage, d: Data, v: set<Path>, i: set<Path>, e: Data, w: set<Path>, j: set<Path>)
    requires Suitable(c, u) && u.data(d) && u.data(e)
    requires v <= w <= u.values && i <= j <= u.keys
    requires Tag(c, d, v, i).Some? && Tag(c, d, v, i) == Tag(c, e, w, j)
    ensures v == w && i == j
    ensures Covers(c, Uncached(c, d), v, i) || Covers(c, Uncached(c, e), v, i) ==> Uncached(c, e) == Uncached(c, d)
  {
    hide Tag, Observe, NoHoles, Covers, RenderFor, SameShape, Listing;
    assert Observe(c, d, v, i) == Observe(c, e, w, j);
    SameObservationSamePaths(c, d, v, i, e, w, j);
    if Covers(c, Uncached(c, d), v, i) {
      SamePageBy(c, u, d, e, v, i);
    } else if Covers(c, Uncached(c, e), v, i) {
      SamePageBy(c, u, e, d, v, i);
    }
  }

  lemma SamePageBy(c: Config, u: Usage, d: Data, e: Data, v: set<Path>, i: set<Path>)
    requires Regular(c, u) && u.data(d) && u.data(e)
    requires Observe(c, d, v, i) == Observe(c, e, v, i)
    requires Covers(c, Uncached(c, d), v, i)
    ensures Uncached(c, e) == Uncached(c, d)
  {
    hide Observe, NoHoles, RenderFor, SameShape, Agree, Listing;
    var x, y, t := Input(c, d), Input(c, e), c.template;
    AgreeByObservation(c, d, e, v, i, Uncached(c, d));
    var n: nat :| RenderFor(t, x, [], n).Some?;
    FreshIs(t, x, n);
    assert Uncached(c, d).Rendered?;
    SameRendering(t, x, y, [], n);
    FreshIs(t, y, n);
  }

  // ----- the invariant of all runs

  // An entry comes from some data and some sets of paths that have only grown since;
  // when they are still the current ones, they cover all that the page reads.
  ghost predicate EntryFrom(c: Config, u: Usage, s: State, tag: string, body: string,
                            d: Data, v: set<Path>, i: set<Path>) {
    && u.data(d) && Ready(c, d) && Uncached(c, d).Rendered? && Uncached(c, d).body == body
    && Tag(c, d, v, i) == Some(tag)
    && v <= s.valuePaths && i <= s.iteratedPaths
    && (v == s.valuePaths && i == s.iteratedPaths ==> Covers(c, Uncached(c, d), v, i))
  }

  ghost predicate EntriesSound(c: Config, u: Usage, s: State) {
    && s.valuePaths <= u.values && s.iteratedPaths <= u.keys
    && forall tag :: tag in s.cache ==> exists d, v, i :: EntryFrom(c, u, s, tag, s.cache[tag], d, v, i)
  }

  // A page is the uncached one. It carries the tag of its data for the paths observed by then, which cover all it
  // reads, if and only if the cache is in use and the page is the main response. Nothing has changed if and only if
  // that tag is the one the client sent.
  ghost predicate ResponseSound(c: Config, x: Served) {
    var data := x.request.data;
    var tag := if x.cached && c.mainResponse then Tag(c, data, x.values, x.iterated) else None;
    && Ready(c, data)
    && (x.response.NotModified? <==> tag == Some(x.request.ifNoneMatch))
    && match x.response
       case NotModified => true
       case Failure => Uncached(c, data).Broken?
       case Page(body, etag) =>
         && Uncached(c, data).Rendered? && body == Uncached(c, data).body
         && etag == tag
         && (etag.Some? ==> Covers(c, Uncached(c, data), x.values, x.iterated))
  }

  lemma HitIsUncached(c: Config, u: Usage, s: State, d: Data)
    requires Suitable(c, u) && u.data(d) && EntriesSound(c, u, s)
    requires var tag := Tag(c, d, s.valuePaths, s.iteratedPaths); tag.Some? && tag.value in s.cache
    ensures Ready(c, d) && Uncached(c, d).Rendered?
    ensures s.cache[Tag(c, d, s.valuePaths, s.iteratedPaths).value] == Uncached(c, d).body
    ensures Covers(c, Uncached(c, d), s.valuePaths, s.iteratedPaths)
  {
    hide Apart, Listing, SameShape, NoHoles, Tag, Uncached, Covers;
    var tag := Tag(c, d, s.valuePaths, s.iteratedPaths).value;
    var e, v, i :| EntryFrom(c, u, s, tag, s.cache[tag], e, v, i);
    SameTagSamePage(c, u, e, v, i, d, s.valuePaths, s.iteratedPaths);
  }

  function ServedBy(s: State, r: Request, next: (State, Response)): Served {
    Served(r, next.1, s.useCache, next.0.valuePaths, next.0.iteratedPaths)
  }

  // The tag of a response, whatever the requests are: a page of the main response carries the tag of its data for the
  // paths observed by then, unless that is what the client sent; then, and only then, nothing has changed.
  lemma StepTags(c: Config, s: State, r: Request, page: Rendering)
    ensures
      var (next, response) := Step(c, s, r, page);
      var tag := if s.useCache && c.mainResponse then Tag(c, r.data, next.valuePaths, next.iteratedPaths) else None;
      && (response.NotModified? <==> tag == Some(r.ifNoneMatch))
      && (response.Page? ==> response.etag == tag)
  {
    hide Tag;
  }

  // The cache is given up as soon as a fingerprint is missing, and not before; while it is in use, the paths that grow
  // are those that a rendering has noted, and every page is there under its tag.
  lemma StepKeeps(c: Config, s: State, r: Request, page: Rendering)
    ensures
      var (next, response) := Step(c, s, r, page);
      var tag := Tag(c, r.data, s.valuePaths, s.iteratedPaths);
      && (next.useCache <==> s.useCache && tag.Some?)
      && (next.valuePaths != s.valuePaths || next.iteratedPaths != s.iteratedPaths ==>
            && s.useCache && page.Rendered?
            && next.valuePaths == s.valuePaths + Absolute(c, page.valuePaths)
            && next.iteratedPaths == s.iteratedPaths + Absolute(c, page.iteratedPaths))
      && (next.useCache && response.Page? ==> tag.value in next.cache && next.cache[tag.value] == response.body)
      && (forall k :: k in s.cache ==> k in next.cache)
  {
    hide Tag, Absolute;
  }

  // A page that is there is not rendered again: the response does not depend on what a rendering would give.
  lemma HitIsNotRendered(c: Config, s: State, r: Request, page: Rendering, other: Rendering)
    requires var tag := Tag(c, r.data, s.valuePaths, s.iteratedPaths);
             s.useCache && tag.Some? && tag.value in s.cache
    ensures Step(c, s, r, page) == Step(c, s, r, other) && Step(c, s, r, page).0 == s
    ensures !Step(c, s, r, page).1.Failure?
  {
    hide Tag;
  }

  lemma StepResponse(c: Config, u: Usage, s: State, r: Request)
    requires Suitable(c, u) && u.data(r.data) && EntriesSound(c, u, s)
    ensures ResponseSound(c, ServedBy(s, r, Step(c, s, r, Uncached(c, r.data))))
  {
    hide EntriesSound, Tag, Uncached, Absolute, Listing, SameShape, NoHoles, Apart;
    StepTags(c, s, r, Uncached(c, r.data));
    var etag := Tag(c, r.data, s.valuePaths, s.iteratedPaths);
    if s.useCache && etag.Some? && etag.value in s.cache {
      HitIsUncached(c, u, s, r.data);
    }
  }

  lemma StepEntries(c: Config, u: Usage, s: State, r: Request)
    requires Suitable(c, u) && u.data(r.data) && EntriesSound(c, u, s)
    ensures EntriesSound(c, u, Step(c, s, r, Uncached(c, r.data)).0)
  {
    hide Tag, Uncached, Absolute, Listing, SameShape, NoHoles, Apart;
    var page := Uncached(c, r.data);
    var next := Step(c, s, r, page).0;
    forall tag | tag in next.cache
      ensures exists d, v, i :: EntryFrom(c, u, next, tag, next.cache[tag], d, v, i)
    {
      if tag in s.cache && next.cache[tag] == s.cache[tag] {
        var d, v, i :| EntryFrom(c, u, s, tag, s.cache[tag], d, v, i);
        EntryStays(c, u, s, next, tag, s.cache[tag], d, v, i);
      } else {
        NewEntry(c, s, r, next, page);
        assert EntryFrom(c, u, next, tag, next.cache[tag], r.data, s.valuePaths, s.iteratedPaths);
      }
    }
  }

  lemma EntryStays(c: Config, u: Usage, s: State, next: State, tag: string, body: string,
                   d: Data, v: set<Path>, i: set<Path>)
    requires EntryFrom(c, u, s, tag, body, d, v, i)
    requires s.valuePaths <= next.valuePaths && s.iteratedPaths <= next.iteratedPaths
    ensures EntryFrom(c, u, next, tag, body, d, v, i)
  {
  }

  lemma NewEntry(c: Config, s: State, r: Request, next: State, page: Rendering)
    requires Ready(c, r.data) && page == Uncached(c, r.data) && page.Rendered?
    requires next.valuePaths == s.valuePaths + Absolute(c, page.valuePaths)
    requires next.iteratedPaths == s.iteratedPaths + Absolute(c, page.iteratedPaths)
    ensures s.valuePaths == next.valuePaths && s.iteratedPaths == next.iteratedPaths ==>
              Covers(c, page, s.valuePaths, s.iteratedPaths)
  {
  }

  // An entry made before the observed paths grew is never looked up again, whatever the data:
  // the fingerprint counts the paths.
  lemma OldEntryNeverHit(c: Config, u: Usage, s: State, tag: string, d: Data, v: set<Path>, i: set<Path>, now: Data)
    requires Suitable(c, u) && u.data(now) && EntriesSound(c, u, s)
    requires tag in s.cache && EntryFrom(c, u, s, tag, s.cache[tag], d, v, i)
    requires v != s.valuePaths || i != s.iteratedPaths
    ensures Tag(c, now, s.valuePaths, s.iteratedPaths) != Some(tag)
  {
    hide Listing, SameShape, NoHoles, Apart, Tag, Uncached, Covers;
    if Tag(c, now, s.valuePaths, s.iteratedPaths) == Some(tag) {
      SameTagSamePage(c, u, d, v, i, now, s.valuePaths, s.iteratedPaths);
      assert false;
    }
  }

  // All responses are sound, the sets of paths only grow, and a cache that is given up stays so.
  ghost predicate RunSound(c: Config, u: Usage, run: (State, seq<Served>)) {
    && EntriesSound(c, u, run.0)
    && (forall k :: 0 <= k < |run.1| ==>
          && u.data(run.1[k].request.data) && ResponseSound(c, run.1[k])
          && run.1[k].values <= run.0.valuePaths && run.1[k].iterated <= run.0.iteratedPaths)
    && (forall j, k :: 0 <= j <= k < |run.1| ==>
          run.1[j].values <= run.1[k].values && run.1[j].iterated <= run.1[k].iterated)
    && (forall j, k :: 0 <= j <= k < |run.1| ==> run.1[k].cached ==> run.1[j].cached)
    && (forall j :: 0 <= j < |run.1| ==> run.0.useCache ==> run.1[j].cached)
  }

  lemma KeptSound(c: Config, u: Usage, s: State, kept: set<string>)
    requires EntriesSound(c, u, s)
    ensures EntriesSound(c, u, s.(cache := Kept(s.cache, kept)))
  {
    var next := s.(cache := Kept(s.cache, kept));
    forall tag | tag in next.cache
      ensures exists d, v, i :: EntryFrom(c, u, next, tag, next.cache[tag], d, v, i)
    {
      var d, v, i :| EntryFrom(c, u, s, tag, s.cache[tag], d, v, i);
      EntryStays(c, u, s, next, tag, s.cache[tag], d, v, i);
    }
  }

  lemma StepGrows(c: Config, s: State, r: Request, page: Rendering)
    ensures var next := Step(c, s, r, page).0;
            && s.valuePaths <= next.valuePaths && s.iteratedPaths <= next.iteratedPaths
            && (next.useCache ==> s.useCache)
  {
  }

  // In every run each response is the page that an uncached rendering of its data would give.
  lemma {:induction false} EveryRunSound(c: Config, u: Usage, attemptCache: bool, events: seq<Event>)
    requires Suitable(c, u) && AllIn(u, events)
    ensures RunSound(c, u, Run(c, attemptCache, events))
    decreases |events|
  {
    hide Listing, SameShape, NoHoles, Apart, Step, EntriesSound, ResponseSound;
    if events == [] {
      NothingCached(c, u, attemptCache);
    } else {
      var front, last := events[..|events| - 1], events[|events| - 1];
      EveryRunSound(c, u, attemptCache, front);
      var s := Run(c, attemptCache, front).0;
      match last
      case Evict(kept) => KeptSound(c, u, s, kept);
      case Serve(r) =>
        StepResponse(c, u, s, r);
        StepEntries(c, u, s, r);
        StepGrows(c, s, r, Uncached(c, r.data));
    }
  }

  lemma NothingCached(c: Config, u: Usage, attemptCache: bool)
    ensures EntriesSound(c, u, State(attemptCache, {}, {}, map[]))
  {
  }

  // Two requests of a run with the same tag, the page of one of them having been covered.
  lemma SameTagInRun(c: Config, u: Usage, attemptCache: bool, events: seq<Event>, j: nat, k: nat)
    requires Suitable(c, u) && AllIn(u, events)
    requires var served := Run(c, attemptCache, events).1;
             && j < |served| && k < |served|
             && Ready(c, served[j].request.data) && Ready(c, served[k].request.data)
             && var tag := Tag(c, served[j].request.data, served[j].values, served[j].iterated);
             && tag.Some? && tag == Tag(c, served[k].request.data, served[k].values, served[k].iterated)
             && Covers(c, Uncached(c, served[j].request.data), served[j].values, served[j].iterated)
    ensures var served := Run(c, attemptCache, events).1;
            Uncached(c, served[k].request.data) == Uncached(c, served[j].request.data)
  {
    hide Run, Listing, SameShape, NoHoles, Apart, Covers, Tag, ResponseSound, Uncached;
    EveryRunSound(c, u, attemptCache, events);
    var served := Run(c, attemptCache, events).1;
    var x, y := served[j], served[k];
    if j <= k {
      SameTagSamePage(c, u, x.request.data, x.values, x.iterated, y.request.data, y.values, y.iterated);
    } else {
      SameTagSamePage(c, u, y.request.data, y.values, y.iterated, x.request.data, x.values, x.iterated);
    }
  }

  // Any two pages of a run with the same tag have the same body.
  lemma SameTagSameBody(c: Config, u: Usage, attemptCache: bool, events: seq<Event>, j: nat, k: nat)
    requires Suitable(c, u) && AllIn(u, events)
    requires var served := Run(c, attemptCache, events).1;
             && j < |served| && k < |served| && served[j].response.Page? && served[k].response.Page?
             && served[j].response.etag.Some? && served[j].response.etag == served[k].response.etag
    ensures var served := Run(c, attemptCache, events).1; served[j].response.body == served[k].response.body
  {
    hide Run, Listing, SameShape, NoHoles, Apart, EntriesSound, Covers, Tag;
    EveryRunSound(c, u, attemptCache, events);
    var served := Run(c, attemptCache, events).1;
    assert ResponseSound(c, served[j]) && ResponseSound(c, served[k]);
    SameTagInRun(c, u, attemptCache, events, j, k);
  }

  // A request that is told nothing has changed, for the tag of any page of the run, would have been given that page
  // again.
  lemma NotModifiedIsTrue(c: Config, u: Usage, attemptCache: bool, events: seq<Event>, j: nat, k: nat)
    requires Suitable(c, u) && AllIn(u, events)
    requires var served := Run(c, attemptCache, events).1;
             && j < |served| && k < |served| && served[j].response.Page? && served[k].response.NotModified?
             && served[j].response.etag == Some(served[k].request.ifNoneMatch)
    ensures var served := Run(c, attemptCache, events).1;
            && Ready(c, served[k].request.data)
            && Uncached(c, served[k].request.data).Rendered?
            && Uncached(c, served[k].request.data).body == served[j].response.body
  {
    hide Run, Listing, SameShape, NoHoles, Apart, EntriesSound, Covers, Tag;
    EveryRunSound(c, u, attemptCache, events);
    var served := Run(c, attemptCache, events).1;
    assert ResponseSound(c, served[j]) && ResponseSound(c, served[k]);
    SameTagInRun(c, u, attemptCache, events, j, k);
  }
}
