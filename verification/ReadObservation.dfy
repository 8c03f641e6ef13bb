/** Maps that note what a template reads from them, and the rendering of a template over such a map. */
module ReadObservation {
  import opened Wrappers
  import opened DataTrees

  // The data at a path.
  function DataAt(d: Data, p: Path): Data
    decreases |p|
  {
    if p == [] then d else DataAt(At(d, p[0]), p[1..])
  }

  lemma {:induction false} DataAtConcat(d: Data, p: Path, q: Path)
    ensures DataAt(d, p + q) == DataAt(DataAt(d, p), q)
    decreases |p|
  {
    if p == [] {
      assert p + q == q;
    } else {
      assert (p + q)[0] == p[0] && (p + q)[1..] == p[1..] + q;
      DataAtConcat(At(d, p[0]), p[1..], q);
    }
  }

  // The plain value a map holds for data that is not itself a map: null content and absent data are both null.
  function PlainOf(d: Data): Option<Content> {
    if d.Leaf? && d.content != NullContent then Some(d.content) else None
  }

  // The keys of the plain map made of the data: named entries that are not holes.
  function KeysFrom(entries: seq<Entry>): seq<string> {
    if entries == [] then []
    else
      var keys := KeysFrom(entries[1..]);
      if entries[0].element.Name? && entries[0].data != Absent then [entries[0].element.name] + keys else keys
  }

  function KeysOf(d: Data): seq<string> {
    if d.Node? then KeysFrom(d.entries) else []
  }

  // The keys of a list of entries are those of its parts, in order.
  lemma {:induction false} KeysFromConcat(a: seq<Entry>, b: seq<Entry>)
    ensures KeysFrom(a + b) == KeysFrom(a) + KeysFrom(b)
  {
    if a == [] {
      assert a + b == b;
    } else {
      assert (a + b)[0] == a[0] && (a + b)[1..] == a[1..] + b;
      KeysFromConcat(a[1..], b);
    }
  }

  // A single entry has its name as a key, unless it has none or is a hole.
  lemma KeysFromOne(e: Entry)
    ensures KeysFrom([e]) ==
            match e.element
            case Name(name) => if e.data == Absent then [] else [name]
            case _ => []
  {
    assert [e][1..] == [];
  }

  // The keys of a map are the names below which there is something, in the order of the entries.
  lemma {:induction false} KeysFromAre(entries: seq<Entry>, key: string)
    ensures key in KeysFrom(entries) <==>
            exists k :: 0 <= k < |entries| && entries[k].element == Name(key) && entries[k].data != Absent
  {
    if entries == [] {
    } else {
      var rest := entries[1..];
      KeysFromAre(rest, key);
      assert entries == [entries[0]] + rest;
      if k :| 0 <= k < |entries| && entries[k].element == Name(key) && entries[k].data != Absent {
        assert k > 0 ==> rest[k - 1] == entries[k];
      }
      if key in KeysFrom(rest) {
        var k :| 0 <= k < |rest| && rest[k].element == Name(key) && rest[k].data != Absent;
        assert entries[k + 1] == rest[k];
      }
    }
  }

  // A plain read at a path gives the content there, and null where there is null content or none.
  lemma {:induction false} PlainIsContent(d: Data, p: Path)
    ensures PlainOf(DataAt(d, p)) == if ContentAt(d, p) == Some(NullContent) then None else ContentAt(d, p)
    decreases |p|
  {
    if p == [] {
    } else {
      PlainIsContent(At(d, p[0]), p[1..]);
    }
  }

  // The paths of values and of key lists that have been read, shared by all maps of one rendering.
  class Observed {
    var valuePaths: set<Path>
    var iteratedPaths: set<Path>

    constructor ()
      ensures valuePaths == {} && iteratedPaths == {}
    {
      valuePaths, iteratedPaths := {}, {};
    }
  }

  datatype Got = Nested(nested: ReadObservedMap) | Plain(value: Option<Content>)

  class ReadObservedMap {
    const inner: Data
    const path: Path
    const observed: Observed

    constructor (inner: Data, path: Path, observed: Observed)
      ensures this.inner == inner && this.path == path && this.observed == observed
    {
      this.inner, this.path, this.observed := inner, path, observed;
    }

    // A nested map is wrapped and not noted, anything else is noted as a value.
    method Get(key: string) returns (got: Got)
      modifies observed
      ensures got.Nested? <==> At(inner, Name(key)).Node?
      ensures got.Nested? ==> fresh(got.nested)
      ensures got.Nested? ==>
        && got.nested.inner == At(inner, Name(key)) && got.nested.path == path + [Name(key)]
            && got.nested.observed == observed
      ensures got.Plain? ==> got.value == PlainOf(At(inner, Name(key)))
      ensures observed.valuePaths == old(observed.valuePaths) + if got.Plain? then {path + [Name(key)]} else {}
      ensures observed.iteratedPaths == old(observed.iteratedPaths)
    {
      var valuePath := path + [Name(key)];
      var value := At(inner, Name(key));
      if value.Node? {
        var nested := new ReadObservedMap(value, valuePath, observed);
        got := Nested(nested);
      } else {
        observed.valuePaths := observed.valuePaths + {valuePath};
        got := Plain(PlainOf(value));
      }
    }

    method KeySet() returns (keys: seq<string>)
      modifies observed
      ensures keys == KeysOf(inner)
      ensures observed.valuePaths == old(observed.valuePaths)
      ensures observed.iteratedPaths == old(observed.iteratedPaths) + {path}
    {
      observed.iteratedPaths := observed.iteratedPaths + {path};
      keys := KeysOf(inner);
    }
  }

  // ----- templates

  datatype Read = MapRead | PlainRead(value: Option<Content>) | KeysRead(keys: seq<string>)

  // What a template does next: finish, get one key of a map or the keys of a map.
  datatype Action = Finish(body: string) | Get(at: Path, key: string) | Keys(at: Path)

  // A deterministic template: its next action depends on nothing but what it has read so far.
  type Template = seq<Read> -> Action

  // Broken when the template takes something for a map that is none.
  datatype Rendering = Rendered(body: string, valuePaths: set<Path>, iteratedPaths: set<Path>) | Broken

  // What an action reads, and what it leaves noted.
  function ReadOf(m: Data, action: Action): Read
    requires !action.Finish?
  {
    if action.Keys? then KeysRead(KeysOf(DataAt(m, action.at)))
    else
      var value := At(DataAt(m, action.at), Name(action.key));
      if value.Node? then MapRead else PlainRead(PlainOf(value))
  }

  function ValueNoted(m: Data, action: Action): set<Path>
    requires !action.Finish?
  {
    if action.Get? && ReadOf(m, action).PlainRead? then {action.at + [Name(action.key)]} else {}
  }

  function KeysNoted(action: Action): set<Path>
    requires !action.Finish?
  {
    if action.Keys? then {action.at} else {}
  }

  function Noting(values: set<Path>, iterated: set<Path>, r: Rendering): Rendering {
    if r.Broken? then Broken else Rendered(r.body, values + r.valuePaths, iterated + r.iteratedPaths)
  }

  // Rendering with the answers so far and at most n more reads.
  function RenderFor(t: Template, m: Data, answers: seq<Read>, n: nat): Option<Rendering>
    decreases n
  {
    var action := t(answers);
    if action.Finish? then Some(Rendered(action.body, {}, {}))
    else if !DataAt(m, action.at).Node? then Some(Broken)
    else if n == 0 then None
    else
      var rest := RenderFor(t, m, answers + [ReadOf(m, action)], n - 1);
      if rest.None? then None else Some(Noting(ValueNoted(m, action), KeysNoted(action), rest.value))
  }

  ghost predicate Halts(t: Template, m: Data) {
    exists n: nat :: RenderFor(t, m, [], n).Some?
  }

  // The rendering of a template that comes to an end.
  ghost function Fresh(t: Template, m: Data): Rendering
    requires Halts(t, m)
  {
    var n: nat :| RenderFor(t, m, [], n).Some?;
    RenderFor(t, m, [], n).value
  }

  lemma {:induction false} MoreReadsAllowed(t: Template, m: Data, answers: seq<Read>, n: nat, more: nat)
    requires n <= more && RenderFor(t, m, answers, n).Some?
    ensures RenderFor(t, m, answers, more) == RenderFor(t, m, answers, n)
    decreases n
  {
    var action := t(answers);
    if n > 0 && !action.Finish? && DataAt(m, action.at).Node? {
      MoreReadsAllowed(t, m, answers + [ReadOf(m, action)], n - 1, more - 1);
    }
  }

  lemma FreshIs(t: Template, m: Data, n: nat)
    requires RenderFor(t, m, [], n).Some?
    ensures Halts(t, m) && Fresh(t, m) == RenderFor(t, m, [], n).value
  {
    var k: nat :| RenderFor(t, m, [], k).Some? && Fresh(t, m) == RenderFor(t, m, [], k).value;
    MoreReadsAllowed(t, m, [], k, if k < n then n else k);
    MoreReadsAllowed(t, m, [], n, if k < n then n else k);
  }

  // Follows the keys of a path from the root map, as an expression of a template does.
  method Follow(root: ReadObservedMap, at: Path) returns (got: Option<ReadObservedMap>)
    requires forall k :: 0 <= k < |at| ==> at[k].Name?
    modifies root.observed
    ensures got.Some? <==> root.inner.Node? && DataAt(root.inner, at).Node?
    ensures got.Some? ==>
      && got.value.inner == DataAt(root.inner, at) && got.value.path == root.path + at
          && got.value.observed == root.observed
      && root.observed.valuePaths == old(root.observed.valuePaths)
          && root.observed.iteratedPaths == old(root.observed.iteratedPaths)
    decreases |at|
  {
    if root.inner.Node? {
      if at == [] {
        assert root.path + at == root.path;
        return Some(root);
      }
      var next := root.Get(at[0].name);
      if next.Nested? {
        got := Follow(next.nested, at[1..]);
        assert root.path + [at[0]] + at[1..] == root.path + at;
        return;
      }
      NoMapBelow(At(root.inner, at[0]), at[1..]);
    } else {
      NoMapBelow(root.inner, at);
    }
    got := None;
  }

  lemma {:induction false} NoMapBelow(d: Data, p: Path)
    requires !d.Node?
    ensures !DataAt(d, p).Node?
    decreases |p|
  {
    if p == [] {
    } else {
      NoMapBelow(At(d, p[0]), p[1..]);
    }
  }

  // The paths templates ask for are names only.
  ghost predicate NamesOnly(t: Template) {
    forall answers :: match t(answers)
      case Finish(_) => true
      case Get(at, _) => forall k :: 0 <= k < |at| ==> at[k].Name?
      case Keys(at) => forall k :: 0 <= k < |at| ==> at[k].Name?
  }

  method Perform(root: ReadObservedMap, action: Action) returns (read: Option<Read>)
    requires !action.Finish? && forall k :: 0 <= k < |action.at| ==> action.at[k].Name?
    requires root.inner.Node? && root.path == []
    modifies root.observed
    ensures read.Some? <==> DataAt(root.inner, action.at).Node?
    ensures read.Some? ==>
      && read.value == ReadOf(root.inner, action)
      && root.observed.valuePaths == old(root.observed.valuePaths) + ValueNoted(root.inner, action)
      && root.observed.iteratedPaths == old(root.observed.iteratedPaths) + KeysNoted(action)
  {
    var got := Follow(root, action.at);
    if got.None? {
      return None;
    }
    assert root.path + action.at == action.at;
    if action.Get? {
      var value := got.value.Get(action.key);
      read := Some(if value.Nested? then MapRead else PlainRead(value.value));
    } else {
      var keys := got.value.KeySet();
      read := Some(KeysRead(keys));
    }
  }

  lemma NotingTwice(v: set<Path>, i: set<Path>, w: set<Path>, j: set<Path>, r: Rendering)
    ensures Noting(v, i, Noting(w, j, r)) == Noting(v + w, i + j, r)
    ensures Noting({}, {}, r) == r
  {
    if r.Rendered? {
      assert v + (w + r.valuePaths) == (v + w) + r.valuePaths;
      assert i + (j + r.iteratedPaths) == (i + j) + r.iteratedPaths;
    }
  }

  // Renders a template and leaves noted what it has read.
  method RenderTemplate(t: Template, root: ReadObservedMap) returns (body: Option<string>)
    requires NamesOnly(t) && Halts(t, root.inner) && root.inner.Node? && root.path == []
    requires root.observed.valuePaths == {} && root.observed.iteratedPaths == {}
    modifies root.observed
    ensures match Fresh(t, root.inner)
      case Broken => body == None
      case Rendered(text, values, iterated) =>
        body == Some(text) && root.observed.valuePaths == values && root.observed.iteratedPaths == iterated
  {
    hide ReadOf, ValueNoted, KeysNoted, Fresh, DataAt;
    var answers: seq<Read> := [];
    ghost var n: nat :| RenderFor(t, root.inner, [], n).Some?;
    ghost var final := RenderFor(t, root.inner, [], n).value;
    FreshIs(t, root.inner, n);
    NotingTwice({}, {}, {}, {}, final);
    while true
      invariant RenderFor(t, root.inner, answers, n).Some?
      invariant final == Noting(root.observed.valuePaths, root.observed.iteratedPaths,
                                RenderFor(t, root.inner, answers, n).value)
      decreases n
    {
      var action := t(answers);
      if action.Finish? {
        return Some(action.body);
      }
      ghost var values, iterated := root.observed.valuePaths, root.observed.iteratedPaths;
      var read := Perform(root, action);
      if read.None? {
        return None;
      }
      ghost var rest := RenderFor(t, root.inner, answers + [read.value], n - 1).value;
      NotingTwice(values, iterated, ValueNoted(root.inner, action), KeysNoted(action), rest);
      answers, n := answers + [read.value], n - 1;
    }
  }
}
