/** The traversal that drives a transformation when no visitor matches any node. */
module Traversals {
  import opened Wrappers
  import opened SourceMapGenerators
  import opened TransformStates
  import opened Transformations
  import Sorting

  // What a property of a syntax tree holds: a node, a list, or anything else. A node without a range is not queued.
  datatype Value = Tree(range: Option<(int, int)>, properties: seq<Value>) | List(items: seq<Value>) | Other

  function Size(v: Value): nat
    decreases v, 0
  {
    match v
    case Tree(_, properties) => 1 + SizeAll(properties)
    case List(items) => 1 + SizeAll(items)
    case Other => 1
  }

  function SizeAll(vs: seq<Value>): nat
    decreases vs
  {
    if vs == [] then 0 else Size(vs[0]) + SizeAll(vs[1..])
  }

  // The nodes with a range that are reached from a list of values through lists only, in order.
  function Queued(vs: seq<Value>): (queue: seq<Value>)
    ensures forall c :: c in queue ==> c.Tree? && c.range.Some? && Size(c) <= SizeAll(vs)
    decreases vs
  {
    if vs == [] then []
    else
      (match vs[0]
       case Tree(range, _) => if range.Some? then [vs[0]] else []
       case List(items) => Queued(items)
       case Other => [])
      + Queued(vs[1..])
  }

  // Where a value is found in nested lists: its place in the outermost list, then in the list found there, and so on.
  predicate Leads(vs: seq<Value>, path: seq<int>, v: Value)
    decreases vs
  {
    && path != [] && 0 <= path[0] < |vs|
    && if |path| == 1 then vs[path[0]] == v else vs[path[0]].List? && Leads(vs[path[0]].items, path[1..], v)
  }

  lemma {:induction false} QueuedIsReached(vs: seq<Value>, c: Value) returns (path: seq<int>)
    requires c in Queued(vs)
    ensures Leads(vs, path, c) && c.Tree? && c.range.Some?
    decreases vs
  {
    if c in Queued(vs[1..]) {
      var later := QueuedIsReached(vs[1..], c);
      path := [later[0] + 1] + later[1..];
      assert path[1..] == later[1..];
    } else if vs[0].List? {
      var inner := QueuedIsReached(vs[0].items, c);
      path := [0] + inner;
      assert path[1..] == inner;
    } else {
      path := [0];
    }
  }

  lemma {:induction false} ReachedIsQueued(vs: seq<Value>, path: seq<int>, c: Value)
    requires Leads(vs, path, c) && c.Tree? && c.range.Some?
    ensures c in Queued(vs)
    decreases vs
  {
    if path[0] > 0 {
      var later := [path[0] - 1] + path[1..];
      assert later[1..] == path[1..];
      ReachedIsQueued(vs[1..], later, c);
    } else if |path| > 1 {
      ReachedIsQueued(vs[0].items, path[1..], c);
    }
  }

  // Queued is every node with a range that some path leads to, however deep in lists, and nothing else.
  lemma QueuedExactly(vs: seq<Value>, c: Value)
    ensures c in Queued(vs) <==> c.Tree? && c.range.Some? && exists path: seq<int> :: Leads(vs, path, c)
  {
    hide Queued;
    if c in Queued(vs) {
      var path := QueuedIsReached(vs, c);
      assert exists p: seq<int> :: Leads(vs, p, c);
    } else if c.Tree? && c.range.Some? {
      forall path: seq<int> | Leads(vs, path, c)
        ensures c in Queued(vs)
      {
        ReachedIsQueued(vs, path, c);
      }
    }
  }

  const ByStart: (Value, Value) -> int := (a, b) => StartOf(a) - StartOf(b)

  function StartOf(v: Value): int {
    if v.Tree? && v.range.Some? then v.range.value.0 else 0
  }

  // The children of a node, sorted by where they start.
  method GetOrderedChildren(node: Value) returns (children: seq<Value>)
    requires node.Tree?
    ensures Sorting.SortedBy(ByStart, children) && Sorting.Permutation(Queued(node.properties), children)
    ensures forall c :: c in children ==> c.Tree? && c.range.Some? && Size(c) < Size(node)
  {
    children := Sorting.Sort(Queued(node.properties), ByStart);
    Sorting.PermutationMembers(Queued(node.properties), children);
  }

  // Everything that is written is the source up to the position.
  ghost predicate Verbatim(g: State) {
    g.buffer == Consumed(g)
  }

  lemma CatchupVerbatim(g: State, end: int)
    requires Verbatim(g)
    ensures Verbatim(Caught(g, end, 0, Keep))
    ensures Caught(g, end, 0, Keep).position == if end < g.position then g.position else end
  {
    if end >= g.position {
      ConsumedForward(g, end);
    }
  }

  // The bounds of the ranges of all nodes below a node.
  function Bounds(node: Value): set<int>
    requires node.Tree?
    decreases Size(node), 1
  {
    BoundsOf(Queued(node.properties), Size(node))
  }

  function BoundsOf(children: seq<Value>, size: nat): set<int>
    requires forall c :: c in children ==> c.Tree? && c.range.Some? && Size(c) < size
    decreases size, 0, |children|
  {
    if children == [] then {}
    else
      assert children == [children[0]] + children[1..];
      OwnBounds(children[0]) + BoundsOf(children[1..], size)
  }

  // With those of its own range.
  function OwnBounds(c: Value): set<int>
    requires c.Tree? && c.range.Some?
    decreases Size(c), 2
  {
    {c.range.value.0, c.range.value.1} + Bounds(c)
  }

  lemma {:induction false} BoundsMembers(children: seq<Value>, size: nat)
    requires forall c :: c in children ==> c.Tree? && c.range.Some? && Size(c) < size
    ensures forall e :: e in BoundsOf(children, size) <==> exists c :: c in children && e in OwnBounds(c)
    decreases |children|
  {
    if children == [] {
    } else {
      var first, rest := children[0], children[1..];
      assert children == [first] + rest;
      BoundsMembers(rest, size);
      BoundsCons(children, size);
      forall e
        ensures e in BoundsOf(children, size) <==> exists c :: c in children && e in OwnBounds(c)
      {
        if c :| c in children && e in OwnBounds(c) {
          assert c == first || c in rest;
        }
      }
    }
  }

  // Every step of the chain goes from a node to a node with a range among its properties.
  ghost predicate Descends(node: Value, chain: seq<Value>)
    decreases |chain|
  {
    && node.Tree?
    && (chain == [] ||
        (&& chain[0].Tree? && chain[0].range.Some?
         && (exists path: seq<int> :: Leads(node.properties, path, chain[0]))
         && Descends(chain[0], chain[1..])))
  }

  predicate BoundOf(v: Value, e: int) {
    v.Tree? && v.range.Some? && (e == v.range.value.0 || e == v.range.value.1)
  }

  lemma {:induction false} BoundIsReached(node: Value, e: int) returns (chain: seq<Value>)
    requires node.Tree? && e in Bounds(node)
    ensures chain != [] && Descends(node, chain) && BoundOf(chain[|chain| - 1], e)
    decreases Size(node)
  {
    hide Leads;
    var children := Queued(node.properties);
    BoundsMembers(children, Size(node));
    assert Bounds(node) == BoundsOf(children, Size(node));
    hide Queued, BoundsOf, Bounds;
    var c :| c in children && e in OwnBounds(c);
    QueuedExactly(node.properties, c);
    if BoundOf(c, e) {
      chain := [c];
      assert Descends(c, []) && chain[1..] == [];
    } else {
      var below := BoundIsReached(c, e);
      chain := [c] + below;
      assert chain[1..] == below;
    }
  }

  lemma {:induction false} ReachedIsBound(node: Value, chain: seq<Value>, e: int)
    requires chain != [] && Descends(node, chain) && BoundOf(chain[|chain| - 1], e)
    ensures e in Bounds(node)
    decreases |chain|
  {
    var children, c := Queued(node.properties), chain[0];
    BoundsMembers(children, Size(node));
    assert Bounds(node) == BoundsOf(children, Size(node));
    var path: seq<int> :| Leads(node.properties, path, c);
    ReachedIsQueued(node.properties, path, c);
    hide Queued, BoundsOf, Bounds;
    if |chain| > 1 {
      assert chain[1..][|chain| - 2] == chain[|chain| - 1];
      ReachedIsBound(c, chain[1..], e);
    }
    assert c in children && e in OwnBounds(c);
    assert e in BoundsOf(children, Size(node));
  }

  // The bounds that a traversal catches up to are those of the nodes that a chain of nodes with ranges leads down to.
  lemma BoundsExactly(node: Value, e: int)
    requires node.Tree?
    ensures e in Bounds(node) <==>
            exists chain :: chain != [] && Descends(node, chain) && BoundOf(chain[|chain| - 1], e)
  {
    hide Bounds, Descends, BoundOf;
    if e in Bounds(node) {
      var chain := BoundIsReached(node, e);
    } else {
      forall chain | chain != [] && Descends(node, chain) && BoundOf(chain[|chain| - 1], e)
        ensures e in Bounds(node)
      {
        ReachedIsBound(node, chain, e);
      }
    }
  }

  lemma BoundsCons(children: seq<Value>, size: nat)
    requires children != [] && forall c :: c in children ==> c.Tree? && c.range.Some? && Size(c) < size
    ensures BoundsOf(children, size) == OwnBounds(children[0]) + BoundsOf(children[1..], size)
  {
  }

  lemma {:induction false} RunConcat(g: State, x: seq<Operation>, y: seq<Operation>)
    ensures Run(g, x + y) == Run(Run(g, x), y)
    decreases |x|
  {
    if x == [] {
      assert x + y == y;
    } else {
      assert (x + y)[0] == x[0] && (x + y)[1..] == x[1..] + y;
      RunConcat(Do(g, x[0]), x[1..], y);
    }
  }

  lemma RunOne(g: State, op: Operation)
    ensures Run(g, [op]) == Do(g, op)
  {
    assert [op][1..] == [];
  }

  predicate PlainCatchup(op: Operation) {
    op.Catchup? && op.indentBy == 0 && op.transformer.Keep?
  }

  ghost predicate AllPlain(ops: seq<Operation>) {
    forall op :: op in ops ==> PlainCatchup(op)
  }

  // The steps of a traversal: plain catching up, to all the given bounds and to nothing else.
  ghost predicate CatchesUp(ops: seq<Operation>, bounds: set<int>) {
    AllPlain(ops) && forall e :: e in bounds <==> Catchup(e, 0, Keep) in ops
  }

  lemma CatchesUpConcat(x: seq<Operation>, y: seq<Operation>, a: set<int>, b: set<int>)
    requires CatchesUp(x, a) && CatchesUp(y, b)
    ensures CatchesUp(x + y, a + b)
  {
    assert forall op :: op in x + y <==> op in x || op in y;
  }

  // Catches up before and after every child, whatever the ranges of the tree are; `ops` are the steps it takes.
  method Traverse(t: Transformation, node: Value) returns (ghost ops: seq<Operation>)
    requires t.Valid() && node.Tree?
    modifies t, t.MapObjects()
    ensures t.Valid() && t.MapObjects() == old(t.MapObjects())
    ensures t.Abstract() == Run(old(t.Abstract()), ops) && CatchesUp(ops, Bounds(node))
    decreases Size(node)
  {
    hide Transformation.Valid, Caught, Run, CatchesUp, Bounds, OwnBounds;
    ghost var start := t.Abstract();
    ops := [];
    var children := GetOrderedChildren(node);
    NothingDone(start);
    for i := 0 to |children|
      invariant t.Valid() && t.MapObjects() == old(t.MapObjects())
      invariant t.Abstract() == Run(start, ops) && CatchesUp(ops, BoundsOf(children[..i], Size(node)))
    {
      var child := children[i];
      assert children[..i + 1] == children[..i] + [child];
      t.Catchup(child.range.value.0, 0, Keep);
      ghost var inner := Traverse(t, child);
      t.Catchup(child.range.value.1, 0, Keep);
      ghost var more := OneChild(Run(start, ops), child, inner);
      RunConcat(start, ops, more);
      CatchesUpConcat(ops, more, BoundsOf(children[..i], Size(node)), OwnBounds(child));
      BoundsMore(children, i, Size(node));
      ops := ops + more;
    }
    assert children[..|children|] == children;
    SameBounds(node, children);
  }

  lemma NothingDone(g: State)
    ensures Run(g, []) == g && CatchesUp([], {})
  {
  }

  lemma OneChild(g: State, child: Value, inner: seq<Operation>) returns (more: seq<Operation>)
    requires child.Tree? && child.range.Some? && CatchesUp(inner, Bounds(child))
    ensures Run(g, more) == Caught(Run(Caught(g, child.range.value.0, 0, Keep), inner), child.range.value.1, 0, Keep)
    ensures CatchesUp(more, OwnBounds(child))
  {
    hide Bounds, Caught, Run;
    var before, after := Catchup(child.range.value.0, 0, Keep), Catchup(child.range.value.1, 0, Keep);
    more := [before] + inner + [after];
    RunOne(g, before);
    RunConcat(g, [before], inner);
    RunOne(Run(g, [before] + inner), after);
    RunConcat(g, [before] + inner, [after]);
    CatchesUpConcat([before], inner, {child.range.value.0}, Bounds(child));
    CatchesUpConcat([before] + inner, [after], {child.range.value.0} + Bounds(child), {child.range.value.1});
    assert {child.range.value.0} + Bounds(child) + {child.range.value.1} == OwnBounds(child);
  }

  lemma BoundsMore(children: seq<Value>, i: nat, size: nat)
    requires i < |children| && forall c :: c in children ==> c.Tree? && c.range.Some? && Size(c) < size
    ensures BoundsOf(children[..i + 1], size) == BoundsOf(children[..i], size) + OwnBounds(children[i])
  {
    hide OwnBounds, BoundsOf;
    var x := children[..i + 1];
    assert x == children[..i] + [children[i]];
    BoundsMembers(x, size);
    BoundsMembers(children[..i], size);
    forall e
      ensures e in BoundsOf(x, size) <==> e in BoundsOf(children[..i], size) + OwnBounds(children[i])
    {
      if c :| c in x && e in OwnBounds(c) {
        assert c in children[..i] || c == children[i];
      }
      if e in OwnBounds(children[i]) {
        assert children[i] in x;
      }
    }
  }

  lemma SameBounds(node: Value, children: seq<Value>)
    requires node.Tree? && Sorting.Permutation(Queued(node.properties), children)
    requires forall c :: c in children ==> c.Tree? && c.range.Some? && Size(c) < Size(node)
    ensures BoundsOf(children, Size(node)) == Bounds(node)
  {
    hide OwnBounds, BoundsOf;
    Sorting.PermutationMembers(Queued(node.properties), children);
    BoundsMembers(children, Size(node));
    BoundsMembers(Queued(node.properties), Size(node));
    forall e
      ensures e in BoundsOf(children, Size(node)) <==> e in BoundsOf(Queued(node.properties), Size(node))
    {
      if c :| c in children && e in OwnBounds(c) {
        assert c in Queued(node.properties);
      }
      if c :| c in Queued(node.properties) && e in OwnBounds(c) {
        assert c in children;
      }
    }
  }

  // With no matching visitor the transformation returns its source unchanged.
  method Transform(source: string, ast: Value, sourceMap: SourceMapGenerator?) returns (code: string)
    requires ast.Tree?
    requires sourceMap != null ==> sourceMap.Valid() && sourceMap.mappings == []
    modifies if sourceMap == null then {} else {sourceMap, sourceMap.sources, sourceMap.names}
    ensures code == source
  {
    hide Caught, Run;
    var t := new Transformation(source, sourceMap);
    ghost var g := t.Abstract();
    assert Verbatim(g);
    ghost var ops := Traverse(t, ast);
    CatchupsVerbatim(g, ops);
    CatchupVerbatim(t.Abstract(), |source|);
    t.Catchup(|source|, 0, Keep);
    code := t.buffer;
    assert Verbatim(t.Abstract());
  }

  lemma {:induction false} CatchupsVerbatim(g: State, ops: seq<Operation>)
    requires Verbatim(g) && AllPlain(ops)
    ensures Verbatim(Run(g, ops)) && Run(g, ops).source == g.source && Run(g, ops).position >= g.position
    decreases |ops|
  {
    if ops == [] {
    } else {
      assert PlainCatchup(ops[0]);
      CatchupVerbatim(g, ops[0].end);
      CatchupsVerbatim(Do(g, ops[0]), ops[1..]);
    }
  }

  // Plain catching up to any ends, in any order, and then to the end of the source copies the source.
  lemma CatchupsCopy(source: string, recording: bool, ops: seq<Operation>)
    requires AllPlain(ops)
    ensures Caught(Run(Initial(source, recording), ops), |source|, 0, Keep).buffer == source
  {
    var g := Initial(source, recording);
    assert Consumed(g) == "";
    CatchupsVerbatim(g, ops);
    CatchupVerbatim(Run(g, ops), |source|);
  }
}
