/** Comparing two data trees: equality and the content differences between them. */
module DataDiff {
  import opened Wrappers
  import opened DataTrees

  // ----- equality

  // Two trees are equal exactly when they are the same, the order of their elements included.
  method DataIsEqual(a: Data, b: Data) returns (equal: bool)
    requires Valid(a) && Valid(b)
    ensures equal <==> a == b
    decreases a
  {
    if a.Leaf? && b.Leaf? {
      return a.content == b.content;
    } else if a.Leaf? || b.Leaf? {
      return false;
    }
    if a.Absent? != b.Absent? || Elements(a) != Elements(b) {
      return false;
    }
    if a.Node? {
      SameElementAt(a, b);
      for i := 0 to |a.entries|
        invariant a.entries[..i] == b.entries[..i]
      {
        var e := a.entries[i].element;
        AtEntry(a, i);
        AtEntry(b, i);
        var same := DataIsEqual(At(a, e), At(b, e));
        if !same {
          return false;
        }
        assert a.entries[i] == b.entries[i];
        OneMoreEqual(a.entries, b.entries, i);
      }
      assert a.entries == b.entries;
    }
    return true;
  }

  lemma SameElementAt(a: Data, b: Data)
    requires a.Node? && b.Node? && Elements(a) == Elements(b)
    ensures |a.entries| == |b.entries|
    ensures forall i :: 0 <= i < |a.entries| ==> a.entries[i].element == b.entries[i].element
  {
    assert |Elements(a)| == |a.entries| && |Elements(b)| == |b.entries|;
    assert forall i | 0 <= i < |a.entries| :: a.entries[i].element == Elements(a)[i] == b.entries[i].element;
  }

  lemma OneMoreEqual(x: seq<Entry>, y: seq<Entry>, i: nat)
    requires i < |x| && i < |y| && x[..i] == y[..i] && x[i] == y[i]
    ensures x[..i + 1] == y[..i + 1]
  {
    assert x[..i + 1] == x[..i] + [x[i]] && y[..i + 1] == y[..i] + [y[i]];
  }

  // ----- differences

  datatype Kind = ADDED | REMOVED | CHANGED
  datatype Event = Event(path: Path, kind: Kind, previous: Option<Content>, current: Option<Content>)

  function Noted(path: Path, x: Option<Content>, y: Option<Content>): Option<Event> {
    if x.Some? && y.Some? then (if x != y then Some(Event(path, CHANGED, x, y)) else None)
    else if x.Some? then Some(Event(path, REMOVED, x, None))
    else if y.Some? then Some(Event(path, ADDED, None, y))
    else None
  }

  // The two contents that the comparison of two trees looks at for a path.
  function Seen(a: Data, b: Data, q: Path): (Option<Content>, Option<Content>)
    decreases |q|
  {
    if q == [] then (ContentAt(a, []), ContentAt(b, []))
    else if Has(a, q[0]) && Has(b, q[0]) then Seen(At(a, q[0]), At(b, q[0]), q[1..])
    else if Has(a, q[0]) then (Visited(At(a, q[0]), q[1..]), None)
    else if Has(b, q[0]) then (None, Visited(At(b, q[0]), q[1..]))
    else (None, None)
  }

  // The event due for a path, for a comparison of the trees at base.
  function Due(base: Path, a: Data, b: Data, p: Path): Option<Event> {
    if base <= p then Noted(p, Seen(a, b, p[|base|..]).0, Seen(a, b, p[|base|..]).1) else None
  }

  // The part of it for the base itself and for some of its elements.
  function DueWithin(base: Path, a: Data, b: Data, done: set<Element>, p: Path): Option<Event> {
    if base <= p && (|p| == |base| || p[|base|] in done) then Due(base, a, b, p) else None
  }

  // A log holds what is due, each event once, in any order.
  ghost predicate LogOf(events: seq<Event>, due: Path -> Option<Event>) {
    && (forall k :: 0 <= k < |events| ==> due(events[k].path) == Some(events[k]))
    && (forall p :: due(p).Some? ==> due(p).value.path == p && due(p).value in events)
    && (forall j, k :: 0 <= j < k < |events| ==> events[j].path != events[k].path)
  }

  ghost predicate Records(base: Path, a: Data, b: Data, events: seq<Event>) {
    LogOf(events, p => Due(base, a, b, p))
  }

  ghost predicate RecordsWithin(base: Path, a: Data, b: Data, done: set<Element>, events: seq<Event>) {
    LogOf(events, p => DueWithin(base, a, b, done, p))
  }

  lemma JoinLogs(x: seq<Event>, y: seq<Event>, f: Path -> Option<Event>, g: Path -> Option<Event>,
                 h: Path -> Option<Event>)
    requires LogOf(x, f) && LogOf(y, g)
    requires forall p :: f(p).None? || g(p).None?
    requires forall p :: h(p) == if f(p).Some? then f(p) else g(p)
    ensures LogOf(x + y, h)
  {
    var all := x + y;
    forall p | h(p).Some?
      ensures h(p).value.path == p && h(p).value in all
    {
      if f(p).Some? {
        assert f(p).value in x;
      } else {
        assert g(p).value in y;
      }
    }
    forall j, k | 0 <= j < |x| && 0 <= k < |y|
      ensures x[j].path != y[k].path
    {
      assert f(x[j].path).Some? && g(y[k].path).Some?;
    }
  }

  // Events of one more element, present in both trees.
  lemma RecordsBoth(base: Path, a: Data, b: Data, done: set<Element>, e: Element, events: seq<Event>, more: seq<Event>)
    requires e !in done && Has(a, e) && Has(b, e)
    requires RecordsWithin(base, a, b, done, events)
    requires Records(base + [e], At(a, e), At(b, e), more)
    ensures RecordsWithin(base, a, b, done + {e}, events + more)
  {
    var f, g := p => DueWithin(base, a, b, done, p), p => Due(base + [e], At(a, e), At(b, e), p);
    forall p: Path
      ensures f(p).None? || g(p).None?
      ensures DueWithin(base, a, b, done + {e}, p) == if f(p).Some? then f(p) else g(p)
    {
      if base + [e] <= p {
        BelowElement(base, e, p);
      } else if base <= p && |p| > |base| && p[|base|] == e {
        BelowElement(base, e, p);
        assert false;
      }
    }
    JoinLogs(events, more, f, g, p => DueWithin(base, a, b, done + {e}, p));
  }

  lemma BelowElement(base: Path, e: Element, p: Path)
    ensures base + [e] <= p <==> base <= p && |p| > |base| && p[|base|] == e
    ensures base + [e] <= p ==> p[|base|..][0] == e && p[|base|..][1..] == p[|base + [e]|..]
  {
    if base <= p && |p| > |base| && p[|base|] == e {
      assert p[..|base| + 1] == base + [e];
    }
    if base + [e] <= p {
      assert p[|base|] == (base + [e])[|base|];
      assert p[..|base|] == (base + [e])[..|base|] == base;
    }
  }

  // Whose content the events of a one-sided element carry.
  function OneSided(removed: bool, path: Path, content: Option<Content>): Option<Event> {
    if removed then Noted(path, content, None) else Noted(path, None, content)
  }

  function OneSideDue(d: Data, eBase: Path, removed: bool, p: Path): Option<Event> {
    if eBase <= p then OneSided(removed, p, Visited(d, p[|eBase|..])) else None
  }

  lemma RecordsOneSide(base: Path, a: Data, b: Data, done: set<Element>, e: Element, removed: bool,
                       events: seq<Event>, more: seq<Event>)
    requires e !in done && Has(a, e) == removed && Has(b, e) == !removed
    requires RecordsWithin(base, a, b, done, events)
    requires var d := if removed then At(a, e) else At(b, e);
             LogOf(more, p => OneSideDue(d, base + [e], removed, p))
    ensures RecordsWithin(base, a, b, done + {e}, events + more)
  {
    var d := if removed then At(a, e) else At(b, e);
    var f, g := p => DueWithin(base, a, b, done, p),
                p => OneSideDue(d, base + [e], removed, p);
    forall p: Path
      ensures f(p).None? || g(p).None?
      ensures DueWithin(base, a, b, done + {e}, p) == if f(p).Some? then f(p) else g(p)
    {
      BelowElement(base, e, p);
    }
    JoinLogs(events, more, f, g, p => DueWithin(base, a, b, done + {e}, p));
  }

  // All visits of a tree as events of one kind.
  function Reported(visits: seq<Visit>, eBase: Path, removed: bool): (events: seq<Event>)
    ensures |events| == |visits|
  {
    seq(|visits|, k requires 0 <= k < |visits| =>
      if removed then Event(eBase + visits[k].path, REMOVED, Some(visits[k].content), None)
      else Event(eBase + visits[k].path, ADDED, None, Some(visits[k].content)))
  }

  lemma ReportedIsDue(d: Data, eBase: Path, removed: bool)
    requires Valid(d)
    ensures LogOf(Reported(if d.Absent? then [] else Visits(d, []), eBase, removed),
                  p => OneSideDue(d, eBase, removed, p))
  {
    hide Visits, VisitedBelow;
    var visits := if d.Absent? then [] else Visits(d, []);
    VisitsExact(d, []);
    var events := Reported(visits, eBase, removed);
    forall k | 0 <= k < |events|
      ensures OneSideDue(d, eBase, removed, events[k].path) == Some(events[k])
      ensures eBase <= events[k].path && events[k].path[|eBase|..] == visits[k].path
    {
      assert visits[k].path[0..] == visits[k].path;
      assert (eBase + visits[k].path)[|eBase|..] == visits[k].path;
    }
    forall p | OneSideDue(d, eBase, removed, p).Some?
      ensures OneSideDue(d, eBase, removed, p).value.path == p && OneSideDue(d, eBase, removed, p).value in events
    {
      DueIsReported(d, eBase, removed, p);
    }
  }

  lemma DueIsReported(d: Data, eBase: Path, removed: bool, p: Path)
    requires !d.Absent? && ExactVisits(Visits(d, []), d, [])
    requires OneSideDue(d, eBase, removed, p).Some?
    ensures OneSideDue(d, eBase, removed, p).value in Reported(Visits(d, []), eBase, removed)
  {
    hide Visits, VisitedBelow;
    var visits := Visits(d, []);
    var q := p[|eBase|..];
    assert [] + q == q && eBase + q == p;
    assert Visit(q, VisitedBelow(d, q).value) in visits;
    var k :| 0 <= k < |visits| && visits[k] == Visit(q, VisitedBelow(d, q).value);
    assert Reported(visits, eBase, removed)[k] == OneSideDue(d, eBase, removed, p).value;
  }

  class EventLog {
    var events: seq<Event>

    constructor ()
      ensures events == []
    {
      events := [];
    }

    method Accept(path: Path, kind: Kind, previous: Option<Content>, current: Option<Content>)
      modifies this
      ensures events == old(events) + [Event(path, kind, previous, current)]
    {
      events := events + [Event(path, kind, previous, current)];
    }

    // An element that only one of the trees has.
    method AcceptAll(eBase: Path, d: Data, removed: bool)
      modifies this
      ensures events == old(events) + Reported(if d.Absent? then [] else Visits(d, []), eBase, removed)
    {
      hide Visits;
      ghost var before := events;
      var log := new VisitLog();
      log.ForEachContent(d);
      var visits := log.visits;
      for k := 0 to |visits|
        invariant events == before + Reported(visits, eBase, removed)[..k]
      {
        if removed {
          Accept(eBase + visits[k].path, REMOVED, Some(visits[k].content), None);
        } else {
          Accept(eBase + visits[k].path, ADDED, None, Some(visits[k].content));
        }
      }
    }

    method CompareContent(base: Path, a: Data, b: Data)
      modifies this
      ensures old(events) <= events && RecordsWithin(base, a, b, {}, events[|old(events)|..])
    {
      ghost var before := events;
      ghost var due := p => DueWithin(base, a, b, {}, p);
      assert forall p :: due(p).Some? ==> p == base;
      assert base[|base|..] == [];
      if a.Leaf? && b.Leaf? {
        if a.content != b.content {
          Accept(base, CHANGED, Some(a.content), Some(b.content));
        }
      } else if a.Leaf? {
        Accept(base, REMOVED, Some(a.content), None);
      } else if b.Leaf? {
        Accept(base, ADDED, None, Some(b.content));
      }
      ghost var more := events[|before|..];
      assert due(base).Some? ==> more == [due(base).value];
      assert due(base).None? ==> more == [];
    }

    // An element that both trees have.
    method DiffElement(base: Path, a: Data, b: Data, e: Element, ghost before: seq<Event>, ghost done: set<Element>)
      requires Valid(a) && Valid(b) && Has(a, e) && Has(b, e) && e !in done
      requires before <= events && RecordsWithin(base, a, b, done, events[|before|..])
      modifies this
      ensures before <= events && RecordsWithin(base, a, b, done + {e}, events[|before|..])
      decreases a, 0
    {
      hide RecordsWithin, Records;
      ghost var so := events;
      DiffContent(base + [e], At(a, e), At(b, e));
      RecordsBoth(base, a, b, done, e, so[|before|..], events[|so|..]);
      assert events[|before|..] == so[|before|..] + events[|so|..];
    }

    // The elements are taken in whatever order the hash sets have them.
    method DiffContent(base: Path, a: Data, b: Data)
      requires Valid(a) && Valid(b)
      modifies this
      ensures old(events) <= events && Records(base, a, b, events[|old(events)|..])
      decreases a, 1
    {
      hide RecordsWithin, Records, Has;
      ghost var before := events;
      CompareContent(base, a, b);
      ghost var done: set<Element> := {};
      var aElements := set e | e in Elements(a);
      var bElements := set e | e in Elements(b);
      forall e ensures (e in aElements <==> Has(a, e)) && (e in bElements <==> Has(b, e)) {
        HasIsElement(a, e);
        HasIsElement(b, e);
      }
      var both := aElements * bElements;
      while both != {}
        invariant both <= aElements * bElements && both !! done && aElements * bElements == both + done
        invariant before <= events && RecordsWithin(base, a, b, done, events[|before|..])
      {
        var e :| e in both;
        DiffElement(base, a, b, e, before, done);
        both, done := both - {e}, done + {e};
      }
      DiffOneSide(base, a, b, aElements - bElements, true, before, done);
      done := done + (aElements - bElements);
      DiffOneSide(base, a, b, bElements - aElements, false, before, done);
      done := done + (bElements - aElements);
      AllDone(base, a, b, done, events[|before|..]);
    }

    method AcceptElement(base: Path, a: Data, b: Data, e: Element, removed: bool, ghost before: seq<Event>,
                         ghost done: set<Element>)
      requires Valid(a) && Valid(b) && e !in done && Has(a, e) == removed && Has(b, e) == !removed
      requires before <= events && RecordsWithin(base, a, b, done, events[|before|..])
      modifies this
      ensures before <= events && RecordsWithin(base, a, b, done + {e}, events[|before|..])
    {
      hide RecordsWithin, Reported, LogOf;
      ghost var so := events;
      var d := At(if removed then a else b, e);
      AcceptAll(base + [e], d, removed);
      ReportedIsDue(d, base + [e], removed);
      RecordsOneSide(base, a, b, done, e, removed, so[|before|..], events[|so|..]);
      assert events[|before|..] == so[|before|..] + events[|so|..];
    }

    method DiffOneSide(base: Path, a: Data, b: Data, only: set<Element>, removed: bool, ghost before: seq<Event>,
                       ghost done0: set<Element>)
      requires Valid(a) && Valid(b) && only !! done0
      requires forall e | e in only :: Has(a, e) == removed && Has(b, e) == !removed
      requires before <= events && RecordsWithin(base, a, b, done0, events[|before|..])
      modifies this
      ensures before <= events && RecordsWithin(base, a, b, done0 + only, events[|before|..])
    {
      hide RecordsWithin;
      var left := only;
      ghost var done := done0;
      while left != {}
        invariant left <= only && left !! done && done0 + only == left + done
        invariant before <= events && RecordsWithin(base, a, b, done, events[|before|..])
      {
        var e :| e in left;
        AcceptElement(base, a, b, e, removed, before, done);
        left, done := left - {e}, done + {e};
      }
      assert done == done0 + only;
    }
  }

  lemma AllDone(base: Path, a: Data, b: Data, done: set<Element>, events: seq<Event>)
    requires forall e :: Has(a, e) || Has(b, e) ==> e in done
    requires RecordsWithin(base, a, b, done, events)
    ensures Records(base, a, b, events)
  {
    forall p: Path
      ensures DueWithin(base, a, b, done, p) == Due(base, a, b, p)
    {
      if base <= p && |p| > |base| {
        assert p[|base|..][0] == p[|base|];
      }
    }
    var f, g := p => DueWithin(base, a, b, done, p), p => Due(base, a, b, p);
    assert forall p :: f(p) == g(p);
  }
}
