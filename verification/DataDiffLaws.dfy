/** What the recorded differences of two data trees mean. */
module DataDiffLaws {
  import opened Wrappers
  import opened DataTrees
  import opened DataDiff

  // ----- differences and equality

  lemma {:induction false} SeenOfSame(a: Data, q: Path)
    ensures Seen(a, a, q).0 == Seen(a, a, q).1
    decreases |q|
  {
    if q != [] && Has(a, q[0]) {
      SeenOfSame(At(a, q[0]), q[1..]);
    }
  }

  // Trees found equal have no differences.
  lemma EqualHasNoEvents(base: Path, a: Data, events: seq<Event>)
    requires Records(base, a, a, events)
    ensures events == []
  {
    if events != [] {
      var p := events[0].path;
      var due := p => Due(base, a, a, p);
      assert due(p) == Some(events[0]);
      SeenOfSame(a, p[|base|..]);
    }
  }

  // The converse fails: the order of the elements tells trees apart, but makes no difference.
  lemma OrderIsNoDifference()
    ensures
      var x, y := Entry(Name("x"), Leaf(Integer(1))), Entry(Name("y"), Leaf(Integer(2)));
      var a, b := Node([x, y]), Node([y, x]);
      Valid(a) && Valid(b) && a != b && Records([], a, b, [])
  {
    var x, y := Entry(Name("x"), Leaf(Integer(1))), Entry(Name("y"), Leaf(Integer(2)));
    var a, b := Node([x, y]), Node([y, x]);
    assert [x, y][0] == x && [y, x][0] == y;
    assert a.entries[1..] == [y] && b.entries[1..] == [x];
    forall p: Path
      ensures Due([], a, b, p) == None
    {
      assert p[0..] == p;
      if p != [] {
        assert Name("x") != Name("y");
        assert Has(a, p[0]) <==> p[0] == Name("x") || p[0] == Name("y");
        assert Has(b, p[0]) <==> p[0] == Name("x") || p[0] == Name("y");
        assert At(a, p[0]) == At(b, p[0]);
        SeenOfSame(At(a, p[0]), p[1..]);
      }
    }
  }

  // ----- no differences

  // Nothing to visit below: nodes all the way down, without content or holes.
  ghost predicate Silent(d: Data) {
    d.Node? && forall i :: 0 <= i < |d.entries| ==> Silent(d.entries[i].data)
  }

  // The same content at every common element, and nothing to visit in the elements that only one tree has.
  ghost predicate Alike(a: Data, b: Data)
    decreases a
  {
    && (if a.Leaf? || b.Leaf? then a == b else true)
    && (forall e :: Has(a, e) && Has(b, e) ==> Alike(At(a, e), At(b, e)))
    && (forall e :: Has(a, e) && !Has(b, e) ==> At(a, e).Absent? || Silent(At(a, e)))
    && (forall e :: Has(b, e) && !Has(a, e) ==> At(b, e).Absent? || Silent(At(b, e)))
  }

  lemma {:induction false} SilentIsNotVisited(d: Data, q: Path)
    requires Silent(d)
    ensures VisitedBelow(d, q) == None
    decreases |q|
  {
    if q == [] {
    } else if Has(d, q[0]) {
      SilentIsNotVisited(At(d, q[0]), q[1..]);
    }
  }

  lemma {:induction false} SoundIsVisited(d: Data) returns (q: Path)
    requires Valid(d) && !Silent(d)
    ensures VisitedBelow(d, q).Some?
    decreases d
  {
    if !d.Node? {
      q := [];
    } else {
      var i :| 0 <= i < |d.entries| && !Silent(d.entries[i].data);
      AtEntry(d, i);
      var r := SoundIsVisited(d.entries[i].data);
      q := [d.entries[i].element] + r;
      assert q[1..] == r;
    }
  }

  lemma {:induction false} AlikeIsSeen(a: Data, b: Data, q: Path)
    requires Alike(a, b)
    ensures Seen(a, b, q).0 == Seen(a, b, q).1
    decreases |q|
  {
    if q == [] {
    } else {
      var e, r := q[0], q[1..];
      if Has(a, e) && Has(b, e) {
        AlikeIsSeen(At(a, e), At(b, e), r);
      } else if Has(a, e) && !At(a, e).Absent? {
        SilentIsNotVisited(At(a, e), r);
      } else if Has(b, e) && !At(b, e).Absent? {
        SilentIsNotVisited(At(b, e), r);
      }
    }
  }

  // A path at which trees that are not alike differ, for an element of one tree only.
  lemma SoundOnOneSide(a: Data, b: Data, e: Element) returns (q: Path)
    requires Valid(a) && Has(a, e) && !Has(b, e) && !At(a, e).Absent? && !Silent(At(a, e))
    ensures Seen(a, b, q).0 != Seen(a, b, q).1 && Seen(b, a, q).0 != Seen(b, a, q).1
  {
    AtEntry(a, Place(a.entries, e));
    var r := SoundIsVisited(At(a, e));
    q := [e] + r;
    assert q[0] == e && q[1..] == r;
  }

  lemma {:induction false} UnlikeIsSeen(a: Data, b: Data) returns (q: Path)
    requires Valid(a) && Valid(b) && !Alike(a, b)
    ensures Seen(a, b, q).0 != Seen(a, b, q).1
    decreases a
  {
    hide Silent, Visited;
    if (a.Leaf? || b.Leaf?) && a != b {
      q := [];
    } else if e :| Has(a, e) && !Has(b, e) && !At(a, e).Absent? && !Silent(At(a, e)) {
      q := SoundOnOneSide(a, b, e);
    } else if e :| Has(b, e) && !Has(a, e) && !At(b, e).Absent? && !Silent(At(b, e)) {
      q := SoundOnOneSide(b, a, e);
    } else {
      var e :| Has(a, e) && Has(b, e) && !Alike(At(a, e), At(b, e));
      AtEntry(a, Place(a.entries, e));
      AtEntry(b, Place(b.entries, e));
      var r := UnlikeIsSeen(At(a, e), At(b, e));
      q := [e] + r;
      assert q[0] == e && q[1..] == r;
    }
  }

  // Two trees have no differences exactly when they are alike.
  lemma NoEventsExactly(a: Data, b: Data)
    requires Valid(a) && Valid(b)
    ensures Records([], a, b, []) <==> Alike(a, b)
  {
    hide Alike, Seen;
    assert forall p: Path :: p[0..] == p;
    if Alike(a, b) {
      forall p
        ensures Due([], a, b, p) == None
      {
        AlikeIsSeen(a, b, p);
      }
    } else {
      var q := UnlikeIsSeen(a, b);
      var due := p => Due([], a, b, p);
      assert due(q).Some?;
    }
  }

  // The same elements in the same order everywhere, and the same data absent.
  ghost predicate SameElements(a: Data, b: Data)
    decreases a
  {
    && a.Absent? == b.Absent? && Elements(a) == Elements(b)
    && forall e :: Has(a, e) ==> SameElements(At(a, e), At(b, e))
  }

  lemma {:induction false} SameElementsOfSame(a: Data)
    ensures SameElements(a, a)
  {
    forall e | Has(a, e)
      ensures SameElements(At(a, e), At(a, e))
    {
      SameElementsOfSame(At(a, e));
    }
  }

  lemma {:induction false} AlikeAndOrdered(a: Data, b: Data)
    requires Valid(a) && Valid(b) && Alike(a, b) && SameElements(a, b)
    ensures a == b
    decreases a
  {
    if a.Node? {
      assert |Elements(a)| == |a.entries|;
      OnlyNodesHaveElements(a, b);
      forall i | 0 <= i < |a.entries|
        ensures a.entries[i] == b.entries[i]
      {
        var e := a.entries[i].element;
        assert Elements(a)[i] == e && Elements(b)[i] == b.entries[i].element;
        AtEntry(a, i);
        AtEntry(b, i);
        AlikeAndOrdered(At(a, e), At(b, e));
      }
      assert a.entries == b.entries;
    }
  }

  lemma OnlyNodesHaveElements(a: Data, b: Data)
    requires a.Node? && Alike(a, b) && SameElements(a, b)
    ensures b.Node? && |b.entries| == |a.entries|
  {
  }

  // Trees without differences are equal exactly when they also have the same elements in the same order.
  lemma NoEventsAndEqual(a: Data, b: Data)
    requires Valid(a) && Valid(b)
    ensures a == b <==> Records([], a, b, []) && SameElements(a, b)
  {
    hide Alike, SameElements;
    NoEventsExactly(a, b);
    if a == b {
      SameElementsOfSame(a);
      forall q
        ensures Seen(a, a, q).0 == Seen(a, a, q).1
      {
        SeenOfSame(a, q);
      }
      if !Alike(a, a) {
        var q := UnlikeIsSeen(a, a);
        assert false;
      }
    } else if Alike(a, b) && SameElements(a, b) {
      AlikeAndOrdered(a, b);
    }
  }

  // ----- differences and content

  // No such null inside an element that only one of the trees has.
  ghost predicate NoOneSidedHoles(a: Data, b: Data)
    decreases a
  {
    && (forall e :: Has(a, e) && !Has(b, e) ==> NoHoles(At(a, e)))
    && (forall e :: Has(b, e) && !Has(a, e) ==> NoHoles(At(b, e)))
    && (forall e :: Has(a, e) && Has(b, e) ==> NoOneSidedHoles(At(a, e), At(b, e)))
  }

  // A difference is noted between what the two trees have at a path.
  ghost predicate ByContent(a: Data, b: Data, q: Path) {
    Noted(q, Seen(a, b, q).0, Seen(a, b, q).1) == Noted(q, ContentAt(a, q), ContentAt(b, q))
  }

  lemma {:induction false} AbsentHasNoContent(q: Path)
    ensures ContentAt(Absent, q) == None
    decreases |q|
  {
    if q == [] {
    } else {
      AbsentHasNoContent(q[1..]);
    }
  }

  lemma {:induction false} ContentBelow(d: Data, q: Path)
    requires !(d.Node? && q != [] && Has(d, q[0])) && q != []
    ensures ContentAt(d, q) == None
  {
    AbsentHasNoContent(q[1..]);
  }

  lemma {:induction false} VisitsContent(d: Data, q: Path)
    requires NoHoles(d)
    ensures Visited(d, q) == ContentAt(d, q)
    decreases |q|
  {
    if d.Absent? {
      AbsentHasNoContent(q);
    } else if q != [] {
      if Has(d, q[0]) {
        VisitsContent(At(d, q[0]), q[1..]);
      } else {
        ContentBelow(d, q);
      }
    }
  }

  // A hole that is visited as null content although no content is there.
  lemma {:induction false} HoleIsVisited(d: Data) returns (q: Path)
    requires Valid(d) && !NoHoles(d)
    ensures Visited(d, q) == Some(NullContent) && ContentAt(d, q) == None
    decreases d
  {
    var i :| 0 <= i < |d.entries| && !(d.entries[i].data != Absent && NoHoles(d.entries[i].data));
    var e := d.entries[i].element;
    AtEntry(d, i);
    var r: Path := [];
    if d.entries[i].data != Absent {
      r := HoleIsVisited(d.entries[i].data);
    }
    q := [e] + r;
    assert q[0] == e && q[1..] == r && Has(d, e) && At(d, e) == d.entries[i].data;
    assert VisitedBelow(At(d, e), r) == Some(NullContent) && ContentAt(At(d, e), r) == None;
  }

  lemma {:induction false} DifferencesOfContent(a: Data, b: Data, q: Path)
    requires NoOneSidedHoles(a, b)
    ensures ByContent(a, b, q)
    decreases |q|
  {
    if q == [] {
    } else {
      var e, r := q[0], q[1..];
      if !Has(a, e) {
        ContentBelow(a, q);
      }
      if !Has(b, e) {
        ContentBelow(b, q);
      }
      if Has(a, e) && Has(b, e) {
        DifferencesOfContent(At(a, e), At(b, e), r);
      } else if Has(a, e) {
        VisitsContent(At(a, e), r);
      } else if Has(b, e) {
        VisitsContent(At(b, e), r);
      }
    }
  }

  lemma HoleOnOneSide(a: Data, b: Data, e: Element) returns (q: Path)
    requires Valid(a) && Valid(b) && Has(a, e) && !Has(b, e) && !NoHoles(At(a, e))
    ensures !ByContent(a, b, q) && !ByContent(b, a, q)
  {
    AtEntry(a, Place(a.entries, e));
    var r := HoleIsVisited(At(a, e));
    q := [e] + r;
    assert q[0] == e && q[1..] == r;
    ContentBelow(b, q);
  }

  lemma {:induction false} HoleMakesDifference(a: Data, b: Data) returns (q: Path)
    requires Valid(a) && Valid(b) && !NoOneSidedHoles(a, b)
    ensures !ByContent(a, b, q)
    decreases a
  {
    hide Visited, NoHoles, Noted;
    if e :| Has(a, e) && !Has(b, e) && !NoHoles(At(a, e)) {
      q := HoleOnOneSide(a, b, e);
    } else if e :| Has(b, e) && !Has(a, e) && !NoHoles(At(b, e)) {
      q := HoleOnOneSide(b, a, e);
    } else {
      var e :| Has(a, e) && Has(b, e) && !NoOneSidedHoles(At(a, e), At(b, e));
      AtEntry(a, Place(a.entries, e));
      AtEntry(b, Place(b.entries, e));
      var r := HoleMakesDifference(At(a, e), At(b, e));
      q := [e] + r;
      assert q[0] == e && q[1..] == r;
      NotedElsewhere(q, r, Seen(a, b, q), (ContentAt(a, q), ContentAt(b, q)));
    }
  }

  // Whether something is noted does not depend on the path.
  lemma NotedElsewhere(q: Path, r: Path, x: (Option<Content>, Option<Content>), y: (Option<Content>, Option<Content>))
    ensures Noted(q, x.0, x.1) == Noted(q, y.0, y.1) <==> Noted(r, x.0, x.1) == Noted(r, y.0, y.1)
  {
  }

  // The differences are those of the content, path by path, exactly when no one-sided element has a hole in it.
  lemma DifferencesAreOfContent(a: Data, b: Data)
    requires Valid(a) && Valid(b)
    ensures NoOneSidedHoles(a, b) <==> forall q :: ByContent(a, b, q)
  {
    if NoOneSidedHoles(a, b) {
      forall q
        ensures ByContent(a, b, q)
      {
        DifferencesOfContent(a, b, q);
      }
    } else {
      var q := HoleMakesDifference(a, b);
    }
  }

  // ----- the content of a tree as a map

  function Under(e: Element, m: map<Path, Content>): (r: map<Path, Content>)
    ensures forall p :: p in r <==> p != [] && p[0] == e && p[1..] in m
    ensures forall p :: p in r ==> r[p] == m[p[1..]]
  {
    var keys := set p | p in m :: [e] + p;
    assert forall p: Path | p != [] && p[0] == e :: [e] + p[1..] == p;
    assert forall p: Path :: ([e] + p)[1..] == p;
    map p | p in keys :: m[p[1..]]
  }

  function Contents(d: Data): map<Path, Content>
    decreases d, 1
  {
    match d
    case Absent => map[]
    case Leaf(content) => map[[] := content]
    case Node(entries) => ContentsFrom(d, 0)
  }

  function ContentsFrom(d: Data, i: nat): map<Path, Content>
    requires d.Node? && i <= |d.entries|
    decreases d, 0, |d.entries| - i
  {
    if i == |d.entries| then map[]
    else ContentsFrom(d, i + 1) + Under(d.entries[i].element, Contents(d.entries[i].data))
  }

  function Lookup(m: map<Path, Content>, p: Path): Option<Content> {
    if p in m then Some(m[p]) else None
  }

  lemma {:induction false} ContentsAt(d: Data, p: Path)
    requires Valid(d)
    ensures Lookup(Contents(d), p) == ContentAt(d, p)
    decreases d, 1
  {
    if p != [] && !Has(d, p[0]) {
      ContentBelow(d, p);
    }
    if d.Node? {
      ContentsFromAt(d, 0, p);
    }
  }

  lemma {:induction false} ContentsFromAt(d: Data, i: nat, p: Path)
    requires Valid(d) && d.Node? && i <= |d.entries|
    ensures Lookup(ContentsFrom(d, i), p) == if StartsFrom(d, p, i) then ContentAt(d, p) else None
    decreases d, 0, |d.entries| - i
  {
    hide Contents, Valid, ContentAt;
    if i < |d.entries| {
      AtEntry(d, i);
      ContentsFromAt(d, i + 1, p);
      PlaceOfEntry(d, i);
      var here := Under(d.entries[i].element, Contents(d.entries[i].data));
      if p != [] && p[0] == d.entries[i].element {
        ContentsAt(d.entries[i].data, p[1..]);
        ContentStep(d, p);
        assert Lookup(here, p) == ContentAt(d, p);
        assert StartsFrom(d, p, i) && !StartsFrom(d, p, i + 1);
      } else {
        assert p !in here;
        assert StartsFrom(d, p, i) <==> StartsFrom(d, p, i + 1);
      }
      assert Lookup(ContentsFrom(d, i), p) == if p in here then Lookup(here, p) else Lookup(ContentsFrom(d, i + 1), p);
    }
  }

  lemma PlaceOfEntry(d: Data, i: nat)
    requires Valid(d) && d.Node? && i < |d.entries|
    ensures Place(d.entries, d.entries[i].element) == i
  {
  }

  lemma ContentStep(d: Data, p: Path)
    requires p != []
    ensures ContentAt(d, p) == ContentAt(At(d, p[0]), p[1..])
  {
  }

  // ----- applying differences

  function Applied(m: map<Path, Content>, event: Event): map<Path, Content> {
    if event.current.Some? then m[event.path := event.current.value] else m - {event.path}
  }

  function ApplyAll(m: map<Path, Content>, events: seq<Event>): map<Path, Content>
    decreases |events|
  {
    if events == [] then m else ApplyAll(Applied(m, events[0]), events[1..])
  }

  lemma {:induction false} AppliedAt(m: map<Path, Content>, events: seq<Event>, p: Path)
    requires forall j, k :: 0 <= j < k < |events| ==> events[j].path != events[k].path
    ensures (forall k :: 0 <= k < |events| ==> events[k].path != p) ==> Lookup(ApplyAll(m, events), p) == Lookup(m, p)
    ensures forall k :: 0 <= k < |events| && events[k].path == p ==> Lookup(ApplyAll(m, events), p) == events[k].current
    decreases |events|
  {
    if events == [] {
    } else {
      var rest := events[1..];
      AppliedAt(Applied(m, events[0]), rest, p);
      assert forall k | 0 < k < |events| :: events[k] == rest[k - 1];
    }
  }

  // No null inside an element that only the second tree has.
  ghost predicate NoAddedHoles(a: Data, b: Data)
    decreases a
  {
    && (forall e :: Has(b, e) && !Has(a, e) ==> NoHoles(At(b, e)))
    && (forall e :: Has(a, e) && Has(b, e) ==> NoAddedHoles(At(a, e), At(b, e)))
  }

  // What applying the differences leaves at a path.
  function Outcome(a: Data, b: Data, q: Path): Option<Content> {
    var noted := Noted(q, Seen(a, b, q).0, Seen(a, b, q).1);
    if noted.Some? then noted.value.current else ContentAt(a, q)
  }

  lemma {:induction false} ContentIsVisited(d: Data, q: Path)
    ensures ContentAt(d, q).Some? ==> Visited(d, q).Some?
    decreases |q|
  {
    if q == [] {
    } else {
      if Has(d, q[0]) {
        ContentIsVisited(At(d, q[0]), q[1..]);
      } else {
        ContentBelow(d, q);
      }
    }
  }

  lemma {:induction false} OutcomeIsOther(a: Data, b: Data, q: Path)
    requires NoAddedHoles(a, b)
    ensures Outcome(a, b, q) == ContentAt(b, q)
    decreases |q|
  {
    if q == [] {
    } else {
      var e, r := q[0], q[1..];
      if !Has(a, e) {
        ContentBelow(a, q);
      }
      if !Has(b, e) {
        ContentBelow(b, q);
      }
      if Has(a, e) && Has(b, e) {
        OutcomeIsOther(At(a, e), At(b, e), r);
      } else if Has(a, e) {
        ContentIsVisited(At(a, e), r);
      } else if Has(b, e) {
        VisitsContent(At(b, e), r);
      }
    }
  }

  lemma AddedHole(a: Data, b: Data, e: Element) returns (q: Path)
    requires Valid(b) && Has(b, e) && !Has(a, e) && !NoHoles(At(b, e))
    ensures Outcome(a, b, q) != ContentAt(b, q)
  {
    AtEntry(b, Place(b.entries, e));
    var r := HoleIsVisited(At(b, e));
    q := [e] + r;
    assert q[0] == e && q[1..] == r;
  }

  lemma OutcomeBelow(a: Data, b: Data, e: Element, r: Path)
    requires Has(a, e) && Has(b, e)
    ensures Outcome(a, b, [e] + r) == Outcome(At(a, e), At(b, e), r) && ContentAt(b, [e] + r) == ContentAt(At(b, e), r)
  {
    assert ([e] + r)[1..] == r;
  }

  lemma {:induction false} AddedHoleShows(a: Data, b: Data) returns (q: Path)
    requires Valid(a) && Valid(b) && !NoAddedHoles(a, b)
    ensures Outcome(a, b, q) != ContentAt(b, q)
    decreases a
  {
    hide Outcome, NoHoles;
    if e :| Has(b, e) && !Has(a, e) && !NoHoles(At(b, e)) {
      q := AddedHole(a, b, e);
    } else {
      var e :| Has(a, e) && Has(b, e) && !NoAddedHoles(At(a, e), At(b, e));
      AtEntry(a, Place(a.entries, e));
      AtEntry(b, Place(b.entries, e));
      var r := AddedHoleShows(At(a, e), At(b, e));
      q := [e] + r;
      OutcomeBelow(a, b, e, r);
    }
  }

  lemma AppliedAtPath(a: Data, b: Data, events: seq<Event>, p: Path)
    requires Valid(a) && Records([], a, b, events)
    ensures Lookup(ApplyAll(Contents(a), events), p) == Outcome(a, b, p)
  {
    hide Contents, ApplyAll, Valid, Seen, ContentAt;
    ContentsAt(a, p);
    AppliedAt(Contents(a), events, p);
    var due := p => Due([], a, b, p);
    assert p[0..] == p;
    if due(p).Some? {
      var k :| 0 <= k < |events| && events[k] == due(p).value;
    } else {
      assert forall k | 0 <= k < |events| :: due(events[k].path).Some?;
    }
  }

  // Applying the differences turns the content of one tree into that of the other,
  // exactly when no element that only the other has contains a hole.
  lemma AppliedGivesOther(a: Data, b: Data, events: seq<Event>)
    requires Valid(a) && Valid(b)
    requires Records([], a, b, events)
    ensures ApplyAll(Contents(a), events) == Contents(b) <==> NoAddedHoles(a, b)
  {
    hide *;
    var result := ApplyAll(Contents(a), events);
    forall p: Path
      ensures Lookup(result, p) == Outcome(a, b, p) && Lookup(Contents(b), p) == ContentAt(b, p)
    {
      AppliedAtPath(a, b, events, p);
      ContentsAt(b, p);
    }
    if NoAddedHoles(a, b) {
      forall p: Path
        ensures Lookup(result, p) == Lookup(Contents(b), p)
      {
        OutcomeIsOther(a, b, p);
      }
      SameLookups(result, Contents(b));
    } else {
      var q := AddedHoleShows(a, b);
    }
  }

  lemma SameLookups(x: map<Path, Content>, y: map<Path, Content>)
    requires forall p :: Lookup(x, p) == Lookup(y, p)
    ensures x == y
  {
    forall p: Path
      ensures (p in x <==> p in y) && (p in x ==> x[p] == y[p])
    {
      assert Lookup(x, p) == Lookup(y, p);
    }
  }

  // ----- the mirror image

  function Mirror(event: Event): Event {
    match event.kind
    case ADDED => Event(event.path, REMOVED, event.current, None)
    case REMOVED => Event(event.path, ADDED, None, event.previous)
    case CHANGED => Event(event.path, CHANGED, event.current, event.previous)
  }

  function MirrorAll(events: seq<Event>): (r: seq<Event>)
    ensures |r| == |events|
  {
    seq(|events|, k requires 0 <= k < |events| => Mirror(events[k]))
  }

  lemma {:induction false} SeenMirrored(a: Data, b: Data, q: Path)
    ensures Seen(b, a, q) == (Seen(a, b, q).1, Seen(a, b, q).0)
    decreases |q|
  {
    if q != [] && Has(a, q[0]) && Has(b, q[0]) {
      SeenMirrored(At(a, q[0]), At(b, q[0]), q[1..]);
    }
  }

  // Comparing the other way round gives the mirror image.
  lemma MirroredRecords(base: Path, a: Data, b: Data, events: seq<Event>)
    requires Records(base, a, b, events)
    ensures Records(base, b, a, MirrorAll(events))
  {
    forall p: Path
      ensures Due(base, b, a, p) == Mirrored(Due(base, a, b, p))
    {
      if base <= p {
        SeenMirrored(a, b, p[|base|..]);
      }
    }
    MirroredLog(events, p => Due(base, a, b, p), p => Due(base, b, a, p));
  }

  function Mirrored(event: Option<Event>): Option<Event> {
    if event.Some? then Some(Mirror(event.value)) else None
  }

  lemma MirroredLog(events: seq<Event>, due: Path -> Option<Event>, other: Path -> Option<Event>)
    requires LogOf(events, due) && forall p :: other(p) == Mirrored(due(p))
    ensures LogOf(MirrorAll(events), other)
  {
    var mirrored := MirrorAll(events);
    forall k | 0 <= k < |mirrored|
      ensures other(mirrored[k].path) == Some(mirrored[k]) && mirrored[k].path == events[k].path
    {
      assert due(events[k].path) == Some(events[k]);
    }
    forall p | other(p).Some?
      ensures other(p).value.path == p && other(p).value in mirrored
    {
      var k :| 0 <= k < |events| && events[k] == due(p).value;
      assert mirrored[k] == other(p).value;
    }
  }
}
