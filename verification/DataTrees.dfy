/** The data trees that flows pass along, and the content that can be reached in them. */
module DataTrees {
  import opened Wrappers

  datatype Element = Name(name: string) | Index(index: nat)
  type Path = seq<Element>

  type Int = i: int | -0x8000_0000 <= i <= 0x7fff_ffff

  datatype Content = NullContent | Utf8(text: string) | Integer(number: Int) | Boolean(flag: bool)

  // Absent is the null of the program: no data at all, or a hole in a list or map. A node lists its
  // elements in iteration order, names for a map and indexes from 0 for a list.
  datatype Data = Absent | Leaf(content: Content) | Node(entries: seq<Entry>)
  datatype Entry = Entry(element: Element, data: Data)

  ghost predicate Valid(d: Data) {
    d.Node? ==>
      && (forall i, j :: 0 <= i < j < |d.entries| ==> d.entries[i].element != d.entries[j].element)
      && (forall i :: 0 <= i < |d.entries| ==> Valid(d.entries[i].data))
  }

  function Elements(d: Data): (es: seq<Element>)
    ensures d.Node? ==> |es| == |d.entries| && forall i :: 0 <= i < |es| ==> es[i] == d.entries[i].element
    ensures !d.Node? ==> es == []
  {
    if d.Node? then seq(|d.entries|, i requires 0 <= i < |d.entries| => d.entries[i].element) else []
  }

  // Where an element stands among the entries.
  function Place(entries: seq<Entry>, e: Element): (i: nat)
    ensures i <= |entries| && forall k :: 0 <= k < i ==> entries[k].element != e
    ensures i < |entries| ==> entries[i].element == e
  {
    if entries == [] || entries[0].element == e then 0 else Place(entries[1..], e) + 1
  }

  predicate Has(d: Data, e: Element) {
    d.Node? && Place(d.entries, e) < |d.entries|
  }

  lemma HasIsElement(d: Data, e: Element)
    ensures Has(d, e) <==> e in Elements(d)
  {
    if Has(d, e) {
      assert Elements(d)[Place(d.entries, e)] == e;
    }
  }

  function At(d: Data, e: Element): Data {
    if Has(d, e) then d.entries[Place(d.entries, e)].data else Absent
  }

  lemma AtEntry(d: Data, i: nat)
    requires Valid(d) && d.Node? && i < |d.entries|
    ensures Has(d, d.entries[i].element) && At(d, d.entries[i].element) == d.entries[i].data && Valid(d.entries[i].data)
  {
  }

  // The content a path leads to.
  function ContentAt(d: Data, p: Path): Option<Content>
    decreases |p|
  {
    if p == [] then (if d.Leaf? then Some(d.content) else None) else ContentAt(At(d, p[0]), p[1..])
  }

  // No null inside a list or a map.
  ghost predicate NoHoles(d: Data) {
    d.Node? ==> forall i :: 0 <= i < |d.entries| ==> d.entries[i].data != Absent && NoHoles(d.entries[i].data)
  }

  // ----- visiting

  datatype Visit = Visit(path: Path, content: Content)

  // The visits below a tree in order; a hole is visited as null content.
  function Visits(d: Data, path: Path): seq<Visit>
    decreases d, 1
  {
    match d
    case Absent => [Visit(path, NullContent)]
    case Leaf(content) => [Visit(path, content)]
    case Node(entries) => VisitsFrom(d, path, 0)
  }

  function VisitsFrom(d: Data, path: Path, i: nat): seq<Visit>
    requires d.Node? && i <= |d.entries|
    decreases d, 0, |d.entries| - i
  {
    if i == |d.entries| then []
    else Visits(d.entries[i].data, path + [d.entries[i].element]) + VisitsFrom(d, path, i + 1)
  }

  class VisitLog {
    var visits: seq<Visit>

    constructor ()
      ensures visits == []
    {
      visits := [];
    }

    method VisitContent(d: Data, path: Path)
      modifies this
      ensures visits == old(visits) + Visits(d, path)
      decreases d
    {
      match d
      case Absent => visits := visits + [Visit(path, NullContent)];
      case Leaf(content) => visits := visits + [Visit(path, content)];
      case Node(entries) =>
        ghost var before := visits;
        for i := 0 to |entries|
          invariant visits + VisitsFrom(d, path, i) == before + VisitsFrom(d, path, 0)
        {
          VisitContent(entries[i].data, path + [entries[i].element]);
        }
    }

    // Data.forEachContent: nothing at all for data that is absent as a whole.
    method ForEachContent(d: Data)
      modifies this
      ensures visits == old(visits) + if d.Absent? then [] else Visits(d, [])
    {
      if d != Absent {
        VisitContent(d, []);
      }
    }
  }

  // What a visit reports at a path below.
  function VisitedBelow(d: Data, q: Path): Option<Content>
    decreases |q|
  {
    if q != [] then (if Has(d, q[0]) then VisitedBelow(At(d, q[0]), q[1..]) else None)
    else if d.Absent? then Some(NullContent)
    else if d.Leaf? then Some(d.content)
    else None
  }

  function Visited(d: Data, q: Path): Option<Content> {
    if d.Absent? then None else VisitedBelow(d, q)
  }

  // The visits that start with entry i.
  ghost predicate StartsFrom(d: Data, q: Path, i: nat) {
    d.Node? && q != [] && Has(d, q[0]) && Place(d.entries, q[0]) >= i
  }

  // Visits are exactly what is visited below, each path once.
  ghost predicate ExactVisits(visits: seq<Visit>, d: Data, path: Path) {
    && (forall k :: 0 <= k < |visits| ==>
          path <= visits[k].path && VisitedBelow(d, visits[k].path[|path|..]) == Some(visits[k].content))
    && (forall q :: VisitedBelow(d, q).Some? ==> Visit(path + q, VisitedBelow(d, q).value) in visits)
    && (forall j, k :: 0 <= j < k < |visits| ==> visits[j].path != visits[k].path)
  }

  ghost predicate ExactVisitsFrom(visits: seq<Visit>, d: Data, path: Path, i: nat) {
    && (forall k :: 0 <= k < |visits| ==>
          && path <= visits[k].path && StartsFrom(d, visits[k].path[|path|..], i)
          && VisitedBelow(d, visits[k].path[|path|..]) == Some(visits[k].content))
    && (forall q :: StartsFrom(d, q, i) && VisitedBelow(d, q).Some? ==>
        Visit(path + q, VisitedBelow(d, q).value) in visits)
    && (forall j, k :: 0 <= j < k < |visits| ==> visits[j].path != visits[k].path)
  }

  lemma {:induction false} VisitsExact(d: Data, path: Path)
    requires Valid(d)
    ensures ExactVisits(Visits(d, path), d, path)
    decreases d, 1
  {
    if d.Node? {
      VisitsFromExact(d, path, 0);
      assert forall q | VisitedBelow(d, q).Some? :: StartsFrom(d, q, 0);
    } else {
      assert forall q | VisitedBelow(d, q).Some? :: q == [];
      assert path + [] == path && path[|path|..] == [];
    }
  }

  lemma {:induction false} VisitsFromExact(d: Data, path: Path, i: nat)
    requires Valid(d) && d.Node? && i <= |d.entries|
    ensures ExactVisitsFrom(VisitsFrom(d, path, i), d, path, i)
    decreases d, 0, |d.entries| - i
  {
    if i < |d.entries| {
      var child, e := d.entries[i].data, d.entries[i].element;
      VisitsExact(child, path + [e]);
      VisitsFromExact(d, path, i + 1);
      PrependVisits(d, path, i, Visits(child, path + [e]), VisitsFrom(d, path, i + 1));
    }
  }

  lemma PrependVisits(d: Data, path: Path, i: nat, first: seq<Visit>, rest: seq<Visit>)
    requires Valid(d) && d.Node? && i < |d.entries|
    requires ExactVisits(first, d.entries[i].data, path + [d.entries[i].element])
    requires ExactVisitsFrom(rest, d, path, i + 1)
    ensures ExactVisitsFrom(first + rest, d, path, i)
  {
    var child, e := d.entries[i].data, d.entries[i].element;
    var all := first + rest;
    AtEntry(d, i);
    assert Place(d.entries, e) == i;
    forall k | 0 <= k < |first|
      ensures path <= first[k].path && |first[k].path| > |path| && first[k].path[|path|] == e
      ensures StartsFrom(d, first[k].path[|path|..], i)
      ensures VisitedBelow(d, first[k].path[|path|..]) == Some(first[k].content)
    {
      var p := first[k].path;
      assert path + [e] <= p;
      assert p[|path|] == (path + [e])[|path|] == e;
      assert p[|path|..][1..] == p[|path + [e]|..];
    }
    forall k | 0 <= k < |rest|
      ensures |rest[k].path| > |path| && rest[k].path[|path|] != e
    {
      assert rest[k].path[|path|..][0] == rest[k].path[|path|];
    }
    forall q | StartsFrom(d, q, i) && VisitedBelow(d, q).Some?
      ensures Visit(path + q, VisitedBelow(d, q).value) in all
    {
      if Place(d.entries, q[0]) == i {
        assert path + [e] + q[1..] == path + q;
        assert VisitedBelow(child, q[1..]).Some?;
      } else {
        assert StartsFrom(d, q, i + 1);
      }
    }
  }
}
