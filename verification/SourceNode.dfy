/** Source nodes: trees of code snippets with the original position each is attributed to. */
module SourceNodes {
  import opened SourceMapConsumers
  import opened Pieces

  datatype Child = Snippet(text: string) | Node(node: SourceNode)

  class SourceNode {
    const origin: OriginalPosition
    var children: seq<Child>

    // The nodes of the tree, and what walking it yields.
    ghost var Repr: set<SourceNode>
    ghost var pieces: seq<Piece>

    ghost predicate Valid()
      reads this, Repr
      ensures Valid() ==> this in Repr
      decreases Repr
    {
      && this in Repr
      && (forall c :: c in children && c.Node? ==>
            c.node in Repr && c.node.Repr <= Repr && this !in c.node.Repr && c.node.Valid())
      && pieces == PiecesOf(children, origin)
    }

    constructor (origin: OriginalPosition, code: string)
      ensures Valid() && fresh(Repr) && this.origin == origin
      ensures pieces == if code == "" then [] else [Piece(code, origin)]
      ensures Repr == {this}
    {
      this.origin := origin;
      children := [];
      Repr := {this};
      pieces := [];
      new;
      Add(Snippet(code));
    }

    method Add(chunk: Child)
      requires Valid()
      requires chunk.Node? ==> chunk.node.Valid() && this !in chunk.node.Repr
      modifies this
      ensures Valid()
      ensures Repr == old(Repr) + if chunk.Node? then chunk.node.Repr else {}
      ensures pieces == old(pieces) + match chunk
                                      case Snippet(text) => if text == "" then [] else [Piece(text, origin)]
                                      case Node(node) => old(node.pieces)
    {
      if chunk.Node? || chunk.text != "" {
        ghost var was := children;
        children := children + [chunk];
        assert children[..|children| - 1] == was;
        if chunk.Node? {
          Repr := Repr + chunk.node.Repr;
        }
        pieces := PiecesOf(children, origin);
      }
    }

    // The calls that walking makes, in order: one for every snippet that is not empty.
    method Walk() returns (calls: seq<Piece>)
      requires Valid()
      ensures calls == pieces
      ensures forall p :: p in calls ==> p.code != ""
      decreases Repr
    {
      calls := [];
      for i := 0 to |children|
        invariant calls == PiecesOf(children[..i], origin)
        invariant forall p :: p in calls ==> p.code != ""
      {
        var chunk := children[i];
        assert children[..i + 1][..i] == children[..i];
        match chunk
        case Node(node) =>
          var inner := node.Walk();
          calls := calls + inner;
        case Snippet(text) =>
          if text != "" {
            calls := calls + [Piece(text, origin)];
          }
      }
      assert children[..|children|] == children;
    }

    // The code of the tree.
    method ToString() returns (str: string)
      requires Valid()
      ensures str == Code(pieces)
    {
      var calls := Walk();
      str := "";
      for i := 0 to |calls|
        invariant str == Code(calls[..i])
      {
        assert calls[..i + 1] == calls[..i] + [calls[i]];
        PiecesAppend(calls[..i], calls[i]);
        str := str + calls[i].code;
      }
      assert calls[..|calls|] == calls;
    }
  }

  ghost function PiecesOf(cs: seq<Child>, origin: OriginalPosition): seq<Piece>
    reads set c | c in cs && c.Node? :: c.node
  {
    if cs == [] then []
    else
      PiecesOf(cs[..|cs| - 1], origin) +
      match cs[|cs| - 1]
      case Snippet(text) => if text == "" then [] else [Piece(text, origin)]
      case Node(node) => node.pieces
  }
}
