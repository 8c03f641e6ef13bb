/** A program as a list of attributed pieces: what walking a tree of source nodes yields, and what a source map says
    about each character. */
module Pieces {
  import opened Wrappers
  import opened Text
  import opened Mappings
  import opened SourceMapConsumers

  // A snippet of generated code and the original position it is attributed to.
  datatype Piece = Piece(code: string, origin: OriginalPosition)

  function Code(ps: seq<Piece>): string {
    if ps == [] then "" else ps[0].code + Code(ps[1..])
  }

  function Repeat(n: nat, o: OriginalPosition): (os: seq<OriginalPosition>)
    ensures |os| == n && forall k :: 0 <= k < n ==> os[k] == o
  {
    seq(n, _ => o)
  }

  // The attribution of every character.
  function Origins(ps: seq<Piece>): (os: seq<OriginalPosition>)
    ensures |os| == |Code(ps)|
  {
    if ps == [] then [] else Repeat(|ps[0].code|, ps[0].origin) + Origins(ps[1..])
  }

  lemma {:induction false} PiecesConcat(ps: seq<Piece>, qs: seq<Piece>)
    ensures Code(ps + qs) == Code(ps) + Code(qs)
    ensures Origins(ps + qs) == Origins(ps) + Origins(qs)
  {
    if ps == [] {
      assert ps + qs == qs;
    } else {
      assert (ps + qs)[0] == ps[0] && (ps + qs)[1..] == ps[1..] + qs;
      PiecesConcat(ps[1..], qs);
    }
  }

  lemma OnePiece(p: Piece)
    ensures Code([p]) == p.code && Origins([p]) == Repeat(|p.code|, p.origin)
  {
    assert [p][1..] == [];
  }

  lemma PiecesAppend(ps: seq<Piece>, p: Piece)
    ensures Code(ps + [p]) == Code(ps) + p.code
    ensures Origins(ps + [p]) == Origins(ps) + Repeat(|p.code|, p.origin)
  {
    PiecesConcat(ps, [p]);
    OnePiece(p);
  }

  // What a mapping attributes code to; a mapping without a source attributes it to nothing.
  function OriginOf(m: Option<Mapping>): OriginalPosition {
    if m.None? || m.value.source.None? then NOWHERE else OriginalOf(m)
  }

  // Every character of `code` is attributed to the last mapping at or before it.
  ghost predicate AttributedBy(os: seq<OriginalPosition>, code: string, ms: seq<Mapping>) {
    && |os| == |code|
    && forall k :: 0 <= k < |code| ==> os[k] == OriginOf(OwnerAt(ms, EndOf(code[..k])))
  }

  // ----- positions inside a text

  predicate LineInText(p: Position, code: string) {
    1 <= p.line <= |SplitLines(code)| && p.column >= 0
  }

  predicate InText(p: Position, code: string) {
    LineInText(p, code) && p.column <= |SplitLines(code)[p.line - 1]|
  }

  // Later prefixes end later.
  lemma PrefixesAdvance(code: string, k: nat, l: nat)
    requires k <= l <= |code|
    ensures AtOrBefore(EndOf(code[..k]), EndOf(code[..l]))
    ensures k < l ==> Before(EndOf(code[..k]), EndOf(code[..l]))
  {
    assert code[..l] == code[..k] + code[k..l];
    EndOfConcat(code[..k], code[k..l]);
    AdvanceForward(EndOf(code[..k]), code[k..l]);
  }

  lemma {:induction false} AdvanceInText(p: Position, s: string, k: nat)
    requires k <= |s| && p.column >= 0
    ensures
      var q, ls := Advance(p, s[..k]), SplitLines(s);
      && p.line <= q.line < p.line + |ls|
      && 0 <= q.column <= |ls[q.line - p.line]| + if q.line == p.line then p.column else 0
    decreases k
  {
    if k == 0 {
    } else {
      assert s[..k][0] == s[0] && s[..k][1..] == s[1..][..k - 1];
      AdvanceInText(Step(p, s[0]), s[1..], k - 1);
    }
  }

  // The end of every prefix lies inside the text.
  lemma PrefixEndsInText(code: string, k: nat)
    requires k <= |code|
    ensures InText(EndOf(code[..k]), code)
  {
    AdvanceInText(ORIGIN, code, k);
  }
}
