/** Source map mappings and their two orders. A mapping's optional fields are None where the program has
    null, undefined or false. */
module Mappings {
  import opened Wrappers
  import opened Text

  datatype Mapping = Mapping(
    generatedLine: int,
    generatedColumn: int,
    source: Option<string>,
    originalLine: Option<int>,
    originalColumn: Option<int>,
    name: Option<string>)
  {
    function Generated(): Position {
      Position(generatedLine, generatedColumn)
    }

    // `if (mapping.source)` and `if (mapping.name)`: the empty string counts as absent.
    predicate HasSource() {
      Truthy(source)
    }

    predicate HasName() {
      Truthy(name)
    }

    // What the source map format records of a mapping.
    function Canonical(): Mapping {
      if !HasSource() then Mapping(generatedLine, generatedColumn, None, None, None, None)
      else this.(name := if HasName() then name else None)
    }

    // The two shapes that a generator accepts: a bare generated position, or a full original position.
    predicate Valid() {
      && generatedLine > 0 && generatedColumn >= 0
      && if HasSource() then
           originalLine.Some? && originalColumn.Some? && originalLine.value > 0 && originalColumn.value >= 0
         else
           originalLine.None? && originalColumn.None? && !HasName()
    }
  }

  predicate Truthy(s: Option<string>) {
    s.Some? && s.value != ""
  }

  // `aStr || ""`
  function OrEmpty(s: Option<string>): string {
    if s.Some? then s.value else ""
  }

  // In a subtraction, false counts as 0.
  function OrZero(n: Option<int>): int {
    if n.Some? then n.value else 0
  }

  // ----- string order

  function Compare(s: string, t: string): (r: int)
    ensures -1 <= r <= 1
  {
    if s == "" && t == "" then 0
    else if s == "" then -1
    else if t == "" then 1
    else if s[0] < t[0] then -1
    else if t[0] < s[0] then 1
    else Compare(s[1..], t[1..])
  }

  lemma {:induction false} CompareZero(s: string, t: string)
    ensures Compare(s, t) == 0 <==> s == t
  {
    if s != "" && t != "" {
      CompareZero(s[1..], t[1..]);
      assert s == [s[0]] + s[1..] && t == [t[0]] + t[1..];
    }
  }

  lemma {:induction false} CompareFlip(s: string, t: string)
    ensures Compare(t, s) == -Compare(s, t)
  {
    if s != "" && t != "" {
      CompareFlip(s[1..], t[1..]);
    }
  }

  lemma {:induction false} CompareTransitive(s: string, t: string, u: string)
    requires Compare(s, t) <= 0 && Compare(t, u) <= 0
    ensures Compare(s, u) <= 0
    ensures Compare(s, u) == 0 ==> Compare(s, t) == 0 && Compare(t, u) == 0
  {
    if s != "" && t != "" && u != "" && s[0] == t[0] == u[0] {
      CompareTransitive(s[1..], t[1..], u[1..]);
    }
  }

  // Strings are compared where they first differ; a proper prefix comes first.
  lemma {:induction false} CompareDecides(s: string, t: string, k: nat)
    requires k <= |s| && k <= |t| && s[..k] == t[..k] && (k < |s| && k < |t| ==> s[k] != t[k])
    ensures Compare(s, t) < 0 <==> k < |t| && (k == |s| || s[k] < t[k])
    ensures Compare(s, t) > 0 <==> k < |s| && (k == |t| || t[k] < s[k])
  {
    if k == 0 {
    } else {
      assert s[0] == s[..k][0] == t[..k][0] == t[0];
      assert s[1..][..k - 1] == s[..k][1..] == t[..k][1..] == t[1..][..k - 1];
      CompareDecides(s[1..], t[1..], k - 1);
    }
  }

  function Strcmp(s: Option<string>, t: Option<string>): int {
    Compare(OrEmpty(s), OrEmpty(t))
  }

  // ----- the order of generated positions

  function CompareByGenerated(a: Mapping, b: Mapping, onlyPosition: bool): int {
    if a.generatedLine != b.generatedLine then a.generatedLine - b.generatedLine
    else if a.generatedColumn != b.generatedColumn || onlyPosition then a.generatedColumn - b.generatedColumn
    else if Strcmp(a.source, b.source) != 0 then Strcmp(a.source, b.source)
    else if OrZero(a.originalLine) != OrZero(b.originalLine) then OrZero(a.originalLine) - OrZero(b.originalLine)
    else if OrZero(a.originalColumn) != OrZero(b.originalColumn)
        then OrZero(a.originalColumn) - OrZero(b.originalColumn)
    else Strcmp(a.name, b.name)
  }

  // The comparator's zero class of a valid mapping is what the format records of it.
  lemma GeneratedZero(a: Mapping, b: Mapping)
    ensures CompareByGenerated(a, b, false) == 0 ==> a.Canonical() == b.Canonical() || !a.Valid() || !b.Valid()
    ensures a.Valid() && b.Valid() && a.Canonical() == b.Canonical() ==> CompareByGenerated(a, b, false) == 0
  {
    CompareZero(OrEmpty(a.source), OrEmpty(b.source));
    CompareZero(OrEmpty(a.name), OrEmpty(b.name));
  }

  lemma GeneratedFlip(a: Mapping, b: Mapping, onlyPosition: bool)
    ensures CompareByGenerated(a, b, onlyPosition) < 0 <==> CompareByGenerated(b, a, onlyPosition) > 0
    ensures CompareByGenerated(a, b, onlyPosition) == 0 <==> CompareByGenerated(b, a, onlyPosition) == 0
  {
    CompareFlip(OrEmpty(a.source), OrEmpty(b.source));
    CompareFlip(OrEmpty(a.name), OrEmpty(b.name));
  }

  lemma GeneratedTransitive(a: Mapping, b: Mapping, c: Mapping, onlyPosition: bool)
    requires CompareByGenerated(a, b, onlyPosition) <= 0 && CompareByGenerated(b, c, onlyPosition) <= 0
    ensures CompareByGenerated(a, c, onlyPosition) <= 0
    ensures CompareByGenerated(a, c, onlyPosition) == 0 ==>
              CompareByGenerated(a, b, onlyPosition) == 0 && CompareByGenerated(b, c, onlyPosition) == 0
  {
    CompareZero(OrEmpty(a.source), OrEmpty(b.source));
    CompareZero(OrEmpty(b.source), OrEmpty(c.source));
    if Strcmp(a.source, b.source) <= 0 && Strcmp(b.source, c.source) <= 0 {
      CompareTransitive(OrEmpty(a.source), OrEmpty(b.source), OrEmpty(c.source));
    }
    if Strcmp(a.name, b.name) <= 0 && Strcmp(b.name, c.name) <= 0 {
      CompareTransitive(OrEmpty(a.name), OrEmpty(b.name), OrEmpty(c.name));
    }
  }

  // The full order refines the position order.
  lemma GeneratedRefinesPosition(a: Mapping, b: Mapping)
    requires CompareByGenerated(a, b, false) <= 0
    ensures CompareByGenerated(a, b, true) <= 0
    ensures AtOrBefore(a.Generated(), b.Generated())
  {
  }

  // ----- the order of original positions

  function CompareByOriginal(a: Mapping, b: Mapping, onlyOriginal: bool): int {
    if Strcmp(a.source, b.source) != 0 then Strcmp(a.source, b.source)
    else if OrZero(a.originalLine) != OrZero(b.originalLine) then OrZero(a.originalLine) - OrZero(b.originalLine)
    else if OrZero(a.originalColumn) != OrZero(b.originalColumn) || onlyOriginal then
      OrZero(a.originalColumn) - OrZero(b.originalColumn)
    else if Strcmp(a.name, b.name) != 0 then Strcmp(a.name, b.name)
    else if a.generatedLine != b.generatedLine then a.generatedLine - b.generatedLine
    else a.generatedColumn - b.generatedColumn
  }

  lemma OriginalTransitive(a: Mapping, b: Mapping, c: Mapping, onlyOriginal: bool)
    requires CompareByOriginal(a, b, onlyOriginal) <= 0 && CompareByOriginal(b, c, onlyOriginal) <= 0
    ensures CompareByOriginal(a, c, onlyOriginal) <= 0
    ensures CompareByOriginal(a, c, onlyOriginal) == 0 ==>
              CompareByOriginal(a, b, onlyOriginal) == 0 && CompareByOriginal(b, c, onlyOriginal) == 0
  {
    CompareZero(OrEmpty(a.source), OrEmpty(b.source));
    CompareZero(OrEmpty(b.source), OrEmpty(c.source));
    if Strcmp(a.source, b.source) <= 0 && Strcmp(b.source, c.source) <= 0 {
      CompareTransitive(OrEmpty(a.source), OrEmpty(b.source), OrEmpty(c.source));
    }
    CompareZero(OrEmpty(a.name), OrEmpty(b.name));
    CompareZero(OrEmpty(b.name), OrEmpty(c.name));
    if Strcmp(a.name, b.name) <= 0 && Strcmp(b.name, c.name) <= 0 {
      CompareTransitive(OrEmpty(a.name), OrEmpty(b.name), OrEmpty(c.name));
    }
  }

  lemma OriginalFlip(a: Mapping, b: Mapping, onlyOriginal: bool)
    ensures CompareByOriginal(a, b, onlyOriginal) < 0 <==> CompareByOriginal(b, a, onlyOriginal) > 0
  {
    CompareFlip(OrEmpty(a.source), OrEmpty(b.source));
    CompareFlip(OrEmpty(a.name), OrEmpty(b.name));
  }

  lemma OriginalRefines(a: Mapping, b: Mapping)
    requires CompareByOriginal(a, b, false) <= 0
    ensures CompareByOriginal(a, b, true) <= 0
  {
  }
}
