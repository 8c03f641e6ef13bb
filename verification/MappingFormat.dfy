/** The serialised form itself: which digits stand for a number, and what the string of some mappings looks like. */
module MappingFormat {
  import opened Wrappers
  import opened Int32
  import opened ArraySets
  import opened Base64Vlq
  import opened Mappings
  import opened MappingCodec

  // ----- one number

  // The place of a digit in the alphabet; -1 for any other character.
  function PlaceOf(c: char): int {
    if 'A' <= c <= 'Z' then c as int - 65
    else if 'a' <= c <= 'z' then c as int - 71
    else if '0' <= c <= '9' then c as int + 4
    else if c == '+' then 62
    else if c == '/' then 63
    else -1
  }

  // Every digit but the last has the continuation bit.
  predicate Continued(s: string) {
    && s != ""
    && (forall k :: 0 <= k < |s| ==> 0 <= PlaceOf(s[k]) < 64)
    && (forall k :: 0 <= k < |s| ==> (PlaceOf(s[k]) >= 32 <==> k < |s| - 1))
  }

  // The number that the digits stand for, five bits each, the least significant ones first.
  function NumberOf(s: string): int {
    if s == "" then 0 else PlaceOf(s[0]) % 32 + 32 * NumberOf(s[1..])
  }

  lemma PlaceOfDigit(n: int)
    requires 0 <= n < 64
    ensures PlaceOf(EncodeDigit(n)) == n
  {
    DigitRoundTrip(n);
  }

  // A digit with the continuation bit in front of the others.
  lemma InFront(digit: int, later: string)
    requires 0 <= digit < 32 && Continued(later)
    ensures var s := [EncodeDigit(digit + 32)] + later; Continued(s) && NumberOf(s) == digit + 32 * NumberOf(later)
  {
    PlaceOfDigit(digit + 32);
    hide EncodeDigit, PlaceOf;
    var c := EncodeDigit(digit + 32);
    var s := [c] + later;
    assert s[1..] == later;
    assert NumberOf(s) == PlaceOf(c) % 32 + 32 * NumberOf(later);
    hide NumberOf;
    forall k | 0 <= k < |s|
      ensures 0 <= PlaceOf(s[k]) < 64 && (PlaceOf(s[k]) >= 32 <==> k < |s| - 1)
    {
      assert k > 0 ==> s[k] == later[k - 1];
    }
  }

  lemma OneDigit(digit: int)
    requires 0 <= digit < 32
    ensures var s := [EncodeDigit(digit)]; Continued(s) && NumberOf(s) == digit
  {
    PlaceOfDigit(digit);
    var s := [EncodeDigit(digit)];
    hide EncodeDigit, PlaceOf;
    assert NumberOf(s) == PlaceOf(s[0]) % 32 + 32 * NumberOf(s[1..]);
    assert s[1..] == "" && NumberOf("") == 0;
  }

  lemma {:induction false} DigitsStandFor(vlq: int)
    requires vlq >= 0
    ensures Continued(Digits(vlq)) && NumberOf(Digits(vlq)) == vlq
    decreases vlq
  {
    hide EncodeDigit, PlaceOf, Continued, NumberOf;
    if vlq / 32 > 0 {
      DigitsStandFor(vlq / 32);
      InFront(vlq % 32, Digits(vlq / 32));
    } else {
      OneDigit(vlq % 32);
    }
  }

  lemma SmallSigned(value: int)
    requires -0x4000_0000 < value < 0x4000_0000
    ensures ToVlqSigned(value) == if value < 0 then -2 * value + 1 else 2 * value
  {
    var m := if value < 0 then -value else value;
    assert Pow2(1) == 2 && 1 % 32 == 1;
    assert ToInt32(m) == m && ToInt32(m * 2) == m * 2;
  }

  // A number is written as its magnitude with the sign in the lowest bit.
  lemma EncodedStandsFor(value: int)
    requires -0x4000_0000 < value < 0x4000_0000
    ensures Continued(Encoded(value))
    ensures NumberOf(Encoded(value)) == if value < 0 then -2 * value + 1 else 2 * value
  {
    hide Digits, ToVlqSigned, Continued, NumberOf;
    SmallSigned(value);
    DigitsStandFor(ToUint32(ToVlqSigned(value)));
  }

  // ----- a whole string

  // Two mappings on the first line and one, without an original position, on the third. Every field of the second
  // differs from that of the first by another amount.
  const FIRST := Mapping(1, 0, Some("a.js"), Some(1), Some(9), Some("g"))
  const SECOND := Mapping(1, 2, Some("b.js"), Some(4), Some(5), Some("f"))
  const THIRD := Mapping(3, 6, None, None, None, None)

  const SOURCES := ["a.js", "b.js"]
  const NAMES := ["f", "g"]

  // A small number is one digit.
  lemma Letter(value: int, c: char)
    requires -16 < value < 16 && PlaceOf(c) == if value < 0 then -2 * value + 1 else 2 * value
    ensures Encoded(value) == [c]
  {
    hide EncodeDigit, ToVlqSigned;
    SmallSigned(value);
    var n := PlaceOf(c);
    PlaceOfDigit(n);
    assert EncodeDigit(n) == c;
    hide PlaceOf;
    assert Digits(n) == [EncodeDigit(n)];
  }

  lemma {:induction false} EncodeLetters(ds: seq<int>, s: string)
    requires |ds| == |s| && forall k :: 0 <= k < |ds| ==> Encoded(ds[k]) == [s[k]]
    ensures EncodeAll(ds) == s
  {
    hide Encoded;
    if ds == [] {
    } else {
      EncodeLetters(ds[1..], s[1..]);
      assert s == [s[0]] + s[1..];
    }
  }

  lemma Tables()
    ensures FirstIndex(SOURCES, "a.js") == 0 && FirstIndex(SOURCES, "b.js") == 1
    ensures FirstIndex(NAMES, "f") == 0 && FirstIndex(NAMES, "g") == 1
    ensures AllCovered([FIRST, SECOND, THIRD], SOURCES, NAMES)
  {
    FirstIndexUnique(SOURCES, "a.js", 0);
    FirstIndexUnique(SOURCES, "b.js", 1);
    FirstIndexUnique(NAMES, "f", 0);
    FirstIndexUnique(NAMES, "g", 1);
  }

  lemma ExampleDeltas()
    ensures Covered(FIRST, SOURCES, NAMES) && Covered(SECOND, SOURCES, NAMES) && Covered(THIRD, SOURCES, NAMES)
    ensures Deltas(FIRST, START, SOURCES, NAMES) == [0, 0, 0, 9, 1]
    ensures After(FIRST, START, SOURCES, NAMES) == Previous(1, 0, 0, 0, 9, 1)
    ensures Deltas(SECOND, Previous(1, 0, 0, 0, 9, 1), SOURCES, NAMES) == [2, 1, 3, -4, -1]
    ensures After(SECOND, Previous(1, 0, 0, 0, 9, 1), SOURCES, NAMES) == Previous(1, 2, 1, 3, 5, 0)
    ensures Deltas(THIRD, Previous(3, 0, 1, 3, 5, 0), SOURCES, NAMES) == [6]
  {
    hide FirstIndex;
    Tables();
  }

  lemma ExampleLetters()
    ensures EncodeAll([0, 0, 0, 9, 1]) == "AAASC" && EncodeAll([2, 1, 3, -4, -1]) == "ECGJD" && EncodeAll([6]) == "M"
  {
    hide EncodeAll, Encoded;
    Letter(0, 'A');
    Letter(9, 'S');
    Letter(1, 'C');
    Letter(2, 'E');
    Letter(3, 'G');
    Letter(-4, 'J');
    Letter(-1, 'D');
    Letter(6, 'M');
    hide PlaceOf;
    EncodeLetters([0, 0, 0, 9, 1], "AAASC");
    EncodeLetters([2, 1, 3, -4, -1], "ECGJD");
    EncodeLetters([6], "M");
  }

  // The generated column, the source, the original line and column and the name, in this order; a comma between
  // mappings, a semicolon for every line.
  lemma WrittenExample()
    ensures AllCovered([FIRST, SECOND, THIRD], SOURCES, NAMES)
    ensures Written([FIRST, SECOND, THIRD], 0, START, SOURCES, NAMES) == "AAASC,ECGJD;;M"
  {
    hide EncodeAll, Covered, Deltas, After, FirstIndex;
    var ms := [FIRST, SECOND, THIRD];
    Tables();
    ExampleDeltas();
    ExampleLetters();
    var second, third := Previous(1, 0, 0, 0, 9, 1), Previous(1, 2, 1, 3, 5, 0);
    assert Written(ms, 3, After(THIRD, third.(line := 3, column := 0), SOURCES, NAMES), SOURCES, NAMES) == "";
    assert Semicolons(2) == ";" + Semicolons(1) == ";;";
    assert Written(ms, 2, third, SOURCES, NAMES) == ";;M";
    assert Written(ms, 1, second, SOURCES, NAMES) == ",ECGJD;;M";
  }
}
