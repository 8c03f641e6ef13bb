/** The base 64 variable-length quantities of the source map format, with the 32-bit shifts of JavaScript. */
module Base64Vlq {
  import opened Wrappers
  import opened Int32

  // ----- base 64 digits

  const UPPER := "ABCDEFGHIJKLMNOPQRSTUVWXYZ"
  const LOWER := "abcdefghijklmnopqrstuvwxyz"
  const OTHERS := "0123456789+/"
  const ALPHABET := UPPER + LOWER + OTHERS

  function EncodeDigit(n: int): char
    requires 0 <= n < 64
  {
    ALPHABET[n]
  }

  // The reverse table, which the program fills from the alphabet; None stands for the TypeError.
  function DecodeDigit(c: char): Option<int> {
    if 'A' <= c <= 'Z' then Some(c as int - 'A' as int)
    else if 'a' <= c <= 'z' then Some(c as int - 'a' as int + 26)
    else if '0' <= c <= '9' then Some(c as int - '0' as int + 52)
    else if c == '+' then Some(62)
    else if c == '/' then Some(63)
    else None
  }

  lemma DigitRoundTrip(n: int)
    requires 0 <= n < 64
    ensures DecodeDigit(EncodeDigit(n)) == Some(n)
    ensures EncodeDigit(n) != ',' && EncodeDigit(n) != ';'
  {
    if n < 26 {
      assert EncodeDigit(n) == UPPER[n];
      UpperAt(n);
    } else if n < 52 {
      assert EncodeDigit(n) == LOWER[n - 26];
      LowerAt(n - 26);
    } else {
      assert EncodeDigit(n) == OTHERS[n - 52];
      OtherAt(n - 52);
    }
  }

  lemma UpperAt(n: nat)
    requires n < 26
    ensures UPPER[n] as int == 'A' as int + n
  {
  }

  lemma LowerAt(n: nat)
    requires n < 26
    ensures LOWER[n] as int == 'a' as int + n
  {
  }

  lemma OtherAt(n: nat)
    requires n < 12
    ensures DecodeDigit(OTHERS[n]) == Some(n + 52)
  {
  }

  // ----- the sign bit

  function ToVlqSigned(value: int): int {
    if value < 0 then ShiftLeft(-value, 1) + 1 else ShiftLeft(value, 1)
  }

  function FromVlqSigned(value: int): int {
    var shifted := SignedShiftRight1(value);
    if LowBit(value) then -shifted else shifted
  }

  // What survives the two 31-bit shifts: the magnitude modulo 2^31, read as a signed number.
  function Wrap31(value: int): int {
    if value < 0 then -(ToInt32(-value * 2) / 2) else ToInt32(value * 2) / 2
  }

  lemma SignRoundTrip(value: int)
    ensures FromVlqSigned(ToVlqSigned(value)) == Wrap31(value)
    ensures -TWO_31 <= ToVlqSigned(value) < TWO_31
  {
    var m := if value < 0 then -value else value;
    DoubleWraps(m);
    assert Pow2(1) == 2;
  }

  lemma DoubleWraps(m: int)
    ensures ToInt32(ToInt32(m) * 2) == ToInt32(m * 2)
    ensures ToInt32(m * 2) % 2 == 0 && -TWO_31 <= ToInt32(m * 2) <= TWO_31 - 2
  {
    var q := m / TWO_32;
    assert m == q * TWO_32 + ToUint32(m);
    var k := if ToUint32(m) < TWO_31 then q else q + 1;
    assert ToInt32(m) == m - k * TWO_32;
    ModShift(m * 2, ToInt32(m) * 2, 2 * k);
  }

  lemma ModShift(a: int, b: int, k: int)
    requires a == b + k * TWO_32
    ensures ToUint32(a) == ToUint32(b)
  {
  }

  // The bound of the format in this implementation: exactly the magnitudes below 2^30 survive.
  lemma Wrap31Exact(value: int)
    ensures Wrap31(value) == value <==> -0x4000_0000 < value < 0x4000_0000
  {
  }

  // ----- encoding

  // The digits of an unsigned 32-bit number, five bits each, least significant first.
  function Digits(vlq: int): (s: string)
    requires 0 <= vlq
    ensures |s| >= 1
    decreases vlq
  {
    var digit := vlq % 32;
    if vlq / 32 > 0 then [EncodeDigit(digit + 32)] + Digits(vlq / 32) else [EncodeDigit(digit)]
  }

  function Encoded(value: int): (s: string) {
    Digits(ToUint32(ToVlqSigned(value)))
  }

  // The digit loop of the program, on a 32-bit number that it shifts right in place.
  method Encode(value: int) returns (encoded: string)
    ensures encoded == Encoded(value)
  {
    encoded := "";
    var vlq := ToVlqSigned(value);
    assert Encoded(value) == Digits(ToUint32(vlq));
    hide ToVlqSigned, ToUint32, LowFiveBits, UnsignedShiftRight5, EncodeDigit, Encoded;
    while true
      invariant encoded + Digits(ToUint32(vlq)) == Encoded(value)
      decreases ToUint32(vlq)
    {
      ShiftedDigits(vlq);
      var digit := LowFiveBits(vlq);
      vlq := UnsignedShiftRight5(vlq);
      if vlq > 0 {
        digit := digit + 32;
      }
      encoded := encoded + [EncodeDigit(digit)];
      if vlq <= 0 {
        break;
      }
    }
  }

  lemma ShiftedDigits(x: int)
    ensures LowFiveBits(x) == ToUint32(x) % 32
    ensures UnsignedShiftRight5(x) == ToUint32(x) / 32 == ToUint32(UnsignedShiftRight5(x))
  {
  }

  // ----- decoding

  // One number from the front of a string, with `sum` and `shift` carried from the digits already read.
  function DecodeFrom(s: string, sum: int, shift: nat): (r: Result<(int, string)>)
    ensures r.Ok? ==> |r.value.1| < |s|
    decreases |s|
  {
    if s == "" then Err("Expected more digits in base 64 VLQ value.")
    else
      match DecodeDigit(s[0])
      case None => Err("Not a valid base 64 digit")
      case Some(d) =>
        var sum' := sum + ShiftLeft(d % 32, shift);
        if d >= 32 then DecodeFrom(s[1..], sum', shift + 5) else Ok((FromVlqSigned(sum'), s[1..]))
  }

  function Decoded(s: string): (r: Result<(int, string)>)
    ensures r.Ok? ==> |r.value.1| < |s|
  {
    DecodeFrom(s, 0, 0)
  }

  method Decode(s: string) returns (r: Result<(int, string)>)
    ensures r == Decoded(s)
  {
    var i, result, shift := 0, 0, 0;
    var continuation := true;
    while continuation
      invariant 0 <= i <= |s|
      invariant continuation ==> DecodeFrom(s[i..], result, shift) == Decoded(s)
      invariant !continuation ==> Ok((FromVlqSigned(result), s[i..])) == Decoded(s)
      decreases continuation, |s| - i
    {
      if i >= |s| {
        return Err("Expected more digits in base 64 VLQ value.");
      }
      var d := DecodeDigit(s[i]);
      if d.None? {
        return Err("Not a valid base 64 digit");
      }
      i := i + 1;
      continuation := d.value >= 32;
      var digit := d.value % 32;
      result := result + ShiftLeft(digit, shift);
      shift := shift + 5;
    }
    r := Ok((FromVlqSigned(result), s[i..]));
  }

  // ----- the round trip

  // Only the value modulo 2^32 matters to the two final shifts.
  lemma FromSignedModulo(a: int, b: int)
    requires ToUint32(a) == ToUint32(b)
    ensures FromVlqSigned(a) == FromVlqSigned(b)
  {
  }

  lemma {:induction false} ShiftByPower(d: int, shift: nat, sum: int)
    requires shift < 32
    ensures ToUint32(sum + ShiftLeft(d, shift)) == ToUint32(sum + d * Pow2(shift))
  {
    var p := Pow2(shift);
    var k := (d - ToInt32(d)) / TWO_32;
    assert d == ToInt32(d) + k * TWO_32;
    assert d * p == ToInt32(d) * p + (k * p) * TWO_32;
    var x := ToInt32(d) * p;
    var j := (x - ToInt32(x)) / TWO_32;
    assert x == ToInt32(x) + j * TWO_32;
    ModShift(sum + d * p, sum + ToInt32(x), k * p + j);
  }

  // The sum that the decoder builds from the digits of `n`, starting at `shift`.
  ghost function DigitSum(n: int, shift: nat): int
    requires 0 <= n
    decreases n
  {
    ShiftLeft(n % 32, shift) + if n < 32 then 0 else DigitSum(n / 32, shift + 5)
  }

  lemma {:induction false} DecodeDigits(n: int, sum: int, shift: nat, rest: string)
    requires 0 <= n
    ensures DecodeFrom(Digits(n) + rest, sum, shift) == Ok((FromVlqSigned(sum + DigitSum(n, shift)), rest))
    decreases n
  {
    hide ShiftLeft, FromVlqSigned, EncodeDigit, DecodeDigit;
    var s := Digits(n) + rest;
    if n < 32 {
      DigitRoundTrip(n);
      assert s[0] == EncodeDigit(n) && s[1..] == rest;
    } else {
      DigitRoundTrip(n % 32 + 32);
      assert s[0] == EncodeDigit(n % 32 + 32) && s[1..] == Digits(n / 32) + rest;
      DecodeDigits(n / 32, sum + ShiftLeft(n % 32, shift), shift + 5, rest);
    }
  }

  lemma {:induction false} DigitSumIsValue(n: int, shift: nat, sum: int)
    requires 0 <= n && shift <= 30 && shift % 5 == 0 && n * Pow2(shift) < TWO_32
    ensures ToUint32(sum + DigitSum(n, shift)) == ToUint32(sum + n * Pow2(shift))
    decreases n
  {
    hide ShiftLeft, Pow2, ToUint32;
    var d := n % 32;
    if n < 32 {
      ShiftByPower(n, shift, sum);
    } else {
      FewDigitsLeft(n, shift);
      Pow2Add5(shift);
      SplitOffDigit(n, Pow2(shift));
      DigitSumIsValue(n / 32, shift + 5, sum + ShiftLeft(d, shift));
      ShiftByPower(d, shift, sum + (n / 32) * Pow2(shift + 5));
    }
  }

  lemma SplitOffDigit(n: int, p: int)
    requires 0 <= n && 1 <= p
    ensures (n % 32) * p + (n / 32) * (32 * p) == n * p
    ensures (n / 32) * (32 * p) <= n * p
  {
    var q, d := n / 32, n % 32;
    assert n == q * 32 + d;
    assert (q * 32 + d) * p == q * (32 * p) + d * p;
    assert d * p >= 0;
  }

  lemma Pow2Add5(shift: nat)
    ensures Pow2(shift + 5) == 32 * Pow2(shift)
  {
    assert Pow2(shift + 1) == 2 * Pow2(shift);
    assert Pow2(shift + 2) == 2 * Pow2(shift + 1);
    assert Pow2(shift + 3) == 2 * Pow2(shift + 2);
    assert Pow2(shift + 4) == 2 * Pow2(shift + 3);
  }

  lemma Pow2At30()
    ensures Pow2(30) == 0x4000_0000
  {
    Pow2Add5(0);
    Pow2Add5(5);
    Pow2Add5(10);
    Pow2Add5(15);
    Pow2Add5(20);
    Pow2Add5(25);
  }

  lemma TimesMonotone(n: int, p: int)
    requires n >= 32 && p >= 1
    ensures n * p >= 32 * p
  {
  }

  lemma FewDigitsLeft(n: int, shift: nat)
    requires n >= 32 && shift <= 30 && shift % 5 == 0 && n * Pow2(shift) < TWO_32
    ensures shift <= 25
  {
    Pow2At30();
    TimesMonotone(n, Pow2(shift));
  }

  lemma UnsignedAgain(x: int)
    ensures 0 <= ToUint32(x) < TWO_32
    ensures ToUint32(x) * Pow2(0) == ToUint32(x) && ToUint32(ToUint32(x)) == ToUint32(x)
  {
    assert Pow2(0) == 1;
  }

  // Every integer comes back as its 31-bit wrap, with the rest of the string untouched.
  lemma DecodeEncode(value: int, rest: string)
    ensures Decoded(Encoded(value) + rest) == Ok((Wrap31(value), rest))
  {
    hide ToUint32, ToVlqSigned, FromVlqSigned, Wrap31, Digits, DigitSum, DecodeFrom, Pow2;
    var signed := ToVlqSigned(value);
    SignRoundTrip(value);
    var n := ToUint32(signed);
    UnsignedAgain(signed);
    DigitSumIsValue(n, 0, 0);
    FromSignedModulo(DigitSum(n, 0), signed);
    DecodeDigits(n, 0, 0, rest);
  }

  // The round trip is exact on the magnitudes below 2^30, and on no others.
  lemma DecodeEncodeExact(value: int, rest: string)
    ensures Decoded(Encoded(value) + rest) == Ok((value, rest)) <==> -0x4000_0000 < value < 0x4000_0000
  {
    DecodeEncode(value, rest);
    Wrap31Exact(value);
  }

  // At the bound the sign flips.
  lemma SignFlipsAtBound(rest: string)
    ensures Decoded(Encoded(0x4000_0000) + rest) == Ok((-0x4000_0000, rest))
    ensures Decoded(Encoded(-0x4000_0000) + rest) == Ok((0x4000_0000, rest))
  {
    var bound := 0x4000_0000;
    DecodeEncode(bound, rest);
    DecodeEncode(-bound, rest);
    assert Wrap31(bound) == -bound && Wrap31(-bound) == bound;
  }

  // Encoded numbers can be separated by commas and semicolons.
  lemma {:induction false} NoSeparators(n: int, k: nat)
    requires 0 <= n && k < |Digits(n)|
    ensures Digits(n)[k] != ',' && Digits(n)[k] != ';'
    decreases n
  {
    if n < 32 || k == 0 {
      DigitRoundTrip(n % 32 + if n >= 32 then 32 else 0);
    } else {
      NoSeparators(n / 32, k - 1);
    }
  }

  lemma EncodedHasNoSeparators(value: int)
    ensures ',' !in Encoded(value) && ';' !in Encoded(value)
  {
    forall k | 0 <= k < |Encoded(value)|
      ensures Encoded(value)[k] != ',' && Encoded(value)[k] != ';'
    {
      NoSeparators(ToUint32(ToVlqSigned(value)), k);
    }
  }

  // Numbers of one digit.
  lemma EncodedOne(value: int)
    requires -16 < value < 16
    ensures Encoded(value) == [EncodeDigit(if value < 0 then -2 * value + 1 else 2 * value)]
  {
    hide EncodeDigit, ToVlqSigned, ToUint32;
    var vlq := if value < 0 then -2 * value + 1 else 2 * value;
    SignedOne(value);
    assert Digits(vlq) == [EncodeDigit(vlq)];
  }

  lemma SignedOne(value: int)
    requires -16 < value < 16
    ensures var vlq := if value < 0 then -2 * value + 1 else 2 * value; ToUint32(ToVlqSigned(value)) == vlq
  {
    hide ToInt32, ToUint32, Pow2;
    var m := if value < 0 then -value else value;
    Unwrapped(m);
    Unwrapped(2 * m);
    Unwrapped(2 * m + 1);
    assert 1 % 32 == 1 && ShiftLeft(m, 1) == ToInt32(ToInt32(m) * Pow2(1));
    assert ToInt32(m) * Pow2(1) == 2 * m;
  }

  lemma Unwrapped(x: int)
    requires 0 <= x < TWO_31
    ensures ToInt32(x) == x && ToUint32(x) == x
    ensures Pow2(1) == 2
  {
    assert Pow2(0) == 1;
  }

  lemma UpperDigit(n: nat)
    requires n < 26
    ensures EncodeDigit(n) == UPPER[n]
  {
  }
}
