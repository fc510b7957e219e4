/** int_to_ascii and hex_to_ascii, and the numbers their texts denote. */
module Ascii {
  import opened Words
  import opened CStrings
  import opened PowersOfTwo

  const ZERO: u8 := 48
  const MINUS: u8 := 45
  const LOWER_A: u8 := 97
  const LOWER_X: u8 := 120

  datatype Number = Malformed | Number(value: int)

  // ----- Decimal -----

  predicate IsDigit(c: u8) {
    ZERO <= c < ZERO + 10
  }

  function ParseDigits(s: seq<u8>): Number {
    if s == [] then Number(0)
    else
      var front, last := ParseDigits(s[..|s| - 1]), s[|s| - 1];
      if front.Number? && IsDigit(last) then Number(10 * front.value + (last - ZERO)) else Malformed
  }

  function ParseDecimal(s: seq<u8>): Number {
    if s != [] && s[0] == MINUS then
      var n := ParseDigits(s[1..]);
      if n.Number? then Number(-n.value) else Malformed
    else ParseDigits(s)
  }

  /** A decimal numeral as one writes it: digits, no leading zero, a minus sign only before a
      number that is not zero. */
  predicate Canonical(s: seq<u8>) {
    if s != [] && s[0] == MINUS then ParseDigits(s[1..]).Number? && |s| > 1 && s[1] != ZERO
    else ParseDigits(s).Number? && |s| > 0 && (s[0] == ZERO ==> |s| == 1)
  }

  function Digits(n: nat): (s: seq<u8>)
    ensures |s| > 0
  {
    if n < 10 then [ZERO + n] else Digits(n / 10) + [ZERO + n % 10]
  }

  function Magnitude(n: int): nat {
    if n < 0 then -n else n
  }

  function Decimal(n: int): (s: seq<u8>) {
    if n < 0 then [MINUS] + Digits(-n) else Digits(n)
  }

  lemma {:induction false} DigitsParse(n: nat)
    ensures ParseDigits(Digits(n)) == Number(n)
    ensures IsDigit(Digits(n)[0]) && (Digits(n)[0] == ZERO <==> n == 0) && (n == 0 ==> |Digits(n)| == 1)
  {
    if n >= 10 {
      DigitsParse(n / 10);
      assert Digits(n)[..|Digits(n)| - 1] == Digits(n / 10);
    } else {
      assert ParseDigits([]) == Number(0);
    }
  }

  /** The printed form of any integer is a canonical numeral and parses back to it. */
  lemma DecimalParses(n: int)
    ensures Canonical(Decimal(n)) && ParseDecimal(Decimal(n)) == Number(n)
  {
    DigitsParse(Magnitude(n));
    if n < 0 {
      assert Decimal(n)[1..] == Digits(-n);
    }
  }

  lemma {:induction false} ParsedDigits(s: seq<u8>)
    requires ParseDigits(s).Number? && |s| > 0 && (s[0] == ZERO ==> |s| == 1)
    ensures ParseDigits(s).value >= 0 && s == Digits(ParseDigits(s).value)
    ensures s[0] != ZERO ==> ParseDigits(s).value > 0
  {
    var front, last := s[..|s| - 1], s[|s| - 1];
    assert s == front + [last];
    if |s| > 1 {
      ParsedDigits(front);
    }
  }

  /** It is the only canonical numeral that does. */
  lemma CanonicalIsDecimal(s: seq<u8>)
    requires Canonical(s)
    ensures ParseDecimal(s).Number? && s == Decimal(ParseDecimal(s).value)
  {
    if s[0] == MINUS {
      ParsedDigits(s[1..]);
    } else {
      ParsedDigits(s);
    }
  }

  lemma {:induction false} DigitsCount(n: nat, k: nat, bound: nat)
    requires k >= 1 && n < bound && bound == Ten(k)
    ensures |Digits(n)| <= k
  {
    if k > 1 && n >= 10 {
      DigitsCount(n / 10, k - 1, Ten(k - 1));
    }
  }

  function Ten(k: nat): nat {
    if k == 0 then 1 else 10 * Ten(k - 1)
  }

  lemma DecimalFits(n: i32)
    ensures |Decimal(n)| <= 11
  {
    assert Ten(3) == 1000;
    assert Ten(6) == 1_000_000;
    assert Ten(9) == 1_000_000_000;
    DigitsCount(Magnitude(n), 10, Ten(10));
  }

  lemma {:induction false} DigitsHaveNoNul(n: nat)
    ensures 0 !in Digits(n)
  {
    if n >= 10 {
      DigitsHaveNoNul(n / 10);
    }
  }

  /** 32-bit negation: the least integer is its own. */
  function Negated(n: i32): i32 {
    if n == INT_MIN then INT_MIN else -n
  }

  /** Division and remainder towards zero. */
  function Quotient(n: int, d: nat): int
    requires d > 0
  {
    if n < 0 then -(-n / d) else n / d
  }

  function Remainder(n: int, d: nat): int
    requires d > 0
  {
    n - d * Quotient(n, d)
  }

  /** What int_to_ascii writes: the least integer comes out as a minus sign and a parenthesis. */
  function IntText(n: i32): seq<u8> {
    if n == INT_MIN then [MINUS, ZERO - 8] else Decimal(n)
  }

  lemma IntTextIff(n: i32)
    ensures IntText(n) == Decimal(n) <==> n != INT_MIN
    ensures ParseDecimal(IntText(n)) == Number(n) <==> n != INT_MIN
    ensures 0 !in IntText(n)
  {
    DecimalParses(n);
    if n == INT_MIN {
      assert IntText(n)[1..] == [ZERO - 8];
      assert ParseDigits([ZERO - 8]).Malformed?;
    } else {
      DigitsHaveNoNul(Magnitude(n));
    }
  }

  lemma ReversedSnoc(s: seq<u8>, c: u8)
    ensures Reversed(s + [c]) == [c] + Reversed(s)
  {
  }

  /** The do-while loop: it writes the digits of a number backwards, and stops after the first
      one if the number is negative. */
  method PutDigits(n: int, str: array<u8>) returns (i: nat)
    requires n < 0 ==> ZERO + Remainder(n, 10) > 0 && str.Length > 0
    requires n >= 0 ==> |Digits(n)| <= str.Length
    modifies str
    ensures n >= 0 ==> i == |Digits(n)| && str[..i] == Reversed(Digits(n))
    ensures n < 0 ==> i == 1 && str[0] == ZERO + Remainder(n, 10)
    ensures forall k | i <= k < str.Length :: str[k] == old(str[k])
  {
    i := 0;
    var m := n;
    var going := true;
    while going
      invariant i <= str.Length && forall k | i <= k < str.Length :: str[k] == old(str[k])
      invariant going ==> n < 0 ==> m == n && i == 0
      invariant going ==> n >= 0 ==> m >= 0 && Digits(n) == Digits(m) + Reversed(str[..i])
      invariant !going ==> n < 0 ==> i == 1 && str[0] == ZERO + Remainder(n, 10)
      invariant !going ==> n >= 0 ==> Digits(n) == Reversed(str[..i])
      decreases going, m
    {
      ReversedSnoc(str[..i], Remainder(m, 10) + ZERO);
      str[i] := Remainder(m, 10) + ZERO;
      i := i + 1;
      m := Quotient(m, 10);
      going := m > 0;
    }
  }

  /** The text of a number, backwards, as it stands in the buffer before the final reversal. */
  lemma BackwardText(n: i32, m: int)
    requires m == if n < 0 then Negated(n) else n
    ensures m < 0 ==> ZERO + Remainder(m, 10) > 0
    ensures var digits := if m < 0 then [ZERO + Remainder(m, 10)] else Reversed(Digits(m));
            Reversed(IntText(n)) == if n < 0 then digits + [MINUS] else digits
  {
    if n < 0 && n > INT_MIN {
      assert Reversed([MINUS] + Digits(-n)) == Reversed(Digits(-n)) + [MINUS];
    }
  }

  lemma TurnedAround(text: seq<u8>, was: seq<u8>, rest: seq<u8>)
    requires 0 !in text && was == Reversed(text) + [0] + rest
    ensures Terminated(was) && Length(was) == |text|
    ensures Holds(Reversed(Text(was)) + was[Length(was)..], text, rest)
  {
    HoldsText(was, Reversed(text), rest);
    assert Reversed(Reversed(text)) == text;
  }

  /** All of int_to_ascii but the final reversal. */
  method PutBackwards(n: i32, str: array<u8>)
    requires |IntText(n)| < str.Length
    modifies str
    ensures str[..] == Reversed(IntText(n)) + [0] + old(str[..])[|IntText(n)| + 1..]
  {
    var sign := n;
    var m: int := n;
    if n < 0 {
      m := Negated(n);
    }
    BackwardText(n, m);
    assert |Reversed(IntText(n))| == |IntText(n)|;
    hide IntText, Digits, Reversed, Remainder, Negated;
    var i := PutDigits(m, str);
    if sign < 0 {
      str[i] := MINUS;
      i := i + 1;
    }
    str[i] := 0;
  }

  method IntToAscii(n: i32, str: array<u8>)
    requires |IntText(n)| < str.Length
    modifies str
    ensures Holds(str[..], IntText(n), old(str[..])[|IntText(n)| + 1..])
  {
    ghost var rest := str[..][|IntText(n)| + 1..];
    PutBackwards(n, str);
    IntTextIff(n);
    TurnedAround(IntText(n), str[..], rest);
    hide *;
    Reverse(str);
  }

  // ----- Hexadecimal -----

  function HexDigit(c: u8): (n: Number)
    ensures n.Number? ==> 0 <= n.value < 16
  {
    if IsDigit(c) then Number(c - ZERO)
    else if LOWER_A <= c < LOWER_A + 6 then Number(c - LOWER_A + 10)
    else Malformed
  }

  function ParseHex(s: seq<u8>): Number {
    if s == [] then Number(0)
    else
      var front, last := ParseHex(s[..|s| - 1]), HexDigit(s[|s| - 1]);
      if front.Number? && last.Number? then Number(16 * front.value + last.value) else Malformed
  }

  /** The digit appended for a nibble; ten becomes a letter only if the comparison includes it. */
  function Printed(t: nat, inclusive: bool): (c: u8)
    requires t < 16
    ensures c != 0
  {
    if t > 0xA || (inclusive && t == 0xA) then t - 0xA + LOWER_A else t + ZERO
  }

  /** n >> i on a signed word. */
  function Shift(n: int, i: nat): int {
    if i == 0 then n else Shift(n, i - 1) / 2
  }

  /** (n >> i) & 0xF */
  function Nibble(n: int, i: nat): (t: nat)
    ensures t < 16
  {
    Shift(n, i) % 16
  }

  /** The bit pattern of a word, as an unsigned number. */
  function Pattern(n: i32): nat {
    n % 0x1_0000_0000
  }

  /** The digits of a number without leading zeros. */
  function UpperDigits(m: nat, inclusive: bool): seq<u8> {
    if m == 0 then [] else UpperDigits(m / 16, inclusive) + [Printed(m % 16, inclusive)]
  }

  /** What hex_to_ascii appends: only the last digit always writes ten as a letter. */
  function HexText(n: i32, inclusive: bool): seq<u8> {
    [ZERO, LOWER_X] + UpperDigits(Pattern(n) / 16, inclusive) + [Printed(Nibble(n, 0), true)]
  }

  lemma PrintedParses(t: nat, inclusive: bool)
    requires t < 16
    ensures HexDigit(Printed(t, inclusive)) == if inclusive || t != 0xA then Number(t) else Malformed
  {
  }

  /** No hexadecimal digit of m is ten. */
  ghost predicate NoTen(m: nat) {
    forall i: nat :: Nibble(m, 4 * i) != 0xA
  }

  lemma HalvedFourTimes(x: int)
    ensures x / 2 / 2 / 2 / 2 == x / 16
  {
  }

  lemma ShiftNibbles(n: int, i: nat)
    ensures Shift(n, i + 4) == Shift(n, i) / 16
  {
    HalvedFourTimes(Shift(n, i));
    assert Shift(n, i + 1) == Shift(n, i) / 2;
    assert Shift(n, i + 2) == Shift(n, i) / 2 / 2;
    assert Shift(n, i + 3) == Shift(n, i) / 2 / 2 / 2;
    hide Shift;
  }

  lemma {:induction false} ShiftFirst(n: int, i: nat)
    ensures Shift(n, i + 4) == Shift(n / 16, i)
    decreases i
  {
    if i == 0 {
      ShiftNibbles(n, 0);
    } else {
      ShiftFirst(n, i - 1);
    }
  }

  lemma NoTenStep(m: nat)
    ensures NoTen(m) <==> m % 16 != 0xA && NoTen(m / 16)
  {
    assert Nibble(m, 4 * 0) == m % 16;
    forall i: nat
      ensures Nibble(m, 4 * (i + 1)) == Nibble(m / 16, 4 * i)
    {
      ShiftFirst(m, 4 * i);
    }
    if m % 16 != 0xA && NoTen(m / 16) {
      forall i: nat
        ensures Nibble(m, 4 * i) != 0xA
      {
        if i > 0 {
          assert Nibble(m, 4 * ((i - 1) + 1)) == Nibble(m / 16, 4 * (i - 1));
        }
      }
    }
  }

  lemma {:induction false} ShiftZero(i: nat)
    ensures Shift(0, i) == 0
  {
    if i > 0 {
      ShiftZero(i - 1);
    }
  }

  lemma {:induction false} UpperDigitsParse(m: nat, inclusive: bool)
    ensures ParseHex(UpperDigits(m, inclusive)) == if inclusive || NoTen(m) then Number(m) else Malformed
  {
    if m == 0 {
      forall i: nat
        ensures Nibble(0, 4 * i) == 0
      {
        ShiftZero(4 * i);
      }
    } else {
      UpperDigitsParse(m / 16, inclusive);
      PrintedParses(m % 16, inclusive);
      NoTenStep(m);
      var s := UpperDigits(m, inclusive);
      assert s[..|s| - 1] == UpperDigits(m / 16, inclusive);
    }
  }

  lemma PatternLow(n: i32)
    ensures 16 * (Pattern(n) / 16) + Nibble(n, 0) == Pattern(n)
  {
    assert Nibble(n, 0) == n % 16;
  }

  lemma LastDigitParses(upper: seq<u8>, t: nat)
    requires t < 16
    ensures ParseHex(upper + [Printed(t, true)]) ==
            if ParseHex(upper).Number? then Number(16 * ParseHex(upper).value + t) else Malformed
  {
    var s := upper + [Printed(t, true)];
    assert s[..|s| - 1] == upper && s[|s| - 1] == Printed(t, true);
    PrintedParses(t, true);
  }

  /** The printed digits parse back to the word's bit pattern. With the comparison as written they
      do exactly if no digit but the last is ten; ten is then printed as a colon. */
  lemma HexParsesIff(n: i32, inclusive: bool)
    ensures ParseHex(HexText(n, inclusive)[2..]) ==
            if inclusive || NoTen(Pattern(n) / 16) then Number(Pattern(n)) else Malformed
  {
    var upper := UpperDigits(Pattern(n) / 16, inclusive);
    UpperDigitsParse(Pattern(n) / 16, inclusive);
    LastDigitParses(upper, Nibble(n, 0));
    PatternLow(n);
    assert HexText(n, inclusive)[2..] == upper + [Printed(Nibble(n, 0), true)];
    hide *;
  }

  lemma {:induction false} ShiftPow2(n: int, a: nat, k: nat)
    requires k <= a
    ensures Shift(n + Pow2(a), k) == Shift(n, k) + Pow2(a - k)
  {
    if k > 0 {
      ShiftPow2(n, a, k - 1);
    }
  }

  lemma {:induction false} ShiftBelow(n: nat, a: nat, k: nat)
    requires k <= a && n < Pow2(a)
    ensures 0 <= Shift(n, k) < Pow2(a - k)
  {
    if k > 0 {
      ShiftBelow(n, a, k - 1);
    }
  }

  lemma Pow2Mod16(k: nat)
    requires k >= 4
    ensures Pow2(k) % 16 == 0
  {
    assert Pow2(k) == 2 * Pow2(k - 1) && Pow2(k - 1) == 2 * Pow2(k - 2);
    assert Pow2(k - 2) == 2 * Pow2(k - 3) && Pow2(k - 3) == 2 * Pow2(k - 4);
  }

  lemma PatternIs(n: i32)
    ensures Pattern(n) == if n < 0 then n + Pow2(32) else n
  {
    Powers();
  }

  lemma NibbleOfSum(n: int, a: nat, i: nat)
    requires i + 4 <= a
    ensures Nibble(n, i) == Nibble(n + Pow2(a), i)
  {
    ShiftPow2(n, a, i);
    Pow2Mod16(a - i);
    SumMod16(Shift(n, i), Pow2(a - i));
  }

  lemma SumMod16(x: int, y: int)
    requires y % 16 == 0
    ensures (x + y) % 16 == x % 16
  {
  }

  /** Shifting a negative word right copies its sign, but not into the nibble that is looked at. */
  lemma PatternNibble(n: i32, i: nat)
    requires i <= 28
    ensures Nibble(n, i) == Nibble(Pattern(n), i)
  {
    PatternIs(n);
    NibbleOfSum(n, 32, i);
    hide Pow2, Nibble, Pattern;
  }

  lemma WrittenHexMisprints()
    ensures HexText(0xA0, false) == [ZERO, LOWER_X, ZERO + 10, ZERO]
    ensures HexText(0xA0, true) == [ZERO, LOWER_X, LOWER_A, ZERO]
  {
    assert UpperDigits(10, false) == [ZERO + 10];
  }

  /** What has been appended once the nibble at position i has been looked at. */
  ghost function Prefix(n: i32, i: nat, inclusive: bool): seq<u8>
    requires i <= 32
  {
    Shifted(n, i);
    [ZERO, LOWER_X] + UpperDigits(Shift(Pattern(n), i), inclusive)
  }

  lemma Shifted(n: i32, i: nat)
    requires i <= 32
    ensures 0 <= Shift(Pattern(n), i) && (i == 32 ==> Shift(Pattern(n), i) == 0)
  {
    Powers();
    ShiftBelow(Pattern(n), 32, i);
  }

  lemma PrefixEnds(n: i32, inclusive: bool)
    ensures Prefix(n, 32, inclusive) == [ZERO] + [LOWER_X] && Shift(Pattern(n), 32) == 0
    ensures HexText(n, inclusive) == Prefix(n, 4, inclusive) + [Printed(Nibble(n, 0), true)]
  {
    Shifted(n, 32);
    Shifted(n, 4);
    ShiftNibbles(Pattern(n), 0);
  }

  /** Looking at the nibble at position i prints a digit unless all so far were zero. */
  lemma NextNibble(n: i32, i: nat, inclusive: bool)
    requires i <= 28
    ensures Shift(Pattern(n), i) == 0 <==> Shift(Pattern(n), i + 4) == 0 && Nibble(n, i) == 0
    ensures Prefix(n, i, inclusive) ==
            if Shift(Pattern(n), i) == 0 then Prefix(n, i + 4, inclusive)
            else Prefix(n, i + 4, inclusive) + [Printed(Nibble(n, i), inclusive)]
  {
    Shifted(n, i);
    Shifted(n, i + 4);
    ShiftNibbles(Pattern(n), i);
    PatternNibble(n, i);
    hide Shift;
  }

  lemma {:induction false} PrefixFits(n: i32, k: nat, inclusive: bool)
    requires 1 <= k <= 8
    ensures |Prefix(n, 4 * k, inclusive)| < |HexText(n, inclusive)|
  {
    if k == 1 {
      PrefixEnds(n, inclusive);
    } else {
      PrefixFits(n, k - 1, inclusive);
      NextNibble(n, 4 * (k - 1), inclusive);
    }
    hide *;
  }

  /** The buffer after out has been appended to text, at the expense of rest. */
  ghost predicate Extended(s: seq<u8>, text: seq<u8>, out: seq<u8>, rest: seq<u8>) {
    |out| <= |rest| && Holds(s, text + out, rest[|out|..])
  }

  lemma ExtendedByNone(s: seq<u8>, text: seq<u8>, rest: seq<u8>)
    requires Holds(s, text, rest)
    ensures Extended(s, text, [], rest)
  {
    assert text + [] == text && rest[0..] == rest;
  }

  method Emit(str: array<u8>, c: u8, ghost text: seq<u8>, ghost out: seq<u8>, ghost rest: seq<u8>)
    requires |out| < |rest| && Extended(str[..], text, out, rest) && c != 0
    modifies str
    ensures Extended(str[..], text, out + [c], rest)
  {
    Append(str, c, text + out, rest[|out|..]);
    assert text + (out + [c]) == text + out + [c];
    assert rest[|out + [c]|..] == rest[|out|..][1..];
  }

  method HexToAscii(n: i32, str: array<u8>, inclusive: bool, ghost text: seq<u8>, ghost rest: seq<u8>)
    requires Holds(str[..], text, rest) && |HexText(n, inclusive)| <= |rest|
    modifies str
    ensures Extended(str[..], text, HexText(n, inclusive), rest)
  {
    ExtendedByNone(str[..], text, rest);
    PrefixEnds(n, inclusive);
    PrefixFits(n, 8, inclusive);
    hide *;
    Emit(str, ZERO, text, [], rest);
    Emit(str, LOWER_X, text, [ZERO], rest);
    var zeros := false;
    var i := 28;
    ghost var k := 7;
    while i > 0
      invariant i == 4 * k && 0 <= k <= 7
      invariant zeros <==> Shift(Pattern(n), i + 4) != 0
      invariant Extended(str[..], text, Prefix(n, i + 4, inclusive), rest)
    {
      NextNibble(n, i, inclusive);
      PrefixFits(n, k + 1, inclusive);
      var tmp := Nibble(n, i);
      if tmp == 0 && !zeros {
      } else {
        zeros := true;
        Emit(str, Printed(tmp, inclusive), text, Prefix(n, i + 4, inclusive), rest);
      }
      i := i - 4;
      k := k - 1;
    }
    PrefixFits(n, 1, inclusive);
    var tmp := Nibble(n, 0);
    Emit(str, Printed(tmp, true), text, Prefix(n, 4, inclusive), rest);
  }
}
