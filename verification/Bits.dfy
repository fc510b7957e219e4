/** Bitwise operators of unsigned words, as functions on natural numbers.
    Each operator comes with the lemma that says what it does to every bit. */
module Bits {
  import opened PowersOfTwo

  function Or(a: nat, b: nat): (r: nat)
    decreases a + b
  {
    if a == 0 && b == 0 then 0
    else (if a % 2 == 1 || b % 2 == 1 then 1 else 0) + 2 * Or(a / 2, b / 2)
  }

  /** a & ~b */
  function AndNot(a: nat, b: nat): (r: nat)
    decreases a
  {
    if a == 0 then 0
    else (if a % 2 == 1 && b % 2 == 0 then 1 else 0) + 2 * AndNot(a / 2, b / 2)
  }

  function Shr(a: nat, s: nat): (r: nat)
    ensures r <= a
  {
    if s == 0 then a else Shr(a / 2, s - 1)
  }

  predicate Bit(a: nat, i: nat) {
    Shr(a, i) % 2 == 1
  }

  lemma {:induction false} BitOr(a: nat, b: nat, i: nat)
    ensures Bit(Or(a, b), i) <==> Bit(a, i) || Bit(b, i)
    decreases i
  {
    if i > 0 && a + b > 0 {
      BitOr(a / 2, b / 2, i - 1);
    } else if i > 0 {
      BitZero(i);
    }
  }

  lemma {:induction false} BitAndNot(a: nat, b: nat, i: nat)
    ensures Bit(AndNot(a, b), i) <==> Bit(a, i) && !Bit(b, i)
    decreases i
  {
    if i > 0 && a > 0 {
      BitAndNot(a / 2, b / 2, i - 1);
    } else if i > 0 {
      BitZero(i);
    }
  }

  lemma {:induction false} BitZero(i: nat)
    ensures !Bit(0, i)
  {
    if i > 0 {
      BitZero(i - 1);
    }
  }

  lemma {:induction false} ShrShr(a: nat, s: nat, i: nat)
    ensures Shr(Shr(a, s), i) == Shr(a, s + i)
    decreases s
  {
    if s > 0 {
      ShrShr(a / 2, s - 1, i);
    }
  }

  lemma BitShr(a: nat, s: nat, i: nat)
    ensures Bit(Shr(a, s), i) <==> Bit(a, s + i)
  {
    ShrShr(a, s, i);
  }

  lemma {:induction false} ShrPow2(k: nat, i: nat)
    requires i <= k
    ensures Shr(Pow2(k), i) == Pow2(k - i)
  {
    if i > 0 {
      ShrPow2(k - 1, i - 1);
    }
  }

  lemma {:induction false} BitPow2(k: nat, i: nat)
    ensures Bit(Pow2(k), i) <==> i == k
  {
    if i > 0 && k > 0 {
      BitPow2(k - 1, i - 1);
    } else if i > 0 {
      BitZero(i - 1);
    }
  }

  lemma {:induction false} TopBit(a: nat, k: nat)
    requires Pow2(k) <= a < 2 * Pow2(k)
    ensures Shr(a, k) == 1
  {
    if k > 0 {
      TopBit(a / 2, k - 1);
    }
  }

  lemma {:induction false} OrBounds(a: nat, b: nat, k: nat)
    requires a < Pow2(k) && b < Pow2(k)
    ensures a <= Or(a, b) < Pow2(k)
  {
    if k > 0 && a + b > 0 {
      OrBounds(a / 2, b / 2, k - 1);
    }
  }

  lemma {:induction false} AllOnes(a: nat, k: nat)
    requires a < Pow2(k)
    requires forall i | 0 <= i < k :: Bit(a, i)
    ensures a + 1 == Pow2(k)
  {
    if k > 0 {
      assert Bit(a, 0);
      forall i | 0 <= i < k - 1
        ensures Bit(a / 2, i)
      {
        assert Bit(a, i + 1);
      }
      AllOnes(a / 2, k - 1);
    }
  }

  // ----- Rounding a request up by smearing its top bit -----

  /** One step: a |= a >> s. */
  function Spread(a: nat, s: nat): nat {
    Or(a, Shr(a, s))
  }

  /** The top ones of a, k being the position of its highest set bit. */
  ghost predicate TopOnes(a: nat, k: nat, ones: nat) {
    a < Pow2(k + 1) && forall i | k - ones < i <= k && 0 <= i :: Bit(a, i)
  }

  lemma SpreadDoubles(a: nat, k: nat, ones: nat)
    requires TopOnes(a, k, ones)
    ensures TopOnes(Spread(a, ones), k, 2 * ones)
  {
    OrBounds(a, Shr(a, ones), k + 1);
    forall i: nat | k - 2 * ones < i <= k
      ensures Bit(Spread(a, ones), i)
    {
      BitOr(a, Shr(a, ones), i);
      if i <= k - ones {
        BitShr(a, ones, i);
        assert Bit(a, ones + i);
      }
    }
  }

  function Smear(a: nat): nat {
    Spread(Spread(Spread(Spread(Spread(a, 1), 2), 4), 8), 16)
  }

  lemma SmearFills(x: nat, k: nat)
    requires TopOnes(x, k, 1)
    ensures TopOnes(Smear(x), k, 32)
  {
    var a := Spread(x, 1);
    var b := Spread(a, 2);
    var c := Spread(b, 4);
    var d := Spread(c, 8);
    SpreadDoubles(x, k, 1);
    SpreadDoubles(a, k, 2);
    SpreadDoubles(b, k, 4);
    SpreadDoubles(c, k, 8);
    SpreadDoubles(d, k, 16);
  }

  lemma TopBitIsTopOne(x: nat, k: nat)
    requires Pow2(k) <= x < 2 * Pow2(k)
    ensures TopOnes(x, k, 1)
  {
    TopBit(x, k);
  }

  lemma SmearIsOnes(x: nat, k: nat)
    requires TopOnes(x, k, 1) && k < 32
    ensures Smear(x) + 1 == Pow2(k + 1)
  {
    SmearFills(x, k);
    AllOnes(Smear(x), k + 1);
  }

  lemma FloorLogOfWord(n: nat)
    requires 0 < n < 0x1_0000_0000
    ensures FloorLog(n) < 32
  {
    Powers();
    FloorLogBelow(n, 32);
  }

  lemma CeilFromFloor(n: nat)
    requires n > 0
    ensures CeilLog(n + 1) == FloorLog(n) + 1
  {
    var k := FloorLog(n);
    CeilLogIs(n + 1, k + 1);
  }

  /** The five shift-and-or steps and an increment turn a request for val bytes into the
      least power of two with room for val bytes and the two header bytes. */
  lemma RoundUp(val: nat)
    requires val + 1 < 0x1_0000_0000
    ensures Smear(val + 1) + 1 == Pow2(CeilLog(val + 2))
  {
    var k := FloorLog(val + 1);
    FloorLogOfWord(val + 1);
    CeilFromFloor(val + 1);
    TopBitIsTopOne(val + 1, k);
    SmearIsOnes(val + 1, k);
  }
}
