/** Powers of two and their logarithms. */
module PowersOfTwo {

  function Pow2(k: nat): (r: nat)
    ensures r > 0
  {
    if k == 0 then 1 else 2 * Pow2(k - 1)
  }

  lemma {:induction false} Pow2Monotone(a: nat, b: nat)
    requires a <= b
    ensures Pow2(a) <= Pow2(b)
    ensures a < b ==> 2 * Pow2(a) <= Pow2(b)
    decreases b
  {
    if a < b {
      Pow2Monotone(a, b - 1);
    }
  }

  /** n is a multiple of four. */
  predicate Quad(n: nat) {
    n == 0 || (n >= 4 && Quad(n - 4))
  }

  lemma {:induction false} QuadSum(a: nat, b: nat)
    requires Quad(a) && Quad(b)
    ensures Quad(a + b)
  {
    if a > 0 {
      QuadSum(a - 4, b);
    }
  }

  lemma {:induction false} QuadDifference(a: nat, b: nat)
    requires Quad(a) && Quad(b) && b <= a
    ensures Quad(a - b)
  {
    if b > 0 {
      QuadDifference(a - 4, b - 4);
    }
  }

  lemma {:induction false} QuadPow2(k: nat)
    requires k >= 2
    ensures Quad(Pow2(k)) && Pow2(k) >= 4
  {
    if k == 2 {
      assert Pow2(2) == 4;
      assert Quad(0);
    } else {
      QuadPow2(k - 1);
      QuadSum(Pow2(k - 1), Pow2(k - 1));
    }
  }

  /** Exponent of the least power of two that is at least n. */
  function CeilLog(n: nat): (k: nat)
    ensures n <= Pow2(k)
    ensures k > 0 ==> Pow2(k - 1) < n
  {
    if n <= 1 then 0 else 1 + CeilLog((n + 1) / 2)
  }

  lemma CeilLogIs(n: nat, k: nat)
    requires n <= Pow2(k)
    requires k > 0 ==> Pow2(k - 1) < n
    ensures CeilLog(n) == k
  {
    var c := CeilLog(n);
    if c < k {
      Pow2Monotone(c, k - 1);
    } else if k < c {
      Pow2Monotone(k, c - 1);
    }
  }

  /** Largest power of two not above n. */
  function FloorLog(n: nat): (k: nat)
    requires n > 0
    ensures Pow2(k) <= n < 2 * Pow2(k)
  {
    if n == 1 then 0 else 1 + FloorLog(n / 2)
  }

  lemma FloorLogBelow(n: nat, k: nat)
    requires 0 < n < Pow2(k)
    ensures FloorLog(n) < k
  {
    if FloorLog(n) >= k {
      Pow2Monotone(k, FloorLog(n));
    }
  }

  lemma FloorLogAbove(n: nat, k: nat)
    requires Pow2(k) <= n
    ensures FloorLog(n) >= k
  {
    if FloorLog(n) < k {
      Pow2Monotone(FloorLog(n) + 1, k);
    }
  }

  lemma Powers()
    ensures Pow2(2) == 4 && Pow2(8) == 0x100 && Pow2(9) == 0x200 && Pow2(13) == 0x2000 && Pow2(14) == 0x4000
    ensures Pow2(16) == 0x1_0000 && Pow2(24) == 0x100_0000 && Pow2(29) == 0x2000_0000
    ensures Pow2(30) == 0x4000_0000 && Pow2(31) == 0x8000_0000 && Pow2(32) == 0x1_0000_0000
  {
    assert Pow2(5) == 32;
    assert Pow2(8) == 0x100;
    assert Pow2(11) == 0x800;
    assert Pow2(14) == 0x4000;
    assert Pow2(17) == 0x2_0000;
    assert Pow2(20) == 0x10_0000;
    assert Pow2(23) == 0x80_0000;
    assert Pow2(26) == 0x400_0000;
    assert Pow2(29) == 0x2000_0000;
  }
}
