/** Facts about quotients and remainders. */
module Arithmetic {
  lemma MulLe(g: int, a: int, b: int)
    requires g > 0
    ensures a <= b <==> g * a <= g * b
  {
    if a < b {
      assert g * (b - a) > 0;
    } else if b < a {
      assert g * (a - b) > 0;
    }
  }

  lemma SmallMultiple(g: int, k: int)
    requires g > 0 && -g < g * k < g
    ensures k == 0
  {
    MulLe(g, 1, k);
    MulLe(g, k, -1);
  }

  /** Quotient and remainder are determined by x == g * q + r. */
  lemma DivModUnique(x: int, g: int, q: int, r: int)
    requires g > 0 && x == g * q + r && 0 <= r < g
    ensures x / g == q && x % g == r
  {
    var k := x / g - q;
    assert g * k == g * (x / g) - g * q;
    SmallMultiple(g, k);
  }

  lemma DivMod(x: int, g: int)
    requires g > 0
    ensures x % g + g * (x / g) == x
  {
  }

  lemma ModShift(a: int, k: int, g: int)
    requires g > 0
    ensures (a + g * k) % g == a % g
  {
    assert a + g * k == g * (a / g + k) + a % g by {
      assert g * (a / g + k) == g * (a / g) + g * k;
    }
    DivModUnique(a + g * k, g, a / g + k, a % g);
  }

  lemma ModAdd(a: int, b: int, g: int)
    requires g > 0
    ensures (a % g + b) % g == (a + b) % g
  {
    assert a % g + b == (a + b) + g * -(a / g);
    ModShift(a + b, -(a / g), g);
  }

  lemma DivBound(x: int, g: int, n: int)
    requires g > 0 && 0 <= x < g * n
    ensures 0 <= x / g < n
  {
    MulLe(g, n, x / g);
  }

  lemma MixedBound(lo: int, hi: int, g: int, n: int)
    requires 0 <= lo < g && 0 <= hi < n
    ensures 0 <= lo + g * hi < g * n
  {
    MulLe(g, hi, n - 1);
    assert g * (n - 1) == g * n - g;
  }

  /** g * a <= x < g * b bounds the quotient. */
  lemma DivRange(x: int, g: int, a: int, b: int)
    requires g > 0 && g * a <= x < g * b
    ensures a <= x / g < b
  {
    MulLe(g, b, x / g);
    MulLe(g, x / g + 1, a);
    assert g * (x / g + 1) == g * (x / g) + g;
  }

  /** The integers 0, ..., n - 1. */
  function Below(n: int): (r: set<int>)
    ensures forall i :: i in r <==> 0 <= i < n
    ensures n >= 0 ==> |r| == n
  {
    if n <= 0 then {} else Below(n - 1) + {n - 1}
  }

  // ---- Reals -----------------------------------------------------------

  lemma RealMulLt(g: real, a: real, b: real)
    requires g > 0.0
    ensures a < b <==> a * g < b * g
    ensures a <= b <==> a * g <= b * g
  {
    if a < b {
      assert (b - a) * g > 0.0;
    } else if b < a {
      assert (a - b) * g > 0.0;
    }
  }

  lemma FloorBounds(x: real, i: int)
    ensures i <= x.Floor <==> i as real <= x
  {
  }

  lemma RealDivMul(x: real, g: real)
    requires g != 0.0
    ensures x / g * g == x
  {
  }
}
