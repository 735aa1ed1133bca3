/** Facts about quotients the other modules share. */
module Arithmetic {

  /** A quotient and a remainder below the divisor are the quotient and the remainder. */
  lemma DivModUnique(x: int, p: int, q: int, r: int)
    requires 0 <= r < p && x == p * q + r
    ensures x / p == q && x % p == r
  {
    var d, e := x / p, x % p;
    assert p * d + e == x;
    assert p * (d - q) == r - e by {
      assert p * (d - q) == p * d - p * q;
    }
    SmallMultiple(p, d - q);
  }

  lemma SmallMultiple(p: int, z: int)
    requires p > 0 && -p < p * z < p
    ensures z == 0
  {
    Grows(p, z - 1);
    Grows(p, -z - 1);
  }

  lemma Grows(p: int, z: int)
    requires p > 0
    ensures z >= 0 ==> p * (z + 1) >= p && p * (-z - 1) <= -p
  {
    if z >= 0 {
      assert p * z >= 0;
    }
  }
}
