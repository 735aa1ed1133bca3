/**
 Transmit power arithmetic of the RT5390: rounding a quotient by stripping digits, interpolating
 power deltas between calibrated channels, and packing them as nibbles. C's division truncates
 towards zero; LONG and the ranges that occur leave no room for overflow, CHAR does and is
 modelled.
 */
module RalinkPower {
  import Arithmetic

  // ---------------------------------------------------------------- C arithmetic

  /** C's division, for a positive divisor. */
  function TDiv(a: int, b: int): int
    requires b > 0
  {
    if a >= 0 then a / b else -(-a / b)
  }

  function TMod(a: int, b: int): int
    requires b > 0
  {
    a - b * TDiv(a, b)
  }

  lemma TruncatedParts(a: int, b: int)
    requires b > 0
    ensures a == b * TDiv(a, b) + TMod(a, b)
    ensures a >= 0 ==> TDiv(a, b) >= 0 && 0 <= TMod(a, b) < b
    ensures a <= 0 ==> TDiv(a, b) <= 0 && -b < TMod(a, b) <= 0
  {
    Parts(a, b);
    Parts(-a, b);
  }

  lemma Parts(a: int, b: int)
    requires b > 0
    ensures a == b * (a / b) + a % b && 0 <= a % b < b
    ensures a >= 0 ==> a / b >= 0
  {
  }

  /** Storing into a signed char. */
  function ToChar(x: int): (c: int)
    ensures -128 <= c < 128
  {
    (x + 128) % 256 - 128
  }

  // ---------------------------------------------------------------- rounding half away from zero

  /** `r` is the integer nearest to n/d, the one farther from zero on a tie. */
  predicate HalfAway(r: int, n: int, d: int) {
    && -d <= 2 * (n - r * d) <= d
    && (n >= 0 ==> 2 * (n - r * d) < d)
    && (n <= 0 ==> -d < 2 * (n - r * d))
  }

  lemma Distribute(r: int, s: int, d: int)
    ensures (r - s) * d == r * d - s * d
  {
  }

  lemma HalfAwayUnique(r: int, s: int, n: int, d: int)
    requires d > 0 && HalfAway(r, n, d) && HalfAway(s, n, d)
    ensures r == s
  {
    Distribute(r, s, d);
    Arithmetic.SmallMultiple(d, r - s);
  }

  lemma HalfAwayMonotone(r: int, s: int, m: int, n: int, d: int)
    requires d > 0 && HalfAway(r, m, d) && HalfAway(s, n, d) && m <= n
    ensures r <= s
  {
    Distribute(r, s, d);
    if r > s {
      Arithmetic.Grows(d, r - s - 1);
    }
  }

  function Pow10(k: nat): (p: int)
    ensures p > 0
  {
    if k == 0 then 1 else 10 * Pow10(k - 1)
  }

  /** What Rounding returns for a denominator 10^k. */
  function Rounded(integer: int, fraction: int, d: int): int {
    if integer >= 0 then if 2 * fraction >= d then integer + 1 else integer
    else if 2 * -fraction >= d then integer - 1
    else integer
  }

  /** Rounding, whose loop strips the fraction to its first digit. */
  method Rounding(integer: int, fraction: int, d: int, ghost k: nat) returns (r: int)
    requires d == Pow10(k) && -d < fraction < d
    ensures r == Rounded(integer, fraction, d)
  {
    if k == 0 {
      assert d == 1;
    }
    if fraction >= 0 {
      if fraction < TDiv(d, 10) {
        return integer;
      }
    } else if -fraction < TDiv(d, 10) {
      return integer;
    }
    if fraction == 0 {
      return integer;
    }
    assert k > 0 && d == 10 * Pow10(k - 1);
    var digits := FirstDigit(fraction, k);
    if integer >= 0 {
      r := if digits >= 5 then integer + 1 else integer;
    } else {
      r := if digits <= -5 then integer - 1 else integer;
    }
  }

  /** The do-while loop: divide by ten while something is left. */
  method FirstDigit(fraction: int, ghost k: nat) returns (f: int)
    requires k > 0 && fraction != 0
    requires Pow10(k - 1) <= fraction < Pow10(k) || Pow10(k - 1) <= -fraction < Pow10(k)
    ensures f >= 5 <==> 2 * fraction >= Pow10(k)
    ensures f <= -5 <==> 2 * -fraction >= Pow10(k)
  {
    f := fraction;
    ghost var m := k;
    var temp := TDiv(f, 10);
    while temp != 0
      invariant 0 < m <= k && temp == TDiv(f, 10)
      invariant Pow10(m - 1) <= f < Pow10(m) || Pow10(m - 1) <= -f < Pow10(m)
      invariant 2 * f >= Pow10(m) <==> 2 * fraction >= Pow10(k)
      invariant 2 * -f >= Pow10(m) <==> 2 * -fraction >= Pow10(k)
      decreases m
    {
      DropDigit(f, m);
      DropDigit(-f, m);
      f := temp;
      m := m - 1;
      temp := TDiv(f, 10);
    }
    OneDigit(f, m);
    OneDigit(-f, m);
  }

  lemma DropDigit(f: int, m: nat)
    requires m > 0
    ensures Pow10(m - 1) <= f < Pow10(m) && f >= 10 ==> m > 1 && Pow10(m - 2) <= f / 10 < Pow10(m - 1)
    ensures m > 1 ==> (2 * f >= Pow10(m) <==> 2 * (f / 10) >= Pow10(m - 1))
  {
    if m > 1 {
      assert Pow10(m) == 100 * Pow10(m - 2) && Pow10(m - 1) == 10 * Pow10(m - 2);
    }
  }

  lemma OneDigit(f: int, m: nat)
    requires m > 0
    ensures Pow10(m - 1) <= f < 10 ==> m == 1 && (f >= 5 <==> 2 * f >= Pow10(m))
  {
    if m > 1 {
      assert Pow10(m - 1) == 10 * Pow10(m - 2);
    } else {
      assert Pow10(1) == 10;
    }
  }

  /** Applied to C's quotient and remainder, Rounding rounds half away from zero exactly when the quotient does not lie
      in (-1, -1/2]: there it returns 0 for -1. */
  lemma RoundedIff(n: int, d: int)
    requires d > 0
    ensures HalfAway(Rounded(TDiv(n, d), TMod(n, d), d), n, d) <==> !(-d < n && 2 * n <= -d)
  {
    TruncatedParts(n, d);
    var q, f := TDiv(n, d), TMod(n, d);
    hide TDiv, TMod;
    if q < 0 {
      RoundedNegative(n, d, q, f);
    } else {
      RoundedOther(n, d, q, f);
    }
  }

  lemma Times(q: int, d: int)
    ensures (q + 1) * d == q * d + d && (q - 1) * d == q * d - d && d * q == q * d
  {
  }

  lemma RoundedNegative(n: int, d: int, q: int, f: int)
    requires d > 0 && q < 0 && n == d * q + f && -d < f <= 0
    ensures HalfAway(Rounded(q, f, d), n, d) && n <= -d
  {
    Times(q, d);
    Arithmetic.Grows(d, -q - 1);
  }

  lemma RoundedOther(n: int, d: int, q: int, f: int)
    requires d > 0 && q >= 0 && n == d * q + f && -d < f < d && (n <= 0 ==> f <= 0) && (n >= 0 ==> f >= 0)
    requires n <= 0 ==> q == 0
    ensures HalfAway(Rounded(q, f, d), n, d) <==> !(-d < n && 2 * n <= -d)
  {
    Times(q, d);
    if q > 0 {
      Arithmetic.Grows(d, q - 1);
    }
  }

  // ---------------------------------------------------------------- the desired TSSI

  const LOWER_INDEX: int := 0
  const UPPER_INDEX: int := 24
  const TABLE_OFFSET: int := 12
  const MAX_TSSI: int := 0x7C

  /** TssiRatioTable: numerator and denominator per power delta from -12 to 12 dBm. */
  const RATIO: seq<(int, int)> := [
    (955, 10000), (1161, 10000), (1413, 10000), (1718, 10000), (2089, 10000),
    (2541, 10000), (3090, 10000), (3758, 10000), (4571, 10000), (5559, 10000),
    (6761, 10000), (8222, 10000), (1, 1), (12162, 10000), (14791, 10000),
    (17989, 10000), (21878, 10000), (26607, 10000), (32359, 10000), (39355, 10000),
    (47863, 10000), (58210, 10000), (70795, 10000), (86099, 10000), (104713, 10000)
  ]

  /** GET_TSSI_RATE_TABLE_INDEX. */
  function TableIndex(x: int): (i: int)
    ensures LOWER_INDEX <= i <= UPPER_INDEX
  {
    if x > UPPER_INDEX then UPPER_INDEX else if x < LOWER_INDEX then LOWER_INDEX else x
  }

  /** The rounded product of a TSSI base and a table ratio. */
  function Scaled(base: nat, index: int): int
    requires LOWER_INDEX <= index <= UPPER_INDEX
  {
    var n, d := base * RATIO[index].0, RATIO[index].1;
    Rounded(TDiv(n, d), TMod(n, d), d)
  }

  function Clamp(x: int): int {
    if x < 0 then 0 else if x > MAX_TSSI then MAX_TSSI else x
  }

  /** A table entry: the rounded value passes through a CHAR before the range check. */
  function Desired(base: nat, index: int): (t: int)
    requires LOWER_INDEX <= index <= UPPER_INDEX
    ensures 0 <= t <= MAX_TSSI
  {
    Clamp(ToChar(Scaled(base, index)))
  }

  /** The ratio over the common denominator 10000. */
  function Ratio(index: int): int
    requires LOWER_INDEX <= index <= UPPER_INDEX
  {
    if index == TABLE_OFFSET then 10000 else RATIO[index].0
  }

  /** The table is a geometric progression through 1, up to the rounding of its entries. */
  lemma RatioGeometric(i: int)
    requires LOWER_INDEX < i < UPPER_INDEX
    ensures -16 * Ratio(i) <= 10 * (Ratio(i) * Ratio(i) - Ratio(i - 1) * Ratio(i + 1)) <= 16 * Ratio(i)
    ensures Ratio(12) == 10000 && Ratio(13) == 12162 && LOWER_INDEX == 0 && UPPER_INDEX == 24
  {
  }

  lemma RatioIncreases(i: int, j: int)
    requires LOWER_INDEX <= i < j <= UPPER_INDEX
    ensures 0 < Ratio(i) < Ratio(j)
  {
    if j > i + 1 {
      RatioIncreases(i, j - 1);
    }
  }

  /** Every entry is the base times its ratio, rounded half away from zero. */
  lemma ScaledNearest(base: nat, index: int)
    requires LOWER_INDEX <= index <= UPPER_INDEX
    ensures HalfAway(Scaled(base, index), base * Ratio(index), 10000) && Scaled(base, index) >= 0
  {
    var n, d := base * RATIO[index].0, RATIO[index].1;
    assert n >= 0 by {
      Positive(base, RATIO[index].0);
    }
    RoundedIff(n, d);
    TruncatedParts(n, d);
    hide TDiv, TMod;
  }

  lemma Positive(a: int, b: int)
    requires a >= 0 && b >= 0
    ensures a * b >= 0
  {
  }

  lemma ScalesUp(base: nat, a: int, b: int)
    requires a <= b
    ensures base * a <= base * b
  {
    Positive(base, b - a);
    assert base * (b - a) == base * b - base * a;
  }

  /** The rounded value grows with the power index, for every base. */
  lemma ScaledMonotone(base: nat, i: int, j: int)
    requires LOWER_INDEX <= i <= j <= UPPER_INDEX
    ensures Scaled(base, i) <= Scaled(base, j)
  {
    ScaledNearest(base, i);
    ScaledNearest(base, j);
    if i < j {
      RatioIncreases(i, j);
      ScalesUp(base, Ratio(i), Ratio(j));
      HalfAwayMonotone(Scaled(base, i), Scaled(base, j), base * Ratio(i), base * Ratio(j), 10000);
    }
    hide Scaled, Ratio, HalfAway;
  }

  /** An entry is the rounded value clamped to [0, 0x7C] exactly when that value fits a signed char or its low byte
      happens to lie in 0x7C..0x7F; otherwise the truncation makes it smaller. */
  lemma DesiredIff(base: nat, index: int)
    requires LOWER_INDEX <= index <= UPPER_INDEX
    ensures var r := Scaled(base, index);
            Desired(base, index) == (if r > 0x7C then 0x7C else r) <==> r < 128 || 0x7C <= r % 256 < 128
    ensures Scaled(base, index) >= 0
  {
    ScaledNearest(base, index);
    CharThenClamp(Scaled(base, index));
    assert Clamp(Scaled(base, index)) == if Scaled(base, index) > 0x7C then 0x7C else Scaled(base, index);
    hide Scaled, Clamp, ToChar;
  }

  lemma CharThenClamp(r: int)
    requires r >= 0
    ensures Clamp(ToChar(r)) == Clamp(r) <==> r < 128 || 0x7C <= r % 256 < 128
    ensures r < 128 ==> Clamp(ToChar(r)) == Clamp(r)
  {
  }

  /** A base of 127 at 1 dBm rounds to 154, which truncates to a negative value: the entry is 0, not 0x7C. */
  lemma DesiredTruncates()
    ensures Scaled(127, 13) == 154 && Desired(127, 13) == 0
  {
  }

  lemma TableIndexMonotone(x: int, y: int)
    requires x <= y
    ensures TableIndex(x) <= TableIndex(y)
  {
  }

  /** As long as the larger value fits a signed char, more power never asks for less TSSI. */
  lemma DesiredMonotone(base: nat, x: int, y: int)
    requires x <= y && Scaled(base, TableIndex(y)) < 128
    ensures Desired(base, TableIndex(x)) <= Desired(base, TableIndex(y))
  {
    var i, j := TableIndex(x), TableIndex(y);
    hide TableIndex;
    assert i <= j by {
      TableIndexMonotone(x, y);
    }
    ScaledMonotone(base, i, j);
    ScaledNearest(base, i);
    ScaledNearest(base, j);
    CharThenClamp(Scaled(base, i));
    CharThenClamp(Scaled(base, j));
    hide Scaled, ToChar, HalfAway, Ratio;
  }

  // ---------------------------------------------------------------- interpolating between channels

  /** The integer nearest to n/d, away from zero on a tie. */
  function Nearest(n: int, d: int): int
    requires d > 0
  {
    if n >= 0 then (2 * n + d) / (2 * d) else -((2 * -n + d) / (2 * d))
  }

  lemma NearestIsHalfAway(n: int, d: int)
    requires d > 0
    ensures HalfAway(Nearest(n, d), n, d)
  {
    NearestParts(if n >= 0 then n else -n, d);
    if n < 0 {
      var q := Nearest(-n, d);
      assert -q * d == -(q * d);
    }
  }

  lemma NearestParts(n: int, d: int)
    requires d > 0 && n >= 0
    ensures HalfAway(Nearest(n, d), n, d)
  {
    var q := (2 * n + d) / (2 * d);
    Parts(2 * n + d, 2 * d);
    assert 2 * d * q == 2 * (q * d);
  }

  /** The line through two calibrated channels, rounded. */
  function Interpolated(x: int, x0: int, x1: int, y0: int, y1: int): int
    requires x0 < x1
  {
    y0 + Nearest((x - x0) * (y1 - y0), x1 - x0)
  }

  /** The first decimal of p/c is at least five exactly when the remainder is at least half of c. */
  lemma FirstDecimal(p: int, c: int)
    requires p >= 0 && c > 0
    ensures 10 * p / c % 10 >= 5 <==> 2 * (p % c) >= c
  {
    var q, r := p / c, p % c;
    var s, e := 10 * r / c, 10 * r % c;
    Parts(p, c);
    Parts(10 * r, c);
    assert 10 * p == c * (10 * q + s) + e by {
      Distribute3(c, q, s);
    }
    Arithmetic.DivModUnique(10 * p, c, 10 * q + s, e);
    FirstDecimalOf(r, c, s, e);
    assert (10 * q + s) % 10 == s;
  }

  lemma Distribute3(c: int, q: int, s: int)
    ensures c * (10 * q + s) == 10 * (c * q) + c * s
  {
  }

  lemma FirstDecimalOf(r: int, c: int, s: int, e: int)
    requires 0 <= r < c && 10 * r == c * s + e && 0 <= e < c
    ensures 0 <= s < 10 && (s >= 5 <==> 2 * r >= c)
  {
    if s >= 10 {
      ScalesUp(c, 10, s);
    } else if s < 0 {
      ScalesUp(c, s, -1);
    } else if s < 5 {
      ScalesUp(c, s + 1, 5);
    } else {
      ScalesUp(c, 5, s);
    }
  }

  lemma RoundedQuotient(n: int, d: int)
    requires d > 0 && n >= 0
    ensures Nearest(n, d) == n / d + if 2 * (n % d) >= d then 1 else 0
  {
    var r := n / d + if 2 * (n % d) >= d then 1 else 0;
    Parts(n, d);
    Times(n / d, d);
    NearestIsHalfAway(n, d);
    assert HalfAway(r, n, d);
    HalfAwayUnique(Nearest(n, d), r, n, d);
  }

  /** The interpolation is exact at both ends. */
  lemma InterpolatedEnds(x0: int, x1: int, y0: int, y1: int)
    requires x0 < x1
    ensures Interpolated(x0, x0, x1, y0, y1) == y0 && Interpolated(x1, x0, x1, y0, y1) == y1
  {
    var c := x1 - x0;
    var n := c * (y1 - y0);
    NearestIsHalfAway(0, c);
    HalfAwayUnique(Nearest(0, c), 0, 0, c);
    NearestIsHalfAway(n, c);
    assert (y1 - y0) * c == n;
    HalfAwayUnique(Nearest(n, c), y1 - y0, n, c);
  }

  /** It follows the slope of the line from channel to channel. */
  lemma InterpolatedMonotone(x: int, z: int, x0: int, x1: int, y0: int, y1: int)
    requires x0 < x1 && x <= z
    ensures y0 <= y1 ==> Interpolated(x, x0, x1, y0, y1) <= Interpolated(z, x0, x1, y0, y1)
    ensures y0 >= y1 ==> Interpolated(x, x0, x1, y0, y1) >= Interpolated(z, x0, x1, y0, y1)
  {
    var c, u := x1 - x0, y1 - y0;
    var m, n := (x - x0) * u, (z - x0) * u;
    NearestIsHalfAway(m, c);
    NearestIsHalfAway(n, c);
    assert n - m == (z - x) * u;
    if u >= 0 {
      Positive(z - x, u);
      HalfAwayMonotone(Nearest(m, c), Nearest(n, c), m, n, c);
    } else {
      Positive(z - x, -u);
      assert (z - x) * -u == -(n - m);
      HalfAwayMonotone(Nearest(n, c), Nearest(m, c), n, m, c);
    }
  }

  /** So between the ends it lies between their values. */
  lemma InterpolatedBetween(x: int, x0: int, x1: int, y0: int, y1: int)
    requires x0 < x1 && x0 <= x <= x1
    ensures var y := Interpolated(x, x0, x1, y0, y1); y0 <= y <= y1 || y1 <= y <= y0
  {
    InterpolatedEnds(x0, x1, y0, y1);
    InterpolatedMonotone(x0, x, x0, x1, y0, y1);
    InterpolatedMonotone(x, x1, x0, x1, y0, y1);
    hide Interpolated;
  }

  /** And within half a unit of the true line. */
  lemma InterpolatedNear(x: int, x0: int, x1: int, y0: int, y1: int)
    requires x0 < x1
    ensures var c := x1 - x0;
            -c <= 2 * ((x - x0) * (y1 - y0) - (Interpolated(x, x0, x1, y0, y1) - y0) * c) <= c
  {
    NearestIsHalfAway((x - x0) * (y1 - y0), x1 - x0);
  }

  /** RTATEInsertTssi: the first decimal of the quotient decides the rounding. */
  method InsertTssi(inChannel: nat, channel0: nat, channel1: nat, tssi0: int, tssi1: int) returns (tssi: int)
    requires channel0 <= inChannel <= channel1 && channel0 < channel1 && channel1 - channel0 < 128
    requires -128 <= tssi0 < 128 && -128 <= tssi1 < 128 && -128 <= tssi1 - tssi0 < 128
    ensures tssi == Interpolated(inChannel, channel0, channel1, tssi0, tssi1)
  {
    ToCharId(channel1 - channel0);
    ToCharId(inChannel - channel0);
    ToCharId(tssi1 - tssi0);
    hide TDiv, TMod, Nearest, ToChar;
    var channelDelta := ToChar(channel1 - channel0);
    var inDelta := ToChar(inChannel - channel0);
    var tssiDelta := ToChar(tssi1 - tssi0);
    if tssiDelta > 0 && TMod(TDiv(inDelta * tssiDelta * 10, channelDelta), 10) >= 5 {
      tssi := ToChar(tssi0 + TDiv(inDelta * tssiDelta, channelDelta));
      tssi := ToChar(tssi + 1);
    } else if tssiDelta < 0 && TMod(TDiv(inDelta * tssiDelta * 10, channelDelta), 10) <= -5 {
      tssi := ToChar(tssi0 + TDiv(inDelta * tssiDelta, channelDelta));
      tssi := ToChar(tssi - 1);
    } else {
      tssi := ToChar(tssi0 + TDiv(inDelta * tssiDelta, channelDelta));
    }
    StepToNearest(inDelta, tssiDelta, channelDelta);
    InterpolatedBetween(inChannel, channel0, channel1, tssi0, tssi1);
    ToCharPlus(tssi0 + TDiv(inDelta * tssiDelta, channelDelta));
    ToCharId(Interpolated(inChannel, channel0, channel1, tssi0, tssi1));
  }

  lemma ToCharPlus(a: int)
    ensures ToChar(ToChar(a) + 1) == ToChar(a + 1) && ToChar(ToChar(a) - 1) == ToChar(a - 1)
  {
  }

  lemma ToCharId(a: int)
    ensures -128 <= a < 128 ==> ToChar(a) == a
  {
  }

  /** The truncated quotient, moved by one when its first decimal says so, is the nearest integer. */
  lemma StepToNearest(x: int, u: int, c: int)
    requires 0 <= x <= c && c > 0
    ensures Nearest(x * u, c) == TDiv(x * u, c) +
            if u > 0 && TMod(TDiv(x * u * 10, c), 10) >= 5 then 1
            else if u < 0 && TMod(TDiv(x * u * 10, c), 10) <= -5 then -1
            else 0
  {
    var p := x * u;
    if u >= 0 {
      Positive(x, u);
      FirstDecimal(p, c);
      RoundedQuotient(p, c);
      TenTimes(p, c);
    } else {
      Positive(x, -u);
      assert x * -u == -p;
      FirstDecimal(-p, c);
      RoundedQuotient(-p, c);
      TenTimes(-p, c);
    }
  }

  lemma Signs(n: int, c: int)
    requires n >= 0 && c > 0
    ensures TDiv(n, c) == n / c && TDiv(-n, c) == -(n / c)
    ensures TMod(n, c) == n % c && TMod(-n, c) == -(n % c)
    ensures Nearest(-n, c) == -Nearest(n, c)
  {
  }

  lemma TenTimes(p: int, c: int)
    requires p >= 0 && c > 0
    ensures TDiv(p * 10, c) == 10 * p / c && TMod(TDiv(p * 10, c), 10) == 10 * p / c % 10
    ensures TDiv(-p * 10, c) == -(10 * p / c) && TMod(TDiv(-p * 10, c), 10) == -(10 * p / c % 10)
    ensures TDiv(-p, c) == -(p / c) && Nearest(-p, c) == -Nearest(p, c)
  {
    hide TDiv, TMod, Nearest;
    assert p * 10 == 10 * p && -p * 10 == -(10 * p);
    Signs(p, c);
    Signs(10 * p, c);
    Signs(10 * p / c, 10);
  }
}
