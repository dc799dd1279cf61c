// What it means for a single precision result to be correctly rounded, and
// why a few significand bits and a sticky bit are enough to find it.

module Rounding {

  function Pow2(n: nat): (r: nat)
    ensures r > 0
  {
    if n == 0 then 1 else 2 * Pow2(n - 1)
  }

  lemma {:induction false} Pow2Adds(a: nat, b: nat)
    ensures Pow2(a + b) == Pow2(a) * Pow2(b)
    decreases a
  {
    if a == 0 {
      assert Pow2(a) == 1;
    } else {
      Pow2Adds(a - 1, b);
      assert Pow2(a + b) == 2 * Pow2(a - 1 + b) == 2 * (Pow2(a - 1) * Pow2(b));
    }
  }

  lemma Pow2Grows(a: nat, b: nat)
    requires a <= b
    ensures Pow2(a) <= Pow2(b)
  {
    Pow2Adds(a, b - a);
    assert Pow2(a) * Pow2(b - a) >= Pow2(a) by {
      assert Pow2(b - a) >= 1;
      Scale(1, Pow2(b - a), Pow2(a));
    }
  }

  /** Multiplying by something positive keeps the order. */
  lemma Scale(x: int, y: int, d: int)
    requires d > 0
    ensures x < y <==> x * d < y * d
    ensures x <= y <==> x * d <= y * d
  {
    if x < y {
      assert (y - x) * d > 0;
    } else {
      assert (x - y) * d >= 0;
    }
  }

  // ---- The format ----

  const ONE: nat := 0x80_0000     // the hidden bit
  const INF: nat := 0x7F80_0000   // the magnitude bits of infinity

  /**
   * The value of a magnitude (all bits but the sign) as a multiple of the smallest subnormal number.
   * Infinity gets the value it would have if the format went on: that is what overflow is measured by.
   */
  function Units(z: nat): nat {
    var e, f := z / ONE, z % ONE;
    if e == 0 then f else (ONE + f) * Pow2(e - 1)
  }

  lemma UnitsSplit(z: nat, e: nat, f: nat)
    requires z == e * ONE + f && f < ONE
    ensures Units(z) == if e == 0 then f else (ONE + f) * Pow2(e - 1)
  {
    hide Pow2;
    assert z / ONE == e && z % ONE == f;
  }

  /** The magnitudes with exponent e + 1, and for e = 0 also the subnormal ones. */
  lemma UnitsOf(e: nat, m: nat)
    requires m <= 2 * ONE && (e > 0 ==> m >= ONE)
    ensures Units(e * ONE + m) == m * Pow2(e)
  {
    hide Units;
    if m < ONE {
      UnitsSplit(m, 0, m);
    } else if m < 2 * ONE {
      UnitsSplit(e * ONE + m, e + 1, m - ONE);
    } else {
      UnitsSplit(e * ONE + m, e + 2, 0);
      Doubled(ONE, e);
    }
  }

  lemma Doubled(x: nat, e: nat)
    ensures x * Pow2(e + 1) == (2 * x) * Pow2(e)
  {
    assert Pow2(e + 1) == 2 * Pow2(e);
  }

  lemma UnitsStep(z: nat)
    ensures Units(z) < Units(z + 1)
  {
    var e, f := z / ONE, z % ONE;
    if e == 0 {
      UnitsOf(0, f);
      UnitsOf(0, f + 1);
    } else {
      assert z == (e - 1) * ONE + (ONE + f);
      UnitsOf(e - 1, ONE + f);
      UnitsOf(e - 1, ONE + f + 1);
      Scale(ONE + f, ONE + f + 1, Pow2(e - 1));
    }
  }

  lemma {:induction false} UnitsGrow(y: nat, z: nat)
    requires y < z
    ensures Units(y) < Units(z)
    decreases z
  {
    UnitsStep(z - 1);
    if y < z - 1 {
      UnitsGrow(y, z - 1);
    }
  }

  // ---- Correct rounding of the exact magnitude p / q ----

  datatype Direction = ToNearest | Truncate | Away

  function Distance(z: nat, p: nat, q: nat): nat {
    if Units(z) * q >= p then Units(z) * q - p else p - Units(z) * q
  }

  /** No other magnitude is nearer, and none is as near unless z is even. */
  ghost predicate NearestEven(z: nat, p: nat, q: nat) {
    && z <= INF
    && forall y: nat :: y <= INF && y != z ==> Distance(z, p, q) <= Distance(y, p, q) && (Distance(y, p, q) == Distance(z, p, q) ==> z % 2 == 0)
  }

  /** The magnitude a direction demands: the nearest, the last finite one not above, or the first one not below. */
  ghost predicate Rounded(dir: Direction, z: nat, p: nat, q: nat) {
    match dir
    case ToNearest => NearestEven(z, p, q)
    case Truncate => z < INF && Units(z) * q <= p && forall y: nat :: z < y < INF ==> p < Units(y) * q
    case Away => z <= INF && (z < INF ==> p <= Units(z) * q) && forall y: nat :: y < z ==> Units(y) * q < p
  }

  /** There is only one such magnitude. */
  lemma RoundedUnique(dir: Direction, x: nat, z: nat, p: nat, q: nat)
    requires q > 0 && Rounded(dir, x, p, q) && Rounded(dir, z, p, q)
    ensures x == z
  {
    if x < z {
      RoundedNotBelow(dir, x, z, p, q);
    } else if z < x {
      RoundedNotBelow(dir, z, x, p, q);
    }
  }

  lemma BetweenIsNearer(x: nat, y: nat, z: nat, p: nat, q: nat)
    requires q > 0 && x < y < z
    ensures Distance(y, p, q) < Distance(x, p, q) || Distance(y, p, q) < Distance(z, p, q)
  {
    UnitsGrow(x, y);
    UnitsGrow(y, z);
    hide Units, Pow2;
    Scale(Units(x), Units(y), q);
    Scale(Units(y), Units(z), q);
  }

  lemma NearestUnique(x: nat, z: nat, p: nat, q: nat)
    requires q > 0 && NearestEven(x, p, q) && NearestEven(z, p, q)
    ensures x >= z
  {
    if x < z {
      hide Units, Distance;
      assert Distance(x, p, q) == Distance(z, p, q);
      assert x % 2 == 0 && z % 2 == 0;
      BetweenIsNearer(x, x + 1, z, p, q);
    }
  }

  lemma RoundedNotBelow(dir: Direction, x: nat, z: nat, p: nat, q: nat)
    requires q > 0 && Rounded(dir, x, p, q) && x < z && (dir.Truncate? ==> z < INF) && z <= INF
    ensures !Rounded(dir, z, p, q)
  {
    if dir.ToNearest? {
      hide NearestEven;
      if Rounded(dir, z, p, q) {
        NearestUnique(x, z, p, q);
      }
    } else {
      UnitsGrow(x, z);
      hide Units;
      Scale(Units(x), Units(z), q);
    }
  }

  /** What is representable rounds to itself. */
  lemma ExactRounds(dir: Direction, z: nat, x: nat, p: nat, q: nat)
    requires q > 0 && Rounded(dir, z, p, q) && x < INF && Units(x) * q == p
    ensures z == x
  {
    if dir.ToNearest? {
      if z != x {
        assert Distance(z, p, q) <= Distance(x, p, q) == 0;
        if z < x { UnitsGrow(z, x); Scale(Units(z), Units(x), q); } else { UnitsGrow(x, z); Scale(Units(x), Units(z), q); }
      }
    } else if z < x {
      UnitsGrow(z, x);
      Scale(Units(z), Units(x), q);
    } else if x < z {
      UnitsGrow(x, z);
      Scale(Units(x), Units(z), q);
    }
  }

  /** Rounding seen from z alone: p / q lies between the midpoints, or the neighbours, of z. */
  predicate LocallyRounded(dir: Direction, z: nat, p: nat, q: nat) {
    match dir
    case ToNearest =>
      && z <= INF
      && (z > 0 ==> 2 * p >= (Units(z - 1) + Units(z)) * q && (2 * p == (Units(z - 1) + Units(z)) * q ==> z % 2 == 0))
      && (z < INF ==> 2 * p <= (Units(z) + Units(z + 1)) * q && (2 * p == (Units(z) + Units(z + 1)) * q ==> z % 2 == 0))
    case Truncate => z < INF && Units(z) * q <= p && (z + 1 < INF ==> p < Units(z + 1) * q)
    case Away => z <= INF && (z < INF ==> p <= Units(z) * q) && (z > 0 ==> Units(z - 1) * q < p)
  }

  lemma Distributes(a: int, b: int, q: int)
    ensures (a + b) * q == a * q + b * q
  {
  }

  lemma NearBelow(y: nat, z: nat, p: nat, q: nat)
    requires q > 0 && y < z && 2 * p >= (Units(z - 1) + Units(z)) * q
    ensures Distance(z, p, q) <= Distance(y, p, q)
    ensures Distance(z, p, q) == Distance(y, p, q) ==> 2 * p == (Units(z - 1) + Units(z)) * q
  {
    hide Units, Pow2;
    UnitsStep(z - 1);
    if y < z - 1 {
      UnitsGrow(y, z - 1);
    }
    Scale(Units(z - 1), Units(z), q);
    Scale(Units(y), Units(z - 1), q);
    Distributes(Units(z - 1), Units(z), q);
  }

  lemma NearAbove(y: nat, z: nat, p: nat, q: nat)
    requires q > 0 && z < y && 2 * p <= (Units(z) + Units(z + 1)) * q
    ensures Distance(z, p, q) <= Distance(y, p, q)
    ensures Distance(z, p, q) == Distance(y, p, q) ==> 2 * p == (Units(z) + Units(z + 1)) * q
  {
    hide Units, Pow2;
    UnitsStep(z);
    if z + 1 < y {
      UnitsGrow(z + 1, y);
    }
    Scale(Units(z), Units(z + 1), q);
    Scale(Units(z + 1), Units(y), q);
    Distributes(Units(z), Units(z + 1), q);
  }

  lemma LocallyIsEnough(dir: Direction, z: nat, p: nat, q: nat)
    requires q > 0 && LocallyRounded(dir, z, p, q)
    ensures Rounded(dir, z, p, q)
  {
    match dir
    case ToNearest =>
      forall y: nat | y <= INF && y != z
        ensures Distance(z, p, q) <= Distance(y, p, q) && (Distance(y, p, q) == Distance(z, p, q) ==> z % 2 == 0)
      {
        if y < z {
          NearBelow(y, z, p, q);
        } else {
          NearAbove(y, z, p, q);
        }
      }
    case Truncate =>
      forall y: nat | z < y < INF ensures p < Units(y) * q {
        if z + 1 < y {
          UnitsGrow(z + 1, y);
          Scale(Units(z + 1), Units(y), q);
        }
      }
    case Away =>
      forall y: nat | y < z ensures Units(y) * q < p {
        if y < z - 1 {
          UnitsGrow(y, z - 1);
          Scale(Units(y), Units(z - 1), q);
        }
      }
  }

  // ---- Significands that stand for an exact value ----

  predicate AgreesAt(sig: int, n: int, d: int, b: int) {
    (n < b * d <==> sig < b) && (n == b * d <==> sig == b)
  }

  predicate Divides(g: int, b: int)
    requires g > 0
  {
    b % g == 0
  }

  /** Compared with any multiple of g, the integer sig and the fraction n / d come out the same. */
  ghost predicate Agrees(sig: int, n: int, d: int, g: int)
    requires g > 0
  {
    forall b: int :: Divides(g, b) ==> AgreesAt(sig, n, d, b)
  }

  lemma AgreesExactly(sig: int, d: int, g: int)
    requires d > 0 && g > 0
    ensures Agrees(sig, sig * d, d, g)
  {
    forall b: int | Divides(g, b) ensures AgreesAt(sig, sig * d, d, b) {
      Scale(sig, b, d);
      Scale(b, sig, d);
    }
  }

  lemma Swap(b: int, d: int, e: int)
    ensures (b * d) * e == (b * e) * d
  {
  }

  lemma CrossScaled(n: int, x: int, d2: int, n2: int, y: int, d: int)
    requires d > 0 && d2 > 0 && n * d2 == n2 * d && x * d2 == y * d
    ensures n < x <==> n2 < y
    ensures n == x <==> n2 == y
  {
    Scale(n, x, d2);
    Scale(x, n, d2);
    Scale(n2, y, d);
    Scale(y, n2, d);
  }

  /** The same fraction, written differently. */
  lemma AgreesRescaled(sig: int, n: int, d: int, n2: int, d2: int, g: int)
    requires g > 0 && d > 0 && d2 > 0 && Agrees(sig, n, d, g) && n * d2 == n2 * d
    ensures Agrees(sig, n2, d2, g)
  {
    hide Divides;
    forall b: int | Divides(g, b) ensures AgreesAt(sig, n2, d2, b) {
      assert AgreesAt(sig, n, d, b);
      Swap(b, d, d2);
      CrossScaled(n, b * d, d2, n2, b * d2, d);
    }
  }

  lemma AgreesCoarser(sig: int, n: int, d: int, g: int, k: int)
    requires g > 0 && k > 0 && Agrees(sig, n, d, g)
    ensures g * k > 0 && Agrees(sig, n, d, g * k)
  {
    assert g * k > 0;
    forall b: int | Divides(g * k, b) ensures AgreesAt(sig, n, d, b) {
      var c := b / (g * k);
      assert b == g * (k * c) by {
        assert b == (g * k) * c;
      }
      MultipleOf(k * c, g);
    }
  }

  lemma MultipleOf(c: int, g: int)
    requires g > 0
    ensures (g * c) % g == 0
  {
    if c >= 0 {
      MultipleOfNat(c, g);
    } else {
      MultipleOfNat(-c, g);
      var m := g * -c;
      assert m == (m / g) * g;
      assert g * c == -(m / g) * g;
      DivModUnique(g * c, g, -(m / g), 0);
    }
  }

  lemma {:induction false} MultipleOfNat(c: nat, g: int)
    requires g > 0
    ensures (g * c) % g == 0
    decreases c
  {
    if c > 0 {
      MultipleOfNat(c - 1, g);
      var m := g * (c - 1);
      assert g * c == m + g;
      assert m == (m / g) * g;
      DivModUnique(g * c, g, m / g + 1, 0);
    } else {
      assert g * c == 0;
    }
  }

  lemma DivModUnique(x: int, d: int, k: int, r: int)
    requires d > 0 && x == k * d + r && 0 <= r < d
    ensures x / d == k && x % d == r
  {
    var k2, r2 := x / d, x % d;
    assert x == k2 * d + r2;
    if k > k2 {
      Scale(k2 + 1, k, d);
      Distributes(k2, 1, d);
    } else if k < k2 {
      Scale(k + 1, k2, d);
      Distributes(k, 1, d);
    }
  }

  /** Doubling a significand doubles the grain of what it can be compared with. */
  lemma AgreesDoubled(sig: int, n: int, d: int, g: int)
    requires g > 0 && Agrees(sig, n, d, g)
    ensures Agrees(2 * sig, 2 * n, d, 2 * g)
  {
    forall b: int | Divides(2 * g, b) ensures AgreesAt(2 * sig, 2 * n, d, b) {
      var c := b / (2 * g);
      assert b == 2 * (g * c);
      MultipleOf(c, g);
      assert AgreesAt(sig, n, d, g * c);
      assert b * d == 2 * (g * c * d);
    }
  }

  /** Adding a multiple of the grain, or subtracting from one, keeps the agreement. */
  lemma AgreesMoved(sig: int, n: int, d: int, g: int, a: int)
    requires g > 0 && a % g == 0 && Agrees(sig, n, d, g)
    ensures Agrees(a + sig, a * d + n, d, g)
    ensures Agrees(a - sig, a * d - n, d, g)
  {
    forall b: int | Divides(g, b) ensures AgreesAt(a + sig, a * d + n, d, b) && AgreesAt(a - sig, a * d - n, d, b) {
      MultiplesSubtract(b, a, g);
      MultiplesSubtract(a, b, g);
      assert AgreesAt(sig, n, d, b - a) && AgreesAt(sig, n, d, a - b);
      assert (b - a) * d == b * d - a * d;
      assert (a - b) * d == a * d - b * d;
    }
  }

  lemma MultiplesSubtract(b: int, a: int, g: int)
    requires g > 0 && b % g == 0 && a % g == 0
    ensures (b - a) % g == 0
  {
    assert b == (b / g) * g && a == (a / g) * g;
    assert b - a == (b / g - a / g) * g + 0;
    DivModUnique(b - a, g, b / g - a / g, 0);
  }

  /** Halving n times and remembering in the last bit that something was lost. */
  function Sticky(sig: nat, n: nat): nat {
    var s, lost := sig / Pow2(n), sig % Pow2(n) != 0;
    if lost && s % 2 == 0 then s + 1 else s
  }

  /** A shift with a sticky bit compares with even numbers as the unshifted significand does with their multiples. */
  lemma StickyCompares(sig: nat, n: nat, b: int)
    requires b % 2 == 0
    ensures Sticky(sig, n) < b <==> sig < b * Pow2(n)
    ensures Sticky(sig, n) == b <==> sig == b * Pow2(n)
  {
    var t := Pow2(n);
    var s, r := sig / t, sig % t;
    assert sig == s * t + r;
    if s < b {
      assert s + 1 <= b;
      Scale(s + 1, b, t);
      assert (s + 1) * t == s * t + t;
    } else if s > b {
      Scale(b, s, t);
    }
  }

  lemma AgreesShifted(sig: nat, n: int, d: int, g: int, count: nat)
    requires g > 0 && g % 2 == 0 && d > 0 && Agrees(sig, n, d, g)
    ensures d * Pow2(count) > 0 && Agrees(Sticky(sig, count), n, d * Pow2(count), g)
  {
    var t := Pow2(count);
    Scale(0, d, t);
    forall b: int | Divides(g, b) ensures AgreesAt(Sticky(sig, count), n, d * t, b) {
      EvenMultiple(b, g);
      StickyCompares(sig, count, b);
      hide Sticky, Pow2;
      MultipleTimes(b, t, g);
      assert AgreesAt(sig, n, d, b * t);
      Reorder(b, t, d);
    }
  }

  lemma EvenMultiple(b: int, g: int)
    requires g > 0 && g % 2 == 0 && b % g == 0
    ensures b % 2 == 0
  {
    var c, h := b / g, g / 2;
    assert b == c * g && g == 2 * h;
    assert b == 2 * (c * h);
  }

  lemma Reorder(b: int, t: int, d: int)
    ensures b * t * d == b * (d * t)
  {
  }

  lemma MultipleTimes(b: int, t: int, g: int)
    requires g > 0 && b % g == 0
    ensures (b * t) % g == 0
  {
    var c := b / g;
    assert b == g * c;
    assert b * t == g * (c * t) by {
      assert (g * c) * t == g * (c * t);
    }
    MultipleOf(c * t, g);
  }

  // ---- Rounding a significand with seven bits to spare ----

  function Increment(dir: Direction): nat {
    match dir
    case ToNearest => 64
    case Truncate => 0
    case Away => 127
  }

  /** Adding the increment and dropping seven bits; a tie clears the last bit. */
  function RoundedSig(dir: Direction, sig: nat): nat {
    var m := (sig + Increment(dir)) / 128;
    if dir.ToNearest? && sig % 128 == 64 && m % 2 == 1 then m - 1 else m
  }

  lemma RoundedSigBounds(dir: Direction, sig: nat)
    ensures Drops(dir, RoundedSig(dir, sig), sig)
    ensures sig % 128 == 0 <==> sig == 128 * RoundedSig(dir, sig)
  {
    var k, r := sig / 128, sig % 128;
    assert sig == 128 * k + r && (sig + Increment(dir)) / 128 == if r + Increment(dir) < 128 then k else k + 1;
  }

  /** Twice the exact value against j half steps, read off the significand. */
  lemma HalfSteps(sig: int, p: int, u: int, j: int)
    requires Agrees(sig, 128 * p, u, 64)
    ensures 2 * p < j * u <==> sig < 64 * j
    ensures 2 * p == j * u <==> sig == 64 * j
  {
    assert AgreesAt(sig, 128 * p, u, 64 * j);
    hide Agrees;
    Regroup(64, j, u);
  }

  lemma HalfStepsAround(m: int, i: int, u: int)
    ensures (2 * m + i) * u == 2 * (m * u) + i * u
  {
  }

  /** The same, i half steps away from m whole ones. */
  lemma HalfStepsFrom(sig: int, p: int, u: int, m: int, i: int)
    requires Agrees(sig, 128 * p, u, 64)
    ensures 2 * p < 2 * (m * u) + i * u <==> sig < 64 * (2 * m + i)
    ensures 2 * p == 2 * (m * u) + i * u <==> sig == 64 * (2 * m + i)
  {
    HalfSteps(sig, p, u, 2 * m + i);
    HalfStepsAround(m, i, u);
  }

  lemma UnitsAround(e: nat, m: nat)
    requires m <= 2 * ONE && (e > 0 ==> m >= ONE)
    ensures Units(e * ONE + m) == m * Pow2(e)
    ensures Units(e * ONE + m + 1) >= (m + 1) * Pow2(e)
    ensures m > 0 && !(e > 0 && m == ONE) ==> Units(e * ONE + m - 1) == (m - 1) * Pow2(e)
    ensures m > 0 && e > 0 && m == ONE ==> Units(e * ONE + m - 1) < m * Pow2(e)
  {
    hide Units;
    UnitsOf(e, m);
    if m < 2 * ONE {
      UnitsOf(e, m + 1);
    } else {
      UnitsOf(e + 1, ONE + 1);
      Doubled(ONE + 1, e);
      assert e * ONE + m + 1 == (e + 1) * ONE + (ONE + 1);
      Scale(m + 1, 2 * (ONE + 1), Pow2(e));
    }
    if m > 0 {
      if e > 0 && m == ONE {
        UnitsStep(e * ONE + m - 1);
      } else {
        UnitsOf(e, m - 1);
      }
    }
  }

  /** A rounded significand packed with its exponent is the correctly rounded magnitude, and the low bits tell whether it is exact. */
  lemma PackedIsRounded(dir: Direction, e: nat, sig: nat, p: nat, q: nat)
    requires q > 0 && sig < 256 * ONE && (e > 0 ==> sig >= 128 * ONE)
    requires Agrees(sig, 128 * p, q * Pow2(e), 64)
    requires var z := e * ONE + RoundedSig(dir, sig); if dir.Truncate? then z < INF else z <= INF
    ensures var z := e * ONE + RoundedSig(dir, sig);
      && LocallyRounded(dir, z, p, q)
      && (dir.Truncate? ==> p < Units(z + 1) * q)
      && (Units(z) * q == p <==> sig % 128 == 0)
  {
    hide *;
    var m, t := RoundedSig(dir, sig), Pow2(e);
    var z := e * ONE + m;
    RoundedSigBounds(dir, sig);
    RoundedSigRange(dir, e, sig);
    UnitsAround(e, m);
    Scale(0, q, t);
    PackedNear(dir, e, sig, m, t, z, p, q);
  }

  lemma RoundedSigRange(dir: Direction, e: nat, sig: nat)
    requires sig < 256 * ONE && (e > 0 ==> sig >= 128 * ONE)
    ensures RoundedSig(dir, sig) <= 2 * ONE && (e > 0 ==> RoundedSig(dir, sig) >= ONE)
  {
  }

  lemma PackedNear(dir: Direction, e: nat, sig: nat, m: nat, t: nat, z: nat, p: nat, q: nat)
    requires q > 0 && t > 0 && z == e * ONE + m && (e > 0 ==> m >= ONE && sig >= 128 * ONE)
    requires if dir.Truncate? then z < INF else z <= INF
    requires Agrees(sig, 128 * p, q * t, 64)
    requires Drops(dir, m, sig)
    requires sig % 128 == 0 <==> sig == 128 * m
    requires Units(z) == m * t && Units(z + 1) >= (m + 1) * t
    requires m > 0 ==> if e > 0 && m == ONE then Units(z - 1) < m * t else Units(z - 1) == (m - 1) * t
    ensures LocallyRounded(dir, z, p, q)
    ensures dir.Truncate? ==> p < Units(z + 1) * q
    ensures Units(z) * q == p <==> sig % 128 == 0
  {
    hide *;
    SameParity(e, m);
    Scale(0, q, t);
    StepsReadOff(sig, p, q * t, m);
    var first, down := e > 0 && m == ONE, if m > 0 then Units(z - 1) else 0;
    Neighbours(m, t, q, Units(z), down, Units(z + 1), first);
    PackedLocally(dir, z, m, q * t, m * (q * t), sig, p, down * q, Units(z + 1) * q, first);
    FromProducts(dir, z, p, q, down * q, m * (q * t), Units(z + 1) * q);
  }

  /** Where the exact value lies among the half steps around x, in steps of size u, can be read off the significand. */
  predicate StepsRead(sig: int, p: int, u: int, x: int, m: int) {
    && (2 * p < 2 * x - 2 * u <==> sig < 64 * (2 * m - 2))
    && (2 * p == 2 * x - 2 * u <==> sig == 64 * (2 * m - 2))
    && (2 * p < 2 * x - u <==> sig < 64 * (2 * m - 1))
    && (2 * p == 2 * x - u <==> sig == 64 * (2 * m - 1))
    && (2 * p < 2 * x <==> sig < 64 * (2 * m))
    && (2 * p == 2 * x <==> sig == 64 * (2 * m))
    && (2 * p < 2 * x + u <==> sig < 64 * (2 * m + 1))
    && (2 * p == 2 * x + u <==> sig == 64 * (2 * m + 1))
    && (2 * p < 2 * x + 2 * u <==> sig < 64 * (2 * m + 2))
  }

  lemma StepsReadOff(sig: int, p: int, u: int, m: int)
    requires Agrees(sig, 128 * p, u, 64)
    ensures StepsRead(sig, p, u, m * u, m)
  {
    hide Agrees;
    HalfStepsFrom(sig, p, u, m, -2);
    HalfStepsFrom(sig, p, u, m, -1);
    HalfStepsFrom(sig, p, u, m, 0);
    HalfStepsFrom(sig, p, u, m, 1);
    HalfStepsFrom(sig, p, u, m, 2);
  }

  lemma SameParity(e: nat, m: nat)
    ensures (e * ONE + m) % 2 == 0 <==> m % 2 == 0
  {
  }

  /** What dropping seven bits of sig to m means. */
  predicate Drops(dir: Direction, m: nat, sig: nat) {
    match dir
    case ToNearest => 64 * (2 * m - 1) <= sig <= 64 * (2 * m + 1)
      && (sig == 64 * (2 * m - 1) || sig == 64 * (2 * m + 1) ==> m % 2 == 0)
    case Truncate => 128 * m <= sig < 128 * (m + 1)
    case Away => 128 * (m - 1) < sig <= 128 * m
  }

  lemma Regroup(m: int, t: int, q: int)
    ensures m * t * q == m * (q * t)
  {
  }

  /** m steps of size t and their neighbours, in steps of size q * t. */
  lemma Neighbours(m: nat, t: nat, q: nat, here: int, down: int, up: int, first: bool)
    requires q > 0 && t > 0 && here == m * t && up >= (m + 1) * t
    requires m > 0 ==> if first then down < m * t else down == (m - 1) * t
    ensures here * q == m * (q * t) && up * q >= m * (q * t) + q * t
    ensures m > 0 ==> if first then down * q < m * (q * t) else down * q == m * (q * t) - q * t
  {
    Scale((m + 1) * t, up, q);
    Scale(down, m * t, q);
    Regroup(m, t, q);
    Regroup(m + 1, t, q);
    Regroup(m - 1, t, q);
    Distributes(m, 1, q * t);
    Distributes(m, -1, q * t);
  }

  /** The case distinction of PackedIsRounded, on products that have been computed: x is m * u. */
  lemma PackedLocally(dir: Direction, z: nat, m: nat, u: nat, x: int, sig: nat, p: nat, below: int, above: int, first: bool)
    requires u > 0 && (z > 0 <==> m > 0) && (z % 2 == 0 <==> m % 2 == 0) && Drops(dir, m, sig)
    requires StepsRead(sig, p, u, x, m)
    requires above >= x + u
    requires m > 0 ==> if first then below < x && sig >= 128 * m else below == x - u
    ensures dir.ToNearest? && z > 0 ==> 2 * p >= below + x && (2 * p == below + x ==> z % 2 == 0)
    ensures dir.ToNearest? ==> 2 * p <= x + above && (2 * p == x + above ==> z % 2 == 0)
    ensures dir.Truncate? ==> x <= p < above
    ensures dir.Away? ==> p <= x && (z > 0 ==> below < p)
    ensures x == p <==> sig == 128 * m
  {
  }

  lemma FromProducts(dir: Direction, z: nat, p: nat, q: nat, below: int, here: int, above: int)
    requires if dir.Truncate? then z < INF else z <= INF
    requires here == Units(z) * q && above == Units(z + 1) * q && (z > 0 ==> below == Units(z - 1) * q)
    requires dir.ToNearest? && z > 0 ==> 2 * p >= below + here && (2 * p == below + here ==> z % 2 == 0)
    requires dir.ToNearest? ==> 2 * p <= here + above && (2 * p == here + above ==> z % 2 == 0)
    requires dir.Truncate? ==> here <= p < above
    requires dir.Away? ==> p <= here && (z > 0 ==> below < p)
    ensures LocallyRounded(dir, z, p, q)
  {
    hide Units;
    Distributes(Units(z), Units(z + 1), q);
    if z > 0 {
      Distributes(Units(z - 1), Units(z), q);
    }
  }

  /** Beyond the largest exponent everything is rounded to infinity, or to the largest finite number. */
  lemma TooLarge(dir: Direction, e: nat, sig: nat, p: nat, q: nat)
    requires q > 0 && e >= 0xFE && sig >= 128 * ONE && Agrees(sig, 128 * p, q * Pow2(e), 64)
    ensures p >= Units(INF) * q
    ensures LocallyRounded(dir, if dir.Truncate? then INF - 1 else INF, p, q)
  {
    hide Units, Pow2, Agrees, LocallyRounded;
    HalfSteps(sig, p, q * Pow2(e), 2 * ONE);
    InfinityUnits();
    Pow2Grows(0xFE, e);
    Beyond(p, q, Pow2(0xFE), Pow2(e), Units(INF - 1), Units(INF));
    TooLargeLocally(dir, p, q);
  }

  lemma InfinityUnits()
    ensures Units(INF) == ONE * Pow2(0xFE) && Units(INF - 1) < Units(INF)
  {
    assert INF == 0xFE * ONE + ONE;
    hide Units, Pow2;
    UnitsOf(0xFE, ONE);
    UnitsStep(INF - 1);
  }

  lemma TooLargeLocally(dir: Direction, p: nat, q: nat)
    requires p >= Units(INF) * q > Units(INF - 1) * q && 2 * p > (Units(INF - 1) + Units(INF)) * q
    ensures LocallyRounded(dir, if dir.Truncate? then INF - 1 else INF, p, q)
  {
    hide Units;
  }

  lemma Beyond(p: nat, q: nat, a: nat, b: nat, last: nat, inf: nat)
    requires q > 0 && 0 < a <= b && inf == ONE * a && last < inf && 2 * p >= 2 * ONE * (q * b)
    ensures p >= inf * q > last * q && 2 * p > (last + inf) * q
  {
    Scale(a, b, q);
    assert inf * q == ONE * (a * q);
    assert q * b == b * q;
    Scale(last, inf, q);
    Distributes(last, inf, q);
  }

  // ---- Exceptions ----

  datatype Flags = Flags(invalid: bool, divByZero: bool, overflow: bool, underflow: bool, inexact: bool)

  function Both(a: Flags, b: Flags): Flags {
    Flags(a.invalid || b.invalid, a.divByZero || b.divByZero, a.overflow || b.overflow, a.underflow || b.underflow, a.inexact || b.inexact)
  }

  const NO_FLAGS := Flags(false, false, false, false, false)

  /** What would be delivered without a bound on the exponent exceeds the largest finite number. */
  predicate Overflows(dir: Direction, p: nat, q: nat) {
    match dir
    case ToNearest => 2 * p >= (Units(INF - 1) + Units(INF)) * q
    case Truncate => p >= Units(INF) * q
    case Away => p > Units(INF - 1) * q
  }

  datatype Detection = TinyAfter | TinyBefore

  /**
   * Tininess: below the smallest normal number, either as it is, or also when rounded as if the
   * exponent had no lower bound, which just under that number is rounding of twice the value.
   */
  ghost predicate Tiny(dir: Direction, how: Detection, p: nat, q: nat) {
    && 0 < p < ONE * q
    && (how.TinyAfter? ==> forall z: nat :: Rounded(dir, z, 2 * p, q) ==> Units(z) < 2 * ONE)
  }

  /** The exceptions rounding p / q to z signals. */
  ghost function RoundingFlags(dir: Direction, how: Detection, z: nat, p: nat, q: nat): Flags {
    var over := Overflows(dir, p, q);
    var inexact := over || Units(z) * q != p;
    Flags(false, false, over, Tiny(dir, how, p, q) && inexact, inexact)
  }

  lemma NoOverflow(dir: Direction, z: nat, p: nat, q: nat)
    requires q > 0 && LocallyRounded(dir, z, p, q)
    requires dir.Truncate? ==> p < Units(z + 1) * q
    ensures Overflows(dir, p, q) <==> z == INF
  {
    if z < INF {
      if z + 1 < INF {
        UnitsGrow(z + 1, INF);
      }
      if z < INF - 1 {
        UnitsGrow(z, INF - 1);
      }
      hide Units, Pow2;
      Scale(Units(z + 1), Units(INF), q);
      Scale(Units(z), Units(INF - 1), q);
      Distributes(Units(z), Units(z + 1), q);
      Distributes(Units(INF - 1), Units(INF), q);
    }
  }

  // ---- From a significand to a result and its exceptions ----

  /** Where the exponent is in range, packing the rounded significand is all there is to do. */
  lemma PackedInRange(dir: Direction, e: nat, s: nat, p: nat, q: nat)
    requires q > 0 && s < 256 * ONE && (e > 0 ==> s >= 128 * ONE) && Agrees(s, 128 * p, q * Pow2(e), 64)
    requires e < 0xFD || (e == 0xFD && s + Increment(dir) < 256 * ONE)
    ensures var z := e * ONE + RoundedSig(dir, s);
      && z < INF && Rounded(dir, z, p, q) && !Overflows(dir, p, q)
      && (Units(z) * q == p <==> s % 128 == 0)
  {
    var z := e * ONE + RoundedSig(dir, s);
    RoundedSigRange(dir, e, s);
    assert z < INF;
    hide RoundedSig, Agrees;
    PackedIsRounded(dir, e, s, p, q);
    LocallyIsEnough(dir, z, p, q);
    NoOverflow(dir, z, p, q);
  }

  /** Where it is not, the result is infinity or the largest finite number, and overflow and inexact are signaled. */
  lemma PackedTooLarge(dir: Direction, how: Detection, e: nat, sig: nat, p: nat, q: nat)
    requires q > 0 && 128 * ONE <= sig < 256 * ONE && Agrees(sig, 128 * p, q * Pow2(e), 64)
    requires e > 0xFD || (e == 0xFD && sig + Increment(dir) >= 256 * ONE)
    ensures var z := if dir.Truncate? then INF - 1 else INF;
      && Rounded(dir, z, p, q) && RoundingFlags(dir, how, z, p, q) == Flags(false, false, true, false, true)
  {
    var z := if dir.Truncate? then INF - 1 else INF;
    if e > 0xFD {
      TooLarge(dir, e, sig, p, q);
    } else {
      hide Units, Agrees, Pow2, RoundedSig, LocallyRounded;
      RoundsUp(dir, sig);
      PackedIsRounded(dir, e, sig, p, q);
    }
    hide *;
    PastTheEnd(dir, how, p, q);
  }

  lemma RoundsUp(dir: Direction, sig: nat)
    requires 128 * ONE <= sig < 256 * ONE && sig + Increment(dir) >= 256 * ONE
    ensures !dir.Truncate? && RoundedSig(dir, sig) == 2 * ONE && 0xFD * ONE + RoundedSig(dir, sig) == INF
  {
  }

  lemma PastTheEnd(dir: Direction, how: Detection, p: nat, q: nat)
    requires q > 0
    requires LocallyRounded(dir, if dir.Truncate? then INF - 1 else INF, p, q)
    requires dir.Truncate? ==> p >= Units(INF) * q
    ensures var z := if dir.Truncate? then INF - 1 else INF;
      && Rounded(dir, z, p, q) && RoundingFlags(dir, how, z, p, q) == Flags(false, false, true, false, true)
  {
    hide Units, Pow2, Rounded;
    LocallyIsEnough(dir, if dir.Truncate? then INF - 1 else INF, p, q);
    assert Overflows(dir, p, q);
    NotTinyLarge(dir, p, q);
  }

  lemma NotTinyLarge(dir: Direction, p: nat, q: nat)
    requires q > 0 && Overflows(dir, p, q)
    ensures p >= ONE * q
  {
    UnitsOf(0, ONE);
    UnitsGrow(ONE, INF - 1);
    UnitsStep(INF - 1);
    assert Pow2(0) == 1;
    hide Units;
    Scale(ONE, Units(INF - 1), q);
    Scale(Units(INF - 1), Units(INF), q);
    Distributes(Units(INF - 1), Units(INF), q);
  }

  lemma NotTinyNormal(e: nat, sig: nat, p: nat, q: nat)
    requires q > 0 && sig >= 128 * ONE && Agrees(sig, 128 * p, q * Pow2(e), 64)
    ensures p >= ONE * q
  {
    HalfSteps(sig, p, q * Pow2(e), 2 * ONE);
    hide Agrees;
    Scale(1, Pow2(e), q);
    assert Pow2(e) * q == q * Pow2(e);
    hide Pow2;
    var u := q * Pow2(e);
    assert 2 * ONE * u >= 2 * ONE * q;
  }

  lemma ShiftedAgrees(k: nat, sig: nat, p: nat, q: nat)
    requires q > 0 && Agrees(sig, 128 * p * Pow2(k), q, 64)
    ensures Agrees(Sticky(sig, k), 128 * p, q * Pow2(0), 64)
  {
    var t := Pow2(k);
    hide Agrees, Sticky;
    AgreesShifted(sig, 128 * p * t, q, 64, k);
    assert q * Pow2(0) == q;
    hide Pow2;
    Reorder(128 * p, t, q);
    AgreesRescaled(Sticky(sig, k), 128 * p * t, q * t, 128 * p, q, 64);
  }

  /** Below the normal range, the significand is shifted to the exponent of the subnormal numbers. */
  lemma ShiftedDown(k: nat, sig: nat, p: nat, q: nat)
    requires q > 0 && k > 0 && 128 * ONE <= sig < 256 * ONE && Agrees(sig, 128 * p * Pow2(k), q, 64)
    ensures Agrees(Sticky(sig, k), 128 * p, q * Pow2(0), 64) && Sticky(sig, k) <= 128 * ONE
    ensures 0 < p && p * Pow2(k) < 2 * ONE * q && p < ONE * q
  {
    ShiftedAgrees(k, sig, p, q);
    assert AgreesAt(sig, 128 * p * Pow2(k), q, 0) && AgreesAt(sig, 128 * p * Pow2(k), q, 256 * ONE) by {
      hide Pow2;
    }
    Pow2Grows(1, k);
    assert Pow2(1) == 2;
    hide Agrees, Pow2, Sticky;
    StickyCompares(sig, k, 128 * ONE);
    ShiftedBounds(sig, p, q, Pow2(k));
  }

  lemma ShiftedBounds(sig: nat, p: nat, q: nat, t: nat)
    requires t >= 2 && 0 < sig < 256 * ONE && AgreesAt(sig, 128 * p * t, q, 0) && AgreesAt(sig, 128 * p * t, q, 256 * ONE)
    ensures sig < 128 * ONE * t
    ensures 0 < p && p * t < 2 * ONE * q && p < ONE * q
  {
    Scale(2, t, 128 * ONE);
    Regroup(128, p, t);
    assert p == 0 ==> p * t == 0;
    Times(p, 2, t);
  }

  lemma Times(p: nat, a: int, b: int)
    requires a <= b
    ensures p * a <= p * b
  {
    assert p * (b - a) >= 0;
  }

  /** The test for tininess, in both variants. */
  lemma TinyDetected(dir: Direction, how: Detection, k: nat, sig: nat, p: nat, q: nat)
    requires q > 0 && k > 0 && 128 * ONE <= sig < 256 * ONE && Agrees(sig, 128 * p * Pow2(k), q, 64)
    ensures Tiny(dir, how, p, q) <==> how.TinyBefore? || k > 1 || sig + Increment(dir) < 256 * ONE
  {
    hide Agrees, Units, Pow2, Rounded;
    ShiftedDown(k, sig, p, q);
    if how.TinyAfter? {
      if k > 1 {
        TinyByFar(dir, k, p, q);
      } else {
        TinyByOne(dir, sig, p, q);
      }
    }
  }

  lemma TinyByFar(dir: Direction, k: nat, p: nat, q: nat)
    requires q > 0 && k > 1 && p * Pow2(k) < 2 * ONE * q
    ensures forall z: nat :: Rounded(dir, z, 2 * p, q) ==> Units(z) < 2 * ONE
  {
    Pow2Grows(2, k);
    assert Pow2(2) == 4;
    hide Units, Pow2, Rounded;
    Times(p, 4, Pow2(k));
    forall z: nat | Rounded(dir, z, 2 * p, q) ensures Units(z) < 2 * ONE {
      StaysSmall(dir, z, 2 * p, q);
    }
  }

  lemma TinyByOne(dir: Direction, sig: nat, p: nat, q: nat)
    requires q > 0 && 128 * ONE <= sig < 256 * ONE && Agrees(sig, 128 * p * Pow2(1), q, 64)
    ensures (forall z: nat :: Rounded(dir, z, 2 * p, q) ==> Units(z) < 2 * ONE) <==> sig + Increment(dir) < 256 * ONE
  {
    assert Pow2(1) == 2 && Pow2(0) == 1;
    assert 128 * p * Pow2(1) == 128 * (2 * p) && q * Pow2(0) == q;
    var m := RoundedSig(dir, sig);
    hide Pow2, Agrees, Units, Rounded;
    RoundedSigRange(dir, 0, sig);
    PackedInRange(dir, 0, sig, 2 * p, q);
    UnitsOf(0, m);
    assert m < 2 * ONE <==> sig + Increment(dir) < 256 * ONE;
    hide RoundedSig;
    assert Rounded(dir, m, 2 * p, q);
    forall z: nat | Rounded(dir, z, 2 * p, q) ensures z == m {
      RoundedUnique(dir, z, m, 2 * p, q);
    }
  }

  lemma FartherAbove(y: nat, z: nat, p: nat, q: nat)
    requires p < Units(y) * q < Units(z) * q
    ensures Distance(y, p, q) < Distance(z, p, q)
  {
  }

  lemma StaysSmall(dir: Direction, z: nat, p: nat, q: nat)
    requires q > 0 && Rounded(dir, z, p, q) && p < ONE * q
    ensures Units(z) < 2 * ONE
  {
    UnitsOf(0, ONE);
    assert Pow2(0) == 1;
    if z > ONE {
      UnitsGrow(ONE, z);
      hide Units;
      Scale(Units(ONE), Units(z), q);
      FartherAbove(ONE, z, p, q);
    } else if z < ONE {
      UnitsGrow(z, ONE);
    }
  }
}
