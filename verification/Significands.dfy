// The bits of single precision numbers, the shifts and packing done on them, and
// the significands that stand for exact products, quotients, sums and differences.

module Significands {
  import opened Rounding

  datatype Mode = NearestEvenMode | DownMode | UpMode | ZeroMode

  const NAN: nat := 0xFFFF_FFFF

  function Exp(a: nat): nat { a / ONE % 256 }

  function Frac(a: nat): nat { a % ONE }

  predicate Sign(a: nat) { a / 0x8000_0000 % 2 == 1 }

  /** All bits but the sign. */
  function Magnitude(a: nat): nat { a % 0x8000_0000 }

  predicate IsNaN(a: nat) { Exp(a) == 255 && Frac(a) != 0 }

  predicate IsSignaling(a: nat) { IsNaN(a) && a / 0x40_0000 % 2 == 0 }

  predicate IsInf(a: nat) { Exp(a) == 255 && Frac(a) == 0 }

  predicate IsFinite(a: nat) { Exp(a) != 255 }

  predicate IsZero(a: nat) { Exp(a) == 0 && Frac(a) == 0 }

  predicate IsSubnormal(a: nat) { Exp(a) == 0 && Frac(a) != 0 }

  predicate IsNormal(a: nat) { 0 < Exp(a) < 255 }

  /** Sign, exponent and significand added together in their places, so that an integer part of the significand goes to the exponent. */
  function Pack(sign: bool, exp: nat, sig: nat): nat {
    ((if sign then 0x8000_0000 else 0) + exp * ONE + sig) % 0x1_0000_0000
  }

  /** The directions rounding a magnitude takes: towards one infinity is away from zero for one sign only. */
  function DirectionOf(mode: Mode, sign: bool): Direction {
    match mode
    case NearestEvenMode => ToNearest
    case DownMode => if sign then Away else Truncate
    case UpMode => if sign then Truncate else Away
    case ZeroMode => Truncate
  }

  /** The shift with a sticky bit as it is written, for words of the given size: by nothing it yields one. */
  function ShiftSticky(size: nat, a: nat, count: nat): nat {
    if count == 0 then 1
    else if count < size then
      var lost := a * Pow2(size - count) % Pow2(size) != 0;
      var s := a / Pow2(count);
      if lost && s % 2 == 0 then s + 1 else s
    else if a != 0 then 1 else 0
  }

  lemma LostBits(a: nat, x: nat, y: nat)
    requires x > 0 && y > 0
    ensures a * x % (x * y) == (a % y) * x
  {
    var k, r := a / y, a % y;
    assert a == k * y + r;
    assert a * x == k * (x * y) + r * x by {
      assert a * x == (k * y + r) * x == k * y * x + r * x;
      assert k * y * x == k * (x * y);
    }
    Scale(r, y, x);
    Scale(0, x, y);
    assert y * x == x * y;
    DivModUnique(a * x, x * y, k, r * x);
  }

  /** By anything else it is what the comment says. */
  lemma ShiftIsSticky(size: nat, a: nat, count: nat)
    requires a < Pow2(size) && count > 0
    ensures ShiftSticky(size, a, count) == Sticky(a, count)
  {
    if count < size {
      var x, y := Pow2(size - count), Pow2(count);
      Pow2Adds(size - count, count);
      LostBits(a, x, y);
      hide Pow2;
      if a % y == 0 {
        assert 0 * x == 0;
      } else {
        Scale(0, a % y, x);
      }
    } else {
      Pow2Grows(size, count);
      hide Pow2;
      DivModUnique(a, Pow2(count), 0, a);
    }
  }

  /** The exact value the significand and exponent stand for, in units of the smallest subnormal number, is p / q. */
  ghost predicate StandsFor(exp: int, sig: nat, p: nat, q: nat) {
    q > 0 && if exp >= 0 then Agrees(sig, 128 * p, q * Pow2(exp), 64) else Agrees(sig, 128 * p * Pow2(-exp), q, 64)
  }

  /** Normalized, or so small that nothing is rounded. */
  predicate Packable(exp: int, sig: nat) {
    sig < 256 * ONE && (sig >= 128 * ONE || (exp == 0 && sig % 128 == 0))
  }

  /** A result: the sign asked for, the correctly rounded magnitude, and the exceptions that go with it added to those there were. */
  ghost predicate Delivers(z: nat, sign: bool, mode: Mode, how: Detection, p: nat, q: nat, before: Flags, after: Flags) {
    var dir := DirectionOf(mode, sign);
    && z < 0x1_0000_0000 && Sign(z) == sign && Magnitude(z) <= INF
    && Rounded(dir, Magnitude(z), p, q)
    && after == Both(before, RoundingFlags(dir, how, Magnitude(z), p, q))
  }

  lemma PackedBits(sign: bool, m: nat)
    requires m < 0x8000_0000
    ensures var z := (if sign then 0x8000_0000 else 0) + m;
      z < 0x1_0000_0000 && Sign(z) == sign && Magnitude(z) == m
  {
  }

  lemma PackIs(sign: bool, e: nat, m: nat)
    requires e * ONE + m < 0x8000_0000
    ensures var z := Pack(sign, e, m);
      z < 0x1_0000_0000 && Sign(z) == sign && Magnitude(z) == e * ONE + m && z == (if sign then 0x8000_0000 else 0) + e * ONE + m
  {
  }

  lemma IncrementIs(mode: Mode, sign: bool, increment: nat)
    requires increment == if mode == NearestEvenMode then 64 else if mode == ZeroMode then 0
      else if (sign && mode == UpMode) || (!sign && mode == DownMode) then 0 else 127
    ensures increment == Increment(DirectionOf(mode, sign)) <= 127
    ensures DirectionOf(mode, sign).ToNearest? <==> mode == NearestEvenMode
    ensures increment == 0 <==> DirectionOf(mode, sign).Truncate?
  {
  }

  lemma OverflowPacked(sign: bool, mode: Mode, how: Detection, exp: int, sig: nat, p: nat, q: nat, before: Flags)
    requires Packable(exp, sig) && StandsFor(exp, sig, p, q)
    requires exp > 0xFD || (exp == 0xFD && (sig + Increment(DirectionOf(mode, sign))) % 0x1_0000_0000 >= 0x8000_0000)
    ensures var z := Pack(sign, 0xFF, 0) - (if Increment(DirectionOf(mode, sign)) == 0 then 1 else 0);
      z >= 0 && Delivers(z, sign, mode, how, p, q, before, Both(before, Flags(false, false, true, false, true)))
  {
    hide Agrees, Pow2, Rounded, RoundingFlags, Pack, Sign, Magnitude;
    var dir := DirectionOf(mode, sign);
    PackedTooLarge(dir, how, exp, sig, p, q);
    PackIs(sign, 0xFF, 0);
    PackedBits(sign, INF - 1);
  }

  lemma WordSize()
    ensures Pow2(32) == 0x1_0000_0000
  {
    Pow2Adds(16, 16);
    assert Pow2(16) == 65536 by {
      Pow2Adds(8, 8);
      assert Pow2(8) == 256 by {
        Pow2Adds(4, 4);
        assert Pow2(4) == 16;
      }
    }
  }

  lemma UnderflowShifted(dir: Direction, how: Detection, exp: int, sig: nat, p: nat, q: nat)
    requires exp < 0 && Packable(exp, sig) && StandsFor(exp, sig, p, q)
    ensures var s := ShiftSticky(32, sig, -exp);
      Agrees(s, 128 * p, q * Pow2(0), 64) && s <= 128 * ONE
    ensures Tiny(dir, how, p, q) <==> how == TinyBefore || exp < -1 || (sig + Increment(dir)) % 0x1_0000_0000 < 0x8000_0000
  {
    WordSize();
    FitsWord(sig + Increment(dir));
    hide Agrees, Pow2, Tiny, Sticky, ShiftSticky;
    ShiftIsSticky(32, sig, -exp);
    ShiftedDown(-exp, sig, p, q);
    TinyDetected(dir, how, -exp, sig, p, q);
  }

  lemma RaisedSoFar(before: Flags, now: Flags, under: Flags)
    requires !under.invalid && !under.divByZero && !under.overflow && !under.inexact
    requires now == if under.underflow then Both(before, Flags(false, false, false, true, false)) else before
    ensures now == Both(before, under)
  {
  }

  /** What the last part of the rounding finds: an exponent in range, and a significand that agrees with the exact value. */
  lemma InRange(dir: Direction, how: Detection, exp: int, sig: nat, e: int, s: nat, p: nat, q: nat)
    requires Packable(exp, sig) && StandsFor(exp, sig, p, q)
    requires exp < 0xFD || (exp == 0xFD && (sig + Increment(dir)) % 0x1_0000_0000 < 0x8000_0000)
    requires if exp < 0 then e == 0 && Agrees(s, 128 * p, q * Pow2(0), 64) && s <= 128 * ONE else e == exp && s == sig
    ensures 0 <= e && q > 0 && s < 256 * ONE && (e > 0 ==> s >= 128 * ONE) && Agrees(s, 128 * p, q * Pow2(e), 64)
    ensures e < 0xFD || (e == 0xFD && s + Increment(dir) < 256 * ONE)
    ensures exp >= 0 && s % 128 != 0 ==> !Tiny(dir, how, p, q)
  {
    hide Agrees, Pow2;
    FitsWord(sig + Increment(dir));
    if exp >= 0 && s % 128 != 0 {
      NotTinyNormal(e, s, p, q);
    }
  }

  lemma Delivered(sign: bool, mode: Mode, how: Detection, exp: int, e: nat, s: nat, p: nat, q: nat, before: Flags, after: Flags)
    requires q > 0 && s < 256 * ONE && (e > 0 ==> s >= 128 * ONE) && Agrees(s, 128 * p, q * Pow2(e), 64)
    requires e < 0xFD || (e == 0xFD && s + Increment(DirectionOf(mode, sign)) < 256 * ONE)
    requires exp >= 0 && s % 128 != 0 ==> !Tiny(DirectionOf(mode, sign), how, p, q)
    requires after == Both(Both(before, Flags(false, false, false, exp < 0 && Tiny(DirectionOf(mode, sign), how, p, q) && s % 128 != 0, false)),
                           Flags(false, false, false, false, s % 128 != 0))
    ensures var m := Dropped(DirectionOf(mode, sign), s);
      Delivers(Pack(sign, if m == 0 then 0 else e, m), sign, mode, how, p, q, before, after)
  {
    hide *;
    var dir := DirectionOf(mode, sign);
    PackedInRange(dir, e, s, p, q);
    WrittenOut(dir, e, s);
    var z := e * ONE + RoundedSig(dir, s);
    FlagsAre(dir, how, exp, z, s, p, q, before, after);
    PackDelivers(sign, mode, how, e, RoundedSig(dir, s), z, p, q, before, after);
  }

  lemma PackDelivers(sign: bool, mode: Mode, how: Detection, e: nat, m: nat, z: nat, p: nat, q: nat, before: Flags, after: Flags)
    requires z == e * ONE + m && z < INF && Rounded(DirectionOf(mode, sign), z, p, q)
    requires after == Both(before, RoundingFlags(DirectionOf(mode, sign), how, z, p, q))
    ensures Delivers(Pack(sign, e, m), sign, mode, how, p, q, before, after)
  {
    hide Pack, Sign, Magnitude, Rounded, RoundingFlags;
    PackIs(sign, e, m);
  }

  /** Step by step, as the code computes it. */
  lemma DroppedIs(dir: Direction, s: nat, t: nat)
    requires t == (s + Increment(dir)) % 0x1_0000_0000 / 0x80
    ensures Dropped(dir, s) == if s % 128 == 64 && dir.ToNearest? && t % 2 == 1 then t - 1 else t
  {
  }

  /** The rounded significand as it is computed, in a word. */
  function Dropped(dir: Direction, s: nat): nat {
    var t := (s + Increment(dir)) % 0x1_0000_0000 / 0x80;
    if s % 128 == 64 && dir.ToNearest? && t % 2 == 1 then t - 1 else t
  }

  lemma WrittenOut(dir: Direction, e: nat, s: nat)
    requires s < 256 * ONE && (e > 0 ==> s >= 128 * ONE)
    ensures Dropped(dir, s) == RoundedSig(dir, s) && (RoundedSig(dir, s) == 0 ==> e == 0)
  {
    FitsWord(s + Increment(dir));
  }

  lemma FlagsAre(dir: Direction, how: Detection, exp: int, z: nat, s: nat, p: nat, q: nat, before: Flags, after: Flags)
    requires !Overflows(dir, p, q) && (Units(z) * q == p <==> s % 128 == 0)
    requires exp >= 0 && s % 128 != 0 ==> !Tiny(dir, how, p, q)
    requires after == Both(Both(before, Flags(false, false, false, exp < 0 && Tiny(dir, how, p, q) && s % 128 != 0, false)),
                           Flags(false, false, false, false, s % 128 != 0))
    ensures after == Both(before, RoundingFlags(dir, how, z, p, q))
  {
    hide Overflows, Tiny, Units;
  }

  const INVALID := Flags(true, false, false, false, false)

  const DIVISION_BY_ZERO := Flags(false, true, false, false, false)

  /** Leading zeros of a 32-bit word. */
  function Clz(x: nat): (n: nat)
    requires 0 < x < 0x1_0000_0000
    ensures 0x8000_0000 <= x * Pow2(n) < 0x1_0000_0000
    decreases 0x1_0000_0000 - x
  {
    if x >= 0x8000_0000 then
      assert Pow2(0) == 1;
      0
    else
      var n := Clz(2 * x);
      Doubled(x, n);
      n + 1
  }

  lemma ClzUnique(x: nat, n: nat)
    requires 0 < x < 0x1_0000_0000 && 0x8000_0000 <= x * Pow2(n) < 0x1_0000_0000
    ensures Clz(x) == n
  {
    var k := Clz(x);
    if k < n {
      ShiftGrows(x, k, n);
    } else if n < k {
      ShiftGrows(x, n, k);
    }
  }

  lemma ShiftGrows(x: nat, k: nat, n: nat)
    requires k < n
    ensures 2 * (x * Pow2(k)) <= x * Pow2(n)
  {
    Pow2Grows(k + 1, n);
    Times(x, Pow2(k + 1), Pow2(n));
    Doubled(x, k);
    assert 2 * x * Pow2(k) == 2 * (x * Pow2(k));
  }

  lemma ClzAtLeast(x: nat, n: nat)
    requires 0 < x && x * Pow2(n) < 0x8000_0000
    ensures x < 0x8000_0000 && Clz(x) > n
  {
    Times(x, 1, Pow2(n));
    var k := Clz(x);
    if k <= n {
      Pow2Grows(k, n);
      Times(x, Pow2(k), Pow2(n));
    }
  }

  lemma ClzNormalizes(sig: nat)
    requires 0 < sig < 0x8000_0000
    ensures Clz(sig) >= 1 && 128 * ONE <= sig * Pow2(Clz(sig) - 1) < 256 * ONE
  {
    assert Pow2(0) == 1;
    ClzAtLeast(sig, 0);
    Doubled(sig, Clz(sig) - 1);
    assert 2 * sig * Pow2(Clz(sig) - 1) == 2 * (sig * Pow2(Clz(sig) - 1));
  }

  /** Sets the quiet bit. */
  function Quiet(a: nat): nat {
    if a / 0x40_0000 % 2 == 0 then a + 0x40_0000 else a
  }

  lemma QuietIsNaN(a: nat)
    ensures IsNaN(a) ==> IsNaN(Quiet(a))
  {
    var k, r := a / ONE, a % ONE;
    assert a == k * ONE + r;
    UpperHalfOf(k, r);
    if a / 0x40_0000 % 2 == 0 {
      DivModUnique(a + 0x40_0000, ONE, k, r + 0x40_0000);
    }
  }

  lemma UpperHalfOf(k: nat, r: nat)
    requires r < ONE
    ensures (k * ONE + r) / 0x40_0000 % 2 == 0 <==> r < 0x40_0000
  {
    if r < 0x40_0000 {
      DivModUnique(k * ONE + r, 0x40_0000, 2 * k, r);
    } else {
      DivModUnique(k * ONE + r, 0x40_0000, 2 * k + 1, r - 0x40_0000);
    }
  }

  predicate NaNResult(z: nat, a: nat, b: nat, before: Flags, after: Flags) {
    IsNaN(z) && after == Both(before, Flags(IsSignaling(a) || IsSignaling(b), false, false, false, false))
  }

  lemma SmallFraction()
    ensures Pow2(8) == 256
  {
    Pow2Adds(4, 4);
    assert Pow2(4) == 16;
  }

  /** A subnormal significand shifted up until its highest bit is the hidden one. */
  lemma ShiftedUp(frac: nat)
    requires 0 < frac < ONE
    ensures Clz(frac) > 8
    ensures ONE <= frac * Pow2(Clz(frac) - 8) < 2 * ONE && Clz(frac * Pow2(Clz(frac) - 8)) == 8
  {
    SmallFraction();
    ClzAtLeast(frac, 8);
    var n := Clz(frac);
    hide Clz, Pow2;
    Pow2Adds(n - 8, 8);
    var x := frac * Pow2(n - 8);
    Regroup(frac, Pow2(n - 8), 256);
    ClzUnique(x, 8);
  }

  /**
   * Normalizing a subnormal significand as it is written: the significand is shifted up first, and
   * the exponent is then computed from what it has become, so that it is always one.
   */
  function Subnormalize(frac: nat): (r: (nat, nat))
    requires 0 < frac < ONE
    ensures ONE <= r.0 < 2 * ONE && r.1 == 1
  {
    ShiftedUp(frac);
    var sig := frac * Pow2(Clz(frac) - 8) % 0x1_0000_0000;
    (sig, 1 - (Clz(sig) - 8))
  }

  /** What multiplication and division take a finite operand for, in units of the smallest subnormal number. */
  function Taken(a: nat): nat
    requires IsFinite(a) && !IsZero(a)
  {
    if Exp(a) == 0 then Subnormalize(Frac(a)).0 else Units(Magnitude(a))
  }

  /** That is its value exactly if it is not subnormal. */
  lemma TakenIsValue(a: nat)
    requires IsFinite(a) && !IsZero(a)
    ensures Taken(a) == Units(Magnitude(a)) <==> !IsSubnormal(a)
  {
    MagnitudeUnits(a);
  }

  lemma MagnitudeUnits(a: nat)
    requires IsFinite(a)
    ensures Magnitude(a) == Exp(a) * ONE + Frac(a) && Frac(a) < ONE
    ensures Units(Magnitude(a)) == if Exp(a) == 0 then Frac(a) else (ONE + Frac(a)) * Pow2(Exp(a) - 1)
  {
    UnitsSplit(Magnitude(a), Exp(a), Frac(a));
  }

  function WithHiddenBit(sig: nat): nat {
    if sig / ONE % 2 == 0 then sig + ONE else sig
  }

  lemma TakenIs(a: nat, sig: nat, exp: nat)
    requires IsFinite(a) && !IsZero(a)
    requires if Exp(a) == 0 then (sig, exp) == Subnormalize(Frac(a)) else sig == Frac(a) && exp == Exp(a)
    ensures 0 < exp < 0xFF && ONE <= WithHiddenBit(sig) < 2 * ONE && Taken(a) == Up(WithHiddenBit(sig), exp - 1)
  {
    MagnitudeUnits(a);
    assert Pow2(0) == 1;
    ExpBelow(a);
    HiddenBit(sig);
    hide Pow2, Units, Magnitude, Frac, Exp, Clz, WithHiddenBit;
  }

  lemma ExpBelow(a: nat)
    ensures Exp(a) < 256
  {
  }

  lemma HiddenBit(sig: nat)
    ensures sig < ONE ==> WithHiddenBit(sig) == ONE + sig
    ensures ONE <= sig < 2 * ONE ==> WithHiddenBit(sig) == sig
  {
  }

  // ---- Exact values of intermediate results ----

  function Product(x: nat, y: nat): nat {
    x * y
  }

  /** x shifted up by n. */
  function Up(x: nat, n: nat): nat {
    x * Pow2(n)
  }

  lemma UpAdds(x: nat, a: nat, b: nat)
    ensures Up(Up(x, a), b) == Up(x, a + b)
  {
    Pow2Adds(a, b);
  }

  lemma UpPositive(x: nat, n: nat)
    requires x > 0
    ensures Up(x, n) > 0
  {
    Scale(0, x, Pow2(n));
  }

  lemma AgreesScaled(sig: int, n: nat, d: nat, t: nat)
    requires d > 0 && t > 0
    ensures d * t > 0 && (Agrees(sig, n, d, 64) <==> Agrees(sig, n * t, d * t, 64))
  {
    hide Agrees;
    Scale(0, d, t);
    Crossed(n, d, t);
    if Agrees(sig, n, d, 64) {
      AgreesRescaled(sig, n, d, n * t, d * t, 64);
    }
    if Agrees(sig, n * t, d * t, 64) {
      AgreesRescaled(sig, n * t, d * t, n, d, 64);
    }
  }

  lemma Crossed(n: nat, d: nat, t: nat)
    ensures n * (d * t) == n * t * d
  {
  }

  lemma UpOfOne(n: nat)
    ensures Up(1, n) == Pow2(n)
  {
  }

  /** Only the difference of the two shifts matters. */
  lemma AgreesByPowers(sig: int, x: nat, i: nat, y: nat, k: nat, i2: nat, k2: nat)
    requires y > 0 && i2 - i == k2 - k && Agrees(sig, Up(x, i), Up(y, k), 64)
    ensures Agrees(sig, Up(x, i2), Up(y, k2), 64)
  {
    UpPositive(y, k);
    UpPositive(y, k2);
    if i <= i2 {
      UpAdds(x, i, i2 - i);
      UpAdds(y, k, k2 - k);
      AgreesScaled(sig, Up(x, i), Up(y, k), Pow2(i2 - i));
    } else {
      UpAdds(x, i2, i - i2);
      UpAdds(y, k2, k - k2);
      AgreesScaled(sig, Up(x, i2), Up(y, k2), Pow2(i - i2));
    }
  }

  lemma Pow2Is128()
    ensures Pow2(7) == 128
  {
    Pow2Adds(3, 4);
    assert Pow2(3) == 8 && Pow2(4) == 16;
  }

  /** A significand agreeing with shifted values stands for values shifted otherwise, when the exponent makes up for it. */
  lemma StandsByPowers(exp: int, sig: nat, x: nat, i: nat, y: nat, k: nat, j: nat, m: nat)
    requires y > 0 && Agrees(sig, Up(x, i), Up(y, k), 64) && i - k == 7 + j - m - exp
    ensures StandsFor(exp, sig, Up(x, j), Up(y, m))
  {
    hide Agrees;
    UpPositive(y, m);
    Pow2Is128();
    if exp >= 0 {
      AgreesByPowers(sig, x, i, y, k, j + 7, m + exp);
      UpAdds(x, j, 7);
      UpAdds(y, m, exp);
    } else {
      AgreesByPowers(sig, x, i, y, k, j + 7 - exp, m);
      UpAdds(x, j, 7);
      UpAdds(x, j + 7, -exp);
    }
  }

  lemma LongWord()
    ensures Pow2(64) == 0x1_0000_0000_0000_0000 && Pow2(15) == 0x8000 && Pow2(32) == 0x1_0000_0000
  {
    WordSize();
    Pow2Adds(32, 32);
    Pow2Adds(8, 7);
    SmallFraction();
    Pow2Adds(3, 4);
    assert Pow2(3) == 8 && Pow2(4) == 16;
  }

  lemma GrainUpTo64(sig: int, n: int, d: int)
    ensures Agrees(sig, n, d, 2) ==> Agrees(sig, n, d, 64) && Agrees(2 * sig, 2 * n, d, 64)
  {
    hide Agrees;
    if Agrees(sig, n, d, 2) {
      AgreesCoarser(sig, n, d, 2, 32);
      AgreesDoubled(sig, n, d, 2);
      AgreesCoarser(2 * sig, 2 * n, d, 4, 16);
    }
  }

  lemma StickyBounds(a: nat, n: nat, low: nat, high: nat)
    requires low * Pow2(n) <= a < high * Pow2(n) && low % 2 == 0 && high % 2 == 0
    ensures low <= Sticky(a, n) < high
  {
    StickyCompares(a, n, low);
    StickyCompares(a, n, high);
  }

  lemma ProductBounds(sa: nat, sb: nat)
    requires ONE <= sa < 2 * ONE && ONE <= sb < 2 * ONE
    ensures 64 * ONE * 0x1_0000_0000 <= sa * 0x80 * (sb * 0x100) < 256 * ONE * 0x1_0000_0000
    ensures sa * 0x80 * (sb * 0x100) == sa * sb * 0x8000
  {
    Scale(ONE, sa, sb);
    Scale(sa, 2 * ONE, sb);
    assert sa * 0x80 * (sb * 0x100) == sa * sb * 0x8000;
    assert ONE * sb <= sa * sb < 2 * ONE * sb;
  }

  ghost predicate ProductStanding(exp: int, s: nat, p: nat) {
    && 64 * ONE <= s < 256 * ONE
    && (s < 128 * ONE ==> StandsFor(exp - 1, 2 * s, p, Pow2(149)))
    && (s >= 128 * ONE ==> StandsFor(exp, s, p, Pow2(149)))
  }

  lemma FitsWord(x: nat)
    ensures x < 0x1_0000_0000 ==> x % 0x1_0000_0000 == x
  {
  }

  lemma ProductPacks(exp: int, s: nat, p: nat)
    requires ProductStanding(exp, s, p)
    ensures s % 0x1_0000_0000 == s && ((s * 2) % 0x1_0000_0000 < 0x8000_0000 <==> s < 128 * ONE)
    ensures if s < 128 * ONE then (s * 2) % 0x1_0000_0000 == 2 * s && Packable(exp - 1, 2 * s) && StandsFor(exp - 1, 2 * s, p, Pow2(149))
            else Packable(exp, s) && StandsFor(exp, s, p, Pow2(149))
  {
    hide StandsFor, Pow2;
    FitsWord(s);
    FitsWord(2 * s);
  }

  lemma UpperHalf(prod: nat)
    requires 64 * ONE * 0x1_0000_0000 <= prod < 256 * ONE * 0x1_0000_0000
    ensures ShiftSticky(64, prod, 32) == Sticky(prod, 32) && 64 * ONE <= Sticky(prod, 32) < 256 * ONE
  {
    LongWord();
    hide Pow2, Sticky, ShiftSticky;
    ShiftIsSticky(64, prod, 32);
    StickyBounds(prod, 32, 64 * ONE, 256 * ONE);
  }

  lemma UpperHalfStands(prod: nat, x: nat, e: nat, exp: int)
    requires prod == x * 0x8000 && exp == e - 0x7D
    requires 64 * ONE * 0x1_0000_0000 <= prod < 256 * ONE * 0x1_0000_0000
    ensures ProductStanding(exp, ShiftSticky(64, prod, 32), Up(x, e))
  {
    hide Pow2, Sticky, ShiftSticky, Up, Agrees, StandsFor;
    UpperHalf(prod);
    ProductAgrees(prod, x);
    var s := Sticky(prod, 32);
    if s < 128 * ONE {
      StandsByPowers(exp - 1, 2 * s, x, 16, 1, 32, e, 149);
    } else {
      StandsByPowers(exp, s, x, 15, 1, 32, e, 149);
    }
    UpOfOne(149);
  }

  /** The upper half of the product of two significands, normalized, stands for the exact product. */
  lemma ProductStands(expA: nat, sa: nat, expB: nat, sb: nat, ua: nat, ub: nat)
    requires 0 < expA && 0 < expB && ONE <= sa < 2 * ONE && ONE <= sb < 2 * ONE
    requires ua == Up(sa, expA - 1) && ub == Up(sb, expB - 1)
    ensures ProductStanding(expA + expB - 0x7F, ShiftSticky(64, sa * 0x80 * (sb * 0x100), 32), Product(ua, ub))
  {
    hide ProductStanding, ShiftSticky, Up, Product;
    ProductBounds(sa, sb);
    ProductExact(expA, sa, expB, sb, ua, ub);
    UpperHalfStands(sa * 0x80 * (sb * 0x100), sa * sb, expA + expB - 2, expA + expB - 0x7F);
  }

  lemma ProductAgrees(prod: nat, x: nat)
    requires prod == x * 0x8000
    ensures var s := Sticky(prod, 32);
      Agrees(s, Up(x, 15), Up(1, 32), 64) && Agrees(2 * s, Up(x, 16), Up(1, 32), 64)
  {
    LongWord();
    assert Pow2(16) == 2 * Pow2(15);
    AgreesExactly(prod, 1, 2);
    hide Agrees, Pow2, Sticky;
    AgreesShifted(prod, prod, 1, 2, 32);
    GrainUpTo64(Sticky(prod, 32), prod, Pow2(32));
  }

  lemma ProductExact(expA: nat, sa: nat, expB: nat, sb: nat, ua: nat, ub: nat)
    requires 0 < expA && 0 < expB && ua == Up(sa, expA - 1) && ub == Up(sb, expB - 1)
    ensures Product(ua, ub) == Up(sa * sb, expA + expB - 2)
  {
    hide Pow2;
    Pow2Adds(expA - 1, expB - 1);
    FourFactors(sa, sb, Pow2(expA - 1), Pow2(expB - 1));
  }

  lemma FourFactors(sa: nat, sb: nat, a: nat, b: nat)
    ensures sa * a * (sb * b) == sa * sb * (a * b)
  {
  }

  /** The product, for operands of every kind. A subnormal operand is not taken for its value. */
  ghost predicate Multiplied(z: nat, a: nat, b: nat, mode: Mode, how: Detection, before: Flags, after: Flags) {
    var sign := Sign(a) != Sign(b);
    if IsNaN(a) || IsNaN(b) then NaNResult(z, a, b, before, after)
    else if (IsInf(a) && IsZero(b)) || (IsZero(a) && IsInf(b)) then z == NAN && after == Both(before, INVALID)
    else if IsInf(a) || IsInf(b) then z == Pack(sign, 0xFF, 0) && after == before
    else if IsZero(a) || IsZero(b) then z == Pack(sign, 0, 0) && after == before
    else Delivers(z, sign, mode, how, Product(Taken(a), Taken(b)), Pow2(149), before, after)
  }

  // ---- Quotients ----

  /** The remainder is looked at only if the low six bits are zero: that is when it can matter. */
  function StickyQuotient(n: nat, d: nat): nat
    requires d > 0
  {
    var q := n / d;
    if q % 64 == 0 && d * q != n then q + 1 else q
  }

  lemma QuotientAgrees(n: nat, d: nat)
    requires d > 0
    ensures Agrees(StickyQuotient(n, d), n, d, 64)
  {
    var q, s, r := n / d, StickyQuotient(n, d), n % d;
    assert n == q * d + r;
    forall b: int | b % 64 == 0 ensures AgreesAt(s, n, d, b) {
      Scale(b, q, d);
      Scale(q, b, d);
      if q < b {
        Scale(q + 1, b, d);
        Distributes(q, 1, d);
      }
    }
  }

  lemma QuotientBounds(n: nat, d: nat, low: nat, high: nat)
    requires d > 0 && low * d <= n < high * d && low % 64 == 0 && high % 64 == 0
    ensures low <= StickyQuotient(n, d) < high
  {
    QuotientAgrees(n, d);
    hide StickyQuotient;
    assert AgreesAt(StickyQuotient(n, d), n, d, low) && AgreesAt(StickyQuotient(n, d), n, d, high);
  }

  lemma QuotientPowers()
    ensures Pow2(8) == 0x100 && Pow2(38) == 0x40_0000_0000 && Pow2(39) == 0x80_0000_0000
  {
    SmallFraction();
    WordSize();
    Pow2Adds(32, 6);
    Pow2Adds(32, 7);
    Pow2Is128();
    assert Pow2(7) == 2 * Pow2(6);
  }

  /** The quotient of two significands, the dividend halved if it is not the smaller one, stands for the exact quotient. */
  lemma QuotientStands(expA: nat, sa: nat, expB: nat, sb: nat, ua: nat, ub: nat)
    requires 0 < expA && 0 < expB && ONE <= sa < 2 * ONE && ONE <= sb < 2 * ONE
    requires ua == Up(sa, expA - 1) && ub == Up(sb, expB - 1)
    ensures var halve := sb * 0x100 <= sa * 0x80 + sa * 0x80;
      var sig := StickyQuotient((if halve then sa * 0x80 / 2 else sa * 0x80) * 0x1_0000_0000, sb * 0x100);
      var exp := expA - expB + 0x7D + (if halve then 1 else 0);
      Packable(exp, sig) && StandsFor(exp, sig, Up(ua, 149), ub)
  {
    var halve := sb <= sa;
    var n, d := (if halve then sa * 0x40 else sa * 0x80) * 0x1_0000_0000, sb * 0x100;
    var exp := expA - expB + 0x7D + (if halve then 1 else 0);
    QuotientPowers();
    QuotientAgrees(n, d);
    QuotientBounds(n, d, 128 * ONE, 256 * ONE);
    assert n == Up(sa, if halve then 38 else 39) && d == Up(sb, 8);
    hide Up, StickyQuotient, Pow2, Agrees, StandsFor;
    UpAdds(sa, expA - 1, 149);
    StandsByPowers(exp, StickyQuotient(n, d), sa, if halve then 38 else 39, sb, 8, expA + 148, expB - 1);
  }

  /** The quotient, for operands of every kind. */
  ghost predicate Divided(z: nat, a: nat, b: nat, mode: Mode, how: Detection, before: Flags, after: Flags) {
    var sign := Sign(a) != Sign(b);
    if IsNaN(a) || IsNaN(b) then NaNResult(z, a, b, before, after)
    else if (IsInf(a) && IsInf(b)) || (IsZero(a) && IsZero(b)) then z == NAN && after == Both(before, INVALID)
    else if IsInf(a) then z == Pack(sign, 0xFF, 0) && after == before
    else if IsZero(b) then z == Pack(sign, 0xFF, 0) && after == Both(before, DIVISION_BY_ZERO)
    else if IsInf(b) || IsZero(a) then z == Pack(sign, 0, 0) && after == before
    else Delivers(z, sign, mode, how, Up(Taken(a), 149), Taken(b), before, after)
  }

  // ---- Sums and differences of magnitudes ----

  /** The operands whose exponents are zero and one: nothing is to be shifted out, and that is where the shift fails. */
  predicate Misaligned(a: nat, b: nat) {
    (Exp(a) == 1 && Exp(b) == 0) || (Exp(a) == 0 && Exp(b) == 1)
  }

  lemma UpDistributes(x: nat, y: nat, n: nat)
    ensures Up(x, n) + Up(y, n) == Up(x + y, n)
    ensures x >= y ==> Up(x, n) >= Up(y, n) && Up(x, n) - Up(y, n) == Up(x - y, n)
  {
    if x >= y {
      Times(Pow2(n), y, x);
    }
  }

  lemma ShiftedPart(s: nat, unit: nat, count: nat)
    requires s < 2 * ONE && unit <= 128 && count > 0
    ensures ShiftSticky(32, s * unit, count) == Sticky(s * unit, count)
    ensures Sticky(s * unit, count) < 128 * ONE
    ensures unit == 64 ==> Sticky(s * unit, count) < 64 * ONE
  {
    WordSize();
    Times(s, unit, 128);
    ShiftIsSticky(32, s * unit, count);
    Pow2Grows(1, count);
    assert Pow2(1) == 2;
    Times(128 * ONE, 2, Pow2(count));
    Times(64 * ONE, 2, Pow2(count));
    StickyCompares(s * unit, count, 128 * ONE);
    StickyCompares(s * unit, count, 64 * ONE);
  }

  lemma MovedSum(sl: nat, sm: nat, count: nat, s: nat)
    requires Agrees(s, sm * 64, Pow2(count), 2)
    ensures Agrees(sl * 64 + s, Up(Up(sl, count) + sm, 6), Pow2(count), 2)
  {
    hide Agrees;
    SixtyFour();
    AgreesMoved(s, sm * 64, Pow2(count), 2, sl * 64);
    assert sl * 64 * Pow2(count) == 64 * (sl * Pow2(count));
    assert sl * 64 * Pow2(count) + sm * 64 == Up(Up(sl, count) + sm, 6);
  }

  lemma SixtyFour()
    ensures Pow2(6) == 64 && Pow2(7) == 128
  {
    Pow2Is128();
    assert Pow2(7) == 2 * Pow2(6);
  }

  ghost predicate SumStanding(exp: int, total: nat, p: nat, q: nat) {
    && 64 * ONE <= total < 256 * ONE
    && (total < 128 * ONE ==> StandsFor(exp - 1, 2 * total, p, q))
    && (total >= 128 * ONE ==> StandsFor(exp, total, p, q))
  }

  lemma StickyAgrees(a: nat, count: nat)
    ensures Agrees(Sticky(a, count), a, Pow2(count), 2)
  {
    AgreesExactly(a, 1, 2);
    hide Agrees, Pow2, Sticky;
    AgreesShifted(a, a, 1, 2, count);
  }

  lemma UpOfOnes(n: nat)
    ensures Up(1, n) == Pow2(n) && Up(1, 0) == 1
  {
    assert Pow2(0) == 1;
  }

  /** The larger significand plus the smaller one shifted with a sticky bit stands for the exact sum. */
  lemma SumStands(expL: nat, sl: nat, em: nat, sm: nat)
    requires 0 < em < expL && ONE <= sl < 2 * ONE && sm < 2 * ONE
    ensures SumStanding(expL, sl * 64 + ShiftSticky(32, sm * 64, expL - em), Up(sl, expL - 1) + Up(sm, em - 1), 1)
  {
    hide Agrees, Pow2, Sticky, ShiftSticky, Up, StandsFor;
    var count := expL - em;
    var x, s := Up(sl, count) + sm, Sticky(sm * 64, count);
    ShiftedPart(sm, 64, count);
    var total := sl * 64 + s;
    UpOfOnes(count);
    StickyAgrees(sm * 64, count);
    MovedSum(sl, sm, count, s);
    GrainUpTo64(total, Up(x, 6), Pow2(count));
    UpAdds(sl, count, em - 1);
    UpDistributes(Up(sl, count), sm, em - 1);
    if total < 128 * ONE {
      UpDoubled(x, 6);
      StandsByPowers(expL - 1, 2 * total, x, 7, 1, count, em - 1, 0);
    } else {
      StandsByPowers(expL, total, x, 6, 1, count, em - 1, 0);
    }
  }

  lemma UpDoubled(x: nat, n: nat)
    ensures Up(x, n + 1) == 2 * Up(x, n)
  {
    Doubled(x, n);
    assert 2 * x * Pow2(n) == 2 * (x * Pow2(n));
  }

  /** Where the shift by nothing has put a one in place of the smaller operand. */
  lemma MisalignedSumStands(sl: nat)
    requires ONE <= sl < 2 * ONE
    ensures SumStanding(1, sl * 64 + 1, 64 * sl + 1, 64)
  {
    var total := sl * 64 + 1;
    SixtyFour();
    UpOfOne(6);
    UpOfOne(0);
    assert Pow2(0) == 1 && Pow2(1) == 2;
    assert Up(total, 0) == total && Up(total, 1) == 2 * total;
    AgreesExactly(total, 1, 64);
    AgreesExactly(2 * total, 1, 64);
    hide Agrees, Pow2, Up, StandsFor;
    StandsByPowers(0, 2 * total, total, 1, 1, 0, 0, 6);
  }

  /** Equal exponents: nothing is shifted, and the sum has one bit more. */
  lemma EqualSumStands(exp: nat, sa: nat, sb: nat)
    requires 0 < exp && ONE <= sa < 2 * ONE && ONE <= sb < 2 * ONE
    ensures Packable(exp, (sa + sb) * 64) && StandsFor(exp, (sa + sb) * 64, Up(sa, exp - 1) + Up(sb, exp - 1), 1)
  {
    SixtyFour();
    UpOfOne(0);
    assert Pow2(0) == 1;
    assert Up(sa + sb, 6) == (sa + sb) * 64;
    AgreesExactly((sa + sb) * 64, 1, 64);
    hide Agrees, Pow2, Up, StandsFor;
    UpDistributes(sa, sb, exp - 1);
    StandsByPowers(exp, (sa + sb) * 64, sa + sb, 6, 1, 0, exp - 1, 0);
  }

  lemma SumPacks(exp: int, total: nat, p: nat, q: nat)
    requires SumStanding(exp, total, p, q)
    ensures (total * 2) % 0x1_0000_0000 >= 0x8000_0000 <==> total >= 128 * ONE
    ensures if total >= 128 * ONE then Packable(exp, total) && StandsFor(exp, total, p, q)
            else (total * 2) % 0x1_0000_0000 == 2 * total && Packable(exp - 1, 2 * total) && StandsFor(exp - 1, 2 * total, p, q)
  {
    hide StandsFor;
    FitsWord(2 * total);
  }

  /** The larger significand minus the smaller one shifted with a sticky bit. */
  function Difference(sl: nat, sm: nat, count: nat): int {
    sl * 128 - Sticky(sm * 128, count)
  }

  lemma StickyOfShifted(k: nat, n: nat)
    ensures Sticky(Up(k, n), n) == k
  {
    DivModUnique(Up(k, n), Pow2(n), k, 0);
  }

  /** Up to a distance of seven nothing is lost. */
  lemma StickyExact(sm: nat, count: nat)
    requires count <= 7
    ensures Up(Sticky(sm * 128, count), count) == Up(sm, 7) == sm * 128
  {
    UpAdds(sm, 7 - count, count);
    Pow2Is128();
    StickyOfShifted(Up(sm, 7 - count), count);
  }

  lemma DifferenceExact(sl: nat, sm: nat, count: nat)
    requires count <= 7 && Sticky(sm * 128, count) <= sl * 128 && Up(sl, count) >= sm
    ensures Difference(sl, sm, count) >= 0
    ensures Up(Difference(sl, sm, count), count) == Up(Up(sl, count) - sm, 7)
  {
    StickyExact(sm, count);
    Pow2Is128();
    assert Up(sl, 7) == sl * 128;
    hide Pow2, Sticky, Up;
    UpAdds(sl, 7, count);
    UpAdds(sl, count, 7);
    UpDistributes(sl * 128, Sticky(sm * 128, count), count);
    UpDistributes(Up(sl, count), sm, 7);
  }

  /** Where bits were lost, the operands are so far apart that at most one leading bit cancels. */
  lemma LittleCancels(sl: nat, sm: nat, count: nat)
    requires count > 7 && ONE <= sl < 2 * ONE && sm < 2 * ONE
    ensures 64 * ONE <= Difference(sl, sm, count) < 256 * ONE
    ensures Up(sl, count) >= sm
  {
    Pow2Grows(8, count);
    SmallFraction();
    Times(ONE, 256, Pow2(count));
    Times(Pow2(count), ONE, sl);
    StickyCompares(sm * 128, count, ONE);
    assert Pow2(count) * sl == Up(sl, count);
    assert ONE * 256 <= ONE * Pow2(count);
  }

  lemma ClzSmall(sig: nat)
    requires 64 * ONE <= sig < 256 * ONE
    ensures if sig >= 128 * ONE then Clz(sig) == 1 else Clz(sig) == 2
  {
    assert Pow2(0) == 1 && Pow2(1) == 2 && Pow2(2) == 4;
    ClzUnique(sig, if sig >= 128 * ONE then 1 else 2);
  }

  /** A difference that need not be normalized stands for the exact difference, wherever its leading bit is. */
  ghost predicate DifferenceStanding(exp: int, sig: nat, p: nat, q: nat) {
    && 0 < sig < 256 * ONE && Clz(sig) >= 1
    && StandsFor(exp - (Clz(sig) - 1), sig * Pow2(Clz(sig) - 1), p, q)
  }

  lemma ExactDifferenceStands(expL: int, sig: nat, x: nat, em: nat, count: nat)
    requires 0 < sig < 256 * ONE && em > 0 && count == expL - em && Up(sig, count) == Up(x, 7)
    ensures DifferenceStanding(expL - 1, sig, Up(x, em - 1), 1)
  {
    ClzNormalizes(sig);
    var c := Clz(sig) - 1;
    AgreesExactly(Up(sig, c), Pow2(count), 64);
    UpOfOne(count);
    UpOfOne(0);
    assert Pow2(0) == 1;
    assert Up(Up(sig, c), count) == Up(sig, c) * Pow2(count);
    hide Agrees, Pow2, StandsFor, Clz;
    assert Up(sig, c) == sig * Pow2(c);
    hide Up;
    UpAdds(sig, c, count);
    UpAdds(sig, count, c);
    UpAdds(x, 7, c);
    StandsByPowers(expL - 1 - c, Up(sig, c), x, 7 + c, 1, count, em - 1, 0);
  }

  lemma MovedDifference(sl: nat, sm: nat, count: nat, s: nat)
    requires Agrees(s, sm * 128, Pow2(count), 2) && Up(sl, count) >= sm
    ensures Agrees(sl * 128 - s, Up(Up(sl, count) - sm, 7), Pow2(count), 2)
  {
    hide Agrees;
    Pow2Is128();
    AgreesMoved(s, sm * 128, Pow2(count), 2, sl * 128);
    assert sl * 128 * Pow2(count) == 128 * (sl * Pow2(count));
    assert sl * 128 * Pow2(count) - sm * 128 == Up(Up(sl, count) - sm, 7);
  }

  lemma InexactDifferenceStands(expL: nat, sl: nat, em: nat, sm: nat)
    requires 0 < em && expL - em > 7 && ONE <= sl < 2 * ONE && sm < 2 * ONE
    ensures Difference(sl, sm, expL - em) > 0 && Up(sl, expL - em) >= sm
    ensures DifferenceStanding(expL - 1, Difference(sl, sm, expL - em), Up(Up(sl, expL - em) - sm, em - 1), 1)
  {
    var count := expL - em;
    LittleCancels(sl, sm, count);
    var x, s, sig := Up(sl, count) - sm, Sticky(sm * 128, count), Difference(sl, sm, count);
    ClzSmall(sig);
    AgreesExactly(sm * 128, 1, 2);
    UpOfOne(count);
    UpOfOne(0);
    assert Pow2(0) == 1 && Pow2(1) == 2;
    assert sig == sl * 128 - s;
    assert sig * Pow2(Clz(sig) - 1) == if sig >= 128 * ONE then sig else 2 * sig;
    hide Agrees, Pow2, Sticky, Up, StandsFor, Difference, Clz;
    AgreesShifted(sm * 128, sm * 128, 1, 2, count);
    MovedDifference(sl, sm, count, s);
    GrainUpTo64(sig, Up(x, 7), Pow2(count));
    if sig >= 128 * ONE {
      StandsByPowers(expL - 1, sig, x, 7, 1, count, em - 1, 0);
    } else {
      UpDoubled(x, 7);
      StandsByPowers(expL - 2, 2 * sig, x, 8, 1, count, em - 1, 0);
    }
  }

  lemma UpAtLeastDoubles(x: nat, n: nat)
    requires n > 0
    ensures Up(x, n) >= 2 * x
  {
    Pow2Grows(1, n);
    assert Pow2(1) == 2;
    Times(x, 2, Pow2(n));
  }

  lemma ExactlyShifted(expL: nat, sl: nat, em: nat, sm: nat)
    requires 0 < em < expL <= em + 7 && ONE <= sl < 2 * ONE && sm < 2 * ONE
    ensures Difference(sl, sm, expL - em) > 0 && Up(sl, expL - em) >= sm
    ensures DifferenceStanding(expL - 1, Difference(sl, sm, expL - em), Up(Up(sl, expL - em) - sm, em - 1), 1)
  {
    var count := expL - em;
    ShiftedPart(sm, 128, count);
    UpAtLeastDoubles(sl, count);
    hide Up, Pow2, Agrees, Sticky, ShiftSticky, StandsFor, DifferenceStanding;
    DifferenceExact(sl, sm, count);
    ExactDifferenceStands(expL, Difference(sl, sm, count), Up(sl, count) - sm, em, count);
  }

  /** Whatever the distance of the exponents, the one sticky bit is enough, also when leading bits cancel. */
  lemma DifferenceStands(expL: nat, sl: nat, em: nat, sm: nat)
    requires 0 < em < expL && ONE <= sl < 2 * ONE && sm < 2 * ONE
    ensures var sig := sl * 128 - ShiftSticky(32, sm * 128, expL - em);
      Up(sl, expL - 1) >= Up(sm, em - 1) && sig > 0
      && DifferenceStanding(expL - 1, sig, Up(sl, expL - 1) - Up(sm, em - 1), 1)
  {
    var count := expL - em;
    assert Difference(sl, sm, count) == sl * 128 - Sticky(sm * 128, count);
    hide *;
    ShiftedPart(sm, 128, count);
    UpAdds(sl, count, em - 1);
    if count <= 7 {
      ExactlyShifted(expL, sl, em, sm);
    } else {
      InexactDifferenceStands(expL, sl, em, sm);
    }
    UpDistributes(Up(sl, count), sm, em - 1);
  }

  /** Equal exponents: the difference of the significands is exact. */
  lemma EqualDifferenceStands(e: nat, fa: nat, fb: nat)
    requires 0 < e && fb < fa < 2 * ONE
    ensures Up(fa, e - 1) >= Up(fb, e - 1)
    ensures DifferenceStanding(e - 1, fa * 128 - fb * 128, Up(fa, e - 1) - Up(fb, e - 1), 1)
  {
    Pow2Is128();
    assert Pow2(0) == 1;
    assert Up((fa - fb) * 128, 0) == Up(fa - fb, 7);
    UpDistributes(fa, fb, e - 1);
    hide Agrees, Pow2, StandsFor, DifferenceStanding, Up;
    ExactDifferenceStands(e, (fa - fb) * 128, fa - fb, e, 0);
  }

  /** Where the shift by nothing has put a one in place of the smaller operand. */
  lemma MisalignedDifferenceStands(sl: nat)
    requires ONE <= sl < 2 * ONE
    ensures DifferenceStanding(0, sl * 128 - 1, 128 * sl - 1, 128)
  {
    var sig := sl * 128 - 1;
    ClzSmall(sig);
    Pow2Is128();
    UpOfOne(7);
    UpOfOne(0);
    assert Pow2(0) == 1 && Pow2(1) == 2;
    assert Up(sig, 0) == sig && Up(sig, 1) == 2 * sig;
    AgreesExactly(sig, 1, 64);
    AgreesExactly(2 * sig, 1, 64);
    assert sig * Pow2(Clz(sig) - 1) == if sig >= 128 * ONE then sig else 2 * sig;
    hide Agrees, Pow2, Up, StandsFor, Clz;
    if sig >= 128 * ONE {
      StandsByPowers(0, sig, sig, 0, 1, 0, 0, 7);
    } else {
      StandsByPowers(-1, 2 * sig, sig, 1, 1, 0, 0, 7);
    }
  }
}
