// Multiplication and division take a subnormal operand for a power of two times
// what it is: when the result is right all the same, and when it is not.

module SubnormalOperands {
  import opened Rounding
  import opened Significands
  import opened SoftFloat

  // ---- Two values, one at least twice the other ----

  /** Both values are so small that they are rounded off to the same magnitude, neither of them exactly. */
  predicate Lost(dir: Direction, p: nat, p2: nat, q: nat) {
    if dir.ToNearest? then 2 * p2 <= q || (q < 2 * p && 2 * p2 < 3 * q) else p2 < q
  }

  /** One magnitude is the rounded one for both values, with the same exceptions. */
  ghost predicate Alike(dir: Direction, how: Detection, z: nat, p: nat, p2: nat, q: nat) {
    && Rounded(dir, z, p, q) && Rounded(dir, z, p2, q)
    && RoundingFlags(dir, how, z, p, q) == RoundingFlags(dir, how, z, p2, q)
  }

  lemma RoundedIsLocal(dir: Direction, z: nat, p: nat, q: nat)
    requires q > 0 && Rounded(dir, z, p, q)
    ensures LocallyRounded(dir, z, p, q)
  {
    if z > 0 {
      UnitsStep(z - 1);
    }
    UnitsStep(z);
    hide Units;
    if z > 0 {
      Scale(Units(z - 1), Units(z), q);
      Distributes(Units(z - 1), Units(z), q);
      assert dir.ToNearest? ==> Distance(z, p, q) <= Distance(z - 1, p, q);
    }
    Scale(Units(z), Units(z + 1), q);
    Distributes(Units(z), Units(z + 1), q);
    assert dir.ToNearest? && z < INF ==> Distance(z, p, q) <= Distance(z + 1, p, q);
  }

  /** From two up, the step above a magnitude is no larger than the magnitude below it. */
  lemma StepsAreSmall(z: nat)
    requires z >= 2
    ensures Units(z + 1) <= Units(z) + Units(z - 1)
  {
    assert Pow2(0) == 1;
    hide Units;
    if z < ONE {
      hide Pow2;
      UnitsOf(0, z - 1);
      UnitsOf(0, z);
      UnitsOf(0, z + 1);
    } else {
      NormalSteps(z / ONE - 1, ONE + z % ONE);
    }
  }

  lemma NormalSteps(e: nat, m: nat)
    requires ONE <= m < 2 * ONE
    ensures Units(e * ONE + m + 1) <= Units(e * ONE + m) + Units(e * ONE + m - 1)
  {
    assert Pow2(0) == 1;
    hide Units;
    UnitsOf(e, m);
    UnitsOf(e, m + 1);
    if m > ONE {
      hide Pow2;
      UnitsOf(e, m - 1);
      Stepped(m - 1, Pow2(e));
    } else if e == 0 {
      hide Pow2;
      UnitsOf(0, ONE - 1);
    } else {
      UnitsOf(e - 1, 2 * ONE - 1);
      Doubled(m, e - 1);
      Doubled(m + 1, e - 1);
      hide Pow2;
      StepAcross(Pow2(e - 1));
    }
  }

  lemma StepAcross(t: nat)
    requires t > 0
    ensures 2 * (ONE + 1) * t <= 2 * ONE * t + (2 * ONE - 1) * t
  {
    Distributes(2 * ONE, 2, t);
    Distributes(2 * ONE, -1, t);
    Scale(3, 2 * ONE, t);
  }

  lemma Stepped(m: nat, t: nat)
    requires m > 0 && t > 0
    ensures (m + 2) * t <= (m + 1) * t + m * t
  {
    Scale(1, m, t);
  }

  lemma SmallMagnitudes()
    ensures Units(0) == 0 && Units(1) == 1 && Units(2) == 2
  {
  }

  lemma AtMostDouble(z: nat)
    requires z >= 1
    ensures 0 < Units(z) < Units(z + 1) <= 2 * Units(z)
  {
    SmallMagnitudes();
    UnitsStep(z);
    UnitsStep(z - 1);
    hide Units;
    if z >= 2 {
      StepsAreSmall(z);
    }
  }

  lemma Products(a: nat, b: nat, c: nat, q: nat)
    requires q > 0 && 0 < a < b < c <= a + b && b <= 2 * a
    ensures 0 < a * q < b * q < c * q <= a * q + b * q && b * q <= 2 * (a * q)
    ensures (a + b) * q == a * q + b * q && (b + c) * q == b * q + c * q
  {
    Scale(0, a, q);
    Scale(a, b, q);
    Scale(b, c, q);
    Scale(c, a + b, q);
    Scale(b, 2 * a, q);
    Distributes(a, b, q);
    Distributes(b, c, q);
    Distributes(a, a, q);
  }

  /** In between, a magnitude is never the rounded one for both. */
  lemma TooFarApart(dir: Direction, z: nat, p: nat, p2: nat, q: nat)
    requires q > 0 && p2 >= 2 * p && 2 <= z < if dir.Truncate? then INF - 1 else INF
    requires LocallyRounded(dir, z, p, q)
    ensures !LocallyRounded(dir, z, p2, q)
  {
    StepsAreSmall(z);
    AtMostDouble(z - 1);
    AtMostDouble(z);
    hide Units;
    Products(Units(z - 1), Units(z), Units(z + 1), q);
  }

  /** Two values with the same rounded magnitude and the same exceptions both overflow, or both are lost. */
  lemma AlikeMeans(dir: Direction, how: Detection, z: nat, p: nat, p2: nat, q: nat)
    requires q > 0 && p > 0 && p2 >= 2 * p && z <= INF && Rounded(dir, z, p, q) && Rounded(dir, z, p2, q)
    requires var f, f2 := RoundingFlags(dir, how, z, p, q), RoundingFlags(dir, how, z, p2, q);
      f.overflow == f2.overflow && f.inexact == f2.inexact
    ensures Overflows(dir, p, q) || Lost(dir, p, p2, q)
  {
    RoundedIsLocal(dir, z, p, q);
    RoundedIsLocal(dir, z, p2, q);
    SmallMagnitudes();
    AtMostDouble(INF - 1);
    hide Units, Rounded, Tiny;
    if z >= 2 && z < if dir.Truncate? then INF - 1 else INF {
      TooFarApart(dir, z, p, p2, q);
    } else if dir.Truncate? && z == INF - 1 {
      Scale(Units(INF), 2 * Units(INF - 1), q);
      Distributes(Units(INF - 1), Units(INF - 1), q);
    }
  }

  lemma VerySmall(dir: Direction, how: Detection, x: nat, q: nat)
    requires q > 0 && 0 < x && x < 2 * q
    ensures Tiny(dir, how, x, q) && !Overflows(dir, x, q)
  {
    SmallNoOverflow(dir, x, q);
    forall z: nat | Rounded(dir, z, 2 * x, q)
      ensures Units(z) < 2 * ONE
    {
      hide Rounded, Units;
      StaysSmall(dir, z, 2 * x, q);
    }
  }

  /** What both are rounded off to. */
  function LostTo(dir: Direction, p2: nat, q: nat): nat {
    if dir.Truncate? || (dir.ToNearest? && 2 * p2 <= q) then 0 else 1
  }

  lemma LostTogether(dir: Direction, how: Detection, p: nat, p2: nat, q: nat, x: nat)
    requires q > 0 && p > 0 && p2 >= 2 * p && Lost(dir, p, p2, q) && (x == p || x == p2)
    ensures var z := LostTo(dir, p2, q);
      Rounded(dir, z, x, q) && RoundingFlags(dir, how, z, x, q) == Flags(false, false, false, true, true)
  {
    var z := LostTo(dir, p2, q);
    SmallMagnitudes();
    hide Units;
    assert LocallyRounded(dir, z, x, q);
    LocallyIsEnough(dir, z, x, q);
    VerySmall(dir, how, x, q);
  }

  function OverflowTo(dir: Direction): nat {
    if dir.Truncate? then INF - 1 else INF
  }

  lemma OverflowTogether(dir: Direction, how: Detection, p: nat, q: nat, x: nat)
    requires q > 0 && x >= p && Overflows(dir, p, q)
    ensures Rounded(dir, OverflowTo(dir), x, q)
    ensures RoundingFlags(dir, how, OverflowTo(dir), x, q) == Flags(false, false, true, false, true)
  {
    UnitsStep(INF - 1);
    hide Units;
    Scale(Units(INF - 1), Units(INF), q);
    assert LocallyRounded(dir, OverflowTo(dir), x, q);
    LocallyIsEnough(dir, OverflowTo(dir), x, q);
    assert Overflows(dir, x, q);
    NotTinyLarge(dir, x, q);
  }

  lemma AlikeIf(dir: Direction, how: Detection, z: nat, p: nat, p2: nat, q: nat)
    requires q > 0 && p > 0 && p2 >= 2 * p && (Rounded(dir, z, p, q) || Rounded(dir, z, p2, q))
    requires Overflows(dir, p, q) || Lost(dir, p, p2, q)
    ensures Alike(dir, how, z, p, p2, q)
  {
    var z0 := if Overflows(dir, p, q) then OverflowTo(dir) else LostTo(dir, p2, q);
    if Overflows(dir, p, q) {
      OverflowTogether(dir, how, p, q, p);
      OverflowTogether(dir, how, p, q, p2);
    } else {
      LostTogether(dir, how, p, p2, q, p);
      LostTogether(dir, how, p, p2, q, p2);
    }
    hide Rounded, RoundingFlags;
    RoundedUnique(dir, z, z0, if Rounded(dir, z, p, q) then p else p2, q);
  }

  /** No exception has been raised before that a wrong one could hide behind. */
  predicate Clear(before: Flags) {
    !before.overflow && !before.inexact
  }

  /** A result delivered for one of the two values is a result for the other if and only if both overflow or both are lost. */
  lemma DeliveredForBoth(z: nat, sign: bool, mode: Mode, how: Detection, p: nat, p2: nat, q: nat, x: nat, y: nat, before: Flags, after: Flags)
    requires q > 0 && p > 0 && p2 >= 2 * p && ((x == p && y == p2) || (x == p2 && y == p))
    requires Delivers(z, sign, mode, how, x, q, before, after)
    ensures Overflows(DirectionOf(mode, sign), p, q) || Lost(DirectionOf(mode, sign), p, p2, q)
       ==> Delivers(z, sign, mode, how, y, q, before, after)
    ensures Clear(before) ==> (Delivers(z, sign, mode, how, y, q, before, after)
       <==> Overflows(DirectionOf(mode, sign), p, q) || Lost(DirectionOf(mode, sign), p, p2, q))
  {
    var dir, m := DirectionOf(mode, sign), Magnitude(z);
    hide Rounded, RoundingFlags, Overflows, Lost, Sign, Magnitude;
    if Overflows(dir, p, q) || Lost(dir, p, p2, q) {
      AlikeIf(dir, how, m, p, p2, q);
    } else if Clear(before) && Delivers(z, sign, mode, how, y, q, before, after) {
      AlikeMeans(dir, how, m, p, p2, q);
    }
  }

  // ---- The same value, written differently ----

  lemma TimesBoth(u: nat, q: nat, p: nat, t: nat)
    requires t > 0
    ensures u * q <= p <==> u * (q * t) <= p * t
    ensures u * q < p <==> u * (q * t) < p * t
    ensures u * (q * t) == u * q * t
  {
    assert u * (q * t) == u * q * t;
    Scale(u * q, p, t);
  }

  lemma DistanceScaled(z: nat, p: nat, q: nat, t: nat)
    requires t > 0
    ensures Distance(z, p * t, q * t) == Distance(z, p, q) * t
  {
    hide Units;
    TimesBoth(Units(z), q, p, t);
    var u, v: int := Units(z) * q, p;
    Distributes(u, -v, t);
    Distributes(v, -u, t);
  }

  lemma RoundedScaled(dir: Direction, z: nat, p: nat, q: nat, t: nat)
    requires t > 0
    ensures Rounded(dir, z, p, q) <==> Rounded(dir, z, p * t, q * t)
  {
    hide Units, Distance;
    if dir.ToNearest? {
      forall y: nat
        ensures Distance(z, p, q) <= Distance(y, p, q) <==> Distance(z, p * t, q * t) <= Distance(y, p * t, q * t)
        ensures Distance(z, p, q) == Distance(y, p, q) <==> Distance(z, p * t, q * t) == Distance(y, p * t, q * t)
      {
        DistanceScaled(y, p, q, t);
        DistanceScaled(z, p, q, t);
        Scale(Distance(z, p, q), Distance(y, p, q), t);
        Scale(Distance(y, p, q), Distance(z, p, q), t);
      }
    } else {
      forall y: nat
        ensures Units(y) * q <= p <==> Units(y) * (q * t) <= p * t
        ensures Units(y) * q < p <==> Units(y) * (q * t) < p * t
      {
        TimesBoth(Units(y), q, p, t);
      }
    }
  }

  lemma FlagsScaled(dir: Direction, how: Detection, z: nat, p: nat, q: nat, t: nat)
    requires t > 0
    ensures RoundingFlags(dir, how, z, p, q) == RoundingFlags(dir, how, z, p * t, q * t)
  {
    hide Units, Rounded;
    TimesBoth(Units(z), q, p, t);
    TimesBoth(Units(INF), q, p, t);
    TimesBoth(Units(INF - 1), q, p, t);
    TimesBoth(Units(INF - 1) + Units(INF), q, 2 * p, t);
    TimesBoth(ONE, q, p, t);
    Scale(0, p, t);
    assert 2 * (p * t) == 2 * p * t;
    forall y: nat
      ensures Rounded(dir, y, 2 * p, q) <==> Rounded(dir, y, 2 * (p * t), q * t)
    {
      RoundedScaled(dir, y, 2 * p, q, t);
    }
  }

  lemma DeliversScaled(z: nat, sign: bool, mode: Mode, how: Detection, p: nat, q: nat, t: nat, before: Flags, after: Flags)
    requires t > 0
    ensures Delivers(z, sign, mode, how, p, q, before, after) <==> Delivers(z, sign, mode, how, p * t, q * t, before, after)
  {
    RoundedScaled(DirectionOf(mode, sign), Magnitude(z), p, q, t);
    FlagsScaled(DirectionOf(mode, sign), how, Magnitude(z), p, q, t);
    hide Rounded, RoundingFlags, Sign, Magnitude;
  }

  // ---- Operands ----

  /** By how many bits a subnormal operand is taken to be larger than it is. */
  function Shift(a: nat): nat
    requires IsFinite(a) && !IsZero(a)
  {
    if IsSubnormal(a) then ShiftedUp(Frac(a)); Clz(Frac(a)) - 8 else 0
  }

  lemma TakenIsShifted(a: nat)
    requires IsFinite(a) && !IsZero(a)
    ensures Value(a) > 0 && Taken(a) == Up(Value(a), Shift(a)) && (Shift(a) > 0 <==> IsSubnormal(a))
    ensures IsSubnormal(a) ==> Value(a) < ONE
  {
    MagnitudeUnits(a);
    if IsSubnormal(a) {
      ShiftedUp(Frac(a));
    } else {
      UnitsGrow(0, Magnitude(a));
      assert Pow2(0) == 1;
    }
  }

  lemma MultipliesUp(x: nat, s: nat, y: nat, t: nat)
    ensures Product(Up(x, s), Up(y, t)) == Up(Product(x, y), s + t)
  {
    Pow2Adds(s, t);
    FourFactors(x, y, Pow2(s), Pow2(t));
  }

  lemma ValueBounded(a: nat)
    requires IsFinite(a)
    ensures Value(a) <= Units(INF - 1)
  {
    FiniteMagnitude(a);
    hide Units, Magnitude, IsFinite;
    if Magnitude(a) < INF - 1 {
      UnitsGrow(Magnitude(a), INF - 1);
    }
  }

  lemma OverflowIsLarge(dir: Direction, p: nat, q: nat)
    requires q > 0 && Overflows(dir, p, q)
    ensures p >= Units(INF - 1) * q
  {
    UnitsStep(INF - 1);
    hide Units;
    Scale(Units(INF - 1), Units(INF), q);
    Distributes(Units(INF - 1), Units(INF), q);
  }

  lemma LargePower()
    ensures ONE < Pow2(149)
  {
    HiddenBitPower();
    Pow2Adds(23, 126);
    Pow2Grows(1, 126);
    assert Pow2(1) == 2;
    hide Pow2;
    Scale(2, Pow2(126) + 1, ONE);
  }

  lemma ProductBelow(x: nat, y: nat, u: nat, q: nat)
    requires x <= ONE < q && y <= u && u > 0
    ensures Product(x, y) < u * q && Product(y, x) < u * q
  {
    Times(x, y, u);
    Times(u, x, ONE);
    Scale(ONE, q, u);
  }

  /** With a subnormal factor no product overflows. */
  lemma ProductFits(dir: Direction, x: nat, y: nat)
    requires x <= ONE && y <= Units(INF - 1)
    ensures !Overflows(dir, Product(x, y), Pow2(149)) && !Overflows(dir, Product(y, x), Pow2(149))
  {
    SmallMagnitudes();
    UnitsGrow(0, INF - 1);
    hide *;
    LargePower();
    var u, q := Units(INF - 1), Pow2(149);
    ProductBelow(x, y, u, q);
    if Overflows(dir, Product(x, y), q) {
      OverflowIsLarge(dir, Product(x, y), q);
    }
    if Overflows(dir, Product(y, x), q) {
      OverflowIsLarge(dir, Product(y, x), q);
    }
  }

  lemma ProductTaken(z: nat, a: nat, b: nat, mode: Mode, how: Detection, before: Flags, after: Flags)
    requires IsFinite(a) && !IsZero(a) && IsFinite(b) && !IsZero(b) && Multiplied(z, a, b, mode, how, before, after)
    ensures Delivers(z, Sign(a) != Sign(b), mode, how, Product(Taken(a), Taken(b)), Pow2(149), before, after)
  {
  }

  lemma QuotientTaken(z: nat, a: nat, b: nat, mode: Mode, how: Detection, before: Flags, after: Flags)
    requires IsFinite(a) && !IsZero(a) && IsFinite(b) && !IsZero(b) && Divided(z, a, b, mode, how, before, after)
    ensures Delivers(z, Sign(a) != Sign(b), mode, how, Up(Taken(a), 149), Taken(b), before, after)
  {
  }

  /** Factors taken to be larger by s and t bits, at least one of which was small. */
  lemma ShiftedProduct(z: nat, sign: bool, mode: Mode, how: Detection, x: nat, s: nat, y: nat, t: nat, before: Flags, after: Flags)
    requires 0 < x <= Units(INF - 1) && 0 < y <= Units(INF - 1) && s + t > 0 && (s > 0 ==> x <= ONE) && (t > 0 ==> y <= ONE)
    requires Delivers(z, sign, mode, how, Product(Up(x, s), Up(y, t)), Pow2(149), before, after)
    ensures var right := Delivers(z, sign, mode, how, Product(x, y), Pow2(149), before, after);
      var lost := Lost(DirectionOf(mode, sign), Product(x, y), Up(Product(x, y), s + t), Pow2(149));
      (lost ==> right) && (Clear(before) ==> (right <==> lost))
  {
    hide *;
    var p := Product(x, y);
    MultipliesUp(x, s, y, t);
    ProductPositive(x, y);
    UpAtLeastDoubles(p, s + t);
    if s > 0 {
      ProductFits(DirectionOf(mode, sign), x, y);
    } else {
      ProductFits(DirectionOf(mode, sign), y, x);
    }
    DeliveredForBoth(z, sign, mode, how, p, Up(p, s + t), Pow2(149), Up(p, s + t), p, before, after);
  }

  /**
   * The product of finite numbers is right if neither factor is subnormal or the exact product and
   * the one computed are both lost, and only then, if no exception raised before hides it.
   */
  lemma MulRightIff(z: nat, a: nat, b: nat, mode: Mode, how: Detection, before: Flags, after: Flags)
    requires IsFinite(a) && !IsZero(a) && IsFinite(b) && !IsZero(b)
    requires Multiplied(z, a, b, mode, how, before, after)
    ensures var right := Delivers(z, Sign(a) != Sign(b), mode, how, Product(Value(a), Value(b)), Pow2(149), before, after);
      var fits := (!IsSubnormal(a) && !IsSubnormal(b)) ||
                  Lost(DirectionOf(mode, Sign(a) != Sign(b)), Product(Value(a), Value(b)),
                       Up(Product(Value(a), Value(b)), Shift(a) + Shift(b)), Pow2(149));
      (fits ==> right) && (Clear(before) ==> (right <==> fits))
  {
    hide *;
    ProductTaken(z, a, b, mode, how, before, after);
    TakenIsShifted(a);
    TakenIsShifted(b);
    if Shift(a) + Shift(b) == 0 {
      UpByNothing(Value(a));
      UpByNothing(Value(b));
    } else {
      ValueBounded(a);
      ValueBounded(b);
      ShiftedProduct(z, Sign(a) != Sign(b), mode, how, Value(a), Shift(a), Value(b), Shift(b), before, after);
    }
  }

  lemma ProductPositive(x: nat, y: nat)
    requires x > 0 && y > 0
    ensures Product(x, y) > 0
  {
    Scale(0, x, y);
  }

  lemma UpByNothing(x: nat)
    ensures Up(x, 0) == x
  {
    assert Pow2(0) == 1;
  }

  /** The smaller of two values overflows, or the larger is lost like it. */
  predicate SameAnyway(dir: Direction, x: nat, y: nat, q: nat) {
    if x <= y then Overflows(dir, x, q) || Lost(dir, x, y, q) else Overflows(dir, y, q) || Lost(dir, y, x, q)
  }

  lemma DeliveredAnyway(z: nat, sign: bool, mode: Mode, how: Detection, x: nat, y: nat, q: nat, before: Flags, after: Flags)
    requires q > 0 && x > 0 && y > 0 && (x >= 2 * y || y >= 2 * x)
    requires Delivers(z, sign, mode, how, x, q, before, after)
    ensures SameAnyway(DirectionOf(mode, sign), x, y, q) ==> Delivers(z, sign, mode, how, y, q, before, after)
    ensures Clear(before) ==>
      (Delivers(z, sign, mode, how, y, q, before, after) <==> SameAnyway(DirectionOf(mode, sign), x, y, q))
  {
    hide Delivers, Overflows, Lost, DirectionOf;
    if x <= y {
      DeliveredForBoth(z, sign, mode, how, x, y, q, x, y, before, after);
    } else {
      DeliveredForBoth(z, sign, mode, how, y, x, q, x, y, before, after);
    }
  }

  /**
   * The quotient of finite numbers is right if both operands are taken to be larger by the same
   * factor, or the exact quotient and the one computed both overflow or are both lost, and only then,
   * if no exception raised before hides it.
   */
  lemma DivRightIff(z: nat, a: nat, b: nat, mode: Mode, how: Detection, before: Flags, after: Flags)
    requires IsFinite(a) && !IsZero(a) && IsFinite(b) && !IsZero(b)
    requires Divided(z, a, b, mode, how, before, after)
    ensures var sign := Sign(a) != Sign(b);
      var right := Delivers(z, sign, mode, how, Up(Value(a), 149), Value(b), before, after);
      var fits := Shift(a) == Shift(b) ||
        SameAnyway(DirectionOf(mode, sign), Up(Value(a), 149 + Shift(a)), Up(Value(a), 149 + Shift(b)), Up(Value(b), Shift(b)));
      (fits ==> right) && (Clear(before) ==> (right <==> fits))
  {
    hide *;
    var sign := Sign(a) != Sign(b);
    QuotientTaken(z, a, b, mode, how, before, after);
    TakenIsShifted(a);
    TakenIsShifted(b);
    var q, taken, exact := Up(Value(b), Shift(b)), Up(Value(a), 149 + Shift(a)), Up(Value(a), 149 + Shift(b));
    UpAdds(Value(a), Shift(a), 149);
    UpAdds(Value(a), 149, Shift(b));
    UpIsTimes(Up(Value(a), 149), Value(b), Shift(b));
    DeliversScaled(z, sign, mode, how, Up(Value(a), 149), Value(b), Pow2(Shift(b)), before, after);
    if Shift(a) != Shift(b) {
      UpPositive(Value(b), Shift(b));
      UpPositive(Value(a), 149 + Shift(a));
      UpPositive(Value(a), 149 + Shift(b));
      if Shift(a) < Shift(b) {
        FartherUp(Value(a), 149 + Shift(a), 149 + Shift(b));
      } else {
        FartherUp(Value(a), 149 + Shift(b), 149 + Shift(a));
      }
      DeliveredAnyway(z, sign, mode, how, taken, exact, q, before, after);
    }
  }

  lemma UpIsTimes(x: nat, y: nat, n: nat)
    ensures Pow2(n) > 0 && x * Pow2(n) == Up(x, n) && y * Pow2(n) == Up(y, n)
  {
  }

  lemma FartherUp(x: nat, m: nat, n: nat)
    requires m < n
    ensures Up(x, n) >= 2 * Up(x, m)
  {
    UpAdds(x, m, n - m);
    UpAtLeastDoubles(Up(x, m), n - m);
  }
}
