// Operands and results that are not finite numbers, the exceptions that come with them, and
// what the rounding modes mean for the sign of the error.

module SpecialValues {
  import opened Wrappers
  import opened Rounding
  import opened Significands
  import opened SoftFloat
  import opened SubnormalOperands

  /** The kinds of operands, by their magnitude bits. */
  lemma Kinds(a: nat)
    ensures IsNaN(a) <==> Magnitude(a) > INF
    ensures IsInf(a) <==> Magnitude(a) == INF
    ensures IsFinite(a) <==> Magnitude(a) < INF
    ensures IsZero(a) <==> Magnitude(a) == 0
    ensures IsSubnormal(a) <==> 0 < Magnitude(a) < ONE
    ensures IsNormal(a) <==> ONE <= Magnitude(a) < INF
  {
    MagnitudeParts(a);
    hide Exp, Frac, Magnitude;
  }

  lemma MagnitudeParts(a: nat)
    ensures Magnitude(a) == Exp(a) * ONE + Frac(a) && Frac(a) < ONE && Exp(a) < 256
  {
  }

  /** A NaN is signaling if the highest bit of its fraction is not set. */
  lemma SignalingBits(a: nat)
    ensures IsSignaling(a) <==> INF < Magnitude(a) < INF + 0x40_0000
  {
    MagnitudeParts(a);
    Kinds(a);
    var k, r := a / ONE, a % ONE;
    assert a == k * ONE + r;
    UpperHalfOf(k, r);
    hide Exp, Magnitude, IsNaN;
  }

  lemma PackedInfinity(sign: bool)
    ensures var z := Pack(sign, 0xFF, 0);
      IsInf(z) && Sign(z) == sign
    ensures IsZero(Pack(sign, 0, 0)) && Sign(Pack(sign, 0, 0)) == sign
  {
  }

  lemma DefaultNaN()
    ensures IsNaN(NAN) && !IsSignaling(NAN)
  {
  }

  /** Two flags raised together, field by field. */
  lemma Raised(before: Flags)
    ensures Both(before, INVALID) == before.(invalid := true)
    ensures Both(before, DIVISION_BY_ZERO) == before.(divByZero := true)
  {
  }

  /** What a NaN operand does: the result is a NaN, and a signaling one raises invalid. */
  lemma NaNResults(z: nat, a: nat, b: nat, before: Flags, after: Flags)
    requires NaNResult(z, a, b, before, after)
    ensures IsNaN(z) && after == if IsSignaling(a) || IsSignaling(b) then before.(invalid := true) else before
  {
  }

  /** Quotients with a zero or an infinity. */
  lemma SpecialQuotients(z: nat, a: nat, b: nat, mode: Mode, how: Detection, before: Flags, after: Flags)
    requires !IsNaN(a) && !IsNaN(b) && Divided(z, a, b, mode, how, before, after)
    ensures IsFinite(a) && !IsZero(a) && IsZero(b) ==>
      IsInf(z) && Sign(z) == (Sign(a) != Sign(b)) && after == before.(divByZero := true)
    ensures (IsZero(a) && IsZero(b)) || (IsInf(a) && IsInf(b)) ==> IsNaN(z) && !IsSignaling(z) && after == before.(invalid := true)
    ensures IsInf(a) && IsFinite(b) ==> IsInf(z) && Sign(z) == (Sign(a) != Sign(b)) && after == before
    ensures (IsFinite(a) && IsInf(b)) || (IsZero(a) && IsFinite(b) && !IsZero(b)) ==>
      IsZero(z) && Sign(z) == (Sign(a) != Sign(b)) && after == before
  {
    Disjoint(a);
    Disjoint(b);
    Raised(before);
    DefaultNaN();
    PackedInfinity(Sign(a) != Sign(b));
    hide IsNaN, IsSignaling, IsInf, IsZero, IsFinite, Sign, Pack, Delivers, Taken, Up, Both, NAN, INVALID, DIVISION_BY_ZERO;
  }

  lemma Disjoint(a: nat)
    ensures !(IsInf(a) && IsFinite(a)) && (IsZero(a) ==> IsFinite(a)) && (IsNaN(a) || IsInf(a) || IsFinite(a))
    ensures !(IsNaN(a) && IsFinite(a)) && !(IsNaN(a) && IsInf(a))
  {
  }

  /** Products with a zero or an infinity. */
  lemma SpecialProducts(z: nat, a: nat, b: nat, mode: Mode, how: Detection, before: Flags, after: Flags)
    requires !IsNaN(a) && !IsNaN(b) && Multiplied(z, a, b, mode, how, before, after)
    ensures (IsZero(a) && IsInf(b)) || (IsInf(a) && IsZero(b)) ==> IsNaN(z) && !IsSignaling(z) && after == before.(invalid := true)
    ensures (IsInf(a) && !IsZero(b)) || (IsInf(b) && !IsZero(a)) ==> IsInf(z) && Sign(z) == (Sign(a) != Sign(b)) && after == before
    ensures (IsZero(a) && IsFinite(b)) || (IsFinite(a) && IsZero(b)) ==> IsZero(z) && Sign(z) == (Sign(a) != Sign(b)) && after == before
  {
    Disjoint(a);
    Disjoint(b);
    Raised(before);
    DefaultNaN();
    PackedInfinity(Sign(a) != Sign(b));
    hide IsNaN, IsSignaling, IsInf, IsZero, IsFinite, Sign, Pack, Delivers, Taken, Product, Both, NAN, INVALID, Pow2;
  }

  lemma InfinityAdded(z: nat, a: nat, b: nat, sign: bool, mode: Mode, how: Detection, before: Flags, after: Flags)
    requires !IsNaN(a) && !IsNaN(b) && Summed(z, a, b, sign, mode, how, before, after)
    ensures IsInf(a) ==> z == a && after == before
    ensures IsFinite(a) && IsInf(b) ==> IsInf(z) && Sign(z) == sign && after == before
  {
    Disjoint(a);
    PackedInfinity(sign);
    hide IsNaN, IsInf, IsFinite, Sign, Pack, Delivers, SumNum, SumDen;
  }

  lemma InfinitySubtracted(z: nat, a: nat, b: nat, sign: bool, mode: Mode, how: Detection, before: Flags, after: Flags)
    requires !IsNaN(a) && !IsNaN(b) && Subtracted(z, a, b, sign, mode, how, before, after)
    ensures IsInf(a) && IsInf(b) ==> IsNaN(z) && !IsSignaling(z) && after == before.(invalid := true)
    ensures IsInf(a) && IsFinite(b) ==> z == a && after == before
    ensures IsFinite(a) && IsInf(b) ==> IsInf(z) && Sign(z) == !sign && after == before
  {
    Disjoint(a);
    Disjoint(b);
    Raised(before);
    DefaultNaN();
    PackedInfinity(!sign);
    hide IsNaN, IsSignaling, IsInf, IsFinite, Sign, Pack, Delivers, Both, NAN, INVALID, Value, DifferenceNum, DifferenceDen;
  }

  /** Sums with an infinity. */
  lemma SpecialSums(z: nat, a: nat, b: nat, mode: Mode, how: Detection, before: Flags, after: Flags)
    requires !IsNaN(a) && !IsNaN(b) && Added(z, a, b, mode, how, before, after)
    ensures IsInf(a) && IsInf(b) && Sign(a) != Sign(b) ==> IsNaN(z) && !IsSignaling(z) && after == before.(invalid := true)
    ensures IsInf(a) && (IsFinite(b) || Sign(a) == Sign(b)) ==> IsInf(z) && Sign(z) == Sign(a) && after == before
    ensures IsFinite(a) && IsInf(b) ==> IsInf(z) && Sign(z) == Sign(b) && after == before
  {
    hide IsNaN, IsSignaling, IsInf, IsFinite, Sign, Summed, Subtracted;
    if Sign(a) == Sign(b) {
      InfinityAdded(z, a, b, Sign(a), mode, how, before, after);
    } else {
      InfinitySubtracted(z, a, b, Sign(a), mode, how, before, after);
    }
  }

  /** And differences: those of infinities of the same sign are invalid. */
  lemma SpecialDifferences(z: nat, a: nat, b: nat, mode: Mode, how: Detection, before: Flags, after: Flags)
    requires !IsNaN(a) && !IsNaN(b) && Deducted(z, a, b, mode, how, before, after)
    ensures IsInf(a) && IsInf(b) && Sign(a) == Sign(b) ==> IsNaN(z) && !IsSignaling(z) && after == before.(invalid := true)
    ensures IsInf(a) && (IsFinite(b) || Sign(a) != Sign(b)) ==> IsInf(z) && Sign(z) == Sign(a) && after == before
    ensures IsFinite(a) && IsInf(b) ==> IsInf(z) && Sign(z) != Sign(b) && after == before
  {
    hide IsNaN, IsSignaling, IsInf, IsFinite, Sign, Summed, Subtracted;
    if Sign(a) == Sign(b) {
      InfinitySubtracted(z, a, b, Sign(a), mode, how, before, after);
    } else {
      InfinityAdded(z, a, b, Sign(a), mode, how, before, after);
    }
  }

  // ---- What the rounding modes mean ----

  /** The number z stands for is not below, or not above, the exact one; infinity is beyond every number. */
  predicate NotBelow(z: nat, sign: bool, p: nat, q: nat) {
    if sign then Magnitude(z) < INF && Units(Magnitude(z)) * q <= p else Magnitude(z) == INF || Units(Magnitude(z)) * q >= p
  }

  predicate NotAbove(z: nat, sign: bool, p: nat, q: nat) {
    if sign then Magnitude(z) == INF || Units(Magnitude(z)) * q >= p else Magnitude(z) < INF && Units(Magnitude(z)) * q <= p
  }

  /** Upward the result is never below the exact value, downward never above it, and towards zero never farther from zero. */
  lemma ModesMean(z: nat, sign: bool, mode: Mode, how: Detection, p: nat, q: nat, before: Flags, after: Flags)
    requires Delivers(z, sign, mode, how, p, q, before, after)
    ensures mode == UpMode ==> NotBelow(z, sign, p, q)
    ensures mode == DownMode ==> NotAbove(z, sign, p, q)
    ensures mode == ZeroMode ==> Magnitude(z) < INF && Units(Magnitude(z)) * q <= p
    ensures mode == NearestEvenMode ==> NearestEven(Magnitude(z), p, q)
  {
  }

  // ---- What the exceptions mean ----

  lemma OverflowMeans(dir: Direction, z: nat, p: nat, q: nat)
    requires q > 0 && Rounded(dir, z, p, q)
    ensures Overflows(dir, p, q) <==> z == INF || Units(INF) * q <= p
  {
    if dir.Truncate? {
      hide Units;
    } else {
      RoundedIsLocal(dir, z, p, q);
      NoOverflow(dir, z, p, q);
      if z < INF {
        UnitsGrow(z, INF);
        UnitsStep(INF - 1);
        hide Units;
        Scale(Units(z), Units(INF), q);
        Scale(Units(INF - 1), Units(INF), q);
        Distributes(Units(INF - 1), Units(INF), q);
      }
    }
  }

  /**
   * Overflow: the result is infinity, or the exact value is not below the number after the largest one. Inexact: the result
   * is not the exact value. Underflow: nor is it, and the exact value is below the smallest normal number. Nothing else is raised.
   */
  lemma ExceptionsMean(z: nat, sign: bool, mode: Mode, how: Detection, p: nat, q: nat, before: Flags, after: Flags)
    requires q > 0 && Delivers(z, sign, mode, how, p, q, before, after)
    ensures after.invalid == before.invalid && after.divByZero == before.divByZero
    ensures after.overflow <==> before.overflow || Magnitude(z) == INF || Units(INF) * q <= p
    ensures after.inexact <==> before.inexact || Magnitude(z) == INF || Units(Magnitude(z)) * q != p
    ensures after.underflow ==> before.underflow || (0 < p < ONE * q && Units(Magnitude(z)) * q != p)
    ensures how.TinyBefore? && 0 < p < ONE * q && Units(Magnitude(z)) * q != p ==> after.underflow
  {
    var dir := DirectionOf(mode, sign);
    OverflowMeans(dir, Magnitude(z), p, q);
    if Units(INF) * q <= p && Magnitude(z) < INF {
      UnitsGrow(Magnitude(z), INF);
      Scale(Units(Magnitude(z)), Units(INF), q);
    }
    if p < ONE * q {
      assert Magnitude(z) < INF && !Overflows(dir, p, q) by {
        SmallNoOverflow(dir, Magnitude(z), p, q);
      }
    }
    hide Units, Magnitude, Sign, Rounded, Overflows, DirectionOf;
  }

  lemma SmallNoOverflow(dir: Direction, z: nat, p: nat, q: nat)
    requires q > 0 && p < ONE * q && Rounded(dir, z, p, q)
    ensures z < INF && !Overflows(dir, p, q)
  {
    SmallUnits(ONE);
    UnitsGrow(ONE, INF - 1);
    UnitsGrow(INF - 1, INF);
    OverflowMeans(dir, z, p, q);
    hide Units, Rounded;
    Scale(ONE, Units(INF - 1), q);
    Scale(ONE, Units(INF), q);
    Distributes(Units(INF - 1), Units(INF), q);
  }

  // ---- Ones and zeros ----

  lemma OneIs()
    ensures IsNormal(0x3F80_0000) && !Sign(0x3F80_0000) && Taken(0x3F80_0000) == Pow2(149)
  {
    assert Exp(0x3F80_0000) == 127 && Frac(0x3F80_0000) == 0 && !Sign(0x3F80_0000);
    hide Exp, Frac, Sign, Taken, Pow2, Units, Magnitude;
    HiddenBitPower();
    Pow2Adds(23, 126);
    MagnitudeUnits(0x3F80_0000);
    TakenIsValue(0x3F80_0000);
  }

  /** Divided by one a normal number is what it was, exactly, in every rounding mode. */
  lemma DividedByOne(z: nat, a: nat, mode: Mode, how: Detection, before: Flags, after: Flags)
    requires a < 0x1_0000_0000 && IsNormal(a) && Divided(z, a, 0x3F80_0000, mode, how, before, after)
    ensures z == a && after == before
  {
    OneIs();
    TakenIsValue(a);
    var p, q, dir := Up(Taken(a), 149), Pow2(149), DirectionOf(mode, Sign(a));
    assert p == Taken(a) * q;
    assert Delivers(z, Sign(a), mode, how, p, q, before, after);
    Kinds(a);
    hide *;
    ExactlyDelivered(z, a, mode, how, p, q, before, after);
  }

  lemma ExactlyDelivered(z: nat, a: nat, mode: Mode, how: Detection, p: nat, q: nat, before: Flags, after: Flags)
    requires a < 0x1_0000_0000 && q > 0 && Delivers(z, Sign(a), mode, how, p, q, before, after)
    requires Magnitude(a) < INF && Units(Magnitude(a)) * q == p
    ensures z == a && after == before
  {
    hide Units, Magnitude, Sign, Rounded, RoundingFlags;
    ExactRounds(DirectionOf(mode, Sign(a)), Magnitude(z), Magnitude(a), p, q);
    ExactNoFlags(DirectionOf(mode, Sign(a)), how, Magnitude(a), p, q);
    SignsAndMagnitudes(z, a);
  }

  /** A number and its opposite add up to zero, which is negative exactly when rounding is downward, and nothing is raised. */
  lemma OppositesCancel(z: nat, a: nat, b: nat, mode: Mode, how: Detection, before: Flags, after: Flags)
    requires IsFinite(a) && IsFinite(b) && Magnitude(a) == Magnitude(b) && Sign(a) != Sign(b)
    requires Added(z, a, b, mode, how, before, after)
    ensures IsZero(z) && (Sign(z) <==> mode == DownMode) && after == before
  {
    PackedInfinity(mode == DownMode);
    Disjoint(a);
    Disjoint(b);
    hide Units, Delivers, IsFinite, IsNaN, IsInf, IsZero, Sign, Magnitude, Pack;
  }
}
