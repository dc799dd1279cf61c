// The software implementation of single precision arithmetic, on the bits of
// its operands.

module SoftFloat {
  import opened Wrappers
  import opened Rounding
  import opened Significands

  // ---- Adding and subtracting operands ----

  function Value(a: nat): nat
    requires IsFinite(a)
  {
    Units(Magnitude(a))
  }

  /** The exponent a finite operand really has: that of the subnormal numbers is one. */
  function TrueExp(a: nat): nat {
    if Exp(a) == 0 then 1 else Exp(a)
  }

  function TrueSig(a: nat): nat {
    if Exp(a) == 0 then Frac(a) else ONE + Frac(a)
  }

  lemma ValueIs(a: nat)
    requires IsFinite(a)
    ensures Value(a) == Up(TrueSig(a), TrueExp(a) - 1)
  {
    MagnitudeUnits(a);
    assert Pow2(0) == 1;
  }

  lemma FracBelow(a: nat)
    ensures Frac(a) < ONE
  {
  }

  lemma LargerExponent(a: nat, b: nat)
    requires IsFinite(a) && IsFinite(b) && Exp(a) > Exp(b)
    ensures Value(a) > Value(b)
  {
    MagnitudeUnits(a);
    MagnitudeUnits(b);
    UnitsGrow(Magnitude(b), Magnitude(a));
  }

  /** What the sum of two finite magnitudes is computed as, over SumDen. */
  function SumNum(a: nat, b: nat): nat
    requires IsFinite(a) && IsFinite(b)
  {
    if Misaligned(a, b) then 64 * Max(Value(a), Value(b)) + 1 else Value(a) + Value(b)
  }

  function SumDen(a: nat, b: nat): nat {
    if Misaligned(a, b) then 64 else 1
  }

  /** The sum of the magnitudes under the given sign, for operands of every kind. */
  ghost predicate Summed(z: nat, a: nat, b: nat, sign: bool, mode: Mode, how: Detection, before: Flags, after: Flags) {
    if IsNaN(a) || IsNaN(b) then NaNResult(z, a, b, before, after)
    else if IsInf(a) then z == a && after == before
    else if IsInf(b) then z == Pack(sign, 0xFF, 0) && after == before
    else Delivers(z, sign, mode, how, SumNum(a, b), SumDen(a, b), before, after)
  }

  lemma AlignedSum(a: nat, b: nat)
    requires IsFinite(a) && IsFinite(b) && Exp(a) > Exp(b)
    ensures SumStanding(Exp(a), (ONE + Frac(a)) * 64 + ShiftSticky(32, TrueSig(b) * 64, Exp(a) - TrueExp(b)), SumNum(a, b), SumDen(a, b))
    ensures SumNum(a, b) == SumNum(b, a) && SumDen(a, b) == SumDen(b, a)
  {
    ValueIs(a);
    ValueIs(b);
    hide Value, Exp, Frac, ShiftSticky;
    FracBelow(a);
    FracBelow(b);
    if Exp(a) == 1 {
      LargerExponent(a, b);
      assert Up(TrueSig(a), 0) == TrueSig(a) by {
        assert Pow2(0) == 1;
      }
      MisalignedSumStands(TrueSig(a));
    } else {
      hide Up, SumStanding;
      SumStands(Exp(a), TrueSig(a), TrueExp(b), TrueSig(b));
    }
  }

  lemma ExactRounded(dir: Direction, m: nat, how: Detection)
    requires m <= 2 * ONE
    ensures Rounded(dir, m, m, 1) && RoundingFlags(dir, how, m, m, 1) == NO_FLAGS
  {
    UnitsOf(0, m);
    assert Pow2(0) == 1;
    UnitsStep(m);
    if m > 0 {
      UnitsStep(m - 1);
    }
    assert Units(m) == m;
    hide Units, Pow2;
    assert LocallyRounded(dir, m, m, 1);
    LocallyIsEnough(dir, m, m, 1);
    NoOverflow(dir, m, m, 1);
  }

  lemma ExactDelivers(sign: bool, m: nat, mode: Mode, how: Detection, flags: Flags)
    requires m <= 2 * ONE
    ensures Delivers(Pack(sign, 0, m), sign, mode, how, m, 1, flags, flags)
  {
    ExactRounded(DirectionOf(mode, sign), m, how);
    PackIs(sign, 0, m);
    hide Rounded, RoundingFlags, Pack, Sign, Magnitude;
  }

  /** What the difference of two finite magnitudes that are not equal is computed as, over DifferenceDen. */
  function DifferenceNum(a: nat, b: nat): nat
    requires IsFinite(a) && IsFinite(b) && Value(a) != Value(b)
  {
    var l, m := Max(Value(a), Value(b)), if Value(a) < Value(b) then Value(a) else Value(b);
    if Misaligned(a, b) then 128 * l - 1 else l - m
  }

  function DifferenceDen(a: nat, b: nat): nat {
    if Misaligned(a, b) then 128 else 1
  }

  /** The first magnitude minus the second, under the given sign or the opposite one, for operands of every kind. */
  ghost predicate Subtracted(z: nat, a: nat, b: nat, sign: bool, mode: Mode, how: Detection, before: Flags, after: Flags) {
    if IsNaN(a) || IsNaN(b) then NaNResult(z, a, b, before, after)
    else if IsInf(a) && IsInf(b) then z == NAN && after == Both(before, INVALID)
    else if IsInf(a) then z == a && after == before
    else if IsInf(b) then z == Pack(!sign, 0xFF, 0) && after == before
    else if Value(a) == Value(b) then z == Pack(mode == DownMode, 0, 0) && after == before
    else Delivers(z, if Value(b) < Value(a) then sign else !sign, mode, how, DifferenceNum(a, b), DifferenceDen(a, b), before, after)
  }

  lemma AlignedDifference(a: nat, b: nat)
    requires IsFinite(a) && IsFinite(b) && Exp(a) > Exp(b)
    ensures Value(a) > Value(b)
    ensures var sig := (ONE + Frac(a)) * 128 - ShiftSticky(32, TrueSig(b) * 128, Exp(a) - TrueExp(b));
      sig > 0 && DifferenceStanding(Exp(a) - 1, sig, DifferenceNum(a, b), DifferenceDen(a, b))
    ensures DifferenceNum(a, b) == DifferenceNum(b, a) && DifferenceDen(a, b) == DifferenceDen(b, a)
  {
    ValueIs(a);
    ValueIs(b);
    LargerExponent(a, b);
    hide Value, Exp, Frac, ShiftSticky;
    FracBelow(a);
    FracBelow(b);
    if Exp(a) == 1 {
      assert Up(TrueSig(a), 0) == TrueSig(a) by {
        assert Pow2(0) == 1;
      }
      MisalignedDifferenceStands(TrueSig(a));
    } else {
      hide Up, DifferenceStanding;
      DifferenceStands(Exp(a), TrueSig(a), TrueExp(b), TrueSig(b));
    }
  }

  lemma SameExponent(a: nat, b: nat)
    requires IsFinite(a) && Exp(a) == Exp(b)
    ensures Value(a) < Value(b) <==> Frac(a) < Frac(b)
    ensures Value(b) < Value(a) <==> Frac(b) < Frac(a)
    ensures Frac(b) < Frac(a) ==>
              DifferenceStanding(TrueExp(a) - 1, Frac(a) * 128 - Frac(b) * 128, DifferenceNum(a, b), DifferenceDen(a, b))
    ensures Frac(a) < Frac(b) ==>
              DifferenceStanding(TrueExp(a) - 1, Frac(b) * 128 - Frac(a) * 128, DifferenceNum(a, b), DifferenceDen(a, b))
  {
    ValueIs(a);
    ValueIs(b);
    UpOrdered(TrueSig(a), TrueSig(b), TrueExp(a) - 1);
    UpOrdered(TrueSig(b), TrueSig(a), TrueExp(a) - 1);
    hide DifferenceStanding, Up, Value;
    if Frac(b) < Frac(a) {
      DifferenceOf(a, b);
    } else if Frac(a) < Frac(b) {
      DifferenceOf(b, a);
      DifferenceCommutes(a, b);
    }
  }

  lemma DifferenceOf(a: nat, b: nat)
    requires IsFinite(a) && Exp(a) == Exp(b) && Frac(b) < Frac(a) && Value(b) < Value(a)
    ensures DifferenceStanding(TrueExp(a) - 1, Frac(a) * 128 - Frac(b) * 128, DifferenceNum(a, b), DifferenceDen(a, b))
  {
    ValueIs(a);
    ValueIs(b);
    hide Value, Exp, Frac, Up;
    FracBelow(a);
    FracBelow(b);
    var x, y, e := TrueSig(a), TrueSig(b), TrueExp(a);
    assert 0 < e && y < x < 2 * ONE && x * 128 - y * 128 == Frac(a) * 128 - Frac(b) * 128 && TrueExp(b) == e;
    assert DifferenceDen(a, b) == 1 && DifferenceNum(a, b) == Value(a) - Value(b);
    hide *;
    EqualDifferenceStands(e, x, y);
  }

  lemma DifferenceCommutes(a: nat, b: nat)
    requires IsFinite(a) && IsFinite(b) && Value(a) != Value(b)
    ensures DifferenceNum(a, b) == DifferenceNum(b, a) && DifferenceDen(a, b) == DifferenceDen(b, a)
  {
    hide Value;
  }

  lemma UpOrdered(x: nat, y: nat, n: nat)
    ensures x < y <==> Up(x, n) < Up(y, n)
  {
    Scale(x, y, Pow2(n));
  }

  lemma SubnormalSum(a: nat, b: nat)
    requires Exp(a) == 0 && Exp(b) == 0
    ensures SumNum(a, b) == Frac(a) + Frac(b) && SumDen(a, b) == 1
  {
    MagnitudeUnits(a);
    MagnitudeUnits(b);
  }

  lemma NormalSum(a: nat, b: nat)
    requires IsNormal(a) && Exp(a) == Exp(b)
    ensures var sig := 0x4000_0000 + Frac(a) * 64 + Frac(b) * 64;
      Packable(Exp(a), sig) && StandsFor(Exp(a), sig, SumNum(a, b), SumDen(a, b))
  {
    ValueIs(a);
    ValueIs(b);
    hide Up, StandsFor, Value;
    EqualSumStands(Exp(a), TrueSig(a), TrueSig(b));
  }

  lemma DifferenceReady(exp: int, sig: nat, a: nat, b: nat)
    requires IsFinite(a) && IsFinite(b) && Value(a) != Value(b)
    requires DifferenceStanding(exp, sig, DifferenceNum(a, b), DifferenceDen(a, b))
    ensures 0 < sig < 0x8000_0000 && Clz(sig) >= 1
    ensures StandsFor(exp - (Clz(sig) - 1), sig * Pow2(Clz(sig) - 1), DifferenceNum(a, b), DifferenceDen(a, b))
  {
    hide StandsFor, Pow2, Clz, DifferenceNum, Value;
  }

  // ---- The operations on signed operands, and when they are right ----

  function Signed(a: nat): int
    requires IsFinite(a)
  {
    var v: int := Value(a);
    if Sign(a) then -v else v
  }

  function Abs(v: int): nat {
    if v < 0 then -v else v
  }

  /** The exact value v correctly rounded; an exact zero from operands of opposite signs takes its sign from the rounding mode. */
  ghost predicate Correct(z: nat, v: int, zeroSign: bool, cancels: bool, mode: Mode, how: Detection, before: Flags, after: Flags) {
    if v == 0 && cancels then z == Pack(mode == DownMode, 0, 0) && after == before
    else Delivers(z, if v == 0 then zeroSign else v < 0, mode, how, Abs(v), 1, before, after)
  }

  ghost predicate CorrectSum(z: nat, a: nat, b: nat, mode: Mode, how: Detection, before: Flags, after: Flags)
    requires IsFinite(a) && IsFinite(b)
  {
    Correct(z, Signed(a) + Signed(b), Sign(a), Sign(a) != Sign(b), mode, how, before, after)
  }

  ghost predicate CorrectDifference(z: nat, a: nat, b: nat, mode: Mode, how: Detection, before: Flags, after: Flags)
    requires IsFinite(a) && IsFinite(b)
  {
    Correct(z, Signed(a) - Signed(b), Sign(a), Sign(a) == Sign(b), mode, how, before, after)
  }

  lemma SmallUnits(m: nat)
    requires m <= 2 * ONE
    ensures Units(m) == m
  {
    UnitsOf(0, m);
    assert Pow2(0) == 1;
  }

  lemma OnlySmall(m: nat, k: nat)
    requires k <= 2 * ONE
    ensures Units(m) == k <==> m == k
    ensures Units(m) <= k <==> m <= k
  {
    SmallUnits(k);
    if m < k {
      UnitsGrow(m, k);
    } else if k < m {
      UnitsGrow(k, m);
    }
  }

  /** A 64th of a unit more than l does not round like l plus any whole number of units, unless the latter is exact. */
  lemma StrayUnit(dir: Direction, m: nat, l: nat, s: nat)
    requires l < 2 * ONE && Rounded(dir, m, 64 * l + 1, 64) && Rounded(dir, m, l + s, 1)
    ensures Units(m) == l + s
  {
    SmallUnits(l);
    SmallUnits(l + 1);
    OnlySmall(m, l);
    OnlySmall(m, l + 1);
    hide Units;
    match dir
    case ToNearest =>
      assert m != l ==> Distance(m, 64 * l + 1, 64) <= Distance(l, 64 * l + 1, 64);
      assert m != l + 1 ==> Distance(m, l + s, 1) <= Distance(l + 1, l + s, 1);
    case Truncate =>
    case Away =>
  }

  lemma ExactNoFlags(dir: Direction, how: Detection, m: nat, p: nat, q: nat)
    requires q > 0 && m < INF && Units(m) * q == p
    ensures RoundingFlags(dir, how, m, p, q) == NO_FLAGS
  {
    UnitsStep(INF - 1);
    if m < INF - 1 {
      UnitsGrow(m, INF - 1);
    }
    hide Units, Tiny;
    Scale(Units(m), Units(INF - 1), q);
    Scale(Units(INF - 1), Units(INF), q);
    Distributes(Units(INF - 1), Units(INF), q);
  }

  lemma SmallNoOverflow(dir: Direction, p: nat, q: nat)
    requires q > 0 && p < 4 * ONE * q
    ensures !Overflows(dir, p, q)
  {
    UnitsOf(1, 2 * ONE);
    assert Pow2(1) == 2;
    UnitsGrow(3 * ONE, INF - 1);
    UnitsStep(INF - 1);
    hide Units;
    Scale(4 * ONE, Units(INF - 1), q);
    Scale(Units(INF - 1), Units(INF), q);
    Distributes(Units(INF - 1), Units(INF), q);
  }

  /** Misaligned operands have the larger value below two hidden bits, and the smaller one below one. */
  lemma MisalignedValues(a: nat, b: nat)
    requires Misaligned(a, b)
    ensures IsFinite(a) && IsFinite(b) && Value(a) != Value(b)
    ensures Max(Value(a), Value(b)) < 2 * ONE && Value(a) + Value(b) < 3 * ONE
  {
    MagnitudeUnits(a);
    MagnitudeUnits(b);
    assert Pow2(0) == 1;
  }

  /** The sum of misaligned operands is never right: it is signaled as inexact, and where that is right the result is not. */
  lemma MisalignedSumWrong(z: nat, a: nat, b: nat, sign: bool, mode: Mode, how: Detection, before: Flags, after: Flags)
    requires Misaligned(a, b) && !before.inexact
    requires Delivers(z, sign, mode, how, SumNum(a, b), SumDen(a, b), before, after)
    ensures !Delivers(z, sign, mode, how, Value(a) + Value(b), 1, before, after)
  {
    MisalignedValues(a, b);
    var dir, m, l := DirectionOf(mode, sign), Magnitude(z), Max(Value(a), Value(b));
    if Delivers(z, sign, mode, how, Value(a) + Value(b), 1, before, after) {
      SmallNoOverflow(dir, Value(a) + Value(b), 1);
      StrayUnit(dir, m, l, Value(a) + Value(b) - l);
      hide Units, Tiny, Rounded, Overflows, Value, Sign, Magnitude;
    }
  }

  /** Nor is their difference, which would be exact. */
  lemma MisalignedDifferenceWrong(z: nat, a: nat, b: nat, sign: bool, mode: Mode, how: Detection, before: Flags, after: Flags)
    requires Misaligned(a, b) && !before.inexact && Value(a) != Value(b)
    requires Delivers(z, sign, mode, how, DifferenceNum(a, b), DifferenceDen(a, b), before, after)
    ensures !Delivers(z, sign, mode, how, Abs(Value(a) - Value(b)), 1, before, after)
  {
    MisalignedValues(a, b);
    var dir, m, v := DirectionOf(mode, sign), Magnitude(z), Abs(Value(a) - Value(b));
    if Delivers(z, sign, mode, how, v, 1, before, after) {
      SmallUnits(v);
      hide Units, Pow2, Tiny, Value, Sign, Magnitude;
      ExactRounds(dir, m, v, v, 1);
      ExactNoFlags(dir, how, v, v, 1);
      hide Rounded, Overflows;
    }
  }

  ghost predicate Added(z: nat, a: nat, b: nat, mode: Mode, how: Detection, before: Flags, after: Flags) {
    if Sign(a) == Sign(b) then Summed(z, a, b, Sign(a), mode, how, before, after)
    else Subtracted(z, a, b, Sign(a), mode, how, before, after)
  }

  ghost predicate Deducted(z: nat, a: nat, b: nat, mode: Mode, how: Detection, before: Flags, after: Flags) {
    if Sign(a) == Sign(b) then Subtracted(z, a, b, Sign(a), mode, how, before, after)
    else Summed(z, a, b, Sign(a), mode, how, before, after)
  }

  /**
   * On finite operands, addition is right if their exponents are not zero and one, and only then, as far as an
   * exception that has been raised before does not hide the difference.
   */
  lemma AddIsRight(z: nat, a: nat, b: nat, mode: Mode, how: Detection, before: Flags, after: Flags)
    requires IsFinite(a) && IsFinite(b) && Added(z, a, b, mode, how, before, after)
    ensures !Misaligned(a, b) ==> CorrectSum(z, a, b, mode, how, before, after)
    ensures !before.inexact ==> (CorrectSum(z, a, b, mode, how, before, after) <==> !Misaligned(a, b))
  {
    hide Delivers, Value, Pack, Sign;
    if Misaligned(a, b) && !before.inexact {
      MisalignedValues(a, b);
      if Sign(a) == Sign(b) {
        MisalignedSumWrong(z, a, b, Sign(a), mode, how, before, after);
      } else {
        MisalignedDifferenceWrong(z, a, b, if Value(b) < Value(a) then Sign(a) else !Sign(a), mode, how, before, after);
      }
    }
  }

  /** And so is subtraction. */
  lemma SubIsRight(z: nat, a: nat, b: nat, mode: Mode, how: Detection, before: Flags, after: Flags)
    requires IsFinite(a) && IsFinite(b) && Deducted(z, a, b, mode, how, before, after)
    ensures !Misaligned(a, b) ==> CorrectDifference(z, a, b, mode, how, before, after)
    ensures !before.inexact ==> (CorrectDifference(z, a, b, mode, how, before, after) <==> !Misaligned(a, b))
  {
    hide Delivers, Value, Pack, Sign;
    if Misaligned(a, b) && !before.inexact {
      MisalignedValues(a, b);
      if Sign(a) != Sign(b) {
        MisalignedSumWrong(z, a, b, Sign(a), mode, how, before, after);
      } else {
        MisalignedDifferenceWrong(z, a, b, if Value(b) < Value(a) then Sign(a) else !Sign(a), mode, how, before, after);
      }
    }
  }

  /** The product of normal numbers is the exact product correctly rounded. */
  lemma MulIsRight(z: nat, a: nat, b: nat, mode: Mode, how: Detection, before: Flags, after: Flags)
    requires IsNormal(a) && IsNormal(b) && Multiplied(z, a, b, mode, how, before, after)
    ensures Delivers(z, Sign(a) != Sign(b), mode, how, Product(Value(a), Value(b)), Pow2(149), before, after)
  {
    TakenIsValue(a);
    TakenIsValue(b);
    hide Delivers, Pow2, Taken, Value, Product;
  }

  /** And so is their quotient. */
  lemma DivIsRight(z: nat, a: nat, b: nat, mode: Mode, how: Detection, before: Flags, after: Flags)
    requires IsNormal(a) && IsNormal(b) && Divided(z, a, b, mode, how, before, after)
    ensures Delivers(z, Sign(a) != Sign(b), mode, how, Up(Value(a), 149), Value(b), before, after)
  {
    TakenIsValue(a);
    TakenIsValue(b);
    hide Delivers, Up, Taken, Value;
  }

  const MINUS_ONE: nat := 0xBF80_0000

  lemma HiddenBitPower()
    ensures Pow2(23) == ONE
  {
    Pow2Adds(16, 7);
    Pow2Adds(8, 8);
    Pow2Is128();
    SmallFraction();
  }

  lemma MinusOneBits()
    ensures Exp(MINUS_ONE) == 127 && Frac(MINUS_ONE) == 0 && Sign(MINUS_ONE)
  {
  }

  lemma MinusOne()
    ensures IsNormal(MINUS_ONE) && Sign(MINUS_ONE) && Taken(MINUS_ONE) == Pow2(149)
  {
    MinusOneBits();
    hide Exp, Frac, Sign, Taken, Pow2, Units, Magnitude;
    HiddenBitPower();
    Pow2Adds(23, 126);
    MagnitudeUnits(MINUS_ONE);
    TakenIsValue(MINUS_ONE);
  }

  function Negated(a: nat): nat {
    if Sign(a) then Magnitude(a) else Magnitude(a) + 0x8000_0000
  }

  /** Multiplying by minus one gives exactly the value the operand is taken for, with the sign turned, and no exception. */
  lemma TimesMinusOne(z: nat, a: nat, m: nat, mode: Mode, how: Detection, before: Flags, after: Flags)
    requires IsFinite(a) && !IsZero(a) && Multiplied(z, a, MINUS_ONE, mode, how, before, after)
    requires m < INF && Units(m) == Taken(a)
    ensures Magnitude(z) == m && Sign(z) == !Sign(a) && z < 0x1_0000_0000 && after == before
  {
    MinusOne();
    var sign := !Sign(a);
    assert Delivers(z, sign, mode, how, Product(Taken(a), Pow2(149)), Pow2(149), before, after);
    hide Multiplied, Pow2, Units, Taken, Rounded, RoundingFlags, Sign, Magnitude;
    ExactRounds(DirectionOf(mode, sign), Magnitude(z), m, Product(Taken(a), Pow2(149)), Pow2(149));
    ExactNoFlags(DirectionOf(mode, sign), how, m, Product(Taken(a), Pow2(149)), Pow2(149));
  }

  /** Negation turns the sign and changes nothing else, if and only if the operand is not subnormal. */
  lemma NegIsRight(z: nat, a: nat, mode: Mode, how: Detection, before: Flags, after: Flags)
    requires a < 0x1_0000_0000 && !IsNaN(a) && Multiplied(z, a, MINUS_ONE, mode, how, before, after)
    ensures z == Negated(a) && after == before <==> !IsSubnormal(a)
  {
    if IsFinite(a) && !IsZero(a) {
      var m := if IsSubnormal(a) then Taken(a) else Magnitude(a);
      hide *;
      MagnitudeFits(a, m);
      TimesMinusOne(z, a, m, mode, how, before, after);
      SignsAndMagnitudes(z, Negated(a));
    } else {
      assert Sign(MINUS_ONE) && IsNormal(MINUS_ONE);
      hide Taken, Delivers, Pow2, Units;
    }
  }

  lemma NegatedBits(a: nat)
    requires a < 0x1_0000_0000
    ensures Sign(Negated(a)) == !Sign(a) && Magnitude(Negated(a)) == Magnitude(a) && Negated(a) < 0x1_0000_0000
  {
  }

  lemma FiniteMagnitude(a: nat)
    requires IsFinite(a)
    ensures Magnitude(a) < INF
  {
  }

  lemma MagnitudeFits(a: nat, m: nat)
    requires a < 0x1_0000_0000 && IsFinite(a) && !IsZero(a)
    requires m == if IsSubnormal(a) then Taken(a) else Magnitude(a)
    ensures m < INF && Units(m) == Taken(a) && (m == Magnitude(a) <==> !IsSubnormal(a))
    ensures Sign(Negated(a)) == !Sign(a) && Magnitude(Negated(a)) == Magnitude(a) && Negated(a) < 0x1_0000_0000
  {
    hide Sign, Magnitude, Negated, Exp, Frac, Units, Pow2, Clz, Taken, IsSubnormal;
    NegatedBits(a);
    FiniteMagnitude(a);
    TakenIsValue(a);
    if IsSubnormal(a) {
      TakenBounded(a);
      SmallUnits(m);
    }
  }

  lemma TakenBounded(a: nat)
    requires IsSubnormal(a)
    ensures IsFinite(a) && !IsZero(a) && Magnitude(a) < ONE <= Taken(a) < 2 * ONE
  {
    MagnitudeUnits(a);
    hide Pow2, Units, Clz;
  }

  lemma SignsAndMagnitudes(x: nat, y: nat)
    requires x < 0x1_0000_0000 && y < 0x1_0000_0000
    ensures x == y <==> Sign(x) == Sign(y) && Magnitude(x) == Magnitude(y)
  {
  }

  class FloatState {
    const mode: Mode
    const tiny: Detection
    var flags: Flags

    constructor (mode: Mode, tiny: Detection)
      ensures this.mode == mode && this.tiny == tiny && flags == NO_FLAGS
    {
      this.mode, this.tiny, flags := mode, tiny, NO_FLAGS;
    }

    method Raise(f: Flags)
      modifies this
      ensures flags == Both(old(flags), f)
    {
      flags := Both(flags, f);
    }

    /** Rounds to the format: the correctly rounded magnitude under the given sign, and the exceptions that go with it. */
    method PackRound(sign: bool, exp: int, sig: nat, ghost p: nat, ghost q: nat) returns (z: nat)
      requires Packable(exp, sig) && StandsFor(exp, sig, p, q)
      modifies this
      ensures Delivers(z, sign, mode, tiny, p, q, old(flags), flags)
    {
      hide *;
      var even := mode == NearestEvenMode;
      var increment := 0x40;
      var bits := sig % 0x80;
      if !even {
        if mode == ZeroMode {
          increment := 0;
        } else {
          increment := 0x7F;
          if sign {
            if mode == UpMode {
              increment := 0;
            }
          } else {
            if mode == DownMode {
              increment := 0;
            }
          }
        }
      }
      ghost var dir := DirectionOf(mode, sign);
      IncrementIs(mode, sign, increment);
      var s, e := sig, exp;
      if exp < 0 || 0xFD <= exp {
        if 0xFD < exp || (exp == 0xFD && (sig + increment) % 0x1_0000_0000 >= 0x8000_0000) {
          Raise(Flags(false, false, true, false, true));
          OverflowPacked(sign, mode, tiny, exp, sig, p, q, old(flags));
          z := Pack(sign, 0xFF, 0) - (if increment == 0 then 1 else 0);
          return;
        }
        if exp < 0 {
          var isTiny := tiny == TinyBefore || exp < -1 || (sig + increment) % 0x1_0000_0000 < 0x8000_0000;
          UnderflowShifted(dir, tiny, exp, sig, p, q);
          s := ShiftSticky(32, sig, -exp);
          e := 0;
          bits := s % 0x80;
          if isTiny && bits != 0 {
            Raise(Flags(false, false, false, true, false));
          }
        }
      }
      ghost var under := Flags(false, false, false, exp < 0 && Tiny(dir, tiny, p, q) && bits != 0, false);
      RaisedSoFar(old(flags), flags, under);
      if bits != 0 {
        Raise(Flags(false, false, false, false, true));
      }
      ghost var s0, e0 := s, e;
      InRange(dir, tiny, exp, sig, e, s, p, q);
      s := (s + increment) % 0x1_0000_0000 / 0x80;
      DroppedIs(dir, s0, s);
      if bits == 0x40 && even && s % 2 == 1 {
        s := s - 1;
      }
      if s == 0 {
        e := 0;
      }
      z := Pack(sign, e, s);
      Delivered(sign, mode, tiny, exp, e0, s0, p, q, old(flags), flags);
    }

    /** The same for a significand that need not be normalized. */
    method PackNormal(sign: bool, exp: int, sig: nat, ghost p: nat, ghost q: nat) returns (z: nat)
      requires 0 < sig < 0x8000_0000 && Clz(sig) >= 1
      requires StandsFor(exp - (Clz(sig) - 1), sig * Pow2(Clz(sig) - 1), p, q)
      modifies this
      ensures Delivers(z, sign, mode, tiny, p, q, old(flags), flags)
    {
      var c := Clz(sig) - 1;
      ClzNormalizes(sig);
      assert Packable(exp - c, sig * Pow2(c));
      hide *;
      z := PackRound(sign, exp - c, sig * Pow2(c), p, q);
    }

    /** One operand is a NaN, and so is the result; a signaling one raises invalid. */
    method PropagateNaN(a: nat, b: nat) returns (z: nat)
      requires IsNaN(a) || IsNaN(b)
      modifies this
      ensures IsNaN(z) && flags == Both(old(flags), Flags(IsSignaling(a) || IsSignaling(b), false, false, false, false))
    {
      var x, y := Quiet(a), Quiet(b);
      if IsSignaling(a) || IsSignaling(b) {
        Raise(Flags(true, false, false, false, false));
      }
      QuietIsNaN(a);
      QuietIsNaN(b);
      if IsNaN(a) {
        return if IsSignaling(a) && IsNaN(b) then y else x;
      }
      return y;
    }

    method Mul(a: nat, b: nat) returns (z: nat)
      requires a < 0x1_0000_0000 && b < 0x1_0000_0000
      modifies this
      ensures Multiplied(z, a, b, mode, tiny, old(flags), flags)
    {
      var expA, expB, sigA, sigB := Exp(a), Exp(b), Frac(a), Frac(b);
      var sign := Sign(a) != Sign(b);
      if expA == 0xFF {
        if sigA != 0 || (expB == 0xFF && sigB != 0) {
          z := PropagateNaN(a, b);
          return;
        }
        if expB == 0 && sigB == 0 {
          Raise(INVALID);
          return NAN;
        }
        return Pack(sign, 0xFF, 0);
      }
      if expB == 0xFF {
        if sigB != 0 {
          z := PropagateNaN(a, b);
          return;
        }
        if expA == 0 && sigA == 0 {
          Raise(INVALID);
          return NAN;
        }
        return Pack(sign, 0xFF, 0);
      }
      if expA == 0 {
        if sigA == 0 {
          return Pack(sign, 0, 0);
        }
        var (sig, exp) := Subnormalize(sigA);
        sigA, expA := sig, exp;
      }
      if expB == 0 {
        if sigB == 0 {
          return Pack(sign, 0, 0);
        }
        var (sig, exp) := Subnormalize(sigB);
        sigB, expB := sig, exp;
      }
      TakenIs(a, sigA, expA);
      TakenIs(b, sigB, expB);
      hide *;
      z := MulSignificands(sign, expA, WithHiddenBit(sigA), expB, WithHiddenBit(sigB), Taken(a), Taken(b));
    }

    method MulSignificands(sign: bool, expA: nat, sa: nat, expB: nat, sb: nat, ghost ua: nat, ghost ub: nat) returns (z: nat)
      requires 0 < expA < 0xFF && 0 < expB < 0xFF && ONE <= sa < 2 * ONE && ONE <= sb < 2 * ONE
      requires ua == Up(sa, expA - 1) && ub == Up(sb, expB - 1)
      modifies this
      ensures Delivers(z, sign, mode, tiny, Product(ua, ub), Pow2(149), old(flags), flags)
    {
      hide *;
      var exp := expA + expB - 0x7F;
      var sigA, sigB := sa * 0x80, sb * 0x100;
      var sig := ShiftSticky(64, sigA * sigB, 32) % 0x1_0000_0000;
      ProductStands(expA, sa, expB, sb, ua, ub);
      ProductPacks(exp, ShiftSticky(64, sigA * sigB, 32), Product(ua, ub));
      if (sig * 2) % 0x1_0000_0000 < 0x8000_0000 {
        sig := (sig * 2) % 0x1_0000_0000;
        exp := exp - 1;
      }
      z := PackRound(sign, exp, sig, Product(ua, ub), Pow2(149));
    }

    method Div(a: nat, b: nat) returns (z: nat)
      requires a < 0x1_0000_0000 && b < 0x1_0000_0000
      modifies this
      ensures Divided(z, a, b, mode, tiny, old(flags), flags)
    {
      var expA, expB, sigA, sigB := Exp(a), Exp(b), Frac(a), Frac(b);
      var sign := Sign(a) != Sign(b);
      if expA == 0xFF {
        if sigA != 0 {
          z := PropagateNaN(a, b);
          return;
        }
        if expB == 0xFF {
          if sigB != 0 {
            z := PropagateNaN(a, b);
            return;
          }
          Raise(INVALID);
          return NAN;
        }
        return Pack(sign, 0xFF, 0);
      }
      if expB == 0xFF {
        if sigB != 0 {
          z := PropagateNaN(a, b);
          return;
        }
        return Pack(sign, 0, 0);
      }
      if expB == 0 {
        if sigB == 0 {
          if expA == 0 && sigA == 0 {
            Raise(INVALID);
            return NAN;
          }
          Raise(DIVISION_BY_ZERO);
          return Pack(sign, 0xFF, 0);
        }
        var (sig, exp) := Subnormalize(sigB);
        sigB, expB := sig, exp;
      }
      if expA == 0 {
        if sigA == 0 {
          return Pack(sign, 0, 0);
        }
        var (sig, exp) := Subnormalize(sigA);
        sigA, expA := sig, exp;
      }
      TakenIs(a, sigA, expA);
      TakenIs(b, sigB, expB);
      hide *;
      z := DivSignificands(sign, expA, WithHiddenBit(sigA), expB, WithHiddenBit(sigB), Taken(a), Taken(b));
    }

    method DivSignificands(sign: bool, expA: nat, sa: nat, expB: nat, sb: nat, ghost ua: nat, ghost ub: nat) returns (z: nat)
      requires 0 < expA < 0xFF && 0 < expB < 0xFF && ONE <= sa < 2 * ONE && ONE <= sb < 2 * ONE
      requires ua == Up(sa, expA - 1) && ub == Up(sb, expB - 1)
      modifies this
      ensures Delivers(z, sign, mode, tiny, Up(ua, 149), ub, old(flags), flags)
    {
      hide *;
      QuotientStands(expA, sa, expB, sb, ua, ub);
      var exp, sigA, sigB := expA - expB + 0x7D, sa * 0x80, sb * 0x100;
      if sigB <= sigA + sigA {
        sigA := sigA / 2;
        exp := exp + 1;
      }
      var sig := sigA * 0x1_0000_0000 / sigB;
      QuotientWritten(sigA * 0x1_0000_0000, sigB);
      if sig % 0x40 == 0 && sigB * sig != sigA * 0x1_0000_0000 {
        sig := sig + 1;
      }
      z := PackRound(sign, exp, sig, Up(ua, 149), ub);
    }

    /** The sum of the absolute values of a and b, under the given sign. */
    method AddMagnitudes(a: nat, b: nat, sign: bool) returns (z: nat)
      requires a < 0x1_0000_0000 && b < 0x1_0000_0000
      modifies this
      ensures Summed(z, a, b, sign, mode, tiny, old(flags), flags)
    {
      hide StandsFor, Delivers, ShiftSticky, Up, Pow2, Units, SumStanding, Value, Pack, SumNum, SumDen, Packable, Sign, Quiet;
      var expA, expB, sigA, sigB := Exp(a), Exp(b), Frac(a) * 0x40, Frac(b) * 0x40;
      var expZ: int, expD: int := 0, (expA as int) - expB;
      if 0 < expD {
        if expA == 0xFF {
          if sigA != 0 {
            z := PropagateNaN(a, b);
            return;
          }
          return a;
        }
        if expB == 0 {
          expD := expD - 1;
        } else {
          sigB := sigB + 0x2000_0000;
        }
        sigB := ShiftSticky(32, sigB, expD);
        expZ := expA;
        AlignedSum(a, b);
      } else if expD < 0 {
        if expB == 0xFF {
          if sigB != 0 {
            z := PropagateNaN(a, b);
            return;
          }
          return Pack(sign, 0xFF, 0);
        }
        if expA == 0 {
          expD := expD + 1;
        } else {
          sigA := sigA + 0x2000_0000;
        }
        sigA := ShiftSticky(32, sigA, -expD);
        expZ := expB;
        AlignedSum(b, a);
      } else {
        if expA == 0xFF {
          if sigA != 0 || sigB != 0 {
            z := PropagateNaN(a, b);
            return;
          }
          return a;
        }
        if expA == 0 {
          z := Pack(sign, 0, (sigA + sigB) / 0x40);
          SubnormalSum(a, b);
          ExactDelivers(sign, Frac(a) + Frac(b), mode, tiny, flags);
          return;
        }
        NormalSum(a, b);
        z := PackRound(sign, expA, 0x4000_0000 + sigA + sigB, SumNum(a, b), SumDen(a, b));
        return;
      }
      ghost var total := 0x2000_0000 + sigA + sigB;
      SumPacks(expZ, total, SumNum(a, b), SumDen(a, b));
      sigA := sigA + 0x2000_0000;
      var sigZ := (sigA + sigB) * 2 % 0x1_0000_0000;
      expZ := expZ - 1;
      if sigZ >= 0x8000_0000 {
        sigZ := sigA + sigB;
        expZ := expZ + 1;
      }
      z := PackRound(sign, expZ, sigZ, SumNum(a, b), SumDen(a, b));
    }

    /** The absolute value of a minus that of b, with the sign turned if b is the larger. */
    method SubMagnitudes(a: nat, b: nat, sign: bool) returns (z: nat)
      requires a < 0x1_0000_0000 && b < 0x1_0000_0000
      modifies this
      ensures Subtracted(z, a, b, sign, mode, tiny, old(flags), flags)
    {
      hide StandsFor, Delivers, ShiftSticky, Up, Pow2, Units, DifferenceStanding, Value, Pack, DifferenceNum, DifferenceDen, Sign, Quiet;
      var expA, expB, sigA, sigB := Exp(a), Exp(b), Frac(a) * 0x80, Frac(b) * 0x80;
      var expZ: int, expD: int, sigZ, signZ := 0, (expA as int) - expB, 0, sign;
      if expD == 0 {
        if expA == 0xFF {
          if sigA != 0 || sigB != 0 {
            z := PropagateNaN(a, b);
            return;
          }
          Raise(INVALID);
          return NAN;
        }
        SameExponent(a, b);
        if expA == 0 {
          expA, expB := 1, 1;
        }
        if sigB < sigA {
          sigZ, expZ := sigA - sigB, expA;
        } else if sigA < sigB {
          sigZ, expZ, signZ := sigB - sigA, expB, !sign;
        } else {
          return Pack(mode == DownMode, 0, 0);
        }
      } else if expD < 0 {
        if expB == 0xFF {
          if sigB != 0 {
            z := PropagateNaN(a, b);
            return;
          }
          return Pack(!sign, 0xFF, 0);
        }
        if expA == 0 {
          expD := expD + 1;
        } else {
          sigA := sigA + 0x4000_0000;
        }
        sigA := ShiftSticky(32, sigA, -expD);
        sigB := sigB + 0x4000_0000;
        AlignedDifference(b, a);
        sigZ, expZ, signZ := sigB - sigA, expB, !sign;
      } else {
        if expA == 0xFF {
          if sigA != 0 {
            z := PropagateNaN(a, b);
            return;
          }
          return a;
        }
        if expB == 0 {
          expD := expD - 1;
        } else {
          sigB := sigB + 0x4000_0000;
        }
        sigB := ShiftSticky(32, sigB, expD);
        sigA := sigA + 0x4000_0000;
        AlignedDifference(a, b);
        sigZ, expZ := sigA - sigB, expA;
      }
      DifferenceReady(expZ - 1, sigZ, a, b);
      expZ := expZ - 1;
      z := PackNormal(signZ, expZ, sigZ, DifferenceNum(a, b), DifferenceDen(a, b));
    }

    method Add(a: nat, b: nat) returns (z: nat)
      requires a < 0x1_0000_0000 && b < 0x1_0000_0000
      modifies this
      ensures Added(z, a, b, mode, tiny, old(flags), flags)
    {
      hide Summed, Subtracted, Sign;
      if Sign(a) == Sign(b) {
        z := AddMagnitudes(a, b, Sign(a));
      } else {
        z := SubMagnitudes(a, b, Sign(a));
      }
    }

    method Sub(a: nat, b: nat) returns (z: nat)
      requires a < 0x1_0000_0000 && b < 0x1_0000_0000
      modifies this
      ensures Deducted(z, a, b, mode, tiny, old(flags), flags)
    {
      hide Summed, Subtracted, Sign;
      if Sign(a) == Sign(b) {
        z := SubMagnitudes(a, b, Sign(a));
      } else {
        z := AddMagnitudes(a, b, Sign(a));
      }
    }

    method Neg(a: nat) returns (z: nat)
      requires a < 0x1_0000_0000
      modifies this
      ensures IsNaN(a) ==> IsNaN(z)
      ensures !IsNaN(a) && !IsSubnormal(a) ==> z == Negated(a) && flags == old(flags)
      ensures IsSubnormal(a) ==> !(z == Negated(a) && flags == old(flags))
    {
      hide Multiplied, Sign, Negated;
      z := Mul(a, MINUS_ONE);
      if IsNaN(a) {
        NaNStays(z, a, MINUS_ONE, mode, tiny, old(flags), flags);
      } else {
        NegIsRight(z, a, mode, tiny, old(flags), flags);
      }
    }
  }

  lemma NaNStays(z: nat, a: nat, b: nat, mode: Mode, how: Detection, before: Flags, after: Flags)
    requires IsNaN(a) && Multiplied(z, a, b, mode, how, before, after)
    ensures IsNaN(z)
  {
  }

  lemma QuotientWritten(n: nat, d: nat)
    requires d > 0
    ensures StickyQuotient(n, d) == if n / d % 0x40 == 0 && d * (n / d) != n then n / d + 1 else n / d
  {
  }
}
