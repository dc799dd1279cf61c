// What the checksum is, said without registers and shifts: the remainder of
// the message, read as a polynomial over the integers modulo two, after
// division by x^16 + x^12 + x^5 + 1.

module CrcPolynomial {
  import opened Crc16

  // A polynomial is the set of the exponents whose coefficient is one.
  type Polynomial = set<nat>

  const GENERATOR: Polynomial := {16, 12, 5, 0}

  function Plus(p: Polynomial, q: Polynomial): (r: Polynomial)
    ensures forall e :: e in r <==> (e in p) != (e in q)
  {
    (p - q) + (q - p)
  }

  /** Multiplied by x^n. */
  function Up(p: Polynomial, n: nat): (r: Polynomial)
    ensures forall e: nat :: e in r <==> e >= n && e - n in p
  {
    set e | e in p :: e + n
  }

  /** The ways to come by x^e in a product of q and g. */
  function Ways(q: Polynomial, g: Polynomial, e: nat): set<nat> {
    set k | k in q && k <= e && e - k in g
  }

  predicate OddMany(s: set<nat>) {
    |s| % 2 == 1
  }

  ghost predicate IsProduct(p: Polynomial, q: Polynomial, g: Polynomial) {
    forall e: nat :: e in p <==> OddMany(Ways(q, g, e))
  }

  ghost predicate Multiple(p: Polynomial) {
    exists q: Polynomial :: IsProduct(p, q, GENERATOR)
  }

  // ---- Multiples of the generator ----

  predicate Back(q: Polynomial, e: nat, n: nat) {
    n <= e && e - n in q
  }

  function One(q: Polynomial, e: nat, n: nat): (r: set<nat>)
    ensures |r| == Count(Back(q, e, n))
    ensures forall k :: k in r <==> Back(q, e, n) && k == e - n
  {
    if Back(q, e, n) then {e - n} else {}
  }

  predicate OfFour(q: Polynomial, e: nat) {
    ((Back(q, e, 0) != Back(q, e, 5)) != Back(q, e, 12)) != Back(q, e, 16)
  }

  /** The generator has four terms. */
  lemma FourWays(q: Polynomial, e: nat)
    ensures OddMany(Ways(q, GENERATOR, e)) == OfFour(q, e)
  {
    hide One, Back, Ways;
    WaysApart(q, e);
    FourApart(One(q, e, 0), One(q, e, 5), One(q, e, 12), One(q, e, 16));
    OddOfFour(Back(q, e, 0), Back(q, e, 5), Back(q, e, 12), Back(q, e, 16));
  }

  function Count(b: bool): nat {
    if b then 1 else 0
  }

  lemma OddOfFour(a: bool, b: bool, c: bool, d: bool)
    ensures (Count(a) + Count(b) + Count(c) + Count(d)) % 2 == 1 <==> ((a != b) != c) != d
  {
  }

  lemma WaysApart(q: Polynomial, e: nat)
    ensures Ways(q, GENERATOR, e) == One(q, e, 0) + One(q, e, 5) + One(q, e, 12) + One(q, e, 16)
    ensures One(q, e, 0) !! One(q, e, 5) !! One(q, e, 12) !! One(q, e, 16)
  {
    OnesApart(q, e);
    WaysAre(q, e);
    hide *;
  }

  lemma WaysAre(q: Polynomial, e: nat)
    ensures Ways(q, GENERATOR, e) == One(q, e, 0) + One(q, e, 5) + One(q, e, 12) + One(q, e, 16)
  {
    var a, b, c, d := One(q, e, 0), One(q, e, 5), One(q, e, 12), One(q, e, 16);
    hide One;
    forall k: nat ensures k in Ways(q, GENERATOR, e) <==> k in a || k in b || k in c || k in d {
      assert e - k in GENERATOR <==> e - k == 0 || e - k == 5 || e - k == 12 || e - k == 16;
    }
    hide Ways, Back;
    InFour(Ways(q, GENERATOR, e), a, b, c, d);
  }

  lemma InFour(s: set<nat>, a: set<nat>, b: set<nat>, c: set<nat>, d: set<nat>)
    requires forall k :: k in s <==> k in a || k in b || k in c || k in d
    ensures s == a + b + c + d
  {
  }

  lemma OnesApart(q: Polynomial, e: nat)
    ensures One(q, e, 0) !! One(q, e, 5) !! One(q, e, 12) !! One(q, e, 16)
  {
    hide Back;
  }

  lemma FourApart(a: set<nat>, b: set<nat>, c: set<nat>, d: set<nat>)
    requires a !! b !! c !! d
    ensures |a + b + c + d| == |a| + |b| + |c| + |d|
  {
    assert |a + b| == |a| + |b|;
    assert |a + b + c| == |a + b| + |c|;
  }

  ghost predicate Fourfold(p: Polynomial, q: Polynomial) {
    forall e: nat :: e in p <==> OfFour(q, e)
  }

  lemma ProductIs(p: Polynomial, q: Polynomial)
    ensures IsProduct(p, q, GENERATOR) <==> Fourfold(p, q)
  {
    hide OfFour, OddMany, Ways;
    forall e: nat ensures OddMany(Ways(q, GENERATOR, e)) == OfFour(q, e) {
      FourWays(q, e);
    }
  }

  lemma MultiplesAdd(p: Polynomial, r: Polynomial)
    requires Multiple(p) && Multiple(r)
    ensures Multiple(Plus(p, r))
  {
    hide IsProduct;
    var q1: Polynomial :| IsProduct(p, q1, GENERATOR);
    var q2: Polynomial :| IsProduct(r, q2, GENERATOR);
    ProductIs(p, q1);
    ProductIs(r, q2);
    var q := Plus(q1, q2);
    ProductIs(Plus(p, r), q);
    assert Fourfold(Plus(p, r), q);
  }

  lemma MultiplesRise(p: Polynomial, n: nat)
    requires Multiple(p)
    ensures Multiple(Up(p, n))
  {
    hide IsProduct;
    var q: Polynomial :| IsProduct(p, q, GENERATOR);
    ProductIs(p, q);
    ProductIs(Up(p, n), Up(q, n));
    forall e: nat ensures e in Up(p, n) <==> OfFour(Up(q, n), e) {
      if e >= n {
        assert OfFour(Up(q, n), e) == OfFour(q, e - n);
      }
    }
  }

  lemma GeneratorIsMultiple()
    ensures Multiple(GENERATOR) && Multiple({})
  {
    hide IsProduct;
    var one: Polynomial, none: Polynomial := {0}, {};
    ProductIs(GENERATOR, one);
    ProductIs(none, none);
    assert Fourfold(GENERATOR, one) && Fourfold(none, none);
    assert IsProduct(GENERATOR, one, GENERATOR) && IsProduct(none, none, GENERATOR);
  }

  lemma {:induction false} Highest(q: Polynomial) returns (m: nat)
    requires q != {}
    ensures m in q && forall k :: k in q ==> k <= m
  {
    m :| m in q;
    if q != {m} {
      var n := Highest(q - {m});
      assert forall k :: k in q ==> k == m || k in q - {m};
      m := if m < n then n else m;
    }
  }

  lemma TopTerm(q: Polynomial, m: nat)
    requires m in q && forall k :: k in q ==> k <= m
    ensures OfFour(q, m + 16)
  {
  }

  /** A multiple that is not zero has at least the degree of the generator. */
  lemma HighTerm(p: Polynomial) returns (e: nat)
    requires Multiple(p) && p != {}
    ensures e in p && e >= 16
  {
    hide IsProduct;
    var q: Polynomial :| IsProduct(p, q, GENERATOR);
    ProductIs(p, q);
    e :| e in p;
    assert OfFour(q, e);
    assert Back(q, e, 0) || Back(q, e, 5) || Back(q, e, 12) || Back(q, e, 16);
    var m := Highest(q);
    TopTerm(q, m);
    e := m + 16;
  }

  // ---- Words and messages as polynomials ----

  function Mask(i: nat): bv16
    requires i < 16
  {
    match i
    case 0 => 0x1
    case 1 => 0x2
    case 2 => 0x4
    case 3 => 0x8
    case 4 => 0x10
    case 5 => 0x20
    case 6 => 0x40
    case 7 => 0x80
    case 8 => 0x100
    case 9 => 0x200
    case 10 => 0x400
    case 11 => 0x800
    case 12 => 0x1000
    case 13 => 0x2000
    case 14 => 0x4000
    case _ => 0x8000
  }

  function Part(x: Word, i: nat): Word
    requires i < 16
  {
    Word(x.bits & Mask(i))
  }

  predicate BitOf(x: Word, i: nat) {
    i < 16 && Part(x, i) != ZERO
  }

  predicate BitOfByte(b: bv8, i: nat) {
    i < 8 && b & [0x1, 0x2, 0x4, 0x8, 0x10, 0x20, 0x40, 0x80][i] != 0
  }

  function Bits(x: Word): Polynomial {
    set i: nat | i < 16 && BitOf(x, i)
  }

  function ByteBits(b: bv8): Polynomial {
    set i: nat | i < 8 && BitOfByte(b, i)
  }

  /** The message: bytes in order, each from its highest bit down, with falling exponents. */
  function Message(data: seq<bv8>): Polynomial {
    set e: nat | e < 8 * |data| && BitOfByte(data[|data| - 1 - e / 8], e % 8)
  }

  /** With w behind it, the register and the message are divisible by the generator. */
  ghost predicate Divisible(h: Word, data: seq<bv8>, w: Word) {
    Multiple(Plus(Plus(Up(Bits(h), 8 * |data|), Up(Message(data), 16)), Bits(w)))
  }

  // ---- One bit ----

  /** What a step does to each bit: the bit below comes up, and the terms of the generator meet what leaves at the top. */
  lemma StepBits(h: Word, bit: bool, i: nat)
    requires i < 16
    ensures BitOf(BitStep(h, bit), i) == ((i > 0 && BitOf(h, i - 1)) != ((i == 0 || i == 5 || i == 12) && BitOf(h, 15) != bit))
  {
    StepIs(h, bit);
    DoubledBit(h, i);
    GeneratorBit(i);
    hide BitOf, BitStep, Xor, Doubled;
    DifferentBit(Doubled(h), Word(0x1021), i);
    DifferentBit(Doubled(h), ZERO, i);
  }

  lemma StepIs(h: Word, bit: bool)
    ensures BitStep(h, bit) == Xor(Doubled(h), if BitOf(h, 15) != bit then Word(0x1021) else ZERO)
  {
  }

  lemma DoubledBit(x: Word, i: nat)
    requires i < 16
    ensures BitOf(Doubled(x), i) == (i > 0 && BitOf(x, i - 1))
  {
  }

  lemma GeneratorBit(i: nat)
    requires i < 16
    ensures BitOf(Word(0x1021), i) == (i == 0 || i == 5 || i == 12) && !BitOf(ZERO, i)
  {
  }

  lemma PartIs(x: Word, i: nat)
    requires i < 16
    ensures Part(x, i) == ZERO || Part(x, i) == Word(Mask(i))
  {
  }

  lemma PartXor(x: Word, y: Word, i: nat)
    requires i < 16
    ensures Part(Xor(x, y), i) == Xor(Part(x, i), Part(y, i))
  {
    hide Mask;
  }

  lemma XorOfTwo(a: Word, b: Word)
    ensures Xor(a, b) == ZERO <==> a == b
  {
  }

  lemma DifferentBit(x: Word, y: Word, i: nat)
    requires i < 16
    ensures BitOf(Xor(x, y), i) == (BitOf(x, i) != BitOf(y, i))
  {
    hide Mask, Part, Xor;
    PartIs(x, i);
    PartIs(y, i);
    PartXor(x, y, i);
    XorOfTwo(Part(x, i), Part(y, i));
  }

  function Top(bit: bool): Polynomial {
    if bit then {16} else {}
  }

  /** One step is multiplication by x, with the message bit added at x^16, up to a multiple of the generator. */
  lemma StepDivides(h: Word, bit: bool)
    ensures Multiple(Plus(Plus(Up(Bits(h), 1), Top(bit)), Bits(BitStep(h, bit))))
  {
    hide BitOf, BitStep, Multiple;
    GeneratorIsMultiple();
    var p := Plus(Plus(Up(Bits(h), 1), Top(bit)), Bits(BitStep(h, bit)));
    forall e: nat ensures e in p <==> e in GENERATOR && BitOf(h, 15) != bit {
      if e < 16 {
        StepBits(h, bit, e);
      }
    }
    assert p == if BitOf(h, 15) != bit then GENERATOR else {};
  }

  // ---- A byte ----

  /** The first k bits of a byte, the kth at x^0. */
  function Leading(b: bv8, k: nat): Polynomial
    requires k <= 8
  {
    set e: nat | e < k && LeadingBit(b, k, e)
  }

  predicate LeadingBit(b: bv8, k: nat, e: nat)
    requires k <= 8
  {
    e < k && BitOfByte(b, 8 - k + e)
  }

  lemma ByteMoves(b: bv8, i: nat)
    requires i < 8
    ensures BitOfByte(b << 1, i) == (i > 0 && BitOfByte(b, i - 1))
    ensures BitOfByte(b, 7) == (b & 0x80 != 0)
  {
  }

  lemma LeadingSplits(b: bv8, k: nat)
    requires 0 < k <= 8
    ensures Up(Leading(b, k), 16) == Plus(Up(Top(b & 0x80 != 0), k - 1), Up(Leading(b << 1, k - 1), 16))
  {
    hide BitOfByte;
    ByteMoves(b, 0);
    forall e: nat ensures e in Leading(b, k) <==> (e == k - 1 && b & 0x80 != 0) || e in Leading(b << 1, k - 1) {
      if e < k - 1 {
        ByteMoves(b, 9 - k + e);
      }
    }
  }

  lemma Chained(a: Polynomial, t: Polynomial, m: Polynomial, l: Polynomial, r: Polynomial)
    ensures Plus(Plus(Plus(a, t), m), Plus(Plus(m, l), r)) == Plus(Plus(a, Plus(t, l)), r)
  {
  }

  lemma UpAdds(p: Polynomial, q: Polynomial, a: nat, b: nat)
    ensures Up(Plus(p, q), a) == Plus(Up(p, a), Up(q, a))
    ensures Up(Up(p, a), b) == Up(p, a + b)
  {
  }

  lemma Cancels(p: Polynomial)
    ensures Plus(Plus(Up(p, 0), Up({}, 16)), p) == {}
  {
  }

  lemma {:induction false} BitsDivide(h: Word, b: bv8, k: nat)
    requires k <= 8
    ensures Multiple(Plus(Plus(Up(Bits(h), k), Up(Leading(b, k), 16)), Bits(FirstBits(h, b, k))))
    decreases k
  {
    hide Multiple, Bits, BitStep, Plus, Up, Top, BitOfByte;
    if k == 0 {
      GeneratorIsMultiple();
      Cancels(Bits(h));
      assert Leading(b, 0) == {};
    } else {
      var bit, n := b & 0x80 != 0, k - 1;
      var h1 := BitStep(h, bit);
      var a, t, m, l, r := Up(Bits(h), 1), Top(bit), Up(Bits(h1), n), Up(Leading(b << 1, n), 16), Bits(FirstBits(h, b, k));
      hide Leading;
      BitsDivide(h1, b << 1, n);
      StepDivides(h, bit);
      MultiplesRise(Plus(Plus(a, t), Bits(h1)), n);
      UpAdds(Plus(a, t), Bits(h1), n, 0);
      UpAdds(a, t, n, 0);
      UpAdds(Bits(h), {}, 1, n);
      MultiplesAdd(Plus(Plus(Up(a, n), Up(t, n)), m), Plus(Plus(m, l), r));
      Chained(Up(a, n), Up(t, n), m, l, r);
      LeadingSplits(b, k);
    }
  }

  // ---- The message ----

  lemma MessageSplits(data: seq<bv8>)
    requires data != []
    ensures Up(Message(data), 16) == Plus(Up(Up(Leading(data[0], 8), 16), 8 * (|data| - 1)), Up(Message(data[1..]), 16))
  {
    hide BitOfByte;
    var n := 8 * (|data| - 1);
    forall e: nat ensures e in Message(data) <==> (e >= n && e - n in Leading(data[0], 8)) || e in Message(data[1..]) {
      if e < n {
        assert data[|data| - 1 - e / 8] == data[1..][|data| - 2 - e / 8];
      } else if e < n + 8 {
        assert e / 8 == |data| - 1 && e % 8 == e - n;
      }
    }
  }

  lemma {:induction false} ChecksumDivides(h: Word, data: seq<bv8>)
    ensures Divisible(h, data, Checksum(h, data))
    decreases |data|
  {
    hide Multiple, Bits, FirstBits, Plus, Up, Leading;
    if data == [] {
      GeneratorIsMultiple();
      Cancels(Bits(h));
      assert Message(data) == {};
    } else {
      var n := 8 * (|data| - 1);
      var h1 := FirstBits(h, data[0], 8);
      var a, t, m, l, r := Up(Bits(h), 8), Up(Leading(data[0], 8), 16), Up(Bits(h1), n), Up(Message(data[1..]), 16), Bits(Checksum(h, data));
      hide Message;
      ChecksumDivides(h1, data[1..]);
      BitsDivide(h, data[0], 8);
      MultiplesRise(Plus(Plus(a, t), Bits(h1)), n);
      UpAdds(Plus(a, t), Bits(h1), n, 0);
      UpAdds(a, t, n, 0);
      UpAdds(Bits(h), {}, 8, n);
      MultiplesAdd(Plus(Plus(Up(a, n), Up(t, n)), m), Plus(Plus(m, l), r));
      Chained(Up(a, n), Up(t, n), m, l, r);
      MessageSplits(data);
    }
  }

  lemma SameBits(x: Word, y: Word)
    requires Bits(x) == Bits(y)
    ensures x == y
  {
    hide Mask, Part;
    forall i: nat | i < 16 ensures Part(x, i) == Part(y, i) {
      assert i in Bits(x) <==> i in Bits(y);
      PartIs(x, i);
      PartIs(y, i);
    }
    SameParts(x, y);
  }

  lemma SameParts(x: Word, y: Word)
    requires forall i: nat :: i < 16 ==> Part(x, i) == Part(y, i)
    ensures x == y
  {
    assert Part(x, 0) == Part(y, 0) && Part(x, 1) == Part(y, 1) && Part(x, 2) == Part(y, 2) && Part(x, 3) == Part(y, 3);
    assert Part(x, 4) == Part(y, 4) && Part(x, 5) == Part(y, 5) && Part(x, 6) == Part(y, 6) && Part(x, 7) == Part(y, 7);
    assert Part(x, 8) == Part(y, 8) && Part(x, 9) == Part(y, 9) && Part(x, 10) == Part(y, 10) && Part(x, 11) == Part(y, 11);
    assert Part(x, 12) == Part(y, 12) && Part(x, 13) == Part(y, 13) && Part(x, 14) == Part(y, 14) && Part(x, 15) == Part(y, 15);
  }

  /** Two words that leave the same polynomial divisible are the same. */
  lemma OneRemainder(p: Polynomial, w: Word, c: Word)
    requires Multiple(Plus(p, Bits(w))) && Multiple(Plus(p, Bits(c)))
    ensures w == c
  {
    hide Multiple, BitOf;
    var d := Plus(Plus(p, Bits(w)), Plus(p, Bits(c)));
    MultiplesAdd(Plus(p, Bits(w)), Plus(p, Bits(c)));
    if d != {} {
      var e := HighTerm(d);
      assert false;
    }
    forall e: nat ensures e in Bits(w) <==> e in Bits(c) {
      assert e !in d;
    }
    SameBits(w, c);
  }

  /** The checksum is the remainder: the one word that makes the register and the message divisible by the generator. */
  lemma ChecksumIsRemainder(h: Word, data: seq<bv8>, w: Word)
    ensures Divisible(h, data, w) <==> w == Checksum(h, data)
  {
    hide Multiple, Checksum, Up, Plus, Message;
    ChecksumDivides(h, data);
    if Divisible(h, data, w) {
      OneRemainder(Plus(Up(Bits(h), 8 * |data|), Up(Message(data), 16)), w, Checksum(h, data));
    }
  }

  // ---- The tables ----

  lemma {:induction false} ShiftsDivide(x: Word, n: nat)
    ensures Multiple(Plus(Up(Bits(x), n), Bits(Shifts(x, n))))
    decreases n
  {
    hide Multiple, Bits, Shifted, Up, Plus, BitStep, Top;
    if n == 0 {
      GeneratorIsMultiple();
      Cancels(Bits(x));
      NothingAdded(Up(Bits(x), 0));
    } else {
      var m, y := n - 1, Shifted(x);
      NoMessage(x);
      StepDivides(x, false);
      NothingAdded(Up(Bits(x), 1));
      ShiftsDivide(y, m);
      MultiplesRise(Plus(Up(Bits(x), 1), Bits(y)), m);
      UpAdds(Up(Bits(x), 1), Bits(y), m, 0);
      UpAdds(Bits(x), {}, 1, m);
      MultiplesAdd(Plus(Up(Bits(x), n), Up(Bits(y), m)), Plus(Up(Bits(y), m), Bits(Shifts(x, n))));
      Between(Up(Bits(x), n), Up(Bits(y), m), Bits(Shifts(x, n)));
    }
  }

  lemma NoMessage(x: Word)
    ensures Shifted(x) == BitStep(x, false)
  {
  }

  lemma NothingAdded(p: Polynomial)
    ensures Plus(p, Top(false)) == p && Plus(p, Up({}, 16)) == p
  {
  }

  lemma Between(p: Polynomial, q: Polynomial, r: Polynomial)
    ensures Plus(Plus(p, q), Plus(q, r)) == Plus(p, r)
  {
  }

  lemma HighBit(b: bv8, i: nat)
    requires i < 16
    ensures BitOf(High(b), i) == (i >= 8 && BitOfByte(b, i - 8))
  {
  }

  lemma HighBits(b: bv8)
    ensures Bits(High(b)) == Up(ByteBits(b), 8)
  {
    hide BitOf, BitOfByte, High;
    forall e: nat ensures e in Bits(High(b)) <==> e in Up(ByteBits(b), 8) {
      if e < 16 {
        HighBit(b, e);
      }
    }
  }

  /** Entry i of table j is the remainder of byte i with j + 2 further bytes' worth of zeros behind it, and no other word is. */
  lemma EntryIsRemainder(j: nat, i: bv8, w: Word)
    ensures Multiple(Plus(Up(ByteBits(i), 8 * (j + 2)), Bits(w))) <==> w == Table(j, i)
  {
    TableShifts(j, i);
    HighBits(i);
    hide Multiple, Table, Shifts, Bits, Plus, Up, High, ByteBits;
    ShiftsDivide(High(i), 8 * (j + 1));
    UpAdds(ByteBits(i), {}, 8, 8 * (j + 1));
    if Multiple(Plus(Up(ByteBits(i), 8 * (j + 2)), Bits(w))) {
      OneRemainder(Up(ByteBits(i), 8 * (j + 2)), w, Table(j, i));
    }
  }
}
