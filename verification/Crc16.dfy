// The checksum over eight bytes at a time, the tables it uses, and why it is
// the plain bit-by-bit checksum with polynomial 0x1021.

module Crc16 {

  datatype Word = Word(bits: bv16)

  const ZERO := Word(0)

  function Xor(a: Word, b: Word): Word {
    Word(a.bits ^ b.bits)
  }

  function Shifted(x: Word): Word {
    Word((x.bits << 1) ^ (if x.bits & 0x8000 != 0 then 0x1021 else 0))
  }

  /** n shifts. */
  function Shifts(x: Word, n: nat): Word
    decreases n
  {
    if n == 0 then x else Shifts(Shifted(x), n - 1)
  }

  /** One message bit: it meets the bit leaving the register. */
  function BitStep(h: Word, bit: bool): Word {
    Word((h.bits << 1) ^ (if (h.bits & 0x8000 != 0) != bit then 0x1021 else 0))
  }

  /** The first k bits of a byte, from the highest down. */
  function FirstBits(h: Word, b: bv8, k: nat): Word
    decreases k
  {
    if k == 0 then h else FirstBits(BitStep(h, b & 0x80 != 0), b << 1, k - 1)
  }

  /** The checksum defined bit by bit. */
  function Checksum(h: Word, data: seq<bv8>): Word
    decreases |data|
  {
    if data == [] then h else Checksum(FirstBits(h, data[0], 8), data[1..])
  }

  /** A byte in the upper half of a word, the halves of a word, and the lower half moved up. */
  function High(b: bv8): Word {
    Word((b as bv16) << 8)
  }

  function TopByte(x: Word): bv8 {
    (x.bits >> 8) as bv8
  }

  function LowByte(x: Word): bv8 {
    (x.bits & 0xFF) as bv8
  }

  function Low(x: Word): Word {
    Word(x.bits & 0xFF)
  }

  function Raised(x: Word): Word {
    Word(x.bits << 8)
  }

  /** The tables: eight shifts of each byte, and then each table from the one before. */
  function Table(j: nat, i: bv8): Word
    decreases j
  {
    if j == 0 then Shifts(High(i), 8)
    else
      var c := Table(j - 1, i);
      Xor(Shifts(High(TopByte(c)), 8), Raised(c))
  }

  // ---- Linearity ----

  lemma ShiftedLinear(x: Word, y: Word)
    ensures Shifted(Xor(x, y)) == Xor(Shifted(x), Shifted(y))
  {
  }

  lemma {:induction false} ShiftsLinear(x: Word, y: Word, n: nat)
    ensures Shifts(Xor(x, y), n) == Xor(Shifts(x, n), Shifts(y, n))
    decreases n
  {
    hide Xor, Shifted;
    if n > 0 {
      ShiftedLinear(x, y);
      ShiftsLinear(Shifted(x), Shifted(y), n - 1);
    }
  }

  lemma {:induction false} ShiftsAdd(x: Word, a: nat, b: nat)
    ensures Shifts(Shifts(x, a), b) == Shifts(x, a + b)
    decreases a
  {
    hide Shifted;
    if a > 0 {
      ShiftsAdd(Shifted(x), a - 1, b);
    }
  }

  lemma Halves(x: Word)
    ensures x == Xor(High(TopByte(x)), Low(x))
    ensures Raised(x) == High(LowByte(x))
  {
  }

  lemma HighLinear(a: bv8, b: bv8)
    ensures High(a ^ b) == Xor(High(a), High(b))
  {
  }

  function Doubled(x: Word): Word {
    Word(x.bits << 1)
  }

  predicate TopSet(x: Word) {
    x.bits & 0x8000 != 0
  }

  lemma StaysLow(x: Word)
    requires !TopSet(x)
    ensures Shifted(x) == Doubled(x)
  {
  }

  lemma FourStayLow(x: Word)
    requires x.bits & 0xF000 == 0
    ensures !TopSet(x) && !TopSet(Doubled(x)) && !TopSet(Doubled(Doubled(x))) && !TopSet(Doubled(Doubled(Doubled(x))))
    ensures Doubled(Doubled(Doubled(Doubled(x)))) == Word(x.bits << 4)
  {
  }

  lemma LowBits(x: Word)
    ensures Low(x).bits & 0xF000 == 0 && Word(Low(x).bits << 4).bits & 0xF000 == 0
    ensures Word(Word(Low(x).bits << 4).bits << 4) == Raised(x)
  {
  }

  /** Eight shifts of the lower half meet no set bit at the top. */
  lemma LowMoves(x: Word)
    ensures Shifts(Low(x), 8) == Raised(x)
  {
    LowBits(x);
    var y := Low(x);
    var z := Word(y.bits << 4);
    FourStayLow(y);
    FourStayLow(z);
    hide Doubled, TopSet, Shifted, Shifts, Low, Raised;
    StaysLow(y);
    StaysLow(Doubled(y));
    StaysLow(Doubled(Doubled(y)));
    StaysLow(Doubled(Doubled(Doubled(y))));
    StaysLow(z);
    StaysLow(Doubled(z));
    StaysLow(Doubled(Doubled(z)));
    StaysLow(Doubled(Doubled(Doubled(z))));
    EightShifts(y);
  }

  lemma EightShifts(x: Word)
    ensures Shifts(x, 8) == Shifted(Shifted(Shifted(Shifted(Shifted(Shifted(Shifted(Shifted(x))))))))
  {
    hide Shifted;
  }

  // ---- A byte at a time ----

  lemma BitMeetsByte(h: Word, b: bv8)
    ensures Shifted(Xor(h, High(b))) == Xor(BitStep(h, b & 0x80 != 0), High(b << 1))
  {
  }

  function Left(b: bv8, k: nat): bv8
    decreases k
  {
    if k == 0 then b else Left(b << 1, k - 1)
  }

  /** Bringing in the bits one by one is bringing in the byte at once and shifting; what has not come in yet is still there. */
  lemma {:induction false} BitsAreShifts(h: Word, b: bv8, k: nat)
    ensures Shifts(Xor(h, High(b)), k) == Xor(FirstBits(h, b, k), High(Left(b, k)))
    decreases k
  {
    hide Xor, Shifted, BitStep, High;
    if k > 0 {
      BitMeetsByte(h, b);
      BitsAreShifts(BitStep(h, b & 0x80 != 0), b << 1, k - 1);
    }
  }

  lemma NothingLeft(b: bv8, x: Word)
    ensures Left(b, 8) == 0 && Xor(x, High(0)) == x
  {
    assert Left(b, 8) == ((((((((b << 1) << 1) << 1) << 1) << 1) << 1) << 1) << 1);
  }

  lemma WholeByte(h: Word, b: bv8)
    ensures FirstBits(h, b, 8) == Shifts(Xor(h, High(b)), 8)
  {
    hide Xor, Shifts, FirstBits, High, Left;
    BitsAreShifts(h, b, 8);
    NothingLeft(b, FirstBits(h, b, 8));
  }

  /** One look into the first table brings in a byte. */
  lemma TableStep(h: Word, b: bv8)
    ensures Xor(Raised(h), Table(0, TopByte(h) ^ b)) == FirstBits(h, b, 8)
  {
    WholeByte(h, b);
    HighLinear(TopByte(h), b);
    Halves(h);
    LowMoves(h);
    var t, l, d := High(TopByte(h)), Low(h), High(b);
    hide Shifted, High, Low, Raised, TopByte, Shifts, FirstBits;
    ShiftsLinear(l, Xor(t, d), 8);
    Regroup(t, l, d);
  }

  lemma Regroup(t: Word, l: Word, d: Word)
    ensures Xor(Xor(t, l), d) == Xor(l, Xor(t, d))
  {
  }

  // ---- Eight bytes at a time ----

  /** Table j holds what a byte has become after j + 1 further bytes' worth of shifts. */
  lemma {:induction false} TableShifts(j: nat, i: bv8)
    ensures Table(j, i) == Shifts(High(i), 8 * (j + 1))
    decreases j
  {
    hide Xor, Shifted, High, Raised, TopByte, Low;
    if j > 0 {
      TableShifts(j - 1, i);
      var c := Table(j - 1, i);
      hide Shifts;
      Halves(c);
      ShiftsLinear(High(TopByte(c)), Low(c), 8);
      LowMoves(c);
      ShiftsAdd(High(i), 8 * j, 8);
    }
  }

  lemma TableLinear(j: nat, a: bv8, b: bv8)
    ensures Table(j, a ^ b) == Xor(Table(j, a), Table(j, b))
  {
    TableShifts(j, a);
    TableShifts(j, b);
    TableShifts(j, a ^ b);
    HighLinear(a, b);
    var x, y := High(a), High(b);
    hide Xor, Shifted, Shifts, High, Table;
    ShiftsLinear(x, y, 8 * (j + 1));
  }

  lemma Commutes(a: Word, b: Word)
    ensures Xor(a, b) == Xor(b, a)
  {
  }

  lemma Associates(a: Word, b: Word, c: Word)
    ensures Xor(Xor(a, b), c) == Xor(a, Xor(b, c))
  {
  }

  lemma XorZero(a: Word)
    ensures Xor(a, ZERO) == a == Xor(ZERO, a)
  {
  }

  lemma Swaps(a: Word, b: Word, c: Word)
    ensures Xor(a, Xor(b, c)) == Xor(b, Xor(a, c))
  {
    hide Xor;
    Associates(a, b, c);
    Commutes(a, b);
    Associates(b, a, c);
  }

  /** What the register held and what the data adds do not mix. */
  lemma {:induction false} Superposed(h: Word, data: seq<bv8>)
    ensures Checksum(h, data) == Xor(Shifts(h, 8 * |data|), Checksum(ZERO, data))
    decreases |data|
  {
    hide Xor, Shifted, FirstBits, High;
    if data == [] {
      XorZero(h);
    } else {
      var d, rest := data[0], data[1..];
      var n := 8 * |rest|;
      WholeByte(h, d);
      WholeByte(ZERO, d);
      hide Shifts;
      Superposed(FirstBits(h, d, 8), rest);
      Superposed(FirstBits(ZERO, d, 8), rest);
      ShiftsAdd(Xor(h, High(d)), 8, n);
      ShiftsAdd(Xor(ZERO, High(d)), 8, n);
      ShiftsLinear(h, High(d), n + 8);
      XorZero(High(d));
      Associates(Shifts(h, n + 8), Shifts(High(d), n + 8), Checksum(ZERO, rest));
    }
  }

  /** The first byte's share is found in the table for the number of bytes after it. */
  lemma FirstByte(data: seq<bv8>)
    requires data != []
    ensures Checksum(ZERO, data) == Xor(Table(|data| - 1, data[0]), Checksum(ZERO, data[1..]))
  {
    hide Xor, Shifted, FirstBits, High, Shifts, Table;
    var d, rest := data[0], data[1..];
    WholeByte(ZERO, d);
    TableShifts(|rest|, d);
    Superposed(FirstBits(ZERO, d, 8), rest);
    XorZero(High(d));
    ShiftsAdd(High(d), 8, 8 * |rest|);
    assert 8 + 8 * |rest| == 8 * (|rest| + 1);
  }

  /** Sixty-four shifts of a register are two looks into the tables. */
  lemma RegisterShare(h: Word)
    ensures Shifts(h, 64) == Xor(Table(7, TopByte(h)), Table(6, LowByte(h)))
  {
    Halves(h);
    LowMoves(h);
    TableShifts(7, TopByte(h));
    TableShifts(6, LowByte(h));
    hide Xor, Shifted, High, Shifts, Table, Low, Raised, TopByte, LowByte;
    ShiftsLinear(High(TopByte(h)), Low(h), 64);
    ShiftsAdd(Low(h), 8, 56);
  }

  /** The eight looks of one bulk step. */
  function Bulk(h: Word, d: seq<bv8>): Word
    requires |d| == 8
  {
    Xor(Xor(Xor(Xor(Xor(Xor(Xor(Table(7, d[0] ^ TopByte(h)), Table(6, d[1] ^ LowByte(h))), Table(5, d[2])), Table(4, d[3])),
                Table(3, d[4])), Table(2, d[5])), Table(1, d[6])), Table(0, d[7]))
  }

  lemma BulkIsEightBytes(h: Word, d: seq<bv8>)
    requires |d| == 8
    ensures Bulk(h, d) == Checksum(h, d)
  {
    hide Table, Shifts, Checksum, TopByte, LowByte, Xor;
    Superposed(h, d);
    RegisterShare(h);
    EightBytes(d);
    TableLinear(7, d[0], TopByte(h));
    TableLinear(6, d[1], LowByte(h));
    Collected(Table(7, TopByte(h)), Table(6, LowByte(h)), Table(7, d[0]), Table(6, d[1]), Table(5, d[2]), Table(4, d[3]), Table(3, d[4]),
              Table(2, d[5]), Table(1, d[6]), Table(0, d[7]));
  }

  lemma EightBytes(d: seq<bv8>)
    requires |d| == 8
    ensures Checksum(ZERO, d)
         == Xor(Table(7, d[0]), Xor(Table(6, d[1]), Xor(Table(5, d[2]), Xor(Table(4, d[3]),
              Xor(Table(3, d[4]), Xor(Table(2, d[5]), Xor(Table(1, d[6]), Xor(Table(0, d[7]), ZERO))))))))
  {
    hide Table, Xor, FirstBits;
    FirstByte(d);
    FirstByte(d[1..]);
    assert d[1..][1..] == d[2..];
    FirstByte(d[2..]);
    assert d[2..][1..] == d[3..];
    FirstByte(d[3..]);
    assert d[3..][1..] == d[4..];
    FirstByte(d[4..]);
    assert d[4..][1..] == d[5..];
    FirstByte(d[5..]);
    assert d[5..][1..] == d[6..];
    FirstByte(d[6..]);
    assert d[6..][1..] == d[7..];
    FirstByte(d[7..]);
    assert d[7..][1..] == [];
  }

  lemma Paired(a: Word, t: Word, b: Word, l: Word, s: Word)
    ensures Xor(Xor(Xor(a, t), Xor(b, l)), s) == Xor(Xor(t, l), Xor(a, Xor(b, s)))
  {
    hide Xor;
    Associates(Xor(a, t), Xor(b, l), s);
    Associates(b, l, s);
    Associates(a, t, Xor(b, Xor(l, s)));
    Associates(t, l, Xor(a, Xor(b, s)));
    Swaps(l, a, Xor(b, s));
    Swaps(l, b, s);
    Swaps(t, a, Xor(b, Xor(l, s)));
  }

  lemma Collected(t: Word, l: Word, a: Word, b: Word, c: Word, d: Word, e: Word, f: Word, g: Word, h: Word)
    ensures Xor(Xor(Xor(Xor(Xor(Xor(Xor(Xor(a, t), Xor(b, l)), c), d), e), f), g), h)
         == Xor(Xor(t, l), Xor(a, Xor(b, Xor(c, Xor(d, Xor(e, Xor(f, Xor(g, Xor(h, ZERO)))))))))
  {
    XorZero(h);
    hide Xor;
    var x1 := Xor(Xor(a, t), Xor(b, l));
    var x2 := Xor(x1, c);
    var x3 := Xor(x2, d);
    var x4 := Xor(x3, e);
    var x5 := Xor(x4, f);
    Associates(x5, g, h);
    Associates(x4, f, Xor(g, h));
    Associates(x3, e, Xor(f, Xor(g, h)));
    Associates(x2, d, Xor(e, Xor(f, Xor(g, h))));
    Associates(x1, c, Xor(d, Xor(e, Xor(f, Xor(g, h)))));
    Paired(a, t, b, l, Xor(c, Xor(d, Xor(e, Xor(f, Xor(g, h))))));
  }

  /** The first entry that is not zero: the bit that comes to the top is all there is to meet the generator. */
  lemma FirstPower()
    ensures Table(0, 1) == Word(0x1021) && Checksum(ZERO, [1]) == Word(0x1021)
  {
    assert High(1) == Word(0x100);
    EightShifts(High(1));
    assert Shifts(Word(0x100), 8) == Word(0x1021);
    hide High, Shifts, FirstBits, Xor;
    WholeByte(ZERO, 1);
    XorZero(High(1));
    assert [1 as bv8][1..] == [];
  }

  // ---- The program ----

  ghost predicate IsTable(t: seq<seq<bv16>>) {
    && |t| == 8 && (forall j :: 0 <= j < 8 ==> |t[j]| == 256)
    && forall j, i :: 0 <= j < 8 && 0 <= i < 256 ==> Word(t[j][i]) == Table(j, i as bv8)
  }

  lemma RoundTrip(b: bv8)
    ensures 0 <= b as int < 256 && (b as int) as bv8 == b
  {
  }

  function Look(t: seq<seq<bv16>>, j: nat, b: bv8): bv16
    requires |t| == 8 && j < 8 && |t[j]| == 256
  {
    RoundTrip(b);
    t[j][b as int]
  }

  lemma LookIs(t: seq<seq<bv16>>, j: nat, b: bv8)
    requires IsTable(t) && j < 8
    ensures Word(Look(t, j, b)) == Table(j, b)
  {
    hide Table;
    RoundTrip(b);
  }

  lemma XorIs(a: bv16, b: bv16)
    ensures Word(a ^ b) == Xor(Word(a), Word(b))
  {
  }

  lemma PartsAre(h: bv16)
    ensures Raised(Word(h)) == Word(h << 8) && TopByte(Word(h)) == (h >> 8) as bv8 && LowByte(Word(h)) == (h & 0xFF) as bv8
  {
  }

  /** One byte, as the loops for the odd bytes do it. */
  method OneByte(t: seq<seq<bv16>>, h: bv16, b: bv8) returns (r: bv16)
    requires IsTable(t)
    ensures Word(r) == FirstBits(Word(h), b, 8)
  {
    hide Table, FirstBits, Look, Xor, Raised, TopByte, Shifts, Shifted;
    var high, raised := (h >> 8) as bv8, h << 8;
    PartsAre(h);
    LookIs(t, 0, high ^ b);
    TableStep(Word(h), b);
    var look := Look(t, 0, high ^ b);
    XorIs(raised, look);
    r := raised ^ look;
  }

  lemma BulkIs(h: Word, d: seq<bv8>, w: seq<Word>)
    requires |d| == 8 == |w|
    requires w[7] == Table(7, d[0] ^ TopByte(h)) && w[6] == Table(6, d[1] ^ LowByte(h)) && w[5] == Table(5, d[2]) && w[4] == Table(4, d[3])
    requires w[3] == Table(3, d[4]) && w[2] == Table(2, d[5]) && w[1] == Table(1, d[6]) && w[0] == Table(0, d[7])
    ensures Bulk(h, d) == Xor(Xor(Xor(Xor(Xor(Xor(Xor(w[7], w[6]), w[5]), w[4]), w[3]), w[2]), w[1]), w[0])
  {
    hide Table, Xor, TopByte, LowByte;
  }

  /** Adds one more look to what has been collected. */
  method Collect(r: bv16, x: bv16) returns (s: bv16)
    ensures Word(s) == Xor(Word(r), Word(x))
  {
    s := r ^ x;
  }

  /** Eight bytes, as the bulk loop does it. */
  method EightAtOnce(t: seq<seq<bv16>>, h: bv16, d: seq<bv8>) returns (r: bv16)
    requires IsTable(t) && |d| == 8
    ensures Word(r) == Checksum(Word(h), d)
  {
    hide Table, Checksum, Look, Bulk, Xor, TopByte, LowByte;
    var high, low := (h >> 8) as bv8, (h & 0xFF) as bv8;
    PartsAre(h);
    var x7, x6, x5, x4 := Look(t, 7, d[0] ^ high), Look(t, 6, d[1] ^ low), Look(t, 5, d[2]), Look(t, 4, d[3]);
    var x3, x2, x1, x0 := Look(t, 3, d[4]), Look(t, 2, d[5]), Look(t, 1, d[6]), Look(t, 0, d[7]);
    LookIs(t, 7, d[0] ^ high);
    LookIs(t, 6, d[1] ^ low);
    LookIs(t, 5, d[2]);
    LookIs(t, 4, d[3]);
    LookIs(t, 3, d[4]);
    LookIs(t, 2, d[5]);
    LookIs(t, 1, d[6]);
    LookIs(t, 0, d[7]);
    BulkIsEightBytes(Word(h), d);
    BulkIs(Word(h), d, [Word(x0), Word(x1), Word(x2), Word(x3), Word(x4), Word(x5), Word(x6), Word(x7)]);
    r := Collect(x7, x6);
    r := Collect(r, x5);
    r := Collect(r, x4);
    r := Collect(r, x3);
    r := Collect(r, x2);
    r := Collect(r, x1);
    r := Collect(r, x0);
  }

  lemma {:induction false} ChecksumInParts(h: Word, a: seq<bv8>, b: seq<bv8>)
    ensures Checksum(h, a + b) == Checksum(Checksum(h, a), b)
    decreases |a|
  {
    hide FirstBits;
    if a == [] {
      assert a + b == b;
    } else {
      assert (a + b)[1..] == a[1..] + b;
      ChecksumInParts(FirstBits(h, a[0], 8), a[1..], b);
    }
  }

  /** Bytes one by one until their number is divisible by eight, then eight at a time: the checksum of all of them. */
  method Checksum16(t: seq<seq<bv16>>, current: bv16, data: seq<bv8>) returns (h: bv16)
    requires IsTable(t)
    ensures Word(h) == Checksum(Word(current), data)
  {
    hide IsTable, FirstBits;
    h := current;
    var at := 0;
    while (|data| - at) % 8 != 0
      invariant 0 <= at <= |data|
      invariant Word(h) == Checksum(Word(current), data[..at])
    {
      ChecksumInParts(Word(current), data[..at], [data[at]]);
      assert data[..at] + [data[at]] == data[..at + 1];
      assert Checksum(Word(h), [data[at]]) == FirstBits(Word(h), data[at], 8);
      h := OneByte(t, h, data[at]);
      at := at + 1;
    }
    var n := (|data| - at) / 8;
    while n > 0
      invariant 0 <= at <= |data| && |data| - at == 8 * n
      invariant Word(h) == Checksum(Word(current), data[..at])
    {
      ChecksumInParts(Word(current), data[..at], data[at..at + 8]);
      assert data[..at] + data[at..at + 8] == data[..at + 8];
      h := EightAtOnce(t, h, data[at..at + 8]);
      at := at + 8;
      n := n - 1;
    }
    assert data[..at] == data;
  }

  method ShiftOnce(x: bv16) returns (r: bv16)
    ensures Word(r) == Shifted(Word(x))
  {
    r := (x << 1) ^ (if x & 0x8000 != 0 then 0x1021 else 0);
  }

  /** The entry for a byte in the first table: eight shifts. */
  method FirstEntry(i: nat) returns (x: bv16)
    requires i < 256
    ensures Word(x) == Table(0, i as bv8)
  {
    hide Shifted;
    x := (i as bv16) << 8;
    Widened(i);
    ghost var start := Word(x);
    var j := 0;
    while j < 8
      invariant 0 <= j <= 8
      invariant Shifts(Word(x), 8 - j) == Shifts(start, 8)
    {
      x := ShiftOnce(x);
      j := j + 1;
    }
  }

  lemma Widened(i: nat)
    requires i < 256
    ensures Word((i as bv16) << 8) == High(i as bv8)
  {
  }

  predicate RowIs(row: seq<bv16>, j: nat) {
    |row| == 256 && forall i :: 0 <= i < 256 ==> Word(row[i]) == Table(j, i as bv8)
  }

  lemma NextEntry(row: seq<bv16>, c: bv16, j: nat, i: nat)
    requires RowIs(row, 0) && i < 256 && Word(c) == Table(j, i as bv8)
    ensures Word(row[((c >> 8) as bv8) as int] ^ (c << 8)) == Table(j + 1, i as bv8)
  {
    hide Xor, High, Raised, TopByte, Shifts, Shifted;
    var top := (c >> 8) as bv8;
    PartsAre(c);
    RoundTrip(top);
    XorIs(row[top as int], c << 8);
    assert Table(0, top) == Shifts(High(top), 8);
  }

  ghost predicate ColumnIs(tab: array2<bv16>, n: nat, i: nat)
    requires tab.Length0 == 8 && tab.Length1 == 256 && n <= 8 && i < 256
    reads tab
  {
    forall m :: 0 <= m < n ==> Word(tab[m, i]) == Table(m, i as bv8)
  }

  method StepFrom(tab: array2<bv16>, c: bv16, ghost j: nat, ghost i: nat, ghost first: seq<bv16>) returns (next: bv16)
    requires tab.Length0 == 8 && tab.Length1 == 256 && i < 256 && RowIs(first, 0)
    requires forall k :: 0 <= k < 256 ==> tab[0, k] == first[k]
    requires Word(c) == Table(j, i as bv8)
    ensures Word(next) == Table(j + 1, i as bv8)
  {
    hide Table;
    var top := (c >> 8) as bv8;
    RoundTrip(top);
    NextEntry(first, c, j, i);
    next := tab[0, top as int] ^ (c << 8);
  }

  /** The entries for one byte in the other tables: each a step from the entry of the table before. */
  method FillColumn(tab: array2<bv16>, i: nat, ghost first: seq<bv16>)
    requires tab.Length0 == 8 && tab.Length1 == 256 && i < 256 && RowIs(first, 0)
    requires forall k :: 0 <= k < 256 ==> tab[0, k] == first[k]
    modifies tab
    ensures ColumnIs(tab, 8, i)
    ensures forall m, k :: 0 <= m < 8 && 0 <= k < 256 && (m == 0 || k != i) ==> tab[m, k] == old(tab[m, k])
  {
    hide Table;
    var c := tab[0, i];
    var j := 1;
    while j < 8
      invariant 1 <= j <= 8 && Word(c) == Table(j - 1, i as bv8) && ColumnIs(tab, j, i)
      invariant forall m, k :: 0 <= m < 8 && 0 <= k < 256 && (m == 0 || k != i) ==> tab[m, k] == old(tab[m, k])
    {
      c := StepFrom(tab, c, j - 1, i, first);
      tab[j, i] := c;
      j := j + 1;
    }
  }

  /** The table generator: eight shifts for the first table, and for the others a step from the entry of the table before. */
  method GenerateTable() returns (t: seq<seq<bv16>>)
    ensures IsTable(t) && t[0][1] == 0x1021
  {
    hide Table;
    FirstPower();
    var tab := new bv16[8, 256];
    var i := 0;
    while i < 256
      invariant 0 <= i <= 256
      invariant forall k :: 0 <= k < i ==> Word(tab[0, k]) == Table(0, k as bv8)
    {
      tab[0, i] := FirstEntry(i);
      i := i + 1;
    }
    ghost var first := seq(256, k requires 0 <= k < 256 reads tab => tab[0, k]);
    i := 0;
    while i < 256
      invariant 0 <= i <= 256
      invariant RowIs(first, 0) && forall k :: 0 <= k < 256 ==> tab[0, k] == first[k]
      invariant forall j, k :: 0 <= j < 8 && 0 <= k < i ==> Word(tab[j, k]) == Table(j, k as bv8)
    {
      FillColumn(tab, i, first);
      assert ColumnIs(tab, 8, i);
      i := i + 1;
    }
    t := seq(8, j requires 0 <= j < 8 reads tab => seq(256, k requires 0 <= k < 256 reads tab => tab[j, k]));
    assert Word(t[0][1]) == Table(0, 1 as bv8);
  }
}
