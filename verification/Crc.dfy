/**
  The checksum of bootloader/utility/CRC.c, CRC-16-CCITT: the loop over the table is division of the
  message polynomial by x^16 + x^12 + x^5 + 1, and what follows from that for detecting errors.
 */
module Crc {

  // ---------- the code ----------

  /** crc16ccitt_table, in rows of sixteen. */
  const ROW_0: seq<bv16> := [
    0x0000, 0x1021, 0x2042, 0x3063, 0x4084, 0x50a5, 0x60c6, 0x70e7,
    0x8108, 0x9129, 0xa14a, 0xb16b, 0xc18c, 0xd1ad, 0xe1ce, 0xf1ef]
  const ROW_1: seq<bv16> := [
    0x1231, 0x0210, 0x3273, 0x2252, 0x52b5, 0x4294, 0x72f7, 0x62d6,
    0x9339, 0x8318, 0xb37b, 0xa35a, 0xd3bd, 0xc39c, 0xf3ff, 0xe3de]
  const ROW_2: seq<bv16> := [
    0x2462, 0x3443, 0x0420, 0x1401, 0x64e6, 0x74c7, 0x44a4, 0x5485,
    0xa56a, 0xb54b, 0x8528, 0x9509, 0xe5ee, 0xf5cf, 0xc5ac, 0xd58d]
  const ROW_3: seq<bv16> := [
    0x3653, 0x2672, 0x1611, 0x0630, 0x76d7, 0x66f6, 0x5695, 0x46b4,
    0xb75b, 0xa77a, 0x9719, 0x8738, 0xf7df, 0xe7fe, 0xd79d, 0xc7bc]
  const ROW_4: seq<bv16> := [
    0x48c4, 0x58e5, 0x6886, 0x78a7, 0x0840, 0x1861, 0x2802, 0x3823,
    0xc9cc, 0xd9ed, 0xe98e, 0xf9af, 0x8948, 0x9969, 0xa90a, 0xb92b]
  const ROW_5: seq<bv16> := [
    0x5af5, 0x4ad4, 0x7ab7, 0x6a96, 0x1a71, 0x0a50, 0x3a33, 0x2a12,
    0xdbfd, 0xcbdc, 0xfbbf, 0xeb9e, 0x9b79, 0x8b58, 0xbb3b, 0xab1a]
  const ROW_6: seq<bv16> := [
    0x6ca6, 0x7c87, 0x4ce4, 0x5cc5, 0x2c22, 0x3c03, 0x0c60, 0x1c41,
    0xedae, 0xfd8f, 0xcdec, 0xddcd, 0xad2a, 0xbd0b, 0x8d68, 0x9d49]
  const ROW_7: seq<bv16> := [
    0x7e97, 0x6eb6, 0x5ed5, 0x4ef4, 0x3e13, 0x2e32, 0x1e51, 0x0e70,
    0xff9f, 0xefbe, 0xdfdd, 0xcffc, 0xbf1b, 0xaf3a, 0x9f59, 0x8f78]
  const ROW_8: seq<bv16> := [
    0x9188, 0x81a9, 0xb1ca, 0xa1eb, 0xd10c, 0xc12d, 0xf14e, 0xe16f,
    0x1080, 0x00a1, 0x30c2, 0x20e3, 0x5004, 0x4025, 0x7046, 0x6067]
  const ROW_9: seq<bv16> := [
    0x83b9, 0x9398, 0xa3fb, 0xb3da, 0xc33d, 0xd31c, 0xe37f, 0xf35e,
    0x02b1, 0x1290, 0x22f3, 0x32d2, 0x4235, 0x5214, 0x6277, 0x7256]
  const ROW_A: seq<bv16> := [
    0xb5ea, 0xa5cb, 0x95a8, 0x8589, 0xf56e, 0xe54f, 0xd52c, 0xc50d,
    0x34e2, 0x24c3, 0x14a0, 0x0481, 0x7466, 0x6447, 0x5424, 0x4405]
  const ROW_B: seq<bv16> := [
    0xa7db, 0xb7fa, 0x8799, 0x97b8, 0xe75f, 0xf77e, 0xc71d, 0xd73c,
    0x26d3, 0x36f2, 0x0691, 0x16b0, 0x6657, 0x7676, 0x4615, 0x5634]
  const ROW_C: seq<bv16> := [
    0xd94c, 0xc96d, 0xf90e, 0xe92f, 0x99c8, 0x89e9, 0xb98a, 0xa9ab,
    0x5844, 0x4865, 0x7806, 0x6827, 0x18c0, 0x08e1, 0x3882, 0x28a3]
  const ROW_D: seq<bv16> := [
    0xcb7d, 0xdb5c, 0xeb3f, 0xfb1e, 0x8bf9, 0x9bd8, 0xabbb, 0xbb9a,
    0x4a75, 0x5a54, 0x6a37, 0x7a16, 0x0af1, 0x1ad0, 0x2ab3, 0x3a92]
  const ROW_E: seq<bv16> := [
    0xfd2e, 0xed0f, 0xdd6c, 0xcd4d, 0xbdaa, 0xad8b, 0x9de8, 0x8dc9,
    0x7c26, 0x6c07, 0x5c64, 0x4c45, 0x3ca2, 0x2c83, 0x1ce0, 0x0cc1]
  const ROW_F: seq<bv16> := [
    0xef1f, 0xff3e, 0xcf5d, 0xdf7c, 0xaf9b, 0xbfba, 0x8fd9, 0x9ff8,
    0x6e17, 0x7e36, 0x4e55, 0x5e74, 0x2e93, 0x3eb2, 0x0ed1, 0x1ef0]
  const ROWS: seq<seq<bv16>> := [
    ROW_0, ROW_1, ROW_2, ROW_3, ROW_4, ROW_5, ROW_6, ROW_7,
    ROW_8, ROW_9, ROW_A, ROW_B, ROW_C, ROW_D, ROW_E, ROW_F]

  function Table(index: bv8): bv16 {
    RowSize(index >> 4);
    ROWS[(index >> 4) as int][(index & 15) as int]
  }

  lemma RowSize(high: bv8)
    requires high < 16
    ensures |ROWS| == 16 && |ROWS[high as int]| == 16
  {
  }

  /** One iteration of the loop of crc16ccitt. */
  function Step(crc: bv16, byte: bv8): bv16 {
    Table(Index(crc, byte)) ^ ByteShift(crc)
  }

  /** Where the loop looks in the table. */
  function Index(crc: bv16, byte: bv8): bv8 {
    ((crc >> 8) as bv8) ^ byte
  }

  function ByteShift(crc: bv16): bv16 {
    crc << 8
  }

  /** The register after a whole message. */
  function Crc16(start: bv16, message: seq<bv8>): bv16
    decreases |message|
  {
    if message == [] then start else Crc16(Step(start, message[0]), message[1..])
  }

  // ---------- division of polynomials over the field of two elements ----------

  /** x^16 + x^12 + x^5 + 1, the coefficient of the highest power first. */
  const DIVISOR: seq<bool> := [
    true, false, false, false, true, false, false, false, false, false, false,
    true, false, false, false, false, true]

  /** The difference of polynomial p and the divisor times the power that makes their degrees equal,
      without the leading coefficient. */
  function Subtract(p: seq<bool>): (r: seq<bool>)
    requires |p| > 16
    ensures |r| == |p| - 1
  {
    seq(|p| - 1, i requires 0 <= i < |p| - 1 => p[i+1] != (i < 16 && DIVISOR[i+1]))
  }

  /** The remainder of schoolbook long division. */
  function Remainder(p: seq<bool>): (r: seq<bool>)
    requires |p| >= 16
    ensures |r| == 16
    decreases |p|
  {
    if |p| == 16 then p else if p[0] then Remainder(Subtract(p)) else Remainder(p[1..])
  }

  /** The coefficient of x^15 of a register as a polynomial. */
  predicate Top(s: bv16) {
    s & 0x8000 != 0
  }

  /** The polynomial times x, but for x^16. */
  function Double(s: bv16): bv16 {
    s << 1
  }

  function Plus(s: bv16, t: bv16): bv16 {
    s ^ t
  }

  /** The first n coefficients of a register as a polynomial, that of x^15 first. */
  function Coefficients(s: bv16, n: nat): (r: seq<bool>)
    ensures |r| == n
    decreases n
  {
    if n == 0 then [] else [Top(s)] + Coefficients(Double(s), n - 1)
  }

  /** The bits of a byte, the most significant one first. */
  function ByteBits(b: bv8): (r: seq<bool>)
    ensures |r| == 8
  {
    Coefficients(Raised(b), 8)
  }

  /** A byte as the high byte of a register. */
  function Raised(b: bv8): bv16 {
    (b as bv16) << 8
  }

  function Bits(message: seq<bv8>): (r: seq<bool>)
    ensures |r| == 8 * |message|
  {
    if message == [] then [] else ByteBits(message[0]) + Bits(message[1..])
  }

  /** What is divided: the message times x^16, with the start value added to its first 16 bits. */
  function Dividend(start: bv16, bits: seq<bool>): (r: seq<bool>)
    ensures |r| == |bits| + 16
  {
    seq(|bits| + 16, i requires 0 <= i < |bits| + 16 =>
      (i < 16 && Coefficients(start, 16)[i]) != (i < |bits| && bits[i]))
  }

  // ---------- one bit at a time ----------

  /** One step of the division, on a register. */
  function Feed(s: bv16, bit: bool): bv16 {
    if Top(s) != bit then Plus(Double(s), 0x1021) else Double(s)
  }

  function FeedAll(s: bv16, bits: seq<bool>): bv16
    decreases |bits|
  {
    if bits == [] then s else FeedAll(Feed(s, bits[0]), bits[1..])
  }

  function Eight(s: bv16): bv16 {
    Feed(Feed(Feed(Feed(Feed(Feed(Feed(Feed(s, false), false), false), false), false), false), false), false)
  }

  lemma TopOfSum(s: bv16, t: bv16)
    ensures Top(Plus(s, t)) == (Top(s) != Top(t))
  {
  }

  lemma DoubleOfSum(s: bv16, t: bv16)
    ensures Double(Plus(s, t)) == Plus(Double(s), Double(t))
  {
  }

  lemma SumFacts(s: bv16, t: bv16)
    ensures Top(Plus(s, t)) == (Top(s) != Top(t))
    ensures Double(Plus(s, t)) == Plus(Double(s), Double(t))
  {
    hide Top, Double, Plus;
    TopOfSum(s, t);
    DoubleOfSum(s, t);
  }

  /** The sum of two polynomials. */
  function Sum(p: seq<bool>, q: seq<bool>): (r: seq<bool>)
    requires |p| == |q|
    ensures |r| == |p|
    decreases |p|
  {
    if p == [] then [] else [p[0] != q[0]] + Sum(p[1..], q[1..])
  }

  lemma {:induction false} SumAt(p: seq<bool>, q: seq<bool>, i: nat)
    requires i < |p| == |q|
    ensures Sum(p, q)[i] == (p[i] != q[i])
    decreases |p|
  {
    if i > 0 { SumAt(p[1..], q[1..], i - 1); }
  }

  /** Addition of registers is addition of polynomials. */
  lemma {:induction false} CoefficientsOfSum(s: bv16, t: bv16, n: nat)
    ensures Coefficients(Plus(s, t), n) == Sum(Coefficients(s, n), Coefficients(t, n))
    decreases n
  {
    hide Top, Double, Plus;
    if n > 0 {
      SumFacts(s, t);
      CoefficientsOfSum(Double(s), Double(t), n - 1);
      assert Coefficients(s, n)[1..] == Coefficients(Double(s), n - 1);
      assert Coefficients(t, n)[1..] == Coefficients(Double(t), n - 1);
    }
  }

  function Doubled(s: bv16, n: nat): bv16
    decreases n
  {
    if n == 0 then s else Doubled(Double(s), n - 1)
  }

  lemma {:induction false} LastCoefficient(s: bv16, n: nat)
    ensures Coefficients(s, n + 1) == Coefficients(s, n) + [Top(Doubled(s, n))]
    decreases n
  {
    hide Top, Double;
    if n > 0 { LastCoefficient(Double(s), n - 1); }
  }

  lemma TwoCoefficients(s: bv16, n: nat)
    requires n >= 2
    ensures Coefficients(s, n) == [Top(s), Top(Double(s))] + Coefficients(Double(Double(s)), n - 2)
  {
    hide Top, Double;
    assert Coefficients(Double(s), n - 1) == [Top(Double(s))] + Coefficients(Double(Double(s)), n - 2);
  }

  lemma DivisorCoefficients()
    ensures Coefficients(0x1021, 16) == DIVISOR[1..]
  {
    hide Coefficients;
    TwoCoefficients(0x1021, 16);
    TwoCoefficients(0x4084, 14);
    TwoCoefficients(0x0210, 12);
    TwoCoefficients(0x0840, 10);
    TwoCoefficients(0x2100, 8);
    TwoCoefficients(0x8400, 6);
    TwoCoefficients(0x1000, 4);
    TwoCoefficients(0x4000, 2);
  }

  lemma FourDoublings(s: bv16, n: nat)
    requires n >= 4
    ensures Doubled(s, n) == Doubled(s << 4, n - 4)
  {
    assert Doubled(s, n) == Doubled(Double(Double(s)), n - 2) == Doubled(Double(Double(Double(Double(s)))), n - 4);
  }

  lemma SixteenDoublings(s: bv16)
    ensures Doubled(s, 16) == 0
  {
    FourDoublings(s, 16);
    FourDoublings(s << 4, 12);
    FourDoublings(s << 4 << 4, 8);
    FourDoublings(s << 4 << 4 << 4, 4);
    assert s << 4 << 4 << 4 << 4 == 0;
  }

  lemma CoefficientsOfDouble(s: bv16)
    ensures Coefficients(Double(s), 16) == Coefficients(s, 16)[1..] + [false]
  {
    LastCoefficient(Double(s), 15);
    SixteenDoublings(s);
    assert Doubled(s, 16) == Doubled(Double(s), 15);
    assert !Top(0);
  }

  lemma CoefficientAfterFeed(s: bv16, bit: bool, i: nat)
    requires i < 16
    ensures Coefficients(Feed(s, bit), 16)[i] ==
            ((i < 15 && Coefficients(s, 16)[i+1]) != (Coefficients(s, 16)[0] != bit && DIVISOR[i+1]))
  {
    CoefficientsOfDouble(s);
    CoefficientsOfSum(Double(s), 0x1021, 16);
    DivisorCoefficients();
    assert Coefficients(s, 16)[0] == Top(s);
    hide Top, Double, Plus, Coefficients, Sum;
    SumAt(Coefficients(Double(s), 16), Coefficients(0x1021, 16), i);
  }

  lemma FeedDivides(s: bv16, bits: seq<bool>)
    requires bits != []
    ensures Remainder(Dividend(s, bits)) == Remainder(Dividend(Feed(s, bits[0]), bits[1..]))
  {
    hide Coefficients, Feed;
    var p, q := Dividend(s, bits), Dividend(Feed(s, bits[0]), bits[1..]);
    forall i | 0 <= i < |q|
      ensures q[i] == (p[i+1] != (p[0] && i < 16 && DIVISOR[i+1]))
    {
      assert i < |bits| - 1 ==> bits[1..][i] == bits[i+1];
      if i < 16 { CoefficientAfterFeed(s, bits[0], i); }
    }
    if p[0] {
      assert Subtract(p) == q;
    } else {
      assert p[1..] == q;
    }
  }

  /** Feeding bits to the register is dividing. */
  lemma {:induction false} FeedingDivides(s: bv16, bits: seq<bool>)
    ensures Coefficients(FeedAll(s, bits), 16) == Remainder(Dividend(s, bits))
    decreases |bits|
  {
    if bits == [] {
      assert Dividend(s, bits) == Coefficients(s, 16);
    } else {
      FeedDivides(s, bits);
      FeedingDivides(Feed(s, bits[0]), bits[1..]);
    }
  }

  // ---------- the table ----------

  function Row(first: bv16): seq<bv16> {
    [Eight(first), Eight(first | 0x100), Eight(first | 0x200), Eight(first | 0x300),
     Eight(first | 0x400), Eight(first | 0x500), Eight(first | 0x600), Eight(first | 0x700),
     Eight(first | 0x800), Eight(first | 0x900), Eight(first | 0xa00), Eight(first | 0xb00),
     Eight(first | 0xc00), Eight(first | 0xd00), Eight(first | 0xe00), Eight(first | 0xf00)]
  }

  lemma Row0()
    ensures ROW_0 == Row(0x0000)
  {
  }

  lemma Row1()
    ensures ROW_1 == Row(0x1000)
  {
  }

  lemma Row2()
    ensures ROW_2 == Row(0x2000)
  {
  }

  lemma Row3()
    ensures ROW_3 == Row(0x3000)
  {
  }

  lemma Row4()
    ensures ROW_4 == Row(0x4000)
  {
  }

  lemma Row5()
    ensures ROW_5 == Row(0x5000)
  {
  }

  lemma Row6()
    ensures ROW_6 == Row(0x6000)
  {
  }

  lemma Row7()
    ensures ROW_7 == Row(0x7000)
  {
  }

  lemma Row8()
    ensures ROW_8 == Row(0x8000)
  {
  }

  lemma Row9()
    ensures ROW_9 == Row(0x9000)
  {
  }

  lemma RowA()
    ensures ROW_A == Row(0xa000)
  {
  }

  lemma RowB()
    ensures ROW_B == Row(0xb000)
  {
  }

  lemma RowC()
    ensures ROW_C == Row(0xc000)
  {
  }

  lemma RowD()
    ensures ROW_D == Row(0xd000)
  {
  }

  lemma RowE()
    ensures ROW_E == Row(0xe000)
  {
  }

  lemma RowF()
    ensures ROW_F == Row(0xf000)
  {
  }


  lemma RowEntry(first: bv16, low: bv8)
    requires low < 16
    ensures Row(first)[low as int] == Eight(first | ((low as bv16) << 8))
  {
    hide Eight;
    if low == 0 {} else if low == 1 {} else if low == 2 {} else if low == 3 {}
    else if low == 4 {} else if low == 5 {} else if low == 6 {} else if low == 7 {}
    else if low == 8 {} else if low == 9 {} else if low == 10 {} else if low == 11 {}
    else if low == 12 {} else if low == 13 {} else if low == 14 {} else {}
  }

  lemma TableRow(high: bv8)
    requires high < 16
    ensures |ROWS| == 16 && ROWS[high as int] == Row((high as bv16) << 12)
  {
    hide Eight, Row;
    if high == 0 { Row0(); } else if high == 1 { Row1(); } else if high == 2 { Row2(); } else if high == 3 { Row3(); }
    else if high == 4 { Row4(); } else if high == 5 { Row5(); }
    else if high == 6 { Row6(); } else if high == 7 { Row7(); }
    else if high == 8 { Row8(); } else if high == 9 { Row9(); }
    else if high == 10 { RowA(); } else if high == 11 { RowB(); }
    else if high == 12 { RowC(); } else if high == 13 { RowD(); } else if high == 14 { RowE(); } else { RowF(); }
  }

  lemma Nibbles(b: bv8)
    ensures b >> 4 < 16 && b & 15 < 16
    ensures (((b >> 4) as bv16) << 12) | (((b & 15) as bv16) << 8) == (b as bv16) << 8
  {
  }

  /** Every entry of the table is its index times x^16, reduced: eight steps from the index as high byte. */
  lemma TableEntry(b: bv8)
    ensures Table(b) == Eight(Raised(b))
  {
    hide Eight, Row;
    Nibbles(b);
    TableRow(b >> 4);
    RowEntry(((b >> 4) as bv16) << 12, b & 15);
  }

  // ---------- the loop divides ----------

  function Zeros(n: nat): (r: seq<bool>)
    ensures |r| == n
  {
    if n == 0 then [] else [false] + Zeros(n - 1)
  }

  lemma FeedOfSum(s: bv16, a: bool, t: bv16, b: bool)
    ensures Feed(Plus(s, t), a != b) == Plus(Feed(s, a), Feed(t, b))
  {
    hide Top, Double, Plus;
    SumFacts(s, t);
    var x, y, c := Double(s), Double(t), 0x1021;
    PlusMoves(x, y, c);
    PlusAssociates(x, y, c);
    PlusAssociates(Plus(x, c), y, c);
    PlusCancels(Plus(x, y), c);
  }

  lemma PlusMoves(s: bv16, t: bv16, c: bv16)
    ensures Plus(Plus(s, c), t) == Plus(Plus(s, t), c)
  {
  }

  lemma PlusAssociates(s: bv16, t: bv16, c: bv16)
    ensures Plus(s, Plus(t, c)) == Plus(Plus(s, t), c)
  {
  }

  lemma PlusCancels(s: bv16, c: bv16)
    ensures Plus(Plus(s, c), c) == s
  {
  }

  lemma PlusSelf(s: bv16)
    ensures Plus(s, s) == 0 && Plus(s, 0) == s == Plus(0, s)
  {
  }

  /** Feeding is linear. */
  lemma {:induction false} FeedAllOfSum(s: bv16, a: seq<bool>, t: bv16, b: seq<bool>)
    requires |a| == |b|
    ensures FeedAll(Plus(s, t), Sum(a, b)) == Plus(FeedAll(s, a), FeedAll(t, b))
    decreases |a|
  {
    hide Top, Double, Plus, Feed;
    if a != [] {
      FeedOfSum(s, a[0], t, b[0]);
      FeedAllOfSum(Feed(s, a[0]), a[1..], Feed(t, b[0]), b[1..]);
    }
  }

  /** A register fed with its own coefficients only shifts. */
  lemma {:induction false} FeedOwn(s: bv16, n: nat)
    ensures FeedAll(s, Coefficients(s, n)) == Doubled(s, n)
    decreases n
  {
    hide Top, Double, Plus;
    if n > 0 {
      assert Coefficients(s, n)[1..] == Coefficients(Double(s), n - 1);
      FeedOwn(Double(s), n - 1);
    }
  }

  lemma {:induction false} SumWithZeros(p: seq<bool>, z: seq<bool>)
    requires |z| == |p| && forall i :: 0 <= i < |z| ==> !z[i]
    ensures Sum(p, z) == p == Sum(z, p)
    decreases |p|
  {
    if p != [] { SumWithZeros(p[1..], z[1..]); }
  }

  lemma {:induction false} FeedAllAppend(s: bv16, a: seq<bool>, b: seq<bool>)
    ensures FeedAll(s, a + b) == FeedAll(FeedAll(s, a), b)
    decreases |a|
  {
    hide Feed;
    if a == [] {
      assert a + b == b;
    } else {
      assert (a + b)[0] == a[0] && (a + b)[1..] == a[1..] + b;
      FeedAllAppend(Feed(s, a[0]), a[1..], b);
    }
  }

  lemma EightIsFeedAll(s: bv16)
    ensures FeedAll(s, Zeros(8)) == Eight(s)
  {
    hide Feed;
    var z := [false, false, false, false, false, false, false, false];
    assert Zeros(8) == z;
    assert z[1..][1..][1..][1..][1..][1..][1..][1..] == [];
  }

  function Ones(n: nat): seq<bool> {
    if n == 0 then [] else [true] + Ones(n - 1)
  }

  function Common(s: bv16, mask: bv16): bv16 {
    s & mask
  }

  lemma MaskedTop(s: bv16, mask: bv16)
    requires Common(s, mask) == 0 && Top(mask)
    ensures !Top(s) && Common(Double(s), Double(mask)) == 0
  {
  }

  /** Where a mask has its n first coefficients, a register that it does not touch has none. */
  lemma {:induction false} MaskedCoefficients(s: bv16, mask: bv16, n: nat)
    requires Common(s, mask) == 0 && Coefficients(mask, n) == Ones(n)
    ensures Coefficients(s, n) == Zeros(n)
    decreases n
  {
    if n > 0 {
      assert Coefficients(mask, n)[0] == Top(mask);
      assert Coefficients(mask, n)[1..] == Coefficients(Double(mask), n - 1);
      assert Ones(n)[1..] == Ones(n - 1);
      MaskedTop(s, mask);
      hide Top, Double, Common;
      MaskedCoefficients(Double(s), Double(mask), n - 1);
    }
  }

  lemma HighMask()
    ensures Coefficients(0xff00, 8) == Ones(8)
  {
    assert Coefficients(0xf000, 4) == Ones(4);
    assert Coefficients(0xff00, 8) == [true, true, true, true] + Coefficients(0xf000, 4);
  }

  lemma EightDoublings(s: bv16)
    ensures Doubled(s, 8) == ByteShift(s)
  {
    FourDoublings(s, 8);
    FourDoublings(s << 4, 4);
    assert s << 4 << 4 == s << 8;
  }

  /** A register whose high byte is the byte fed to it only shifts. */
  lemma FeedHighByte(byte: bv8, low: bv16)
    requires Common(low, 0xff00) == 0
    ensures var y := Plus(Raised(byte), low);
            Coefficients(y, 8) == ByteBits(byte) && FeedAll(y, ByteBits(byte)) == ByteShift(y)
  {
    hide Coefficients, FeedAll, Doubled, Sum, Plus, Raised, Common, ByteShift;
    CoefficientsOfSum(Raised(byte), low, 8);
    HighMask();
    MaskedCoefficients(low, 0xff00, 8);
    ZerosAreFalse(8);
    SumWithZeros(ByteBits(byte), Zeros(8));
    FeedOwn(Plus(Raised(byte), low), 8);
    EightDoublings(Plus(Raised(byte), low));
  }

  lemma {:induction false} ZerosAreFalse(n: nat)
    ensures forall i :: 0 <= i < n ==> !Zeros(n)[i]
  {
    if n > 0 { ZerosAreFalse(n - 1); }
  }

  lemma SplitRegister(crc: bv16, byte: bv8) returns (low: bv16)
    ensures Common(low, 0xff00) == 0
    ensures var y := Plus(Raised(byte), low); crc == Plus(Raised(Index(crc, byte)), y) && ByteShift(y) == ByteShift(crc)
  {
    hide Plus, Raised, Index, ByteShift;
    low := crc & 0xff;
    HighByteCancels(crc, byte, low);
    HighByteShiftsOut(crc, byte, low);
  }

  lemma HighByteCancels(crc: bv16, byte: bv8, low: bv16)
    requires low == crc & 0xff
    ensures crc == Plus(Raised(Index(crc, byte)), Plus(Raised(byte), low))
  {
  }

  lemma HighByteShiftsOut(crc: bv16, byte: bv8, low: bv16)
    requires low == crc & 0xff
    ensures ByteShift(Plus(Raised(byte), low)) == ByteShift(crc)
  {
  }

  lemma StepIsSum(crc: bv16, byte: bv8)
    ensures Step(crc, byte) == Plus(Table(Index(crc, byte)), ByteShift(crc))
  {
    hide Table, Index;
  }

  /** An iteration of the loop is eight steps of the division. */
  lemma StepFeeds(crc: bv16, byte: bv8)
    ensures Step(crc, byte) == FeedAll(crc, ByteBits(byte))
  {
    hide Table, Index, Eight, FeedAll, ByteBits, Raised, ByteShift, Plus, Common, Sum, Step;
    var low := SplitRegister(crc, byte);
    StepIsSum(crc, byte);
    var x, y := Raised(Index(crc, byte)), Plus(Raised(byte), low);
    TableEntry(Index(crc, byte));
    EightIsFeedAll(x);
    FeedHighByte(byte, low);
    ZerosAreFalse(8);
    SumWithZeros(ByteBits(byte), Zeros(8));
    FeedAllOfSum(x, Zeros(8), y, ByteBits(byte));
  }

  /** The table-driven checksum is bit-by-bit division, for every message and start value. */
  lemma {:induction false} ChecksumFeeds(start: bv16, message: seq<bv8>)
    ensures Crc16(start, message) == FeedAll(start, Bits(message))
    decreases |message|
  {
    hide Step, FeedAll, ByteBits;
    if message == [] {
      FeedNothing(start);
    } else {
      StepFeeds(start, message[0]);
      ChecksumFeeds(Step(start, message[0]), message[1..]);
      FeedAllAppend(start, ByteBits(message[0]), Bits(message[1..]));
    }
  }

  lemma FeedNothing(s: bv16)
    ensures FeedAll(s, []) == s
  {
  }

  lemma ChecksumIsRemainder(start: bv16, message: seq<bv8>)
    ensures Coefficients(Crc16(start, message), 16) == Remainder(Dividend(start, Bits(message)))
  {
    ChecksumFeeds(start, message);
    FeedingDivides(start, Bits(message));
  }

  /** The body of the loop. */
  method Advance(startingCrc: bv16, data: bv8) returns (crc: bv16)
    ensures crc == Step(startingCrc, data)
  {
    var tableIndex := ((startingCrc >> 8) as bv8) ^ data;
    crc := Table(tableIndex) ^ (startingCrc << 8);
  }

  /** crc16ccitt. */
  method Crc16Ccitt(input: array<bv8>, length: nat, startingCrc: bv16) returns (crc: bv16)
    requires length <= input.Length
    ensures crc == Crc16(startingCrc, input[..length])
    ensures Coefficients(crc, 16) == Remainder(Dividend(startingCrc, Bits(input[..length])))
  {
    hide Step, Coefficients, Remainder, Dividend;
    crc := startingCrc;
    var left, data := length, 0;
    while left > 0
      invariant left + data == length
      invariant Crc16(crc, input[data..length]) == Crc16(startingCrc, input[..length])
    {
      left := left - 1;
      assert input[data..length][1..] == input[data+1..length];
      crc := Advance(crc, input[data]);
      data := data + 1;
    }
    ChecksumIsRemainder(startingCrc, input[..length]);
  }

  /** crc16ccitt_default_start_crc. */
  method Crc16CcittDefaultStart(input: array<bv8>, length: nat) returns (crc: bv16)
    requires length <= input.Length
    ensures Coefficients(crc, 16) == Remainder(Dividend(0xffff, Bits(input[..length])))
  {
    crc := Crc16Ccitt(input, length, 0xffff);
  }

  // ---------- what the checksum is good for ----------

  /** The checksum can be computed piece by piece. */
  lemma {:induction false} ChecksumStreams(start: bv16, a: seq<bv8>, b: seq<bv8>)
    ensures Crc16(start, a + b) == Crc16(Crc16(start, a), b)
    decreases |a|
  {
    hide Step;
    if a == [] {
      assert a + b == b;
    } else {
      assert (a + b)[0] == a[0] && (a + b)[1..] == a[1..] + b;
      ChecksumStreams(Step(start, a[0]), a[1..], b);
    }
  }

  lemma FeedToZero(s: bv16, bit: bool)
    requires Doubled(Feed(s, bit), 15) == 0
    ensures Feed(s, bit) == Double(s) && Top(s) == bit
  {
    var u := Feed(s, bit);
    FourDoublings(u, 15);
    FourDoublings(u << 4, 11);
    FourDoublings(u << 4 << 4, 7);
    assert Doubled(u << 4 << 4 << 4, 3) == u << 4 << 4 << 4 << 1 << 1 << 1;
    assert u & 1 == 0;
  }

  lemma {:induction false} DoubledZero(n: nat)
    ensures Doubled(0, n) == 0
  {
    if n > 0 { assert Double(0) == 0; DoubledZero(n - 1); }
  }

  lemma {:induction false} DoubledMore(s: bv16, n: nat, m: nat)
    requires Doubled(s, n) == 0 && n <= m
    ensures Doubled(s, m) == 0
    decreases n
  {
    if n == 0 { DoubledZero(m); } else { DoubledMore(Double(s), n - 1, m - 1); }
  }

  /** Up to 16 bits bring a register to zero only if they are its own first coefficients. */
  lemma {:induction false} OnlyOwnBitsClear(s: bv16, bits: seq<bool>)
    requires |bits| <= 16 && FeedAll(s, bits) == 0
    ensures Coefficients(s, |bits|) == bits && Doubled(s, |bits|) == 0
    decreases |bits|
  {
    hide Feed, Top, Double;
    if bits != [] {
      OnlyOwnBitsClear(Feed(s, bits[0]), bits[1..]);
      DoubledMore(Feed(s, bits[0]), |bits| - 1, 15);
      FeedToZero(s, bits[0]);
      assert bits == [bits[0]] + bits[1..];
    }
  }

  function HighByte(crc: bv16): bv8 { (crc >> 8) as bv8 }

  function LowByte(crc: bv16): bv8 { (crc & 0xff) as bv8 }

  lemma OwnHighByte(crc: bv16)
    ensures Index(crc, HighByte(crc)) == 0 && Index(ByteShift(crc), LowByte(crc)) == 0
    ensures ByteShift(ByteShift(crc)) == 0 && Table(0) == 0
  {
  }

  lemma OwnBytesClear(crc: bv16)
    ensures Step(Step(crc, HighByte(crc)), LowByte(crc)) == 0
  {
    OwnHighByte(crc);
    PlusSelf(ByteShift(crc));
    PlusSelf(0);
    hide Table, Index, ByteShift, HighByte, LowByte;
  }

  lemma FeedIsInjective(s: bv16, t: bv16, bit: bool)
    requires Feed(s, bit) == Feed(t, bit)
    ensures s == t
  {
    FeedOfSum(s, bit, t, bit);
    PlusSelf(Feed(s, bit));
    OnlyZeroFeedsToZero(Plus(s, t));
    PlusCancels(s, t);
    PlusSelf(t);
    hide Feed, Plus;
  }

  lemma OnlyZeroFeedsToZero(s: bv16)
    requires Feed(s, false) == 0
    ensures s == 0
  {
  }

  /** Different registers stay different. */
  lemma {:induction false} FeedAllIsInjective(s: bv16, t: bv16, bits: seq<bool>)
    requires FeedAll(s, bits) == FeedAll(t, bits)
    ensures s == t
    decreases |bits|
  {
    hide Feed;
    if bits != [] {
      FeedAllIsInjective(Feed(s, bits[0]), Feed(t, bits[0]), bits[1..]);
      FeedIsInjective(s, t, bits[0]);
    }
  }

  lemma {:induction false} ZeroCoefficients(n: nat)
    ensures Coefficients(0, n) == Zeros(n)
  {
    if n > 0 { assert Double(0) == 0 && !Top(0); ZeroCoefficients(n - 1); }
  }

  lemma {:induction false} SumIsZeros(p: seq<bool>, q: seq<bool>)
    requires |p| == |q| && Sum(p, q) == Zeros(|p|)
    ensures p == q
    decreases |p|
  {
    if p != [] {
      assert Sum(p, q)[0] == (p[0] != q[0]) && Sum(p, q)[1..] == Sum(p[1..], q[1..]);
      assert Zeros(|p|)[1..] == Zeros(|p| - 1);
      SumIsZeros(p[1..], q[1..]);
      assert p == [p[0]] + p[1..] && q == [q[0]] + q[1..];
    }
  }

  /** Up to 16 bits in a row: no two strings lead from a register to the same register. */
  lemma ShortStringsDiffer(s: bv16, x: seq<bool>, y: seq<bool>)
    requires |x| == |y| <= 16 && FeedAll(s, x) == FeedAll(s, y)
    ensures x == y
  {
    hide FeedAll, Plus, Coefficients, Sum;
    FeedAllOfSum(s, x, s, y);
    PlusSelf(s);
    PlusSelf(FeedAll(s, x));
    OnlyOwnBitsClear(0, Sum(x, y));
    ZeroCoefficients(|x|);
    SumIsZeros(x, y);
  }

  lemma ByteBitsInjective(a: bv8, b: bv8)
    requires ByteBits(a) == ByteBits(b)
    ensures a == b
  {
    hide Step, ByteBits;
    StepFeeds(0, a);
    StepFeeds(0, b);
    TableInjective(a, b);
  }

  lemma StepFromZero(b: bv8)
    ensures Step(0, b) == Eight(Raised(b))
  {
    hide Step, Plus, Table, Eight, Index, ByteShift, Raised;
    StepIsSum(0, b);
    NothingShifted(b);
    TableEntry(b);
    PlusSelf(Eight(Raised(b)));
  }

  lemma NothingShifted(b: bv8)
    ensures Index(0, b) == b && ByteShift(0) == 0
  {
  }

  lemma TableInjective(a: bv8, b: bv8)
    requires Step(0, a) == Step(0, b)
    ensures a == b
  {
    hide Step;
    StepFromZero(a);
    StepFromZero(b);
    EightIsFeedAll(Raised(a));
    EightIsFeedAll(Raised(b));
    FeedAllIsInjective(Raised(a), Raised(b), Zeros(8));
    hide Eight, FeedAll;
  }

  /** A receiver that runs the checksum over the message and two more bytes gets zero if and only if
      these are the message's own checksum, its high byte first. */
  lemma ResidueIsZeroExactly(start: bv16, message: seq<bv8>, high: bv8, low: bv8)
    ensures var crc := Crc16(start, message);
            Crc16(start, message + [high, low]) == 0 <==> high == HighByte(crc) && low == LowByte(crc)
  {
    hide Step, HighByte, LowByte, Bits, ByteBits;
    var crc := Crc16(start, message);
    var h, l := HighByte(crc), LowByte(crc);
    TwoSteps(start, message, high, low);
    TwoSteps(start, message, h, l);
    OwnBytesClear(crc);
    if Crc16(start, message + [high, low]) == 0 {
      ShortStringsDiffer(crc, Bits([high, low]), Bits([h, l]));
      SameBits([high, low], [h, l]);
    }
  }

  lemma TwoSteps(start: bv16, message: seq<bv8>, high: bv8, low: bv8)
    ensures var crc := Crc16(start, message);
            && Crc16(start, message + [high, low]) == Step(Step(crc, high), low)
            && Step(Step(crc, high), low) == FeedAll(crc, Bits([high, low]))
  {
    hide Step, FeedAll, Bits;
    var crc := Crc16(start, message);
    ChecksumStreams(start, message, [high, low]);
    assert [high, low][1..] == [low] && [low][1..] == [];
    assert Crc16(crc, [high, low]) == Crc16(Step(crc, high), [low]) == Crc16(Step(Step(crc, high), low), []);
    ChecksumFeeds(crc, [high, low]);
  }

  lemma {:induction false} SameBits(m: seq<bv8>, n: seq<bv8>)
    requires |m| == |n| && Bits(m) == Bits(n)
    ensures m == n
    decreases |m|
  {
    hide ByteBits;
    if m != [] {
      assert ByteBits(m[0]) == Bits(m)[..8] && ByteBits(n[0]) == Bits(n)[..8];
      assert Bits(m[1..]) == Bits(m)[8..] && Bits(n[1..]) == Bits(n)[8..];
      ByteBitsInjective(m[0], n[0]);
      SameBits(m[1..], n[1..]);
      assert m == [m[0]] + m[1..] && n == [n[0]] + n[1..];
    }
  }

  /** Every burst of errors of at most 16 bits is detected, wherever it starts. */
  lemma BurstsAreDetected(start: bv16, m: seq<bv8>, n: seq<bv8>, k: nat)
    requires |m| == |n| && m != n
    requires forall i :: 0 <= i < 8 * |m| && !(k <= i < k + 16) ==> Bits(m)[i] == Bits(n)[i]
    ensures Crc16(start, m) != Crc16(start, n)
  {
    hide Crc16, FeedAll, Bits;
    var a, b := Bits(m), Bits(n);
    var from := if k < |a| then k else |a|;
    var to := if k + 16 < |a| then k + 16 else |a|;
    var p, q := a[..from], a[to..];
    assert a == p + a[from..to] + q && b == p + b[from..to] + q;
    ChecksumFeeds(start, m);
    ChecksumFeeds(start, n);
    if Crc16(start, m) == Crc16(start, n) {
      SameAround(start, p, a[from..to], b[from..to], q);
      SameBits(m, n);
      assert false;
    }
  }

  lemma SameAround(s: bv16, p: seq<bool>, x: seq<bool>, y: seq<bool>, q: seq<bool>)
    requires |x| == |y| <= 16 && FeedAll(s, p + x + q) == FeedAll(s, p + y + q)
    ensures x == y
  {
    hide FeedAll;
    var u := FeedAll(s, p);
    FeedAllAppend(s, p + x, q);
    FeedAllAppend(s, p + y, q);
    FeedAllAppend(s, p, x);
    FeedAllAppend(s, p, y);
    FeedAllIsInjective(FeedAll(u, x), FeedAll(u, y), q);
    ShortStringsDiffer(u, x, y);
  }

  lemma {:induction false} BitAt(m: seq<bv8>, i: nat)
    requires i < 8 * |m|
    ensures Bits(m)[i] == ByteBits(m[i / 8])[i % 8]
    decreases |m|
  {
    hide ByteBits;
    if i >= 8 {
      BitAt(m[1..], i - 8);
      assert (i - 8) / 8 == i / 8 - 1 && (i - 8) % 8 == i % 8;
    }
  }

  /** In particular, two messages that differ only inside two consecutive bytes have different checksums. */
  lemma TwoBytesAreDetected(start: bv16, m: seq<bv8>, n: seq<bv8>, k: nat)
    requires |m| == |n| && m != n
    requires forall i :: 0 <= i < |m| && i != k && i != k + 1 ==> m[i] == n[i]
    ensures Crc16(start, m) != Crc16(start, n)
  {
    forall i | 0 <= i < 8 * |m| && !(8 * k <= i < 8 * k + 16)
      ensures Bits(m)[i] == Bits(n)[i]
    {
      BitAt(m, i);
      BitAt(n, i);
    }
    BurstsAreDetected(start, m, n, 8 * k);
  }
}
