/** The RDS block code: syndromes, offset words, the standard's encoder.
 *
 * A block is a 26-bit word and a syndrome or checkword has ten bits. The source works with a
 * parity-check matrix; the reference it is measured against here is division by the
 * generator polynomial of EN 50067 section B.1,
 * g(x) = x^10 + x^8 + x^7 + x^5 + x^4 + x^3 + 1.
 */
module BlockCode {
  import opened Bitwise

  const BLOCK_LENGTH: nat := 26

  /** A 26-bit block, and the 16 bits of data it carries. */
  type Word = x: nat | x < 0x400_0000
  type Data = x: nat | x < 0x1_0000

  /** Ten bits, most significant first: a polynomial over GF(2) of degree below ten. */
  datatype Check = Check(b9: bool, b8: bool, b7: bool, b6: bool, b5: bool,
                         b4: bool, b3: bool, b2: bool, b1: bool, b0: bool)
  {
    function Plus(other: Check): Check {
      Check(b9 != other.b9, b8 != other.b8, b7 != other.b7, b6 != other.b6, b5 != other.b5,
            b4 != other.b4, b3 != other.b3, b2 != other.b2, b1 != other.b1, b0 != other.b0)
    }

    /** This polynomial times x, reduced by the generator. */
    function TimesX(): Check {
      Check(b8, b7 != b9, b6 != b9, b5, b4 != b9, b3 != b9, b2 != b9, b1, b0, b9)
    }

    /** This polynomial times x^n, reduced by the generator. */
    function TimesPower(n: nat): Check {
      if n == 0 then this else TimesPower(n - 1).TimesX()
    }

    /** Shift left by one place, dropping the top bit. */
    function Shift(bit: bool): Check {
      Check(b8, b7, b6, b5, b4, b3, b2, b1, b0, bit)
    }

    /** Shift right by one place. */
    function Half(): Check {
      Check(false, b9, b8, b7, b6, b5, b4, b3, b2, b1)
    }

    function HalfTimes(n: nat): Check
      decreases n
    {
      if n == 0 then this else Half().HalfTimes(n - 1)
    }

    /** The low n bits as a number. */
    function LowBits(n: nat): nat
      decreases n
    {
      if n == 0 then 0 else 2 * Half().LowBits(n - 1) + Bit(b0)
    }

    function ToNat(): nat {
      LowBits(10)
    }
  }

  /** The low ten bits of n. */
  function CheckOf(n: nat): Check {
    if n == 0 then ZERO else CheckOf(n / 2).Shift(n % 2 == 1)
  }

  lemma CheckOfPush(m: nat, bit: bool)
    ensures CheckOf(2 * m + Bit(bit)) == CheckOf(m).Shift(bit)
  {
    assert (2 * m + Bit(bit)) / 2 == m;
    assert (2 * m + Bit(bit)) % 2 == Bit(bit);
  }

  lemma {:induction false} CheckOfLowBits(c: Check, n: nat)
    requires c.HalfTimes(n) == ZERO
    ensures CheckOf(c.LowBits(n)) == c
    ensures c.LowBits(n) < Shl(1, n)
    decreases n
  {
    if n > 0 {
      CheckOfLowBits(c.Half(), n - 1);
      CheckOfPush(c.Half().LowBits(n - 1), c.b0);
    }
  }

  lemma HalfTenTimes(c: Check)
    ensures c.HalfTimes(10) == ZERO
  {
    var c1 := c.Half(); var c2 := c1.Half(); var c3 := c2.Half(); var c4 := c3.Half();
    var c5 := c4.Half(); var c6 := c5.Half(); var c7 := c6.Half(); var c8 := c7.Half();
    var c9 := c8.Half();
    assert c9.HalfTimes(1) == ZERO; assert c8.HalfTimes(2) == ZERO; assert c7.HalfTimes(3) == ZERO;
    assert c6.HalfTimes(4) == ZERO; assert c5.HalfTimes(5) == ZERO; assert c4.HalfTimes(6) == ZERO;
    assert c3.HalfTimes(7) == ZERO; assert c2.HalfTimes(8) == ZERO; assert c1.HalfTimes(9) == ZERO;
  }

  lemma CheckOfToNat(c: Check)
    ensures CheckOf(c.ToNat()) == c
    ensures c.ToNat() < 0x400
  {
    HalfTenTimes(c);
    CheckOfLowBits(c, 10);
    assert Shl(1, 10) == 0x400;
  }

  lemma TopBitClear(n: nat)
    requires n < 0x200
    ensures !CheckOf(n).b9
  {
    var n1 := n / 2; var n2 := n1 / 2; var n3 := n2 / 2; var n4 := n3 / 2; var n5 := n4 / 2;
    var n6 := n5 / 2; var n7 := n6 / 2; var n8 := n7 / 2;
    assert n8 < 2;
    assert !CheckOf(n8).b1;
    assert !CheckOf(n7).b2; assert !CheckOf(n6).b3; assert !CheckOf(n5).b4; assert !CheckOf(n4).b5;
    assert !CheckOf(n3).b6; assert !CheckOf(n2).b7; assert !CheckOf(n1).b8;
  }

  lemma {:induction false} LowBitsOfCheck(n: nat, k: nat)
    requires k <= 10 && n < Shl(1, k) && n < 0x400
    ensures CheckOf(n).LowBits(k) == n
  {
    if k > 0 {
      LowBitsOfCheck(n / 2, k - 1);
      TopBitClear(n / 2);
    }
  }

  lemma ToNatOfCheck(n: nat)
    requires n < 0x400
    ensures CheckOf(n).ToNat() == n
  {
    assert Shl(1, 10) == 0x400;
    LowBitsOfCheck(n, 10);
  }

  /** Binary digits for the tables below. */
  const I := true
  const O := false

  const ZERO := Check(O, O, O, O, O, O, O, O, O, O)
  const ONE := Check(O, O, O, O, O, O, O, O, O, I)

  datatype Offset = A | B | C | CPrime | D | Invalid

  /** The kinds a block can have. */
  type Kind = o: Offset | o != Invalid witness A

  function BlockNumber(offset: Offset): (n: nat)
    ensures n < 4
  {
    match offset
    case A => 0
    case B => 1
    case C => 2
    case CPrime => 2
    case D => 3
    case Invalid => 0
  }

  function NextOffset(offset: Offset): Kind {
    match offset
    case A => B
    case B => C
    case C => D
    case CPrime => D
    case D => A
    case Invalid => A
  }

  /** Table B.1: the word added to the checkword of each kind of block. */
  function OffsetWord(offset: Kind): Check
  {
    match offset
    case A => Check(O, O, I, I, I, I, I, I, O, O)
    case B => Check(O, I, I, O, O, I, I, O, O, O)
    case C => Check(O, I, O, I, I, O, I, O, O, O)
    case CPrime => Check(I, I, O, I, O, I, O, O, O, O)
    case D => Check(O, I, I, O, I, I, O, I, O, O)
  }

  /** The syndrome an undamaged block of each kind has. */
  function OffsetSyndrome(offset: Kind): Check
  {
    match offset
    case A => Check(I, I, I, I, O, I, I, O, O, O)
    case B => Check(I, I, I, I, O, I, O, I, O, O)
    case C => Check(I, O, O, I, O, I, I, I, O, O)
    case CPrime => Check(I, I, I, I, O, O, I, I, O, O)
    case D => Check(I, O, O, I, O, I, I, O, O, O)
  }

  function OffsetForSyndrome(s: Check): Offset {
    if s == OffsetSyndrome(A) then A
    else if s == OffsetSyndrome(B) then B
    else if s == OffsetSyndrome(C) then C
    else if s == OffsetSyndrome(CPrime) then CPrime
    else if s == OffsetSyndrome(D) then D
    else Invalid
  }

  lemma OffsetForSyndromeExact(s: Check, offset: Kind)
    ensures OffsetForSyndrome(s) == offset <==> s == OffsetSyndrome(offset)
  {
  }

  /** Ten bits as a number. */
  function NumberOf(c: Check): nat {
    512 * Bit(c.b9) + 256 * Bit(c.b8) + 128 * Bit(c.b7) + 64 * Bit(c.b6) + 32 * Bit(c.b5)
    + 16 * Bit(c.b4) + 8 * Bit(c.b3) + 4 * Bit(c.b2) + 2 * Bit(c.b1) + Bit(c.b0)
  }

  /** Table B.1 in numbers: the offset words, and the syndromes of undamaged blocks. */
  lemma OffsetNumbers()
    ensures NumberOf(OffsetWord(A)) == 0x0FC && NumberOf(OffsetSyndrome(A)) == 0x3D8
    ensures NumberOf(OffsetWord(B)) == 0x198 && NumberOf(OffsetSyndrome(B)) == 0x3D4
    ensures NumberOf(OffsetWord(C)) == 0x168 && NumberOf(OffsetSyndrome(C)) == 0x25C
    ensures NumberOf(OffsetWord(CPrime)) == 0x350 && NumberOf(OffsetSyndrome(CPrime)) == 0x3CC
    ensures NumberOf(OffsetWord(D)) == 0x1B4 && NumberOf(OffsetSyndrome(D)) == 0x258
  {
  }

  // ---------------------------------------------------------------------------
  // Syndromes, as a sum of matrix rows
  // ---------------------------------------------------------------------------

  /** Sum of the rows of the set bits of x, where bit 0 of x stands for bit k of the block. */
  function SyndromeFrom(x: nat, k: nat): Check
    requires k <= BLOCK_LENGTH
    decreases BLOCK_LENGTH - k
  {
    if k == BLOCK_LENGTH then ZERO else RowIf(x % 2 == 1, k).Plus(SyndromeFrom(x / 2, k + 1))
  }

  /** The row of bit k, if the bit is set. */
  function RowIf(bit: bool, k: nat): Check
    requires k < BLOCK_LENGTH
  {
    if bit then Row(25 - k) else ZERO
  }

  /** Row i of the parity-check matrix, which belongs to the i-th transmitted bit of a block. */
  function Row(i: nat): Check
    requires i < BLOCK_LENGTH
  {
    match i
    case 0 => Check(I, O, O, O, O, O, O, O, O, O)
    case 1 => Check(O, I, O, O, O, O, O, O, O, O)
    case 2 => Check(O, O, I, O, O, O, O, O, O, O)
    case 3 => Check(O, O, O, I, O, O, O, O, O, O)
    case 4 => Check(O, O, O, O, I, O, O, O, O, O)
    case 5 => Check(O, O, O, O, O, I, O, O, O, O)
    case 6 => Check(O, O, O, O, O, O, I, O, O, O)
    case 7 => Check(O, O, O, O, O, O, O, I, O, O)
    case 8 => Check(O, O, O, O, O, O, O, O, I, O)
    case 9 => Check(O, O, O, O, O, O, O, O, O, I)
    case 10 => Check(I, O, I, I, O, I, I, I, O, O)
    case 11 => Check(O, I, O, I, I, O, I, I, I, O)
    case 12 => Check(O, O, I, O, I, I, O, I, I, I)
    case 13 => Check(I, O, I, O, O, O, O, I, I, I)
    case 14 => Check(I, I, I, O, O, I, I, I, I, I)
    case 15 => Check(I, I, O, O, O, I, O, O, I, I)
    case 16 => Check(I, I, O, I, O, I, O, I, O, I)
    case 17 => Check(I, I, O, I, I, I, O, I, I, O)
    case 18 => Check(O, I, I, O, I, I, I, O, I, I)
    case 19 => Check(I, O, O, O, O, O, O, O, O, I)
    case 20 => Check(I, I, I, I, O, I, I, I, O, O)
    case 21 => Check(O, I, I, I, I, O, I, I, I, O)
    case 22 => Check(O, O, I, I, I, I, O, I, I, I)
    case 23 => Check(I, O, I, O, I, O, O, I, I, I)
    case 24 => Check(I, I, I, O, O, O, I, I, I, I)
    case _ => Check(I, I, O, O, O, I, I, O, I, I)
  }

  /** The syndrome of the low 26 bits of x. */
  function Syndrome(x: nat): Check {
    SyndromeFrom(x, 0)
  }

  lemma PlusSwap(a: Check, b: Check, c: Check, d: Check)
    ensures a.Plus(b).Plus(c.Plus(d)) == a.Plus(c).Plus(b.Plus(d))
  {
  }

  lemma RowIfLinear(a: bool, b: bool, k: nat)
    requires k < BLOCK_LENGTH
    ensures RowIf(a != b, k) == RowIf(a, k).Plus(RowIf(b, k))
  {
  }

  lemma {:induction false} SyndromeFromLinear(x: nat, y: nat, k: nat)
    requires k <= BLOCK_LENGTH
    ensures SyndromeFrom(Xor(x, y), k) == SyndromeFrom(x, k).Plus(SyndromeFrom(y, k))
    decreases BLOCK_LENGTH - k
  {
    hide Row;
    if k < BLOCK_LENGTH {
      SyndromeFromLinear(x / 2, y / 2, k + 1);
      XorHalves(x, y);
      RowIfLinear(x % 2 == 1, y % 2 == 1, k);
      PlusSwap(RowIf(x % 2 == 1, k), RowIf(y % 2 == 1, k),
               SyndromeFrom(x / 2, k + 1), SyndromeFrom(y / 2, k + 1));
    }
  }

  /** The syndrome is linear over GF(2). */
  lemma SyndromeLinear(x: nat, y: nat)
    ensures Syndrome(Xor(x, y)) == Syndrome(x).Plus(Syndrome(y))
  {
    SyndromeFromLinear(x, y, 0);
  }

  // ---------------------------------------------------------------------------
  // The same syndromes, by polynomial division
  // ---------------------------------------------------------------------------

  /** x^n mod g(x). */
  function Power(n: nat): Check {
    ONE.TimesPower(n)
  }

  function PowerIf(bit: bool, k: nat): Check {
    if bit then Power(k) else ZERO
  }

  /** Sum of x^(k + i) over the set bits i of x, up to x^25. */
  function ResidueFrom(x: nat, k: nat): Check
    requires k <= BLOCK_LENGTH
    decreases BLOCK_LENGTH - k
  {
    if k == BLOCK_LENGTH then ZERO
    else PowerIf(x % 2 == 1, k).Plus(ResidueFrom(x / 2, k + 1))
  }

  /** The remainder of a block, read as a polynomial, on division by g. */
  function Residue(x: nat): Check {
    ResidueFrom(x, 0)
  }

  lemma TimesXLinear(a: Check, b: Check)
    ensures a.Plus(b).TimesX() == a.TimesX().Plus(b.TimesX())
  {
  }

  lemma {:induction false} TimesPowerLinear(a: Check, b: Check, n: nat)
    ensures a.Plus(b).TimesPower(n) == a.TimesPower(n).Plus(b.TimesPower(n))
  {
    if n > 0 {
      TimesPowerLinear(a, b, n - 1);
      TimesXLinear(a.TimesPower(n - 1), b.TimesPower(n - 1));
    }
  }

  lemma {:induction false} ZeroTimesPower(n: nat)
    ensures ZERO.TimesPower(n) == ZERO
  {
    if n > 0 {
      ZeroTimesPower(n - 1);
    }
  }

  /** Multiplication by x^n loses nothing, because g has a constant term. */
  lemma {:induction false} TimesPowerInjective(a: Check, b: Check, n: nat)
    requires a.TimesPower(n) == b.TimesPower(n)
    ensures a == b
  {
    if n > 0 {
      TimesPowerInjective(a, b, n - 1);
    }
  }

  /** Each matrix row is x times the next one. */
  lemma RowChain(j: nat)
    requires j < 25
    ensures Row(j + 1).TimesX() == Row(j)
  {
    match j {
      case 0 => case 1 => case 2 => case 3 => case 4 => case 5 => case 6 => case 7 => case 8 =>
      case 9 => case 10 => case 11 => case 12 => case 13 => case 14 => case 15 => case 16 =>
      case 17 => case 18 => case 19 => case 20 => case 21 => case 22 => case 23 => case 24 =>
    }
  }

  /** x^k for k < 10 is a single bit, and the row sixteen places up from that of bit k. */
  lemma {:induction false} SmallPower(k: nat)
    requires k < 10
    ensures Power(k) == Row(9 - k)
  {
    if k > 0 {
      SmallPower(k - 1);
      RowChain(9 - k);
    }
  }

  lemma {:induction false} RowTimesPower(j: nat, n: nat)
    requires j < BLOCK_LENGTH
    ensures Row(j).TimesPower(n) == if n <= j then Row(j - n) else Power(9 + n - j)
  {
    hide Row;
    if n > 0 {
      RowTimesPower(j, n - 1);
      if n <= j {
        RowChain(j - n);
      } else if n == j + 1 {
        SmallPower(9);
      }
    }
  }

  lemma {:induction false} SyndromeFromResidue(x: nat, k: nat)
    requires k <= BLOCK_LENGTH
    ensures SyndromeFrom(x, k).TimesPower(16) == ResidueFrom(x, k)
    decreases BLOCK_LENGTH - k
  {
    hide Row, Check.TimesPower;
    ZeroTimesPower(16);
    if k < BLOCK_LENGTH {
      SyndromeFromResidue(x / 2, k + 1);
      TimesPowerLinear(RowIf(x % 2 == 1, k), SyndromeFrom(x / 2, k + 1), 16);
      RowTimesPower(25 - k, 16);
      if k < 10 {
        SmallPower(k);
      }
    }
  }

  /** The matrix divides by the generator: x^16 times the syndrome is the remainder of the block. */
  lemma SyndromeIsRemainder(x: nat)
    ensures Syndrome(x).TimesPower(16) == Residue(x)
  {
    SyndromeFromResidue(x, 0);
  }

  // ---------------------------------------------------------------------------
  // The transmitter
  // ---------------------------------------------------------------------------

  /** EN 50067 section B.1: the remainder of data(x) * x^10. */
  function Checkword(data: nat): Check {
    Residue(0x400 * data)
  }

  /** The block sent for the data: data, then checkword plus offset word. */
  function Encode(data: Data, offset: Kind): Word
  {
    CheckOfToNat(Checkword(data).Plus(OffsetWord(offset)));
    0x400 * data + Checkword(data).Plus(OffsetWord(offset)).ToNat()
  }

  /** Moving every bit up one place multiplies by x, as long as none falls off the end. */
  lemma {:induction false} ResidueShift(x: nat, k: nat)
    requires k < BLOCK_LENGTH && x < Shl(1, 25 - k)
    ensures ResidueFrom(x, k + 1) == ResidueFrom(x, k).TimesX()
    decreases BLOCK_LENGTH - k
  {
    if k == 25 {
      assert x == 0;
    } else {
      ResidueShift(x / 2, k + 1);
      TimesXLinear(PowerIf(x % 2 == 1, k), ResidueFrom(x / 2, k + 1));
    }
  }

  /** Division one bit at a time. */
  lemma ResiduePush(m: nat, bit: bool)
    requires m < Shl(1, 25)
    ensures Residue(2 * m + Bit(bit)) == Residue(m).TimesX().Plus(if bit then ONE else ZERO)
  {
    ResidueShift(m, 0);
    assert (2 * m + Bit(bit)) / 2 == m;
    assert (2 * m + Bit(bit)) % 2 == Bit(bit);
  }

  lemma ShiftIsTimesX(c: Check, bit: bool)
    requires !c.b9
    ensures c.TimesX().Plus(if bit then ONE else ZERO) == c.Shift(bit)
  {
  }

  /** Ten bits are their own remainder. */
  lemma {:induction false} ResidueOfCheck(n: nat)
    requires n < 0x400
    ensures Residue(n) == CheckOf(n)
  {
    if n == 0 {
      ResidueOfZero(0);
    } else {
      ResidueOfCheck(n / 2);
      TopBitClear(n / 2);
      ShlMonotone(10, 25);
      assert Shl(1, 10) == 0x400;
      ResiduePush(n / 2, n % 2 == 1);
      ShiftIsTimesX(CheckOf(n / 2), n % 2 == 1);
    }
  }

  lemma {:induction false} ShlMonotone(a: nat, b: nat)
    requires a <= b
    ensures Shl(1, a) <= Shl(1, b)
    ensures Shl(1, a) > 0
  {
    if b > a {
      ShlMonotone(a, b - 1);
    } else if a > 0 {
      ShlMonotone(a - 1, a - 1);
    }
  }

  lemma {:induction false} ResidueOfZero(k: nat)
    requires k <= BLOCK_LENGTH
    ensures ResidueFrom(0, k) == ZERO
    decreases BLOCK_LENGTH - k
  {
    if k < BLOCK_LENGTH {
      ResidueOfZero(k + 1);
    }
  }

  /** The two parts of a block, apart and together. */
  lemma {:induction false} XorDisjoint(a: nat, c: nat, n: nat)
    requires c < Shl(1, n)
    ensures Xor(Shl(a, n), c) == Shl(a, n) + c
  {
    if n == 0 {
      XorZero(a);
    } else {
      XorDisjoint(a, c / 2, n - 1);
    }
  }

  lemma XorOfParts(w: nat)
    ensures Xor(0x400 * (w / 0x400), w % 0x400) == w
  {
    var a := w / 0x400;
    assert Shl(1, 10) == 0x400;
    ShlScale(a, 10);
    XorDisjoint(a, w % 0x400, 10);
  }

  /** A block's remainder is the sum of those of its data and of its last ten bits. */
  lemma ResidueOfParts(w: nat)
    ensures Residue(w) == Checkword(w / 0x400).Plus(CheckOf(w % 0x400))
  {
    var a, c := 0x400 * (w / 0x400), w % 0x400;
    XorOfParts(w);
    SyndromeLinear(a, c);
    TimesPowerLinear(Syndrome(a), Syndrome(c), 16);
    SyndromeIsRemainder(w);
    SyndromeIsRemainder(a);
    SyndromeIsRemainder(c);
    ResidueOfCheck(c);
  }

  /** Halfway between an offset's syndrome and its offset word. */
  function HalfwayWord(offset: Kind): Check {
    match offset
    case A => Check(O, I, O, O, O, O, I, I, I, O)
    case B => Check(I, I, I, I, O, O, O, I, O, I)
    case C => Check(I, O, O, I, O, O, O, I, I, I)
    case CPrime => Check(I, I, I, I, I, O, I, O, I, O)
    case D => Check(I, I, I, I, I, I, I, I, I, O)
  }

  lemma EightTimes(s: Check, n: nat)
    ensures s.TimesPower(n + 8) == s.TimesPower(n).TimesX().TimesX().TimesX().TimesX()
                                                  .TimesX().TimesX().TimesX().TimesX()
  {
    hide Check.TimesX;
    assert s.TimesPower(n + 2) == s.TimesPower(n + 1).TimesX();
    assert s.TimesPower(n + 4) == s.TimesPower(n + 3).TimesX() == s.TimesPower(n + 2).TimesX().TimesX();
    assert s.TimesPower(n + 6) == s.TimesPower(n + 5).TimesX() == s.TimesPower(n + 4).TimesX().TimesX();
    assert s.TimesPower(n + 8) == s.TimesPower(n + 7).TimesX() == s.TimesPower(n + 6).TimesX().TimesX();
  }

  lemma FirstHalf(offset: Kind)
    ensures OffsetSyndrome(offset).TimesPower(8) == HalfwayWord(offset)
  {
    EightTimes(OffsetSyndrome(offset), 0);
    match offset { case A => case B => case C => case CPrime => case D => }
  }

  lemma SecondHalf(offset: Kind)
    ensures HalfwayWord(offset).TimesX().TimesX().TimesX().TimesX()
                               .TimesX().TimesX().TimesX().TimesX() == OffsetWord(offset)
  {
    match offset { case A => case B => case C => case CPrime => case D => }
  }

  /** Division gives the offset word exactly when the matrix gives that offset's syndrome. */
  lemma OffsetWordAndSyndrome(offset: Kind)
    ensures OffsetSyndrome(offset).TimesPower(16) == OffsetWord(offset)
  {
    hide OffsetSyndrome, OffsetWord, HalfwayWord, Check.TimesX;
    FirstHalf(offset);
    SecondHalf(offset);
    EightTimes(OffsetSyndrome(offset), 8);
  }

  lemma PlusSolve(a: Check, b: Check, c: Check)
    ensures a.Plus(b) == c <==> b == a.Plus(c)
  {
  }

  /** A word has the syndrome of an offset exactly when it is the encoding of its own data. */
  lemma SyndromeCharacterisesEncoding(w: Word, offset: Kind)
    ensures Syndrome(w) == OffsetSyndrome(offset) <==> w == Encode(w / 0x400, offset)
  {
    var data, c := w / 0x400, w % 0x400;
    SyndromeIsRemainder(w);
    ResidueOfParts(w);
    OffsetWordAndSyndrome(offset);
    var check := Checkword(data).Plus(OffsetWord(offset));
    PlusSolve(Checkword(data), CheckOf(c), OffsetWord(offset));
    assert CheckOf(c) == check <==> c == check.ToNat() by {
      ToNatOfCheck(c);
      CheckOfToNat(check);
    }
    if Syndrome(w).TimesPower(16) == OffsetSyndrome(offset).TimesPower(16) {
      TimesPowerInjective(Syndrome(w), OffsetSyndrome(offset), 16);
    }
  }
}
