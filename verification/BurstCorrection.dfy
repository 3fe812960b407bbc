/** Correction of bursts of one or two wrong bits, EN 50067 section B.2.2. */
module BurstCorrection {
  import opened Bitwise
  import opened BlockCode
  import opened Wrappers

  /** The error vectors tried, in order: one bit, then two adjacent bits, at each position. */
  const BURSTS: nat := 52

  function Burst(b: nat): Word
    requires b < BURSTS
  {
    (if b < 26 then Shl(1, b) else Shl(3, b - 26)) % 0x400_0000
  }

  /** The syndrome a burst adds; at the last position the second bit falls off the block. */
  function BurstSyndrome(b: nat): Check
    requires b < BURSTS
  {
    if b < 26 then Row(25 - b) else if b < 51 then Pair(51 - b) else Row(0)
  }

  /** Two adjacent rows. */
  function Pair(j: nat): Check
    requires 1 <= j < BLOCK_LENGTH
  {
    Row(j).Plus(Row(j - 1))
  }

  ghost predicate IsBurst(e: nat) {
    exists b: nat :: b < BURSTS && e == Burst(b)
  }

  /** The undamaged blocks of a kind. */
  ghost predicate IsEncoding(w: Word, offset: Kind)
  {
    w == Encode(w / 0x400, offset)
  }

  // ---------------------------------------------------------------------------
  // Syndromes of bursts
  // ---------------------------------------------------------------------------

  lemma {:induction false} SyndromeOfShifted(x: nat, s: nat, k: nat)
    requires k + s <= BLOCK_LENGTH
    ensures SyndromeFrom(Shl(x, s), k) == SyndromeFrom(x, k + s)
  {
    hide Row;
    if s > 0 {
      SyndromeOfShifted(x, s - 1, k + 1);
    }
  }

  /** Bits beyond the block do not count. */
  lemma {:induction false} SyndromeOfOverflow(x: nat, m: nat, k: nat)
    requires k <= BLOCK_LENGTH
    ensures SyndromeFrom(x + Shl(m, BLOCK_LENGTH - k), k) == SyndromeFrom(x, k)
    decreases BLOCK_LENGTH - k
  {
    hide Row;
    if k < BLOCK_LENGTH {
      SyndromeOfOverflow(x / 2, m, k + 1);
      assert (x + 2 * Shl(m, 25 - k)) / 2 == x / 2 + Shl(m, 25 - k);
    }
  }

  lemma SyndromeMasked(x: nat)
    ensures Syndrome(x % 0x400_0000) == Syndrome(x)
  {
    hide Row, SyndromeFrom;
    var m, low := x / 0x400_0000, x % 0x400_0000;
    BlockSize();
    ShlScale(m, 26);
    SyndromeOfOverflow(low, m, 0);
    assert x == low + Shl(m, 26);
  }

  lemma SyndromeOfBurst(b: nat)
    requires b < BURSTS
    ensures Syndrome(Burst(b)) == BurstSyndrome(b)
  {
    hide Row, Pair, Shl, SyndromeFrom;
    if b < 26 {
      SyndromeMasked(Shl(1, b));
      SyndromeOfShifted(1, b, 0);
      SyndromeOfSmall(b);
    } else {
      SyndromeMasked(Shl(3, b - 26));
      SyndromeOfShifted(3, b - 26, 0);
      SyndromeOfSmall(b - 26);
    }
  }

  lemma SyndromeOfSmall(s: nat)
    requires s < BLOCK_LENGTH
    ensures SyndromeFrom(1, s) == Row(25 - s)
    ensures SyndromeFrom(3, s) == if s < 25 then Pair(25 - s) else Row(0)
  {
    hide Row;
    SyndromeOfZero(s + 1);
    if s < 25 {
      SyndromeOfZero(s + 2);
      assert SyndromeFrom(1, s + 1) == Row(24 - s);
    }
  }

  lemma {:induction false} SyndromeOfZero(k: nat)
    requires k <= BLOCK_LENGTH
    ensures SyndromeFrom(0, k) == ZERO
    decreases BLOCK_LENGTH - k
  {
    if k < BLOCK_LENGTH {
      SyndromeOfZero(k + 1);
    }
  }

  // ---------------------------------------------------------------------------
  // The 51 bursts have distinct, non-zero syndromes
  // ---------------------------------------------------------------------------

  lemma RowsAgainstFirst(m: nat)
    requires 1 <= m < BLOCK_LENGTH
    ensures Row(m) != Row(0) && Row(m) != Pair(1)
  {
  }

  lemma PairsAgainstFirst(m: nat)
    requires 1 <= m < BLOCK_LENGTH
    ensures Pair(m) != Row(0)
    ensures m > 1 ==> Pair(m) != Pair(1)
  {
    match m {
      case 1 => case 2 => case 3 => case 4 => case 5 => case 6 => case 7 => case 8 =>
      case 9 => case 10 => case 11 => case 12 => case 13 => case 14 => case 15 => case 16 =>
      case 17 => case 18 => case 19 => case 20 => case 21 => case 22 => case 23 => case 24 =>
      case 25 =>
    }
  }

  lemma PairTimesPower(j: nat, n: nat)
    requires 1 <= j < BLOCK_LENGTH && n < j
    ensures Pair(j).TimesPower(n) == Pair(j - n)
  {
    hide Row;
    TimesPowerLinear(Row(j), Row(j - 1), n);
    RowTimesPower(j, n);
    RowTimesPower(j - 1, n);
  }

  lemma RowsDistinct(a: nat, b: nat)
    requires a < b < BLOCK_LENGTH
    ensures Row(a) != Row(b)
  {
    hide Row;
    RowTimesPower(a, a);
    RowTimesPower(b, a);
    RowsAgainstFirst(b - a);
  }

  lemma PairsDistinct(a: nat, b: nat)
    requires 1 <= a < b < BLOCK_LENGTH
    ensures Pair(a) != Pair(b)
  {
    hide Row, Pair;
    PairTimesPower(a, a - 1);
    PairTimesPower(b, a - 1);
    PairsAgainstFirst(b - a + 1);
  }

  lemma RowIsNoPair(a: nat, b: nat)
    requires a < BLOCK_LENGTH && 1 <= b < BLOCK_LENGTH
    ensures Row(a) != Pair(b)
  {
    hide Row;
    if a < b {
      RowTimesPower(a, a);
      PairTimesPower(b, a);
      PairsAgainstFirst(b - a);
    } else {
      RowTimesPower(a, b - 1);
      PairTimesPower(b, b - 1);
      RowsAgainstFirst(a - b + 1);
    }
  }

  /** Bursts with equal syndromes are equal: the code can tell all 51 apart. */
  lemma BurstSyndromesDistinct(b: nat, b': nat)
    requires b < BURSTS && b' < BURSTS && BurstSyndrome(b) == BurstSyndrome(b')
    ensures Burst(b) == Burst(b')
  {
    hide Row, Pair, Shl;
    if b < 26 && b' < 26 {
      RowIndex(25 - b, 25 - b');
    } else if 26 <= b < 51 && 26 <= b' < 51 {
      if b < b' { PairsDistinct(51 - b', 51 - b); }
      if b' < b { PairsDistinct(51 - b, 51 - b'); }
    } else if b == 51 || b' == 51 {
      LastBurst();
      var other := if b == 51 then b' else b;
      if other < 26 {
        RowIndex(25 - other, 0);
      } else if other < 51 {
        RowIsNoPair(0, 51 - other);
      }
    } else if b < 26 {
      RowIsNoPair(25 - b, 51 - b');
    } else {
      RowIsNoPair(25 - b', 51 - b);
    }
  }

  lemma RowIndex(a: nat, b: nat)
    requires a < BLOCK_LENGTH && b < BLOCK_LENGTH && Row(a) == Row(b)
    ensures a == b
  {
    if a < b { RowsDistinct(a, b); }
    if b < a { RowsDistinct(b, a); }
  }

  /** Two bits at the last position are one. */
  lemma LastBurst()
    ensures Burst(51) == Burst(25)
  {
    BlockSize();
    ShlScale(3, 25);
  }

  /** A burst never leaves the syndrome alone, and never turns a C block into a C' block. */
  lemma BurstSyndromeNeverHides(b: nat)
    requires b < BURSTS
    ensures BurstSyndrome(b) != ZERO
    ensures OffsetSyndrome(C).Plus(BurstSyndrome(b)) != OffsetSyndrome(CPrime)
  {
    hide Row, Pair;
    if b < 26 {
      RowNeverHides(25 - b);
    } else if b < 51 {
      PairNeverHides(51 - b);
    } else {
      RowNeverHides(0);
    }
  }

  lemma RowNeverHides(j: nat)
    requires j < BLOCK_LENGTH
    ensures Row(j) != ZERO
    ensures OffsetSyndrome(C).Plus(Row(j)) != OffsetSyndrome(CPrime)
  {
  }

  lemma PairNeverHides(j: nat)
    requires 1 <= j < BLOCK_LENGTH
    ensures Pair(j) != ZERO
    ensures OffsetSyndrome(C).Plus(Pair(j)) != OffsetSyndrome(CPrime)
  {
    match j {
      case 1 => case 2 => case 3 => case 4 => case 5 => case 6 => case 7 => case 8 =>
      case 9 => case 10 => case 11 => case 12 => case 13 => case 14 => case 15 => case 16 =>
      case 17 => case 18 => case 19 => case 20 => case 21 => case 22 => case 23 => case 24 =>
      case 25 =>
    }
  }

  // ---------------------------------------------------------------------------
  // Correction
  // ---------------------------------------------------------------------------

  /** The syndrome listed for burst b in the table of an offset. */
  function TableSyndrome(offset: Kind, b: nat): Check
    requires b < BURSTS
  {
    OffsetSyndrome(offset).Plus(BurstSyndrome(b))
  }

  /** The first table entry, from b on, with this syndrome. */
  function FindBurst(s: Check, offset: Kind, b: nat): (found: Option<nat>)
    requires b <= BURSTS
    ensures found.Some? ==> b <= found.value < BURSTS && TableSyndrome(offset, found.value) == s
    ensures found.None? ==> forall i :: b <= i < BURSTS ==> TableSyndrome(offset, i) != s
    decreases BURSTS - b
  {
    if b == BURSTS then None
    else if TableSyndrome(offset, b) == s then Some(b)
    else FindBurst(s, offset, b + 1)
  }

  /** The corrected block, if some burst explains the syndrome. */
  function CorrectBurst(raw: Word, offset: Kind): Option<Word>
  {
    match FindBurst(Syndrome(raw), offset, 0)
    case None => None
    case Some(b) =>
      XorWord(raw, Burst(b));
      Some(Xor(raw, Burst(b)))
  }

  lemma XorWord(a: nat, b: nat)
    requires a < 0x400_0000 && b < 0x400_0000
    ensures Xor(a, b) < 0x400_0000
  {
    BlockSize();
    XorBound(a, b, 26);
  }

  /** Removing burst b leaves an undamaged block exactly when the table lists the syndrome at b. */
  lemma BurstExplains(raw: Word, b: nat, offset: Kind)
    requires b < BURSTS
    ensures Xor(raw, Burst(b)) < 0x400_0000
    ensures IsEncoding(Xor(raw, Burst(b)), offset) <==> Syndrome(raw) == TableSyndrome(offset, b)
  {
    hide Row, Pair, Burst, BurstSyndrome, OffsetSyndrome, Encode, Syndrome;
    XorWord(raw, Burst(b));
    SyndromeLinear(raw, Burst(b));
    SyndromeOfBurst(b);
    SyndromeCharacterisesEncoding(Xor(raw, Burst(b)), offset);
    PlusMove(Syndrome(raw), BurstSyndrome(b), OffsetSyndrome(offset));
  }

  lemma PlusMove(a: Check, b: Check, c: Check)
    ensures a.Plus(b) == c <==> a == c.Plus(b)
  {
  }

  /** Correction finds the burst whenever there is one, whatever the data. */
  lemma CorrectionComplete(raw: Word, e: nat, offset: Kind)
    requires IsBurst(e)
    requires Xor(raw, e) < 0x400_0000 && IsEncoding(Xor(raw, e), offset)
    ensures CorrectBurst(raw, offset) == Some(Xor(raw, e))
  {
    hide Row, Pair, Burst, BurstSyndrome, OffsetSyndrome, Encode, Syndrome;
    var b: nat :| b < BURSTS && e == Burst(b);
    BurstExplains(raw, b, offset);
    var found := FindBurst(Syndrome(raw), offset, 0);
    assert found.Some?;
    PlusCancels(OffsetSyndrome(offset), BurstSyndrome(b), BurstSyndrome(found.value));
    BurstSyndromesDistinct(b, found.value);
  }

  lemma PlusCancels(a: Check, b: Check, c: Check)
    requires a.Plus(b) == a.Plus(c)
    ensures b == c
  {
  }

  /** Correction succeeds only by removing one burst, and leaves an undamaged block. */
  lemma CorrectionSound(raw: Word, offset: Kind)
    requires CorrectBurst(raw, offset).Some?
    ensures var fixed := CorrectBurst(raw, offset).value;
            IsEncoding(fixed, offset) && exists e :: IsBurst(e) && Xor(raw, e) == fixed
  {
    hide Row, Pair, Burst, BurstSyndrome, OffsetSyndrome, Encode, Syndrome;
    var b := FindBurst(Syndrome(raw), offset, 0).value;
    BurstExplains(raw, b, offset);
    assert IsBurst(Burst(b));
  }

  /** A block sent and hit by any burst is restored. */
  lemma CorrectionRestores(data: Data, offset: Kind, b: nat)
    requires b < BURSTS
    ensures var raw := Xor(Encode(data, offset), Burst(b));
            raw < 0x400_0000 && CorrectBurst(raw, offset) == Some(Encode(data, offset))
  {
    hide Row, Pair, Burst, BurstSyndrome, OffsetSyndrome, Syndrome;
    var sent := Encode(data, offset);
    XorWord(sent, Burst(b));
    XorCancels(sent, Burst(b));
    EncodeKeepsData(data, offset);
    assert IsBurst(Burst(b));
    CorrectionComplete(Xor(sent, Burst(b)), Burst(b), offset);
  }

  lemma EncodeKeepsData(data: Data, offset: Kind)
    ensures Encode(data, offset) / 0x400 == data
    ensures IsEncoding(Encode(data, offset), offset)
  {
    CheckOfToNat(Checkword(data).Plus(OffsetWord(offset)));
  }

  /** What the receiver makes of a block hit by a burst, before correction. */
  lemma DamagedBlockSyndrome(data: Data, offset: Kind, b: nat)
    requires b < BURSTS
    ensures var seen := OffsetForSyndrome(Syndrome(Xor(Encode(data, offset), Burst(b))));
            seen != offset && (offset == C ==> seen != CPrime)
  {
    hide Row, Pair, Burst, BurstSyndrome, Syndrome, Encode;
    var sent := Encode(data, offset);
    EncodeKeepsData(data, offset);
    SyndromeCharacterisesEncoding(sent, offset);
    SyndromeLinear(sent, Burst(b));
    SyndromeOfBurst(b);
    BurstSyndromeNeverHides(b);
    PlusNonZero(OffsetSyndrome(offset), BurstSyndrome(b));
    OffsetForSyndromeExact(OffsetSyndrome(offset).Plus(BurstSyndrome(b)), offset);
    OffsetForSyndromeExact(OffsetSyndrome(offset).Plus(BurstSyndrome(b)), CPrime);
  }

  lemma PlusNonZero(a: Check, b: Check)
    requires b != ZERO
    ensures a.Plus(b) != a
  {
  }

  lemma CleanBlockSyndrome(data: Data, offset: Kind)
    ensures OffsetForSyndrome(Syndrome(Encode(data, offset))) == offset
  {
    hide Syndrome, Encode;
    EncodeKeepsData(data, offset);
    SyndromeCharacterisesEncoding(Encode(data, offset), offset);
    OffsetForSyndromeExact(Syndrome(Encode(data, offset)), offset);
  }
}
