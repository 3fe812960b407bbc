/** What becomes of a C' block that is damaged on its way. */
module CPrimeDamage {
  import opened Bitwise
  import opened BlockCode
  import opened BurstCorrection
  import opened SyncMachine

  /** By how much the syndromes of C and C' differ. */
  const GAP: Check := Check(O, I, I, O, O, I, O, O, O, O)

  lemma GapBetween()
    ensures OffsetSyndrome(C).Plus(GAP) == OffsetSyndrome(CPrime)
  {
  }

  lemma RowGapRow(a: nat, b: nat)
    requires a < BLOCK_LENGTH && b < BLOCK_LENGTH
    ensures Row(a).Plus(GAP) != Row(b)
  {
    match a {
      case 0 => case 1 => case 2 => case 3 => case 4 => case 5 => case 6 => case 7 => case 8 =>
      case 9 => case 10 => case 11 => case 12 => case 13 => case 14 => case 15 => case 16 =>
      case 17 => case 18 => case 19 => case 20 => case 21 => case 22 => case 23 => case 24 =>
      case 25 =>
    }
  }

  lemma RowGapPair(a: nat, b: nat)
    requires a < BLOCK_LENGTH && 1 <= b < BLOCK_LENGTH
    ensures Row(a).Plus(GAP) == Pair(b) <==> a == 5 && b == 2
  {
    match b {
      case 1 => case 2 => case 3 => case 4 => case 5 => case 6 => case 7 => case 8 =>
      case 9 => case 10 => case 11 => case 12 => case 13 => case 14 => case 15 => case 16 =>
      case 17 => case 18 => case 19 => case 20 => case 21 => case 22 => case 23 => case 24 =>
      case 25 =>
    }
  }

  lemma PairGapPair(a: nat, b: nat)
    requires 1 <= a < BLOCK_LENGTH && 1 <= b < BLOCK_LENGTH
    ensures Pair(a).Plus(GAP) != Pair(b)
  {
    hide Pair;
    if a < 13 {
      LowPairGapPair(a, b);
    } else {
      HighPairGapPair(a, b);
    }
  }

  lemma LowPairGapPair(a: nat, b: nat)
    requires 1 <= a < 13 && 1 <= b < BLOCK_LENGTH
    ensures Pair(a).Plus(GAP) != Pair(b)
  {
    match a {
      case 1 => case 2 => case 3 => case 4 => case 5 => case 6 => case 7 => case 8 =>
      case 9 => case 10 => case 11 => case 12 =>
    }
  }

  lemma HighPairGapPair(a: nat, b: nat)
    requires 13 <= a < BLOCK_LENGTH && 1 <= b < BLOCK_LENGTH
    ensures Pair(a).Plus(GAP) != Pair(b)
  {
    match a {
      case 13 => case 14 => case 15 => case 16 => case 17 => case 18 => case 19 => case 20 =>
      case 21 => case 22 => case 23 => case 24 => case 25 =>
    }
  }

  lemma GapMoves(a: Check, b: Check)
    ensures a.Plus(GAP) == b <==> b.Plus(GAP) == a
  {
    hide Check.Plus;
    PlusTwice(a, GAP);
    PlusTwice(b, GAP);
  }

  lemma PlusTwice(a: Check, b: Check)
    ensures a.Plus(b).Plus(b) == a
  {
  }

  /** Only two bursts have syndromes that differ as C and C' do: the single bit 20, and the bits 23
      and 24. */
  lemma BurstsAcrossGap(b: nat, i: nat)
    requires b < BURSTS && i < BURSTS
    ensures BurstSyndrome(b).Plus(GAP) == BurstSyndrome(i) <==> (b == 20 && i == 49) || (b == 49 && i == 20)
  {
    hide Row, Pair;
    var rowB, rowI := if b == 51 then 0 else 25 - b, if i == 51 then 0 else 25 - i;
    if (b < 26 || b == 51) && (i < 26 || i == 51) {
      RowGapRow(rowB, rowI);
    } else if b < 26 || b == 51 {
      RowGapPair(rowB, 51 - i);
    } else if i < 26 || i == 51 {
      GapMoves(BurstSyndrome(b), BurstSyndrome(i));
      RowGapPair(rowI, 51 - b);
    } else {
      PairGapPair(51 - b, 51 - i);
    }
  }

  /** The word as it arrives. */
  function Damaged(data: Data, b: nat): Word
    requires b < BURSTS
  {
    XorWord(Encode(data, CPrime), Burst(b));
    Xor(Encode(data, CPrime), Burst(b))
  }

  lemma DamagedSyndrome(data: Data, b: nat)
    requires b < BURSTS
    ensures Syndrome(Damaged(data, b)) == OffsetSyndrome(CPrime).Plus(BurstSyndrome(b))
  {
    hide Row, Pair, Burst, BurstSyndrome, OffsetSyndrome, Encode, Syndrome;
    EncodeKeepsData(data, CPrime);
    SyndromeCharacterisesEncoding(Encode(data, CPrime), CPrime);
    SyndromeLinear(Encode(data, CPrime), Burst(b));
    SyndromeOfBurst(b);
  }

  /** A listed burst explains the damaged word as a C block exactly if it lies across the gap. */
  lemma ListedForC(data: Data, b: nat, i: nat)
    requires b < BURSTS && i < BURSTS
    ensures TableSyndrome(C, i) == Syndrome(Damaged(data, b)) <==> (b == 20 && i == 49) || (b == 49 && i == 20)
  {
    hide Row, Pair, Burst, BurstSyndrome, OffsetSyndrome, Encode, Syndrome, Damaged;
    DamagedSyndrome(data, b);
    GapBetween();
    Cancelled(OffsetSyndrome(C), BurstSyndrome(b), BurstSyndrome(i));
    BurstsAcrossGap(b, i);
  }

  lemma Cancelled(c: Check, a: Check, b: Check)
    ensures c.Plus(b) == c.Plus(GAP).Plus(a) <==> a.Plus(GAP) == b
  {
  }

  lemma {:induction false} ShrXor(a: nat, b: nat, n: nat)
    ensures Shr(Xor(a, b), n) == Xor(Shr(a, n), Shr(b, n))
  {
    if n > 0 {
      ShrXor(a, b, n - 1);
      XorHalves(Shr(a, n - 1), Shr(b, n - 1));
    }
  }

  lemma DataByShift(w: nat)
    ensures w / 0x400 == Shr(w, 10)
  {
    assert Shr(w, 2) == Shr(w, 1) / 2 == w / 4;
    assert Shr(w, 4) == Shr(w, 3) / 2 == w / 16;
    assert Shr(w, 6) == Shr(w, 5) / 2 == w / 64;
    assert Shr(w, 8) == Shr(w, 7) / 2 == w / 256;
    assert Shr(w, 10) == Shr(w, 9) / 2;
  }

  /** The data of the block after the second burst has been taken for the first. */
  lemma WrongData(data: Data, b: nat, i: nat)
    requires (b == 20 && i == 49) || (b == 49 && i == 20)
    ensures Xor(Damaged(data, b), Burst(i)) / 0x400 == Xor(data, 0x6400)
  {
    hide Encode, Row, Pair;
    var sent := Encode(data, CPrime);
    EncodeKeepsData(data, CPrime);
    TwoBursts();
    XorAssociates(sent, Burst(b), Burst(i));
    XorCommutes(Burst(b), Burst(i));
    DataByShift(Xor(sent, 0x190_0000));
    DataByShift(sent);
    DataByShift(0x190_0000);
    ShrXor(sent, 0x190_0000, 10);
  }

  lemma TwoBursts()
    ensures Burst(20) == 0x10_0000 && Burst(49) == 0x180_0000
    ensures Xor(0x10_0000, 0x180_0000) == 0x190_0000
  {
    hide Xor, Shl;
    PowersOfTwo();
    ShlScale(3, 23);
    XorDisjoint(3, 0x10_0000, 23);
    XorCommutes(0x10_0000, 0x180_0000);
  }

  lemma PowersOfTwo()
    ensures Shl(1, 20) == 0x10_0000 && Shl(1, 23) == 0x80_0000
  {
    assert Shl(1, 12) == 0x1000 && Shl(1, 11) == 0x800 && Shl(1, 8) == 0x100;
    ShlAdd(1, 12, 11);
    ShlAdd(1, 12, 8);
    ShlScale(Shl(1, 12), 11);
    ShlScale(Shl(1, 12), 8);
  }

  /** A C' block hit by a burst is never recognised as what it is, and counts as wrong. Exactly two
      of the bursts make it look like a damaged C block: it is then passed on as one, marked, but
      with two or three bits of its data wrong. Hit by any other, it is dropped. */
  lemma DamagedCPrimeExact(data: Data, b: nat)
    requires b < BURSTS
    ensures var raw := Damaged(data, b);
            var block := Decode(raw, C, true);
            && Refine(C, OffsetOf(raw)) == C && OffsetOf(raw) != C
            && (block.isReceived <==> b == 20 || b == 49)
            && (block.isReceived ==>
                  block.hadErrors && block.offset == C && block.data == Xor(data, 0x6400) != data)
            && !Decode(raw, C, false).isReceived
  {
    hide OffsetOf, CorrectBurst, Damaged, Xor;
    NeitherKind(data, b);
    CorrectedAsC(data, b);
    DataDiffers(data);
  }

  lemma DataDiffers(data: nat)
    ensures Xor(data, 0x6400) != data
  {
    hide Xor;
    XorCommutes(data, 0x6400);
    XorCancels(0x6400, data);
    XorSelf(data);
  }

  /** The table for C lists the syndrome for two bursts only, and corrects the wrong bits. */
  lemma CorrectedAsC(data: Data, b: nat)
    requires b < BURSTS
    ensures var fixed := CorrectBurst(Damaged(data, b), C);
            && (fixed.Some? <==> b == 20 || b == 49)
            && (fixed.Some? ==> fixed.value / 0x400 == Xor(data, 0x6400))
  {
    hide Encode, Burst, Syndrome, TableSyndrome, Damaged, Xor;
    var found := FindBurst(Syndrome(Damaged(data, b)), C, 0);
    if b == 20 || b == 49 {
      ListedForC(data, b, 69 - b);
      assert found.Some?;
    }
    if found.Some? {
      ListedForC(data, b, found.value);
      WrongData(data, b, found.value);
    }
  }

  lemma NeitherKind(data: Data, b: nat)
    requires b < BURSTS
    ensures OffsetOf(Damaged(data, b)) != CPrime && OffsetOf(Damaged(data, b)) != C
  {
    hide Encode, Burst, Syndrome, Row, Pair, BurstSyndrome;
    DamagedBlockSyndrome(data, CPrime, b);
    DamagedSyndrome(data, b);
    BurstSyndromeNeverHides(b);
    var s := OffsetSyndrome(CPrime).Plus(BurstSyndrome(b));
    OffsetForSyndromeExact(s, C);
    GapBack(BurstSyndrome(b));
  }

  lemma GapBack(s: Check)
    ensures OffsetSyndrome(CPrime).Plus(s) == OffsetSyndrome(C) <==> OffsetSyndrome(C).Plus(s) == OffsetSyndrome(CPrime)
  {
  }
}
