/** What can go wrong once the 32-bit bit counter has wrapped round: a stream on which sync is
 *  regained, after a loss, on the strength of a single block.
 */
module CounterWrap {
  import opened Acquisition
  import opened Bitwise
  import opened BlockCode
  import opened BurstCorrection
  import opened ColdStart
  import opened Framing
  import opened Seqs
  import opened SyncMachine

  // ---------------------------------------------------------------------------
  // A block with two bits set, passing through the window
  // ---------------------------------------------------------------------------

  /** The bit of the window at place p, if p is one. */
  function BitAtPlace(p: int): (n: nat) {
    if 0 <= p < BLOCK_LENGTH then Shl(1, p) else 0
  }

  function RowAtPlace(p: int): Check {
    if 0 <= p < BLOCK_LENGTH then Row(25 - p) else ZERO
  }

  /** A word of kind A, with bits 18 and 5 set, moved up by some places or down. */
  function MovedWord(up: int): nat {
    BitAtPlace(18 + up) + BitAtPlace(5 + up)
  }

  lemma PlaceSyndrome(p: int)
    ensures BitAtPlace(p) < 0x400_0000
    ensures Syndrome(BitAtPlace(p)) == RowAtPlace(p)
  {
    hide Row, SyndromeFrom;
    if 0 <= p < BLOCK_LENGTH {
      SyndromeOfBurst(p);
      PlaceFits(p);
    } else {
      SyndromeOfZero(0);
    }
  }

  lemma PlaceFits(p: nat)
    requires p < BLOCK_LENGTH
    ensures Shl(1, p) < 0x400_0000 && Burst(p) == Shl(1, p)
  {
    BlockSize();
    ShlMonotone(p + 1, 26);
  }

  lemma MovedSyndrome(up: int)
    ensures MovedWord(up) < 0x400_0000
    ensures Syndrome(MovedWord(up)) == RowAtPlace(18 + up).Plus(RowAtPlace(5 + up))
  {
    hide Row, Syndrome, RowAtPlace, Xor;
    PlaceSyndrome(18 + up);
    PlaceSyndrome(5 + up);
    SyndromeLinear(BitAtPlace(18 + up), BitAtPlace(5 + up));
    PlacesApart(up);
    XorWord(BitAtPlace(18 + up), BitAtPlace(5 + up));
  }

  lemma PlacesApart(up: int)
    ensures Xor(BitAtPlace(18 + up), BitAtPlace(5 + up)) == MovedWord(up)
  {
    var p, q := 18 + up, 5 + up;
    if 0 <= p < BLOCK_LENGTH && 0 <= q {
      ShlMonotone(q + 1, p);
      XorDisjoint(1, Shl(1, q), p);
    } else {
      XorZero(BitAtPlace(p));
      XorZero(BitAtPlace(q));
    }
  }

  /** Only in its own place does the word look like a block. */
  lemma OnlyInPlace(up: int)
    ensures OffsetOf(MovedWord(up) % 0x400_0000) == if up == 0 then A else Invalid
  {
    hide Syndrome, MovedWord;
    MovedSyndrome(up);
    if -18 <= up < 0 {
      NotYet(18 + up);
    } else if 0 <= up < 21 {
      NoLonger(up);
    } else {
      assert RowAtPlace(18 + up) == RowAtPlace(5 + up) == ZERO;
    }
  }

  lemma NotYet(p: nat)
    requires p < 18
    ensures OffsetForSyndrome(RowAtPlace(p).Plus(RowAtPlace(p - 13))) == Invalid
  {
    match p {
      case 0 => case 1 => case 2 => case 3 => case 4 => case 5 => case 6 => case 7 => case 8 =>
      case 9 => case 10 => case 11 => case 12 => case 13 => case 14 => case 15 => case 16 =>
      case 17 =>
    }
  }

  lemma NoLonger(up: nat)
    requires up < 21
    ensures OffsetForSyndrome(RowAtPlace(18 + up).Plus(RowAtPlace(5 + up))) == if up == 0 then A else Invalid
  {
    match up {
      case 0 => case 1 => case 2 => case 3 => case 4 => case 5 => case 6 => case 7 => case 8 =>
      case 9 => case 10 => case 11 => case 12 => case 13 => case 14 => case 15 => case 16 =>
      case 17 => case 18 => case 19 => case 20 =>
    }
  }

  lemma MovedOn(up: int)
    ensures (2 * MovedWord(up) + Bit(up == -19 || up == -6)) % 0x400_0000 == MovedWord(up + 1)
  {
    PlaceMovedOn(18 + up);
    PlaceMovedOn(5 + up);
    MovedFits(up + 1);
  }

  lemma MovedFits(up: int)
    ensures MovedWord(up) < 0x400_0000
  {
    hide Syndrome, RowAtPlace;
    MovedSyndrome(up);
  }

  lemma PlaceMovedOn(p: int)
    ensures 2 * BitAtPlace(p) + Bit(p == -1) == BitAtPlace(p + 1) + if p == 25 then 0x400_0000 else 0
  {
    BlockSize();
  }

  // ---------------------------------------------------------------------------
  // Streams of zeros with that word here and there
  // ---------------------------------------------------------------------------

  ghost predicate ZerosIn(log: seq<bool>, from: int, to: int) {
    forall i | 0 <= i < |log| && from <= i < to :: !log[i]
  }

  /** The word ends at position e, with 26 zeros before and after it as far as the log reaches. */
  ghost predicate WordAt(log: seq<bool>, e: nat) {
    && 26 <= e <= |log|
    && forall i | 0 <= i < |log| && e - 52 <= i < e + 26 :: log[i] <==> i == e - 19 || i == e - 6
  }

  lemma WindowNext(log: seq<bool>, n: nat)
    requires n < |log|
    ensures WindowAt(log, n + 1) == ShiftIn(WindowAt(log, n), log[n])
  {
    SameWindows(log, n);
    SameWindows(log, n + 1);
    WindowPush(log[..n], log[n]);
    assert log[..n + 1] == log[..n] + [log[n]];
  }

  lemma {:induction false} ValueOfZeros(bits: seq<bool>)
    requires forall i :: 0 <= i < |bits| ==> !bits[i]
    ensures Value(bits) == 0
  {
    if bits != [] {
      ValueOfZeros(bits[..|bits| - 1]);
    }
  }

  lemma ZeroWindow(log: seq<bool>, n: nat)
    requires n <= |log| && ZerosIn(log, n - 26, n)
    ensures WindowAt(log, n) == 0
  {
    if n < 26 {
      ValueOfZeros(log[..n]);
    } else {
      var before, bits := log[..n - 26], log[n - 26..n];
      ValueOfZeros(bits);
      WindowOfBlock(before, bits);
      assert before + bits == log[..n];
    }
  }

  /** While the word is in the window, the window is the word moved. */
  lemma {:induction false} WordPasses(log: seq<bool>, e: nat, n: nat)
    requires WordAt(log, e) && e - 26 <= n <= e + 26 && n <= |log|
    ensures WindowAt(log, n) == MovedWord(n - e)
    decreases n
  {
    hide WindowAt, MovedWord, Shl;
    if n == e - 26 {
      ZeroWindow(log, n);
      assert MovedWord(-26) == 0 by { NothingLeft(-26); }
    } else {
      WordPasses(log, e, n - 1);
      WindowNext(log, n - 1);
      MovedOn(n - 1 - e);
    }
  }

  lemma NothingLeft(up: int)
    requires up <= -19
    ensures MovedWord(up) == 0
  {
  }

  lemma ValidNearWord(log: seq<bool>, e: nat, n: nat)
    requires WordAt(log, e) && e - 26 <= n <= e + 26 && n <= |log|
    ensures OffsetAt(log, n) == if n == e then A else Invalid
  {
    hide WindowAt, MovedWord, OffsetOf;
    WordPasses(log, e, n);
    MovedFits(n - e);
    OnlyInPlace(n - e);
  }

  lemma NothingInZeros(log: seq<bool>, n: nat)
    requires n <= |log| && ZerosIn(log, n - 26, n)
    ensures OffsetAt(log, n) == Invalid
  {
    hide WindowAt, Row;
    ZeroWindow(log, n);
    SyndromeOfZero(0);
  }

  // ---------------------------------------------------------------------------
  // Silence ends sync
  // ---------------------------------------------------------------------------

  /** The newest t flags are errors. */
  ghost predicate EndsInErrors(errors: seq<bool>, t: nat) {
    t <= |errors| && forall i :: |errors| - t <= i < |errors| ==> errors[i]
  }

  lemma {:induction false} ErrorsCount(errors: seq<bool>, t: nat)
    requires EndsInErrors(errors, t)
    ensures Count(errors) >= t
  {
    if t > 0 {
      ErrorsCount(errors[..|errors| - 1], t - 1);
    }
  }

  lemma OneMoreError(errors: ErrorWindow, t: nat)
    requires EndsInErrors(errors, t) && t < ERROR_WINDOW
    ensures EndsInErrors(Newest(errors + [true], ERROR_WINDOW), t + 1)
  {
  }

  /** A block of zeros in sync counts as wrong. */
  lemma SilentBlock(useFec: bool, log: seq<bool>, n: nat, t: nat)
    requires n + 26 <= |log| && ZerosIn(log, n, n + 26) && t < ERROR_WINDOW
    requires Aligned(LinkAt(useFec, log, n)) && EndsInErrors(LinkAt(useFec, log, n).errors, t)
    ensures LinkAt(useFec, log, n + 25).inSync
    ensures var next := LinkAt(useFec, log, n + 26);
            && next.pulses == LinkAt(useFec, log, n).pulses
            && (next.inSync ==> Aligned(next) && EndsInErrors(next.errors, t + 1)
                                && Count(next.errors) <= MAX_ERRORS_TOLERATED)
  {
    hide Fresh, Receive, ProcessBlock, OffsetOf, Count, EndsInErrors;
    var s, bits := LinkAt(useFec, log, n), log[n..n + 26];
    assert log[..n + 26] == log[..n] + bits;
    ReceiveConcat(Fresh(useFec), log[..n], bits);
    BlockStep(s, bits);
    ValueOfZeros(bits);
    ZeroIsNoBlock();
    ProcessAndErrors(s, 0);
    ProcessPulses(s, 0);
    OneMoreError(s.errors, t);
    if ProcessBlock(s, 0).link.inSync {
      ProcessKeepsAlignment(s, 0);
    }
    assert log[..n + 25] == log[..n] + bits[..25];
    ReceiveConcat(Fresh(useFec), log[..n], bits[..25]);
    Coast(s, bits[..25]);
  }

  lemma ZeroIsNoBlock()
    ensures OffsetOf(0) == Invalid
  {
    hide Row;
    SyndromeOfZero(0);
  }

  lemma ProcessPulses(s: Link, raw: Word)
    ensures ProcessBlock(s, raw).link.pulses == s.pulses
  {
    hide Decode, Count, Newest, SetBlock, NextOffset, Refine, OffsetOf;
  }

  /** Silence ends sync within 43 blocks, and leaves the pulses as they are. */
  lemma {:induction false} SilenceEndsSync(useFec: bool, log: seq<bool>, n: nat, t: nat) returns (m: nat)
    requires t <= 43 && n + 26 * (43 - t) <= |log| && ZerosIn(log, n, n + 26 * (43 - t))
    requires Aligned(LinkAt(useFec, log, n)) && EndsInErrors(LinkAt(useFec, log, n).errors, t)
    requires Count(LinkAt(useFec, log, n).errors) <= MAX_ERRORS_TOLERATED
    ensures n + 26 <= m <= n + 26 * (43 - t) && LostAt(useFec, log, m)
    ensures LinkAt(useFec, log, m).pulses == LinkAt(useFec, log, n).pulses
    decreases 43 - t
  {
    hide LinkAt, Count, EndsInErrors;
    ErrorsCount(LinkAt(useFec, log, n).errors, t);
    SilentBlock(useFec, log, n, t);
    if LinkAt(useFec, log, n + 26).inSync {
      m := SilenceEndsSync(useFec, log, n + 26, t + 1);
    } else {
      m := n + 26;
    }
  }

  // ---------------------------------------------------------------------------
  // Sync on a single block
  // ---------------------------------------------------------------------------

  /** Where the last word of the stream ends: a wrap of the counter and four blocks after the third. */
  const STALE_END: nat := 338 + COUNTER_SIZE

  /** Three words of kind A four blocks apart, a long silence, and one such word more. */
  function StaleStream(): (log: seq<bool>)
    ensures |log| == STALE_END
    ensures forall i :: 0 <= i < |log| ==>
              (log[i] <==> InWord(i, 26) || InWord(i, 130) || InWord(i, 234) || InWord(i, STALE_END))
  {
    seq(STALE_END, i => InWord(i, 26) || InWord(i, 130) || InWord(i, 234) || InWord(i, STALE_END))
  }

  /** One of the two bits set in the word that ends at e. */
  predicate InWord(i: int, e: int) {
    i == e - 19 || i == e - 6
  }

  /** Only the four words look like blocks, each of them as kind A. */
  lemma StaleWindows(n: nat)
    requires n <= STALE_END
    ensures OffsetAt(StaleStream(), n) == if n in [26, 130, 234, STALE_END] then A else Invalid
  {
    hide OffsetAt;
    var log := StaleStream();
    if n <= 52 {
      ValidNearWord(log, 26, n);
    } else if 104 <= n <= 156 {
      ValidNearWord(log, 130, n);
    } else if 208 <= n <= 260 {
      ValidNearWord(log, 234, n);
    } else if STALE_END - 26 <= n {
      ValidNearWord(log, STALE_END, n);
    } else {
      NothingInZeros(log, n);
    }
  }

  /** After the third word the receiver is in sync. */
  lemma StaleStart(useFec: bool)
    ensures var s := LinkAt(useFec, StaleStream(), 234);
            && Aligned(s) && s.errors == [false]
            && s.pulses == [NO_PULSE, Pulse(A, 26), Pulse(A, 130), Pulse(A, 234)]
  {
    hide LinkAt, OffsetAt, StaleStream;
    var log := StaleStream();
    forall n | 0 <= n <= STALE_END {
      StaleWindows(n);
    }
    LinkAtStart(useFec, log);
    Advance(useFec, log, 0, 25, 0);
    SearchAt(useFec, log, 25);
    Advance(useFec, log, 26, 129, 0);
    SearchAt(useFec, log, 129);
    Advance(useFec, log, 130, 233, 0);
    SearchAt(useFec, log, 233);
  }

  /** What SyncFresh asks of the age of old pulses is not asked in vain. On this stream sync is
      lost, and the only window since then that looks like a block is the one with which sync is
      regained: it is taken to be four blocks after a pulse from before the wrap, from which it is
      no whole number of blocks away. */
  lemma StaleSync(useFec: bool) returns (m: nat)
    ensures var log := StaleStream();
            && Regained(useFec, log, m, STALE_END - 1)
            && (forall n :: m < n < STALE_END ==> OffsetAt(log, n) == Invalid)
            && !JustifiedAt(log, STALE_END, m)
            && RhythmAt(log, STALE_END, 234) && (STALE_END - 234) % BLOCK_LENGTH != 0
  {
    hide LinkAt, OffsetAt, StaleStream;
    var log := StaleStream();
    StaleStart(useFec);
    m := StaleLoss(useFec);
    forall n | 0 <= n <= STALE_END {
      StaleWindows(n);
    }
    Advance(useFec, log, m, STALE_END - 1, 0);
    SearchAt(useFec, log, STALE_END - 1);
  }

  lemma StaleLoss(useFec: bool) returns (m: nat)
    ensures var log := StaleStream();
            && 260 <= m <= 234 + 26 * 43 && LostAt(useFec, log, m)
            && LinkAt(useFec, log, m).pulses == LinkAt(useFec, log, 234).pulses
  {
    hide LinkAt;
    StaleStart(useFec);
    assert Count([false]) == 0;
    m := SilenceEndsSync(useFec, StaleStream(), 234, 0);
  }
}
