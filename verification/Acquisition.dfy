/** What is true of the receiver after any stream of bits: why it is in sync, and since when. */
module Acquisition {
  import opened Bitwise
  import opened BlockCode
  import opened Framing
  import opened Seqs
  import opened SyncMachine

  /** The last 26 of the first n bits, with zeros before the first bit. */
  function WindowAt(log: seq<bool>, n: nat): Word
    requires n <= |log|
  {
    Value(log[..n]) % 0x400_0000
  }

  function OffsetAt(log: seq<bool>, n: nat): Offset
    requires n <= |log|
  {
    OffsetOf(WindowAt(log, n))
  }

  /** The receiver after the first n bits. */
  function LinkAt(useFec: bool, log: seq<bool>, n: nat): Link
    requires n <= |log|
  {
    Receive(Fresh(useFec), log[..n]).link
  }

  lemma LinkAtNext(useFec: bool, log: seq<bool>, n: nat)
    requires n < |log|
    ensures LinkAt(useFec, log, n + 1) == Collect(Step(LinkAt(useFec, log, n), log[n])).link
  {
    hide Step, Fresh;
    assert log[..n + 1] == log[..n] + [log[n]];
    ReceiveConcat(Fresh(useFec), log[..n], [log[n]]);
    ReceiveOne(LinkAt(useFec, log, n), log[n]);
  }

  // ---------------------------------------------------------------------------
  // The invariant
  // ---------------------------------------------------------------------------

  /** The buffered pulses are valid windows of the log, in order. */
  ghost predicate PulsesSeen(pulses: Pulses, log: seq<bool>) {
    && (forall i | 0 <= i < 4 && pulses[i].offset != Invalid ::
          && 1 <= pulses[i].position <= |log|
          && OffsetAt(log, pulses[i].position) == pulses[i].offset)
    && (forall i, j | 0 <= i < j < 4 && pulses[i].offset != Invalid ::
          pulses[j].offset != Invalid && pulses[i].position < pulses[j].position)
  }

  /** Where the block boundary before the current position lies. */
  function Boundary(s: Link): int {
    s.bitCount + s.untilNext - BLOCK_LENGTH
  }

  /** The bit position at which sync was acquired. */
  function AcquiredAt(s: Link): nat {
    s.pulses[3].position
  }

  ghost predicate SyncHistory(s: Link) {
    if s.inSync then
      && s.pulses[3].offset != Invalid
      && SequenceFound(s.pulses)
      && s.expected != CPrime
      && s.untilNext <= BLOCK_LENGTH
      && AcquiredAt(s) <= Boundary(s)
      && (Boundary(s) - AcquiredAt(s)) % BLOCK_LENGTH == 0
      && Count(s.errors) <= (Boundary(s) - AcquiredAt(s)) / BLOCK_LENGTH
    else
      s.untilNext == 1 && s.errors == []
  }

  ghost predicate Consistent(s: Link, log: seq<bool>) {
    && s.bitCount == |log|
    && s.register == WindowAt(log, |log|)
    && !s.hasReady
    && PulsesSeen(s.pulses, log)
    && SyncHistory(s)
  }

  lemma WindowPush(log: seq<bool>, bit: bool)
    ensures WindowAt(log + [bit], |log| + 1) == ShiftIn(WindowAt(log, |log|), bit)
    ensures forall n | 0 <= n <= |log| :: WindowAt(log + [bit], n) == WindowAt(log, n)
  {
    var next := log + [bit];
    assert next[..|log| + 1] == next && log[..|log|] == log;
    ValuePush(log, bit);
    DoubleMod(Value(log), Bit(bit));
    forall n | 0 <= n <= |log| ensures WindowAt(next, n) == WindowAt(log, n) {
      assert next[..n] == log[..n];
    }
  }

  lemma PulsesSeenLater(pulses: Pulses, log: seq<bool>, bit: bool)
    requires PulsesSeen(pulses, log)
    ensures PulsesSeen(pulses, log + [bit])
  {
    hide WindowAt, OffsetOf;
    WindowPush(log, bit);
  }

  lemma PulseAdded(pulses: Pulses, log: seq<bool>, bit: bool)
    requires PulsesSeen(pulses, log) && OffsetAt(log + [bit], |log| + 1) != Invalid
    ensures PulsesSeen(PushPulse(pulses, Pulse(OffsetAt(log + [bit], |log| + 1), |log| + 1)),
                       log + [bit])
  {
    hide WindowAt, OffsetOf;
    WindowPush(log, bit);
    PulsesSeenLater(pulses, log, bit);
  }

  /** A bit that does not complete a block. */
  lemma CoastingStep(s: Link, log: seq<bool>, bit: bool)
    requires Consistent(s, log) && s.untilNext > 1
    ensures Consistent(Collect(Step(s, bit)).link, log + [bit])
  {
    hide WindowAt, ShiftIn, PulsesSeen, SequenceFound;
    WindowPush(log, bit);
    PulsesSeenLater(s.pulses, log, bit);
  }

  /** The machine with the next bit in the register. */
  function Shifted(s: Link, bit: bool): Link {
    s.(register := ShiftIn(s.register, bit), bitCount := s.bitCount + 1)
  }

  /** What a window does while out of sync: nothing, a pulse, or sync with this very block. */
  lemma SearchResult(s: Link)
    requires !s.inSync && s.errors == []
    ensures var offset := OffsetOf(s.register);
            var pulses := PushPulse(s.pulses, Pulse(offset, s.bitCount));
            var t := FindBlock(s);
            && t.bitCount == s.bitCount && t.register == s.register
            && (offset == Invalid ==> t == s)
            && (offset != Invalid && !SequenceFound(pulses) ==> t == s.(pulses := pulses))
            && (offset != Invalid && SequenceFound(pulses) ==>
                  && t.inSync && t.pulses == pulses && t.errors == [false]
                  && t.expected == NextOffset(offset) && t.useFec == s.useFec)
  {
    hide SequenceFound, OffsetOf, Track;
    var offset := OffsetOf(s.register);
    if offset != Invalid && SequenceFound(PushPulse(s.pulses, Pulse(offset, s.bitCount))) {
      FirstTracked(Acquire(s, offset), offset);
    }
  }

  /** The block that completes the sequence is the first one tracked, and it is no error. */
  lemma FirstTracked(s: Link, offset: Kind)
    requires s.inSync && s.errors == [] && s.expected == offset
    ensures var t := Track(s, offset);
            && t.bitCount == s.bitCount && t.register == s.register && t.pulses == s.pulses
            && t.inSync && t.errors == [false]
            && t.expected == NextOffset(offset) && t.useFec == s.useFec
  {
    hide Decode, SetBlock, NextOffset, OffsetOf;
    assert Newest([] + [false], ERROR_WINDOW) == [false];
    assert Count([false]) == 0;
  }

  /** A bit that completes a window while out of sync. */
  lemma SearchingStep(s: Link, log: seq<bool>, bit: bool)
    requires Consistent(s, log) && !s.inSync
    ensures Consistent(Collect(Step(s, bit)).link, log + [bit])
  {
    hide WindowAt, ShiftIn, PulsesSeen, SequenceFound, OffsetOf, FindBlock;
    WindowPush(log, bit);
    PulsesSeenLater(s.pulses, log, bit);
    SearchResult(Shifted(s, bit));
    if OffsetAt(log + [bit], |log| + 1) != Invalid {
      PulseAdded(s.pulses, log, bit);
      assert Count([false]) == 0;
    }
  }

  /** What a window does in sync: it adds a block to the error window, and may end sync. */
  lemma TrackResult(s: Link)
    requires s.inSync
    ensures var t := FindBlock(s);
            && t.bitCount == s.bitCount && t.register == s.register && t.pulses == s.pulses
            && if t.inSync then t.expected != CPrime && Count(t.errors) <= Count(s.errors) + 1
               else t.errors == [] && Count(s.errors) >= MAX_ERRORS_TOLERATED
  {
    hide OffsetOf, Decode, SetBlock, Count, Newest;
    var offset := OffsetOf(s.register);
    CountNewestPush(s.errors, offset != Refine(s.expected, offset), ERROR_WINDOW);
    NewestAll(s.errors);
  }

  /** A bit that completes a block in sync. */
  lemma TrackingStep(s: Link, log: seq<bool>, bit: bool)
    requires Consistent(s, log) && s.inSync && s.untilNext == 1
    ensures Consistent(Collect(Step(s, bit)).link, log + [bit])
  {
    hide WindowAt, ShiftIn, PulsesSeen, SequenceFound, FindBlock, Count;
    WindowPush(log, bit);
    PulsesSeenLater(s.pulses, log, bit);
    TrackResult(Shifted(s, bit));
  }

  lemma NewestAll(errors: ErrorWindow)
    ensures Newest(errors, ERROR_WINDOW) == errors
  {
  }

  /** The last bit of a stream is one step of the machine. */
  lemma LastStep(useFec: bool, log: seq<bool>)
    requires log != []
    ensures Receive(Fresh(useFec), log).link ==
            Collect(Step(Receive(Fresh(useFec), log[..|log| - 1]).link, log[|log| - 1])).link
  {
    hide Step, Fresh, Receive, Collect;
    var init, last := log[..|log| - 1], log[|log| - 1];
    assert log == init + [last];
    ReceiveConcat(Fresh(useFec), init, [last]);
    ReceiveOne(Receive(Fresh(useFec), init).link, last);
  }

  lemma FreshConsistent(useFec: bool)
    ensures Consistent(Fresh(useFec), [])
  {
    assert Value([]) == 0;
  }

  lemma {:induction false} AlwaysConsistent(useFec: bool, log: seq<bool>)
    ensures Consistent(Receive(Fresh(useFec), log).link, log)
  {
    hide Step, Consistent, Fresh, Receive;
    if log == [] {
      ReceiveNothing(Fresh(useFec));
      FreshConsistent(useFec);
    } else {
      var init, last := log[..|log| - 1], log[|log| - 1];
      assert log == init + [last];
      AlwaysConsistent(useFec, init);
      LastStep(useFec, log);
      AnyStep(Receive(Fresh(useFec), init).link, init, last);
    }
  }

  lemma AnyStep(s: Link, log: seq<bool>, bit: bool)
    requires Consistent(s, log)
    ensures Consistent(Collect(Step(s, bit)).link, log + [bit])
  {
    hide Step, PulsesSeen, WindowAt;
    if s.untilNext > 1 {
      CoastingStep(s, log, bit);
    } else if s.inSync {
      TrackingStep(s, log, bit);
    } else {
      SearchingStep(s, log, bit);
    }
  }

  // ---------------------------------------------------------------------------
  // Sync is justified
  // ---------------------------------------------------------------------------

  /** The windows ending at two positions are blocks in the cyclic rhythm, the gap between them
      counted modulo 2^32. */
  ghost predicate RhythmAt(log: seq<bool>, later: nat, earlier: nat)
    requires earlier <= |log| && later <= |log|
  {
    CouldFollow(Pulse(OffsetAt(log, later), later), Pulse(OffsetAt(log, earlier), earlier))
  }

  /** Two earlier valid windows lead up to the one at n in the cyclic rhythm. */
  ghost predicate JustifiedAt(log: seq<bool>, n: nat, since: nat)
    requires n <= |log|
  {
    exists first, second :: since < first < second < n
                            && RhythmAt(log, n, second) && RhythmAt(log, second, first)
  }

  /** Each buffered pulse is newer than a given position, or out of rhythm with everything
      between that position and n. */
  ghost predicate FreshOrStale(pulses: Pulses, n: nat, since: nat) {
    forall i | 0 <= i < 4 && pulses[i].offset != Invalid ::
      pulses[i].position > since || TooOld(pulses[i].position, n, since)
  }

  ghost predicate TooOld(position: nat, n: nat, since: nat) {
    forall later | since < later <= n :: Distance(later, position) > MAX_BLOCK_GAP * BLOCK_LENGTH
  }

  lemma ChainJustifies(pulses: Pulses, log: seq<bool>, since: nat)
    requires PulsesSeen(pulses, log) && SequenceFound(pulses)
    requires pulses[3].offset != Invalid && pulses[3].position == |log| > since
    requires FreshOrStale(pulses, |log|, since)
    ensures JustifiedAt(log, |log|, since)
  {
    hide WindowAt, OffsetOf, Distance;
    var first, second := FindSequence(pulses);
    assert pulses[second].position > since;
    assert pulses[first].position > since;
    assert RhythmAt(log, |log|, pulses[second].position);
    assert RhythmAt(log, pulses[second].position, pulses[first].position);
  }

  lemma AcquiringStep(useFec: bool, log: seq<bool>, n: nat)
    requires n < |log|
    requires !LinkAt(useFec, log, n).inSync && LinkAt(useFec, log, n + 1).inSync
    ensures var pulses := LinkAt(useFec, log, n + 1).pulses;
            && PulsesSeen(pulses, log[..n + 1]) && SequenceFound(pulses)
            && pulses[3].offset != Invalid && pulses[3].position == n + 1
            && pulses == PushPulse(LinkAt(useFec, log, n).pulses, pulses[3])
  {
    hide Receive, Fresh, WindowAt, OffsetOf, FindBlock, SequenceFound;
    AlwaysConsistent(useFec, log[..n]);
    AlwaysConsistent(useFec, log[..n + 1]);
    LinkAtNext(useFec, log, n);
    SearchResult(Shifted(LinkAt(useFec, log, n), log[n]));
  }

  lemma JustifiedInPrefix(log: seq<bool>, n: nat, since: nat)
    requires n <= |log| && JustifiedAt(log[..n], n, since)
    ensures JustifiedAt(log, n, since)
  {
    hide WindowAt, OffsetOf;
    var prefix := log[..n];
    var first, second :| since < first < second < n
                         && RhythmAt(prefix, n, second) && RhythmAt(prefix, second, first);
    SameWindows(log, n);
    assert RhythmAt(log, n, second) && RhythmAt(log, second, first);
  }

  /** Sync is only ever acquired on the strength of three valid blocks in the right rhythm,
      the last of which ends with the bit just received. */
  lemma SyncJustified(useFec: bool, log: seq<bool>, n: nat)
    requires n < |log|
    requires !LinkAt(useFec, log, n).inSync && LinkAt(useFec, log, n + 1).inSync
    ensures AcquiredAt(LinkAt(useFec, log, n + 1)) == n + 1
    ensures JustifiedAt(log, n + 1, 0)
  {
    hide LinkAt, WindowAt, OffsetOf, SequenceFound;
    AcquiringStep(useFec, log, n);
    ChainJustifies(LinkAt(useFec, log, n + 1).pulses, log[..n + 1], 0);
    JustifiedInPrefix(log, n + 1, 0);
  }

  lemma FindSequence(pulses: Pulses) returns (first: nat, second: nat)
    requires SequenceFound(pulses)
    ensures first < second < 3
    ensures CouldFollow(pulses[3], pulses[second]) && CouldFollow(pulses[second], pulses[first])
  {
    if CouldFollow(pulses[3], pulses[1]) && CouldFollow(pulses[1], pulses[0]) {
      first, second := 0, 1;
    } else if CouldFollow(pulses[2], pulses[0]) {
      first, second := 0, 2;
    } else {
      first, second := 1, 2;
    }
  }

  lemma SameWindows(log: seq<bool>, n: nat)
    requires n <= |log|
    ensures forall p | 0 <= p <= n :: WindowAt(log[..n], p) == WindowAt(log, p)
  {
    forall p | 0 <= p <= n ensures WindowAt(log[..n], p) == WindowAt(log, p) {
      assert log[..n][..p] == log[..p];
    }
  }

  // ---------------------------------------------------------------------------
  // Sync is fresh
  // ---------------------------------------------------------------------------

  /** Sync is lost with bit number m. */
  ghost predicate LostAt(useFec: bool, log: seq<bool>, m: nat)
    requires m <= |log|
  {
    m > 0 && LinkAt(useFec, log, m - 1).inSync && !LinkAt(useFec, log, m).inSync
  }

  /** Losing sync takes 43 wrong blocks, so by then everything in the buffer is 43 blocks old. */
  lemma LossTakesTime(useFec: bool, log: seq<bool>, m: nat)
    requires m <= |log| && LostAt(useFec, log, m)
    ensures NewerOrOld(LinkAt(useFec, log, m).pulses, m)
  {
    hide Receive, Fresh, WindowAt, FindBlock, Count, SequenceFound, ShiftIn;
    AlwaysConsistent(useFec, log[..m - 1]);
    LinkAtNext(useFec, log, m - 1);
    TrackResult(Shifted(LinkAt(useFec, log, m - 1), log[m - 1]));
  }

  ghost predicate NewerOrOld(pulses: Pulses, m: nat) {
    forall i | 0 <= i < 4 && pulses[i].offset != Invalid ::
      pulses[i].position > m || pulses[i].position + 43 * BLOCK_LENGTH <= m
  }

  lemma PulsesNext(useFec: bool, log: seq<bool>, n: nat)
    requires n < |log|
    ensures var pulses, next := LinkAt(useFec, log, n).pulses, LinkAt(useFec, log, n + 1).pulses;
            next == pulses || (next == PushPulse(pulses, next[3]) && next[3].position == n + 1)
  {
    hide Receive, Fresh, WindowAt, OffsetOf, FindBlock, SequenceFound;
    AlwaysConsistent(useFec, log[..n]);
    LinkAtNext(useFec, log, n);
    var t := Shifted(LinkAt(useFec, log, n), log[n]);
    if t.inSync {
      TrackKeepsPulses(t);
    } else {
      SearchResult(t);
    }
  }

  /** After a loss, buffered pulses are either newer than it or far too old to be in rhythm. */
  lemma {:induction false} StalePulses(useFec: bool, log: seq<bool>, m: nat, n: nat)
    requires m <= n <= |log| && LostAt(useFec, log, m)
    ensures NewerOrOld(LinkAt(useFec, log, n).pulses, m)
    decreases n
  {
    hide LinkAt;
    if n == m {
      LossTakesTime(useFec, log, m);
    } else {
      StalePulses(useFec, log, m, n - 1);
      PulsesNext(useFec, log, n - 1);
    }
  }

  lemma TrackKeepsPulses(s: Link)
    requires s.inSync
    ensures FindBlock(s).pulses == s.pulses
  {
    hide Decode, SetBlock, Newest, Count, OffsetOf;
  }

  /** Every pulse that is not newer than the loss was already in the buffer then. */
  lemma {:induction false} PulsesKept(useFec: bool, log: seq<bool>, m: nat, n: nat)
    requires m <= n <= |log|
    ensures NewerOrKept(LinkAt(useFec, log, n).pulses, LinkAt(useFec, log, m).pulses, m)
    decreases n
  {
    hide LinkAt;
    if m < n {
      PulsesKept(useFec, log, m, n - 1);
      PulsesNext(useFec, log, n - 1);
    }
  }

  ghost predicate NewerOrKept(pulses: Pulses, earlier: Pulses, m: nat) {
    forall i | 0 <= i < 4 && pulses[i].offset != Invalid :: pulses[i].position > m || pulses[i] in earlier
  }

  /** Each of the buffered pulses is less than 2^32 bits older than position n. */
  ghost predicate YoungAt(pulses: Pulses, n: nat) {
    forall p <- pulses | p.offset != Invalid :: n < p.position + COUNTER_SIZE
  }

  lemma OldPulsesAreStale(pulses: Pulses, kept: Pulses, m: nat, n: nat)
    requires NewerOrOld(pulses, m) && NewerOrKept(pulses, kept, m) && YoungAt(kept, n)
    ensures FreshOrStale(pulses, n, m)
  {
    forall i | 0 <= i < 4 && pulses[i].offset != Invalid && pulses[i].position <= m
      ensures TooOld(pulses[i].position, n, m)
    {
      OldIsStale(pulses[i].position, m, n);
    }
  }

  lemma OldIsStale(position: nat, m: nat, n: nat)
    requires position + 43 * BLOCK_LENGTH <= m && n < position + COUNTER_SIZE
    ensures TooOld(position, n, m)
  {
    forall later | m < later <= n
      ensures Distance(later, position) > MAX_BLOCK_GAP * BLOCK_LENGTH
    {
      SmallDistance(later, position);
    }
  }

  lemma SmallDistance(later: nat, earlier: nat)
    requires earlier <= later < earlier + COUNTER_SIZE
    ensures Distance(later, earlier) == later - earlier
  {
  }

  /** Sync is lost with bit m and regained with bit number n + 1. */
  ghost predicate Regained(useFec: bool, log: seq<bool>, m: nat, n: nat) {
    && m <= n < |log|
    && LostAt(useFec, log, m)
    && !LinkAt(useFec, log, n).inSync && LinkAt(useFec, log, n + 1).inSync
  }

  /** Sync regained after a loss rests on three blocks received since that loss, although the
      pulses seen before it are never cleared, as long as none of those still in the buffer at the
      loss is 2^32 bits old when sync is regained. */
  lemma SyncFresh(useFec: bool, log: seq<bool>, m: nat, n: nat)
    requires Regained(useFec, log, m, n)
    requires YoungAt(LinkAt(useFec, log, m).pulses, n + 1)
    ensures JustifiedAt(log, n + 1, m)
  {
    hide LinkAt, WindowAt, OffsetOf, SequenceFound, LostAt, FreshOrStale, NewerOrOld, NewerOrKept,
         YoungAt;
    StalePulses(useFec, log, m, n + 1);
    PulsesKept(useFec, log, m, n + 1);
    AcquiringStep(useFec, log, n);
    var pulses := LinkAt(useFec, log, n + 1).pulses;
    OldPulsesAreStale(pulses, LinkAt(useFec, log, m).pulses, m, n + 1);
    ChainJustifies(pulses, log[..n + 1], m);
    JustifiedInPrefix(log, n + 1, m);
  }

  /** A rhythm that is what it says: a gap of one to six blocks, and block numbers that far apart. */
  ghost predicate Genuine(later: Pulse, earlier: Pulse) {
    && later.offset != Invalid && earlier.offset != Invalid
    && exists blocks | 1 <= blocks <= 6 ::
         && later.position == earlier.position + BLOCK_LENGTH * blocks
         && (BlockNumber(earlier.offset) + blocks) % 4 == BlockNumber(later.offset)
  }

  /** What the comparison of 32-bit counters takes for a rhythm is one if and only if the gap is
      less than 2^32 bits. */
  lemma RhythmExact(later: Pulse, earlier: Pulse)
    requires earlier.position < later.position
    ensures Genuine(later, earlier) <==>
            CouldFollow(later, earlier) && later.position - earlier.position < COUNTER_SIZE
  {
    var gap := later.position - earlier.position;
    if gap < COUNTER_SIZE {
      SmallDistance(later.position, earlier.position);
      if CouldFollow(later, earlier) {
        var blocks := gap / BLOCK_LENGTH;
        assert 1 <= blocks <= 6 && later.position == earlier.position + BLOCK_LENGTH * blocks;
      }
    }
  }

  /** The same of the windows of a stream of any length. */
  lemma RhythmMeans(log: seq<bool>, later: nat, earlier: nat)
    requires earlier < later <= |log|
    ensures Genuine(Pulse(OffsetAt(log, later), later), Pulse(OffsetAt(log, earlier), earlier)) <==>
            RhythmAt(log, later, earlier) && later - earlier < COUNTER_SIZE
  {
    hide WindowAt, OffsetOf, Genuine, CouldFollow;
    RhythmExact(Pulse(OffsetAt(log, later), later), Pulse(OffsetAt(log, earlier), earlier));
  }

  /** The pulses at these places of the buffer lead up to the newest, as far as the counters tell,
      and the oldest of them is less than 2^32 bits older than it. */
  ghost predicate RecentChain(pulses: Pulses, first: nat, second: nat) {
    && first < second < 3
    && CouldFollow(pulses[3], pulses[second]) && CouldFollow(pulses[second], pulses[first])
    && pulses[3].position - pulses[first].position < COUNTER_SIZE
  }

  /** They do so in truth, and all three are newer than a given position. */
  ghost predicate FreshChain(pulses: Pulses, first: nat, second: nat, since: nat) {
    && first < second < 3
    && Genuine(pulses[3], pulses[second]) && Genuine(pulses[second], pulses[first])
    && since < pulses[first].position
  }

  /** Exactly when regained sync is well founded: the buffer holds three blocks that were received
      since the loss and are in rhythm in truth, if and only if it holds a chain whose oldest pulse
      is less than 2^32 bits old. */
  lemma SyncFreshExact(useFec: bool, log: seq<bool>, m: nat, n: nat)
    requires Regained(useFec, log, m, n)
    ensures var pulses := LinkAt(useFec, log, n + 1).pulses;
            (exists first: nat, second: nat :: FreshChain(pulses, first, second, m)) <==>
            (exists first: nat, second: nat :: RecentChain(pulses, first, second))
  {
    hide LinkAt, WindowAt, OffsetOf, SequenceFound, LostAt, FreshChain, RecentChain;
    StalePulses(useFec, log, m, n + 1);
    AcquiringStep(useFec, log, n);
    var pulses := LinkAt(useFec, log, n + 1).pulses;
    forall first: nat, second: nat
      ensures FreshChain(pulses, first, second, m) <==> RecentChain(pulses, first, second)
    {
      ChainExact(pulses, log[..n + 1], first, second, m);
    }
  }

  lemma ChainExact(pulses: Pulses, log: seq<bool>, first: nat, second: nat, m: nat)
    requires PulsesSeen(pulses, log) && NewerOrOld(pulses, m)
    requires pulses[3].offset != Invalid && pulses[3].position == |log| > m
    ensures FreshChain(pulses, first, second, m) <==> RecentChain(pulses, first, second)
  {
    hide WindowAt, OffsetOf, CouldFollow;
    if first < second < 3 && pulses[first].offset != Invalid && pulses[second].offset != Invalid {
      RhythmExact(pulses[3], pulses[second]);
      RhythmExact(pulses[second], pulses[first]);
    } else {
      NoRhythm(pulses[3], pulses[if second < 3 then second else 0]);
      NoRhythm(pulses[if second < 3 then second else 0], pulses[if first < 3 then first else 0]);
    }
  }

  lemma NoRhythm(p: Pulse, q: Pulse)
    ensures CouldFollow(p, q) ==> p.offset != Invalid && q.offset != Invalid
  {
  }
}
