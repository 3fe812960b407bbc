/** Where the blocks of a group come from, for any stream of bits at all. */
module Provenance {
  import opened Acquisition
  import opened Bitwise
  import opened BlockCode
  import opened BurstCorrection
  import opened Framing
  import opened Seqs
  import opened SyncMachine

  /** The kind that place j of a group is read as. */
  function PlaceKind(j: nat, raw: Word): Kind
    requires j < 4
  {
    if j == 0 then A else if j == 1 then B else if j == 2 then Refine(C, OffsetOf(raw)) else D
  }

  /** Place j holds what was decoded from the window of the log that ends at position q. */
  ghost predicate ReadFrom(block: Block, j: nat, log: seq<bool>, q: int, useFec: bool)
    requires j < 4
  {
    && 1 <= q <= |log|
    && block == Decode(WindowAt(log, q), PlaceKind(j, WindowAt(log, q)), useFec)
  }

  /** The places filled so far, counting back from the last block boundary. */
  ghost predicate GroupSoFar(s: Link, log: seq<bool>) {
    s.inSync ==>
      forall j | 0 <= j < 4 && s.current[j].isReceived ::
        && j < BlockNumber(s.expected)
        && PlaceIn(s.current[j], j, log, Boundary(s) - BLOCK_LENGTH * (BlockNumber(s.expected) - 1 - j), s)
  }

  ghost predicate PlaceIn(block: Block, j: nat, log: seq<bool>, q: int, s: Link)
    requires j < 4
  {
    AcquiredAt(s) <= q && ReadFrom(block, j, log, q, s.useFec)
  }

  /** A group finished with the last bit of the log: four consecutive slices of it, all received
      since sync was acquired. */
  ghost predicate FinishedGroup(g: Group, log: seq<bool>, acquiredAt: nat, useFec: bool) {
    forall j | 0 <= j < 4 && g[j].isReceived ::
      var q := |log| - BLOCK_LENGTH * (3 - j);
      acquiredAt <= q && ReadFrom(g[j], j, log, q, useFec)
  }

  lemma ReadFromLater(block: Block, j: nat, log: seq<bool>, q: int, useFec: bool, bit: bool)
    requires j < 4 && ReadFrom(block, j, log, q, useFec)
    ensures ReadFrom(block, j, log + [bit], q, useFec)
  {
    hide WindowAt, Decode, PlaceKind;
    WindowPush(log, bit);
  }

  lemma GroupCoasts(s: Link, log: seq<bool>, bit: bool)
    requires Consistent(s, log) && GroupSoFar(s, log) && s.untilNext > 1
    ensures Step(s, bit).current == s.current && !Step(s, bit).hasReady
    ensures GroupSoFar(Step(s, bit), log + [bit])
  {
    hide WindowAt, ReadFrom, ShiftIn, FindBlock, Consistent;
    assert !s.hasReady by { ConsistentBasics(s, log); }
    var t := Step(s, bit);
    forall j | 0 <= j < 4 && t.inSync && t.current[j].isReceived
      ensures PlaceIn(t.current[j], j, log + [bit],
                      Boundary(t) - BLOCK_LENGTH * (BlockNumber(t.expected) - 1 - j), t)
    {
      ReadFromLater(s.current[j], j, log,
                    Boundary(s) - BLOCK_LENGTH * (BlockNumber(s.expected) - 1 - j), s.useFec, bit);
    }
  }

  lemma ConsistentBasics(s: Link, log: seq<bool>)
    requires Consistent(s, log)
    ensures s.bitCount == |log| && !s.hasReady
    ensures s.inSync ==> AcquiredAt(s) <= Boundary(s) && s.expected != CPrime
    ensures s.inSync ==> s.untilNext <= BLOCK_LENGTH && 1 <= AcquiredAt(s)
  {
    hide WindowAt, SequenceFound, OffsetOf, Count;
  }

  /** Tracking one more block, when the places so far are known. The boundary moves to the end
      of the log. */
  lemma GroupTracks(s: Link, log: seq<bool>)
    requires s.inSync && s.bitCount == |log| && s.register == WindowAt(log, |log|) && |log| > 0
    requires AcquiredAt(s) <= |log| && !s.hasReady
    requires s.expected == CPrime ==> OffsetOf(s.register) == CPrime
    requires forall j | 0 <= j < 4 && s.current[j].isReceived ::
               && j < BlockNumber(s.expected)
               && PlaceIn(s.current[j], j, log, |log| - BLOCK_LENGTH * (BlockNumber(s.expected) - j), s)
    ensures var t := Settle(Track(s, OffsetOf(s.register)));
            && GroupSoFar(t.(hasReady := false), log)
            && (t.hasReady ==> FinishedGroup(t.ready, log, AcquiredAt(s), s.useFec))
  {
    hide WindowAt, Decode, Newest, Count, OffsetOf, ReadFrom, FinishedGroup, SetBlock;
    var kind := Refine(s.expected, OffsetOf(s.register));
    var group := SetBlock(s.current, kind, Decode(s.register, kind, s.useFec));
    NewPlace(s, log);
    if NextOffset(kind) == A {
      PlacesFinish(group, s, log);
    }
  }

  /** Every place up to the new one is filled from its own slice. */
  lemma NewPlace(s: Link, log: seq<bool>)
    requires s.bitCount == |log| && s.register == WindowAt(log, |log|) && |log| > 0
    requires AcquiredAt(s) <= |log|
    requires s.expected == CPrime ==> OffsetOf(s.register) == CPrime
    requires forall j | 0 <= j < 4 && s.current[j].isReceived ::
               && j < BlockNumber(s.expected)
               && PlaceIn(s.current[j], j, log, |log| - BLOCK_LENGTH * (BlockNumber(s.expected) - j), s)
    ensures var kind := Refine(s.expected, OffsetOf(s.register));
            var group := SetBlock(s.current, kind, Decode(s.register, kind, s.useFec));
            && BlockNumber(kind) == BlockNumber(s.expected)
            && forall j | 0 <= j < 4 && group[j].isReceived ::
                 && j <= BlockNumber(kind)
                 && PlaceIn(group[j], j, log, |log| - BLOCK_LENGTH * (BlockNumber(kind) - j), s)
  {
    hide WindowAt, Decode, OffsetOf;
    var kind := Refine(s.expected, OffsetOf(s.register));
    assert kind == PlaceKind(BlockNumber(kind), s.register);
  }

  lemma PlacesFinish(group: Group, s: Link, log: seq<bool>)
    requires forall j | 0 <= j < 4 && group[j].isReceived ::
               PlaceIn(group[j], j, log, |log| - BLOCK_LENGTH * (3 - j), s)
    ensures FinishedGroup(group, log, AcquiredAt(s), s.useFec)
  {
    hide ReadFrom;
  }

  lemma GroupSearches(s: Link, log: seq<bool>, bit: bool)
    requires Consistent(s, log) && !s.inSync
    ensures var t := Step(s, bit);
            && GroupSoFar(t.(hasReady := false), log + [bit])
            && (t.hasReady ==> FinishedGroup(t.ready, log + [bit], AcquiredAt(t), s.useFec))
  {
    hide WindowAt, ShiftIn, OffsetOf, SequenceFound, Track, PulsesSeen;
    WindowPush(log, bit);
    var u := Shifted(s, bit);
    var offset := OffsetOf(u.register);
    if offset != Invalid && SequenceFound(PushPulse(u.pulses, Pulse(offset, u.bitCount))) {
      GroupTracks(Acquire(u, offset), log + [bit]);
      TrackPulses(Acquire(u, offset), offset);
    }
  }

  lemma TrackPulses(s: Link, offset: Offset)
    ensures Track(s, offset).pulses == s.pulses
  {
    hide Decode, SetBlock, Newest, Count;
  }

  lemma GroupContinues(s: Link, log: seq<bool>, bit: bool)
    requires Consistent(s, log) && GroupSoFar(s, log) && s.inSync && s.untilNext == 1
    ensures var t := Step(s, bit);
            && GroupSoFar(t.(hasReady := false), log + [bit])
            && (t.hasReady ==> FinishedGroup(t.ready, log + [bit], AcquiredAt(t), s.useFec))
  {
    hide WindowAt, ShiftIn, OffsetOf, SequenceFound, Track, ReadFrom;
    ConsistentBasics(s, log);
    WindowPush(log, bit);
    var u := Shifted(s, bit);
    forall j | 0 <= j < 4 && u.current[j].isReceived
      ensures PlaceIn(u.current[j], j, log + [bit],
                      |log| + 1 - BLOCK_LENGTH * (BlockNumber(u.expected) - j), u)
    {
      ReadFromLater(s.current[j], j, log,
                    Boundary(s) - BLOCK_LENGTH * (BlockNumber(s.expected) - 1 - j), s.useFec, bit);
    }
    GroupTracks(u, log + [bit]);
    TrackPulses(u, OffsetOf(u.register));
  }

  lemma GroupStep(s: Link, log: seq<bool>, bit: bool)
    requires Consistent(s, log) && GroupSoFar(s, log)
    ensures var r := Collect(Step(s, bit));
            && GroupSoFar(r.link, log + [bit])
            && r.link.useFec == s.useFec
            && |r.groups| <= 1
            && (r.groups != [] ==>
                  FinishedGroup(r.groups[0], log + [bit], AcquiredAt(r.link), s.useFec))
  {
    hide GroupSoFar, FinishedGroup, Consistent, Step;
    ConsistentBasics(s, log);
    if s.untilNext > 1 {
      GroupCoasts(s, log, bit);
    } else if s.inSync {
      GroupContinues(s, log, bit);
    } else {
      GroupSearches(s, log, bit);
    }
    StepKeepsOptions(s, bit);
  }

  lemma StepKeepsOptions(s: Link, bit: bool)
    ensures Step(s, bit).useFec == s.useFec
  {
    hide ShiftIn, OffsetOf, Acquire, Track;
    var t := s.(register := ShiftIn(s.register, bit), bitCount := s.bitCount + 1);
    var offset := OffsetOf(t.register);
    AcquireKeepsOptions(t, offset);
    TrackKeepsOptions(Acquire(t, offset), offset);
  }

  lemma AcquireKeepsOptions(s: Link, offset: Offset)
    ensures Acquire(s, offset).useFec == s.useFec
  {
    hide SequenceFound;
  }

  lemma TrackKeepsOptions(s: Link, offset: Offset)
    ensures Track(s, offset).useFec == s.useFec
  {
    hide Decode, SetBlock, Newest, Count, Refine, NextOffset;
  }

  lemma {:induction false} AlwaysGrouped(useFec: bool, log: seq<bool>)
    ensures var s := Receive(Fresh(useFec), log).link;
            GroupSoFar(s, log) && s.useFec == useFec
  {
    hide Step, Consistent, Receive;
    if log == [] {
      ReceiveNothing(Fresh(useFec));
    } else {
      hide Fresh, GroupSoFar;
      var init, last := log[..|log| - 1], log[|log| - 1];
      assert log == init + [last];
      AlwaysGrouped(useFec, init);
      AlwaysConsistent(useFec, init);
      LastStep(useFec, log);
      GroupStep(Receive(Fresh(useFec), init).link, init, last);
    }
  }

  /** Whatever the stream, a group that comes out with some bit consists of blocks decoded from
      the four 26-bit slices that end with that bit, each in its own place, and all of them were
      received since sync was last acquired. A place not filled from its slice is empty. */
  lemma GroupsComeFromSlices(useFec: bool, log: seq<bool>, bit: bool)
    ensures var r := Collect(Step(Receive(Fresh(useFec), log).link, bit));
            && |r.groups| <= 1
            && (r.groups != [] ==>
                  && FinishedGroup(r.groups[0], log + [bit], AcquiredAt(r.link), useFec)
                  && Aligned(r.link) && r.link.expected == A && r.link.current == NO_BLOCKS)
  {
    hide Step, Receive, Fresh, GroupSoFar, Consistent, FinishedGroup;
    AlwaysConsistent(useFec, log);
    AlwaysGrouped(useFec, log);
    var s := Receive(Fresh(useFec), log).link;
    GroupStep(s, log, bit);
    ConsistentBasics(s, log);
    AfterGroup(s, bit);
  }

  /** A group comes out only at a block boundary in sync, and leaves the machine ready for the
      first block of the next. */
  lemma AfterGroup(s: Link, bit: bool)
    requires !s.hasReady
    ensures var r := Collect(Step(s, bit));
            r.groups != [] ==>
              Aligned(r.link) && r.link.expected == A && r.link.current == NO_BLOCKS
  {
    hide ShiftIn, OffsetOf, SequenceFound, Decode, SetBlock, Newest, Count;
  }

  /** A block that is passed on is, up to one burst of at most two bits, an encoding of its data
      for its place, and it is marked as erroneous exactly when the burst was needed. */
  lemma DecodedBlockSound(raw: Word, kind: Kind, useFec: bool)
    requires Decode(raw, kind, useFec).isReceived
    ensures var block := Decode(raw, kind, useFec);
            && block.offset == kind && block.raw == raw
            && (block.hadErrors <==> raw != Encode(block.data, kind))
            && (block.hadErrors ==>
                  useFec && exists e :: IsBurst(e) && Xor(raw, e) == Encode(block.data, kind))
  {
    hide Syndrome, Encode, OffsetForSyndrome, CorrectBurst;
    OffsetForSyndromeExact(Syndrome(raw), kind);
    SyndromeCharacterisesEncoding(raw, kind);
    if OffsetOf(raw) != kind {
      CorrectionSound(raw, kind);
      CleanBlockSyndrome(CorrectBurst(raw, kind).value / 0x400, kind);
    }
  }

  /** A block is dropped only if it is no encoding for its place and, with error correction on,
      no single burst away from one. */
  lemma DroppedBlockHopeless(raw: Word, kind: Kind, useFec: bool)
    requires !Decode(raw, kind, useFec).isReceived
    ensures forall data: Data :: raw != Encode(data, kind)
    ensures useFec ==> forall data: Data, e: nat :: IsBurst(e) ==> Xor(raw, e) != Encode(data, kind)
  {
    hide Syndrome, Encode, OffsetForSyndrome, CorrectBurst, IsBurst;
    forall data: Data ensures raw != Encode(data, kind) {
      CleanBlockSyndrome(data, kind);
    }
    if useFec {
      forall data: Data, e: nat | IsBurst(e) && Xor(raw, e) == Encode(data, kind)
        ensures false
      {
        EncodeKeepsData(data, kind);
        CorrectionComplete(raw, e, kind);
      }
    }
  }
}
