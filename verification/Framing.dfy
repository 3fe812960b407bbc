/** In sync, the receiver works through the stream in consecutive 26-bit slices. */
module Framing {
  import opened Bitwise
  import opened BlockCode
  import opened Seqs
  import opened SyncMachine

  /** At a block boundary, in sync, with no group waiting to be collected. */
  ghost predicate Aligned(s: Link) {
    s.inSync && s.untilNext == BLOCK_LENGTH && !s.hasReady
  }

  // ---------------------------------------------------------------------------
  // From bits to blocks
  // ---------------------------------------------------------------------------

  function ShiftInAll(register: Word, bits: seq<bool>): Word {
    if bits == [] then register
    else ShiftIn(ShiftInAll(register, bits[..|bits| - 1]), bits[|bits| - 1])
  }

  lemma {:induction false} ShiftInAllValue(register: Word, bits: seq<bool>)
    ensures ShiftInAll(register, bits) == (Shl(register, |bits|) + Value(bits)) % 0x400_0000
  {
    if bits != [] {
      var n := |bits| - 1;
      ShiftInAllValue(register, bits[..n]);
      DoubleMod(Shl(register, n) + Value(bits[..n]), Bit(bits[n]));
    }
  }

  /** A whole block leaves nothing of what was in the register before. */
  lemma WholeRegister(register: Word, bits: seq<bool>)
    requires |bits| == BLOCK_LENGTH
    ensures Value(bits) < 0x400_0000
    ensures ShiftInAll(register, bits) == Value(bits)
  {
    BlockSize();
    ValueBound(bits);
    ShiftInAllValue(register, bits);
    ShlScale(register, 26);
    ModShift(Value(bits), register);
  }

  lemma ReceiveOne(s: Link, bit: bool)
    ensures Receive(s, [bit]) == Collect(Step(s, bit))
  {
    hide Step;
    var first := Collect(Step(s, bit));
    assert [bit][1..] == [];
    assert Receive(first.link, []) == Reception(first.link, []);
    assert first.groups + [] == first.groups;
  }

  /** Between block boundaries bits are only shifted in. */
  lemma {:induction false} Coast(s: Link, bits: seq<bool>)
    requires |bits| < s.untilNext && !s.hasReady
    ensures Receive(s, bits) ==
            Reception(s.(register := ShiftInAll(s.register, bits), bitCount := s.bitCount + |bits|,
                         untilNext := s.untilNext - |bits|), [])
  {
    if bits != [] {
      hide FindBlock, Settle, ShiftIn;
      var init, last := bits[..|bits| - 1], bits[|bits| - 1];
      Coast(s, init);
      assert bits == init + [last];
      ReceiveConcat(s, init, [last]);
      ReceiveOne(Receive(s, init).link, last);
    }
  }

  /** One block received in sync. */
  function ProcessBlock(s: Link, raw: Word): Reception {
    Collect(Settle(Track(s.(register := raw, bitCount := s.bitCount + BLOCK_LENGTH), OffsetOf(raw))))
  }

  lemma BlockStep(s: Link, bits: seq<bool>)
    requires Aligned(s) && |bits| == BLOCK_LENGTH
    ensures Value(bits) < 0x400_0000
    ensures Receive(s, bits) == ProcessBlock(s, Value(bits))
  {
    hide Track, OffsetOf, ShiftIn;
    var init, last := bits[..25], bits[25];
    assert bits == init + [last];
    Coast(s, init);
    ReceiveConcat(s, init, [last]);
    ReceiveOne(Receive(s, init).link, last);
    WholeRegister(s.register, bits);
    assert ShiftInAll(s.register, bits) == ShiftIn(ShiftInAll(s.register, init), last);
    TrackIgnoresCountdown(Receive(s, init).link.(register := Value(bits), bitCount := s.bitCount + 26),
                          OffsetOf(Value(bits)), BLOCK_LENGTH);
  }

  lemma TrackIgnoresCountdown(s: Link, offset: Offset, untilNext: Countdown)
    ensures Settle(Track(s, offset)) == Settle(Track(s.(untilNext := untilNext), offset))
  {
    hide Decode, Count, Newest, SetBlock, NextOffset, Refine;
  }

  /** Blocks received one after the other. */
  function ReceiveBlocks(s: Link, raws: seq<Word>): Reception
    decreases |raws|
  {
    if raws == [] then Reception(s, [])
    else
      var first := ProcessBlock(s, raws[0]);
      var rest := ReceiveBlocks(first.link, raws[1..]);
      Reception(rest.link, first.groups + rest.groups)
  }

  /** Sync survives each of the blocks. */
  ghost predicate StaysInSync(s: Link, raws: seq<Word>)
    decreases |raws|
  {
    raws == [] ||
    var first := ProcessBlock(s, raws[0]).link;
    first.inSync && StaysInSync(first, raws[1..])
  }

  /** The bits of blocks on the wire. */
  function Wire(raws: seq<Word>): seq<bool> {
    if raws == [] then [] else BitsOf(raws[0], BLOCK_LENGTH) + Wire(raws[1..])
  }

  lemma WireBlock(raw: Word)
    ensures Value(BitsOf(raw, BLOCK_LENGTH)) == raw
  {
    BlockSize();
    ValueOfBits(raw, BLOCK_LENGTH);
  }

  lemma ProcessKeepsAlignment(s: Link, raw: Word)
    requires Aligned(s) && ProcessBlock(s, raw).link.inSync
    ensures Aligned(ProcessBlock(s, raw).link)
  {
    hide Decode, Count, Newest, SetBlock, NextOffset, Refine, OffsetOf;
  }

  /** As long as sync lasts, the stream is processed as its consecutive 26-bit slices. */
  lemma {:induction false} StreamIsSliced(s: Link, raws: seq<Word>)
    requires Aligned(s)
    requires raws != [] ==> StaysInSync(s, raws[..|raws| - 1])
    ensures Receive(s, Wire(raws)) == ReceiveBlocks(s, raws)
    ensures StaysInSync(s, raws) ==> Aligned(ReceiveBlocks(s, raws).link)
    decreases |raws|
  {
    hide ProcessBlock, Receive;
    if raws == [] {
      ReceiveNothing(s);
    } else {
      var bits := BitsOf(raws[0], BLOCK_LENGTH);
      var first := ProcessBlock(s, raws[0]);
      WireBlock(raws[0]);
      BlockStep(s, bits);
      ReceiveConcat(s, bits, Wire(raws[1..]));
      if |raws| > 1 {
        assert raws[..|raws| - 1][0] == raws[0];
        assert raws[..|raws| - 1][1..] == raws[1..][..|raws[1..]| - 1];
        ProcessKeepsAlignment(s, raws[0]);
        StreamIsSliced(first.link, raws[1..]);
      } else {
        assert raws[1..] == [] && Wire(raws[1..]) == [];
        ReceiveNothing(first.link);
        if first.link.inSync {
          ProcessKeepsAlignment(s, raws[0]);
        }
      }
    }
  }

  lemma ReceiveNothing(s: Link)
    ensures Receive(s, []) == Reception(s, [])
  {
  }

  // ---------------------------------------------------------------------------
  // Losing sync
  // ---------------------------------------------------------------------------

  /** Which blocks fail their raw syndrome, when the first is expected to be of this kind. */
  function ErrorFlags(expected: Kind, raws: seq<Word>): (flags: seq<bool>)
    ensures |flags| == |raws|
    decreases |raws|
  {
    if raws == [] then []
    else
      var kind := Refine(expected, OffsetOf(raws[0]));
      [OffsetOf(raws[0]) != kind] + ErrorFlags(NextOffset(kind), raws[1..])
  }

  /** None of the first k windows of the newest 50 flags holds more than 42 errors, k > 0. */
  ghost predicate WithinTolerance(errors: seq<bool>, flags: seq<bool>) {
    forall k | 1 <= k <= |flags| :: Tolerable(errors + flags[..k])
  }

  ghost predicate Tolerable(flags: seq<bool>) {
    Count(Newest(flags, ERROR_WINDOW)) <= MAX_ERRORS_TOLERATED
  }

  /** The errors from place k on. */
  ghost function ErrorsFrom(flags: seq<bool>, k: int): set<nat> {
    set i | 0 <= i < |flags| && k <= i && flags[i]
  }

  lemma {:induction false} CountIsSize(flags: seq<bool>, k: nat)
    requires k <= |flags|
    ensures Count(flags[k..]) == |ErrorsFrom(flags, k)|
    decreases |flags|
  {
    hide Count;
    if k == |flags| {
      assert flags[k..] == [] && ErrorsFrom(flags, k) == {};
      assert Count([]) == 0 by { CountNone(); }
    } else {
      var m := |flags| - 1;
      CountIsSize(flags[..m], k);
      OneMoreError(flags[..m], flags[m], k);
      assert flags == flags[..m] + [flags[m]];
      assert flags[k..] == flags[..m][k..] + [flags[m]];
      CountPush(flags[..m][k..], flags[m]);
    }
  }

  lemma CountNone()
    ensures Count([]) == 0
  {
  }

  lemma OneMoreError(flags: seq<bool>, flag: bool, k: nat)
    requires k <= |flags|
    ensures |ErrorsFrom(flags + [flag], k)| == |ErrorsFrom(flags, k)| + if flag then 1 else 0
  {
    assert ErrorsFrom(flags + [flag], k) == ErrorsFrom(flags, k) + if flag then {|flags|} else {};
  }

  /** What is tolerated: no more than 42 errors among the last 50 blocks. */
  lemma ToleranceExactly(flags: seq<bool>)
    ensures Tolerable(flags) <==> |ErrorsFrom(flags, |flags| - 50)| <= 42
  {
    hide Count;
    var drop := if |flags| > 50 then |flags| - 50 else 0;
    CountIsSize(flags, drop);
    assert flags[drop..] == Newest(flags, 50);
    assert ErrorsFrom(flags, |flags| - 50) == ErrorsFrom(flags, drop);
  }

  lemma ProcessAndErrors(s: Link, raw: Word)
    requires Aligned(s)
    ensures var next := ProcessBlock(s, raw).link;
            var kind := Refine(s.expected, OffsetOf(raw));
            var errors := Newest(s.errors + [OffsetOf(raw) != kind], ERROR_WINDOW);
            && (next.inSync <==> Tolerable(s.errors + [OffsetOf(raw) != kind]))
            && (next.inSync ==> next.errors == errors && next.expected == NextOffset(kind))
  {
    hide Decode, Count, Newest, SetBlock, Refine, OffsetOf;
  }

  lemma TolerableNewest(errors: seq<bool>, flags: seq<bool>)
    ensures Tolerable(Newest(errors, ERROR_WINDOW) + flags) <==> Tolerable(errors + flags)
  {
    NewestOfNewest(errors, flags, ERROR_WINDOW);
  }

  /** Sync is dropped at exactly the first block that makes 43 of the newest 50 blocks wrong. */
  lemma {:induction false} SyncLossExact(s: Link, raws: seq<Word>)
    requires Aligned(s)
    ensures StaysInSync(s, raws) <==> WithinTolerance(s.errors, ErrorFlags(s.expected, raws))
    decreases |raws|
  {
    hide ProcessBlock, Tolerable, Newest, Refine, OffsetOf;
    if raws != [] {
      var flags := ErrorFlags(s.expected, raws);
      var next := ProcessBlock(s, raws[0]).link;
      ProcessAndErrors(s, raws[0]);
      assert flags[..1] == [flags[0]];
      if next.inSync {
        ProcessKeepsAlignment(s, raws[0]);
        SyncLossExact(next, raws[1..]);
        assert flags[1..] == ErrorFlags(next.expected, raws[1..]);
        assert forall k | 1 <= k <= |raws| - 1 ::
            Tolerable(next.errors + flags[1..][..k]) <==> Tolerable(s.errors + flags[..k + 1]) by {
          forall k | 1 <= k <= |raws| - 1
            ensures Tolerable(next.errors + flags[1..][..k]) <==> Tolerable(s.errors + flags[..k + 1])
          {
            TolerableNewest(s.errors + [flags[0]], flags[1..][..k]);
            assert (s.errors + [flags[0]]) + flags[1..][..k] == s.errors + flags[..k + 1];
          }
        }
        ShiftTolerance(s.errors, next.errors, flags);
      }
    }
  }

  lemma ShiftTolerance(errors: seq<bool>, next: seq<bool>, flags: seq<bool>)
    requires flags != [] && Tolerable(errors + flags[..1])
    requires forall k | 1 <= k <= |flags| - 1 ::
               Tolerable(next + flags[1..][..k]) <==> Tolerable(errors + flags[..k + 1])
    ensures WithinTolerance(next, flags[1..]) <==> WithinTolerance(errors, flags)
  {
    hide Tolerable;
    if WithinTolerance(next, flags[1..]) {
      forall k | 1 <= k <= |flags| ensures Tolerable(errors + flags[..k]) {
        if k > 1 {
          assert Tolerable(next + flags[1..][..k - 1]);
        }
      }
    }
  }
}
