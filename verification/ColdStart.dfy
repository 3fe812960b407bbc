/** From power-on to exact groups: a receiver that starts anywhere in a clean enough stream is
 *  in sync by the third block, and from the next group on delivers what was sent. */
module ColdStart {
  import opened Acquisition
  import opened Bitwise
  import opened BlockCode
  import opened BurstCorrection
  import opened Framing
  import opened GroupDecoding
  import opened Provenance
  import opened Seqs
  import opened SyncMachine

  ghost predicate ValidAt(log: seq<bool>, n: nat)
    requires n <= |log|
  {
    OffsetAt(log, n) != Invalid
  }

  function PulseAt(log: seq<bool>, n: nat): Pulse
    requires n <= |log|
  {
    Pulse(OffsetAt(log, n), n)
  }

  /** One more bit while out of sync. */
  lemma SearchAt(useFec: bool, log: seq<bool>, n: nat)
    requires n < |log| && !LinkAt(useFec, log, n).inSync
    ensures var s, t := LinkAt(useFec, log, n), LinkAt(useFec, log, n + 1);
            var pulses := PushPulse(s.pulses, PulseAt(log, n + 1));
            && (!ValidAt(log, n + 1) ==> !t.inSync && t.pulses == s.pulses)
            && (ValidAt(log, n + 1) && !SequenceFound(pulses) ==> !t.inSync && t.pulses == pulses)
            && (ValidAt(log, n + 1) && SequenceFound(pulses) ==>
                  && Aligned(t) && t.pulses == pulses && t.errors == [false]
                  && t.expected == NextOffset(OffsetAt(log, n + 1)))
  {
    hide Receive, Fresh, WindowAt, OffsetOf, FindBlock, SequenceFound, ShiftIn;
    AlwaysConsistent(useFec, log[..n]);
    LinkAtNext(useFec, log, n);
    SearchResult(Shifted(LinkAt(useFec, log, n), log[n]));
    SameWindows(log, n);
    WindowPush(log[..n], log[n]);
    SameWindows(log, n + 1);
    assert log[..n + 1] == log[..n] + [log[n]];
  }

  /** Only position x between u and v may hold a valid window. */
  ghost predicate OnlyAt(log: seq<bool>, u: nat, v: nat, x: nat)
    requires v <= |log|
  {
    forall n | u < n <= v && ValidAt(log, n) :: n == x
  }

  /** A stretch out of sync with at most one pulse in it, which completes no sequence. */
  lemma {:induction false} Advance(useFec: bool, log: seq<bool>, u: nat, v: nat, x: nat)
    requires u <= v <= |log| && !LinkAt(useFec, log, u).inSync && OnlyAt(log, u, v, x)
    requires u < x <= v && ValidAt(log, x) ==>
               !SequenceFound(PushPulse(LinkAt(useFec, log, u).pulses, PulseAt(log, x)))
    ensures var s, t := LinkAt(useFec, log, u), LinkAt(useFec, log, v);
            && !t.inSync
            && t.pulses == if u < x <= v && ValidAt(log, x) then PushPulse(s.pulses, PulseAt(log, x))
                           else s.pulses
    decreases v
  {
    hide LinkAt, OffsetAt, SequenceFound;
    if u < v {
      Advance(useFec, log, u, v - 1, x);
      SearchAt(useFec, log, v - 1);
    }
  }

  /** Three undamaged blocks in a row end at these positions. */
  ghost predicate ThreeBlocks(log: seq<bool>, start: nat, k1: Kind, k2: Kind, k3: Kind) {
    && start + 78 <= |log|
    && OffsetAt(log, start + 26) == k1
    && OffsetAt(log, start + 52) == k2
    && OffsetAt(log, start + 78) == k3
    && Anticipated(k2) == NextOffset(k1)
    && Anticipated(k3) == NextOffset(k2)
  }

  /** Apart from those three, at most one window since position u looks like a block. */
  ghost predicate AtMostOneSpurious(log: seq<bool>, u: nat, start: nat, x: nat)
    requires start + 78 <= |log|
  {
    forall n | u < n <= start + 78 && ValidAt(log, n) ::
      n == start + 26 || n == start + 52 || n == start + 78 || n == x
  }

  /** The receiver is out of sync at position u, and no pulse still buffered can be in rhythm with
      anything from there up to position n. */
  ghost predicate OutOfSync(s: Link, u: nat, n: nat) {
    !s.inSync && AllStale(s.pulses, u, n)
  }

  ghost predicate AllStale(pulses: Pulses, u: nat, n: nat) {
    forall i | 0 <= i < 4 && pulses[i].offset != Invalid :: TooOld(pulses[i].position, n, u)
  }

  /** A receiver just switched on has no pulses. */
  lemma FreshOutOfSync(useFec: bool, log: seq<bool>, n: nat)
    ensures OutOfSync(LinkAt(useFec, log, 0), 0, n)
  {
    LinkAtStart(useFec, log);
  }

  /** One that has lost sync has none that matter, for as long as they are less than 2^32 bits old. */
  lemma LostOutOfSync(useFec: bool, log: seq<bool>, m: nat, n: nat)
    requires m <= |log| && LostAt(useFec, log, m) && YoungAt(LinkAt(useFec, log, m).pulses, n)
    ensures OutOfSync(LinkAt(useFec, log, m), m, n)
  {
    hide LinkAt, TooOld;
    LossTakesTime(useFec, log, m);
    var pulses := LinkAt(useFec, log, m).pulses;
    PulsesInPast(useFec, log, m);
    forall i | 0 <= i < 4 && pulses[i].offset != Invalid ensures TooOld(pulses[i].position, n, m) {
      assert pulses[i] in pulses;
      OldIsStale(pulses[i].position, m, n);
    }
  }

  lemma PulsesInPast(useFec: bool, log: seq<bool>, m: nat)
    requires m <= |log|
    ensures forall p <- LinkAt(useFec, log, m).pulses | p.offset != Invalid :: p.position <= m
  {
    hide Receive, Fresh, OffsetAt;
    AlwaysConsistent(useFec, log[..m]);
  }

  lemma NothingFollowsStale(pulses: Pulses, u: nat, n: nat)
    requires AllStale(pulses, u, n)
    ensures forall p: Pulse, i | 0 <= i < 4 && u < p.position <= n :: !CouldFollow(p, pulses[i])
  {
  }

  lemma AdjacentRhythm(k1: Kind, k2: Kind, position: nat)
    requires Anticipated(k2) == NextOffset(k1)
    ensures CouldFollow(Pulse(k2, position + 26), Pulse(k1, position))
  {
    assert Distance(position + 26, position) == 26;
  }

  /** Pulses closer together than a block are not in rhythm. */
  lemma TooClose(p: Pulse, q: Pulse)
    requires q.position < p.position < q.position + BLOCK_LENGTH
    ensures !CouldFollow(p, q)
  {
    assert Distance(p.position, q.position) == p.position - q.position;
  }

  lemma FirstTwoBlocks(useFec: bool, log: seq<bool>, u: nat, start: nat, k1: Kind, k2: Kind, k3: Kind, x: nat)
    returns (spurious: Pulse)
    requires ThreeBlocks(log, start, k1, k2, k3) && AtMostOneSpurious(log, u, start, x)
    requires u <= start && OutOfSync(LinkAt(useFec, log, u), u, start + 78)
    ensures var p1, p2 := Pulse(k1, start + 26), Pulse(k2, start + 52);
            var s, q := LinkAt(useFec, log, start + 52), LinkAt(useFec, log, u).pulses;
            if s.inSync then Aligned(s) && s.errors == [false] && s.expected == NextOffset(k2)
            else
              || s.pulses == [q[2], q[3], p1, p2]
              || (s.pulses == [q[3], spurious, p1, p2] && u < x < start + 52)
              || (s.pulses == [q[3], p1, spurious, p2] && u < x < start + 52)
  {
    hide LinkAt, OffsetAt, CouldFollow, AllStale;
    var t1, t2 := start + 26, start + 52;
    spurious := if x <= |log| then PulseAt(log, x) else NO_PULSE;
    NothingFollowsStale(LinkAt(useFec, log, u).pulses, u, start + 78);
    Advance(useFec, log, u, t1 - 1, x);
    SearchAt(useFec, log, t1 - 1);
    Advance(useFec, log, t1, t2 - 1, x);
    SearchAt(useFec, log, t2 - 1);
  }

  lemma LinkAtStart(useFec: bool, log: seq<bool>)
    ensures LinkAt(useFec, log, 0) == Fresh(useFec)
  {
    assert log[..0] == [];
  }

  /** A receiver that is out of sync, new or not, is in sync by the end of the third undamaged
      block, at the right place and with the right kind of block expected next, if at most one
      other window since was valid. */
  lemma ThirdBlockSyncs(useFec: bool, log: seq<bool>, u: nat, start: nat, k1: Kind, k2: Kind, k3: Kind, x: nat)
    requires ThreeBlocks(log, start, k1, k2, k3) && AtMostOneSpurious(log, u, start, x)
    requires u <= start && OutOfSync(LinkAt(useFec, log, u), u, start + 78)
    ensures var s := LinkAt(useFec, log, start + 78);
            Aligned(s) && s.expected == NextOffset(k3) && Count(s.errors) == 0
  {
    hide LinkAt, OffsetAt, CouldFollow, AllStale;
    var t2, t3 := start + 52, start + 78;
    var p1, p2, p3 := Pulse(k1, start + 26), Pulse(k2, t2), Pulse(k3, t3);
    var spurious := FirstTwoBlocks(useFec, log, u, start, k1, k2, k3, x);
    assert Count([false]) == 0;
    if LinkAt(useFec, log, t2).inSync {
      OneMoreBlock(useFec, log, t2, k2, k3);
    } else {
      if t2 < x < t3 {
        TooClose(PulseAt(log, x), p2);
      }
      NothingFollowsStale(LinkAt(useFec, log, u).pulses, u, start + 78);
      Advance(useFec, log, t2, t3 - 1, x);
      SearchAt(useFec, log, t3 - 1);
      AdjacentRhythm(k1, k2, start + 26);
      AdjacentRhythm(k2, k3, t2);
    }
  }

  lemma OneMoreBlock(useFec: bool, log: seq<bool>, n: nat, k2: Kind, k3: Kind)
    requires n + 26 <= |log| && OffsetAt(log, n + 26) == k3 && Anticipated(k3) == NextOffset(k2)
    requires var s := LinkAt(useFec, log, n);
             Aligned(s) && s.errors == [false] && s.expected == NextOffset(k2)
    ensures var s := LinkAt(useFec, log, n + 26);
            Aligned(s) && s.expected == NextOffset(k3) && Count(s.errors) == 0
  {
    hide OffsetOf, ProcessBlock, Fresh;
    var s, bits := LinkAt(useFec, log, n), log[n..n + 26];
    assert log[..n + 26] == log[..n] + bits;
    ReceiveConcat(Fresh(useFec), log[..n], bits);
    BlockStep(s, bits);
    WindowOfBlock(log[..n], bits);
    ProcessAndErrors(s, Value(bits));
    assert s.errors + [false] == [false, false];
    CountPush([false], false);
    ProcessKeepsAlignment(s, Value(bits));
  }

  lemma WindowOfBlock(before: seq<bool>, bits: seq<bool>)
    requires |bits| == BLOCK_LENGTH
    ensures Value(before + bits) % 0x400_0000 == Value(bits)
  {
    hide Value, Shl;
    ValueConcat(before, bits);
    BlockSize();
    ShlScale(Value(before), 26);
    ValueBound(bits);
    ModShift(Value(bits), Value(before));
  }

  // ---------------------------------------------------------------------------
  // From then on
  // ---------------------------------------------------------------------------

  /** At the start of a group nothing of it has been received. */
  ghost predicate StartsClean(s: Link) {
    s.inSync && s.expected == A ==> s.current == NO_BLOCKS
  }

  lemma StepStartsClean(s: Link, bit: bool)
    requires StartsClean(s) && (s.inSync ==> s.expected != CPrime)
    ensures StartsClean(Collect(Step(s, bit)).link)
  {
    hide ShiftIn, OffsetOf, SequenceFound, Decode, SetBlock, Newest, Count;
  }

  lemma {:induction false} AlwaysStartsClean(useFec: bool, log: seq<bool>)
    ensures StartsClean(Receive(Fresh(useFec), log).link)
    ensures Receive(Fresh(useFec), log).link.useFec == useFec
  {
    hide Step, Consistent, Receive;
    if log == [] {
      ReceiveNothing(Fresh(useFec));
    } else {
      hide Fresh, StartsClean;
      var init, last := log[..|log| - 1], log[|log| - 1];
      AlwaysStartsClean(useFec, init);
      AlwaysConsistent(useFec, init);
      LastStep(useFec, log);
      var s := Receive(Fresh(useFec), init).link;
      ConsistentBasics(s, init);
      StepStartsClean(s, last);
      StepKeepsOptions(s, last);
    }
  }

  lemma {:induction false} AssembleConcat(current: Group, expected: Kind, a: seq<Word>, b: seq<Word>, useFec: bool)
    ensures var first := Assemble(current, expected, a, useFec);
            var second := Assemble(first.current, first.expected, b, useFec);
            Assemble(current, expected, a + b, useFec) ==
            second.(groups := first.groups + second.groups)
    decreases |a|
  {
    hide Refine, OffsetOf, SetBlock, Decode, NextOffset;
    if a == [] {
      assert a + b == b;
    } else {
      assert (a + b)[1..] == a[1..] + b;
      var kind := Refine(expected, OffsetOf(a[0]));
      var group := SetBlock(current, kind, Decode(a[0], kind, useFec));
      if NextOffset(kind) == A {
        AssembleConcat(NO_BLOCKS, A, a[1..], b, useFec);
      } else {
        AssembleConcat(group, NextOffset(kind), a[1..], b, useFec);
      }
    }
  }

  lemma {:induction false} ArriveAllConcat(a: seq<TxBlock>, b: seq<TxBlock>)
    ensures ArriveAll(a + b) == ArriveAll(a) + ArriveAll(b)
  {
    hide Arrives;
    if a == [] {
      assert a + b == b;
    } else {
      assert (a + b)[1..] == a[1..] + b;
      ArriveAllConcat(a[1..], b);
    }
  }

  lemma {:induction false} ChainedConcat(expected: Kind, a: seq<TxBlock>, b: seq<TxBlock>)
    requires Chained(expected, a) && Chained(ExpectedAfter(expected, a), b)
    ensures Chained(expected, a + b)
    decreases |a|
  {
    if a == [] {
      assert a + b == b;
    } else {
      assert (a + b)[1..] == a[1..] + b;
      ChainedConcat(NextOffset(a[0].kind), a[1..], b);
    }
  }

  /** The kind of block due after a run of blocks. */
  function ExpectedAfter(expected: Kind, blocks: seq<TxBlock>): Kind {
    if blocks == [] then expected else NextOffset(blocks[|blocks| - 1].kind)
  }

  /** Blocks that run up to the end of a group close it, whatever was in it. */
  lemma {:induction false} RunOut(current: Group, expected: Kind, blocks: seq<TxBlock>)
    requires Chained(expected, blocks) && ExpectedAfter(expected, blocks) == A
    requires expected == A ==> current == NO_BLOCKS
    ensures var all := Assemble(current, expected, ArriveAll(blocks), true);
            all.current == NO_BLOCKS && all.expected == A
    decreases |blocks|
  {
    hide Arrives, OffsetOf, SetBlock, Decode, Refine;
    if blocks != [] {
      BlockDecodes(blocks[0]);
      assert ArriveAll(blocks)[1..] == ArriveAll(blocks[1..]);
      var raw := Arrives(blocks[0]);
      var kind := blocks[0].kind;
      assert ExpectedAfter(NextOffset(kind), blocks[1..]) == A;
      RunOut(if NextOffset(kind) == A then NO_BLOCKS
             else SetBlock(current, kind, Decode(raw, kind, true)), NextOffset(kind), blocks[1..]);
    }
  }

  /** In sync anywhere in a stream, with whatever errors so far: after the rest of the current
      group, exact groups, as long as damage leaves sync alone. */
  lemma ExactAfterRest(s: Link, rest: seq<TxBlock>, groups: seq<TxGroup>)
    returns (early: seq<Group>)
    requires Aligned(s) && s.useFec && StartsClean(s)
    requires Chained(s.expected, rest) && ExpectedAfter(s.expected, rest) == A
    requires forall g <- groups :: g.Valid()
    requires WithinTolerance(s.errors, DamageFlags(rest + GroupBlocks(groups)))
    ensures Receive(s, Wire(ArriveAll(rest + GroupBlocks(groups)))).groups ==
            early + DeliveredAll(groups)
  {
    hide ProcessBlock, Tolerable, WithinTolerance, Receive, Wire, Count, Arrives, GroupOf, Chained;
    var blocks := rest + GroupBlocks(groups);
    GroupsAreChained(groups);
    ChainedConcat(s.expected, rest, GroupBlocks(groups));
    ErrorFlagsAreDamage(s.expected, blocks);
    var raws := ArriveAll(blocks);
    SyncLossExact(s, raws);
    if raws != [] {
      StaysInSyncPrefix(s, raws);
    }
    StreamIsSliced(s, raws);
    ReceiveAssembles(s, raws);
    ArriveAllConcat(rest, GroupBlocks(groups));
    AssembleConcat(s.current, s.expected, ArriveAll(rest), ArriveAll(GroupBlocks(groups)), true);
    RunOut(s.current, s.expected, rest);
    AssembleGroups(ArriveAll(GroupBlocks(groups)), |groups|, true);
    GroupsArrive(groups);
    early := Assemble(s.current, s.expected, ArriveAll(rest), true).groups;
  }

  /** An undamaged block on the wire is seen as what it is, wherever it lies. */
  lemma CleanBlockSeen(before: seq<bool>, tx: TxBlock, after: seq<bool>)
    requires tx.damage.None?
    ensures OffsetAt(before + BitsOf(Arrives(tx), BLOCK_LENGTH) + after, |before| + 26) == tx.kind
  {
    hide Syndrome, OffsetForSyndrome, Encode;
    var bits := BitsOf(Arrives(tx), BLOCK_LENGTH);
    assert (before + bits + after)[..|before| + 26] == before + bits;
    WindowOfBlock(before, bits);
    WireBlock(Arrives(tx));
    CleanBlockSyndrome(tx.data, tx.kind);
  }

  /** Three blocks on the wire. */
  function Lead(b1: TxBlock, b2: TxBlock, b3: TxBlock): (bits: seq<bool>)
    ensures |bits| == 78
  {
    BitsOf(Arrives(b1), BLOCK_LENGTH) + BitsOf(Arrives(b2), BLOCK_LENGTH)
    + BitsOf(Arrives(b3), BLOCK_LENGTH)
  }

  /** A history without errors weighs no more than none. */
  lemma CleanHistory(errors: ErrorWindow, flags: seq<bool>)
    requires Count(errors) == 0 && WithinTolerance([], flags)
    ensures WithinTolerance(errors, flags)
  {
    hide Count, Tolerable;
    forall k | 1 <= k <= |flags| ensures Tolerable(errors + flags[..k]) {
      assert [] + flags[..k] == flags[..k];
      assert Tolerable([] + flags[..k]);
      CleanPrefix(errors, flags[..k]);
    }
  }

  lemma CleanPrefix(errors: ErrorWindow, flags: seq<bool>)
    requires Count(errors) == 0 && Tolerable(flags)
    ensures Tolerable(errors + flags)
  {
    hide Count;
    var n := ERROR_WINDOW;
    if |flags| >= n {
      NewestOfLater(errors, flags, n);
    } else {
      var drop := if |errors| + |flags| <= n then 0 else |errors| + |flags| - n;
      NewestOfBoth(errors, flags, n, drop);
      CountConcat(errors[drop..], flags);
      CountConcat(errors[..drop], errors[drop..]);
      assert errors == errors[..drop] + errors[drop..];
      assert Newest(flags, n) == flags;
    }
  }

  lemma NewestOfLater(s: seq<bool>, t: seq<bool>, n: nat)
    requires |t| >= n
    ensures Newest(s + t, n) == Newest(t, n)
  {
    assert (s + t)[|s| + |t| - n..] == t[|t| - n..];
  }

  lemma NewestOfBoth(s: seq<bool>, t: seq<bool>, n: nat, drop: nat)
    requires |t| < n && drop == if |s| + |t| <= n then 0 else |s| + |t| - n
    ensures drop <= |s| && Newest(s + t, n) == s[drop..] + t
  {
    assert (s + t)[drop..] == s[drop..] + t;
  }

  /** A stream as it reaches a receiver that is out of sync when it has taken in `before`: noise,
      three undamaged blocks, the rest of a group, then whole groups with tolerable damage. */
  datatype Transmission = Transmission(noise: seq<bool>, b1: TxBlock, b2: TxBlock, b3: TxBlock,
                                       rest: seq<TxBlock>, groups: seq<TxGroup>)
  {
    ghost predicate Valid() {
      && b1.damage.None? && b2.damage.None? && b3.damage.None?
      && Anticipated(b2.kind) == NextOffset(b1.kind) && Anticipated(b3.kind) == NextOffset(b2.kind)
      && Chained(NextOffset(b3.kind), rest) && ExpectedAfter(NextOffset(b3.kind), rest) == A
      && (forall g <- groups :: g.Valid())
      && WithinTolerance([], DamageFlags(rest + GroupBlocks(groups)))
    }

    /** Up to the end of the third block. */
    function Head(): seq<bool> {
      noise + Lead(b1, b2, b3)
    }

    function Tail(): seq<bool> {
      Wire(ArriveAll(rest + GroupBlocks(groups)))
    }
  }

  /** However a receiver came to be out of sync, the groups are the last it puts out, exactly as
      sent. All the way from `before` up to the third block, noise included, at most one window
      besides those three may look like a block. */
  lemma ResyncExact(before: seq<bool>, t: Transmission, x: nat) returns (early: seq<Group>)
    requires t.Valid() && AtMostOneSpurious(before + t.Head(), |before|, |before| + |t.noise|, x)
    requires OutOfSync(Receive(Fresh(true), before).link, |before|, |before| + |t.noise| + 78)
    ensures Receive(Fresh(true), before + t.Head() + t.Tail()).groups == early + DeliveredAll(t.groups)
  {
    hide Receive, Fresh, Chained, WithinTolerance, Arrives, OffsetAt, ExpectedAfter, Count, OutOfSync,
         AtMostOneSpurious;
    var head := before + t.Head();
    LeadSeen(before + t.noise, t.b1, t.b2, t.b3);
    assert before + t.noise + Lead(t.b1, t.b2, t.b3) == head;
    assert head[..|before|] == before && head[..|head|] == head;
    ThirdBlockSyncs(true, head, |before|, |before| + |t.noise|, t.b1.kind, t.b2.kind, t.b3.kind, x);
    AlwaysStartsClean(true, head);
    var s := Receive(Fresh(true), head).link;
    CleanHistory(s.errors, DamageFlags(t.rest + GroupBlocks(t.groups)));
    var late := ExactAfterRest(s, t.rest, t.groups);
    ReceiveConcat(Fresh(true), head, t.Tail());
    early := Receive(Fresh(true), head).groups + late;
  }

  /** So it is for a receiver just switched on, */
  lemma ColdStartExact(t: Transmission, x: nat) returns (early: seq<Group>)
    requires t.Valid() && AtMostOneSpurious(t.Head(), 0, |t.noise|, x)
    ensures Receive(Fresh(true), t.Head() + t.Tail()).groups == early + DeliveredAll(t.groups)
  {
    hide Receive, Fresh, OutOfSync, AtMostOneSpurious, Transmission.Valid, Transmission.Tail, Lead, DeliveredAll;
    var none: seq<bool> := [];
    assert none[..0] == none;
    FreshOutOfSync(true, none, |t.noise| + 78);
    assert none + t.Head() == t.Head();
    early := ResyncExact(none, t, x);
  }

  /** and for one that has lost sync with the last bit of `before`. */
  lemma RecoversFromLoss(before: seq<bool>, t: Transmission, x: nat) returns (early: seq<Group>)
    requires t.Valid() && AtMostOneSpurious(before + t.Head(), |before|, |before| + |t.noise|, x)
    requires LostAt(true, before, |before|)
    requires YoungAt(Receive(Fresh(true), before).link.pulses, |before| + |t.noise| + 78)
    ensures Receive(Fresh(true), before + t.Head() + t.Tail()).groups == early + DeliveredAll(t.groups)
  {
    hide Receive, Fresh, OutOfSync, AtMostOneSpurious, Transmission.Valid, Transmission.Tail, Lead, DeliveredAll,
         YoungAt;
    assert before[..|before|] == before;
    LostOutOfSync(true, before, |before|, |before| + |t.noise| + 78);
    early := ResyncExact(before, t, x);
  }

  lemma LeadSeen(noise: seq<bool>, b1: TxBlock, b2: TxBlock, b3: TxBlock)
    requires b1.damage.None? && b2.damage.None? && b3.damage.None?
    requires Anticipated(b2.kind) == NextOffset(b1.kind) && Anticipated(b3.kind) == NextOffset(b2.kind)
    ensures ThreeBlocks(noise + Lead(b1, b2, b3), |noise|, b1.kind, b2.kind, b3.kind)
  {
    hide Arrives, OffsetAt;
    var w1 := BitsOf(Arrives(b1), BLOCK_LENGTH);
    var w2 := BitsOf(Arrives(b2), BLOCK_LENGTH);
    var w3 := BitsOf(Arrives(b3), BLOCK_LENGTH);
    var head := noise + Lead(b1, b2, b3);
    CleanBlockSeen(noise, b1, w2 + w3);
    CleanBlockSeen(noise + w1, b2, w3);
    CleanBlockSeen(noise + w1 + w2, b3, []);
    assert head == noise + w1 + (w2 + w3) == noise + w1 + w2 + w3 == noise + w1 + w2 + w3 + [];
  }
}
