/** The block synchroniser as a machine over received bits.
 *
 * This is the reference the BlockStream object is proved against. It differs from the
 * object in what it remembers: bit positions are unbounded here and 32-bit counters there,
 * and the error window is the sequence of the newest flags since sync was acquired here
 * and a circular array there.
 */
module SyncMachine {
  import opened Bitwise
  import opened BlockCode
  import opened BurstCorrection
  import opened Seqs

  const COUNTER_SIZE: nat := 0x1_0000_0000
  const ERROR_WINDOW: nat := 50
  const MAX_ERRORS_TOLERATED: nat := 42
  const MAX_BLOCK_GAP: nat := 6

  datatype Block = Block(raw: Word, data: Data, isReceived: bool, hadErrors: bool, offset: Offset)

  const NO_BLOCK := Block(0, 0, false, false, Invalid)
  const NO_BLOCKS: seq<Block> := [NO_BLOCK, NO_BLOCK, NO_BLOCK, NO_BLOCK]

  type Group = g: seq<Block> | |g| == 4 witness NO_BLOCKS

  function MakeGroup(b1: Block, b2: Block, b3: Block, b4: Block): Group {
    [b1, b2, b3, b4]
  }

  /** A valid syndrome seen while out of sync, at the bit position where it was complete. */
  datatype Pulse = Pulse(offset: Offset, position: nat)

  const NO_PULSE := Pulse(Invalid, 0)

  type Pulses = p: seq<Pulse> | |p| == 4 witness [NO_PULSE, NO_PULSE, NO_PULSE, NO_PULSE]
  type Countdown = n: nat | 1 <= n witness 1
  type ErrorWindow = e: seq<bool> | |e| <= 50

  datatype Link = Link(
    useFec: bool,
    bitCount: nat,
    untilNext: Countdown,
    register: Word,
    expected: Kind,
    inSync: bool,
    errors: ErrorWindow,
    current: Group,
    ready: Group,
    hasReady: bool,
    pulses: Pulses)

  function Fresh(useFec: bool): Link {
    Link(useFec, 0, 1, 0, A, false, [], NO_BLOCKS, NO_BLOCKS, false,
         [NO_PULSE, NO_PULSE, NO_PULSE, NO_PULSE])
  }

  // ---------------------------------------------------------------------------
  // Acquiring sync
  // ---------------------------------------------------------------------------

  /** Positions are compared as 32-bit counters. */
  function Distance(later: nat, earlier: nat): nat {
    (later - earlier) % COUNTER_SIZE
  }

  predicate InRhythm(number: nat, previous: nat, distance: nat) {
    && distance % BLOCK_LENGTH == 0
    && distance / BLOCK_LENGTH <= MAX_BLOCK_GAP
    && (previous + distance / BLOCK_LENGTH) % 4 == number
  }

  predicate CouldFollow(pulse: Pulse, other: Pulse) {
    && pulse.offset != Invalid
    && other.offset != Invalid
    && InRhythm(BlockNumber(pulse.offset), BlockNumber(other.offset),
                Distance(pulse.position, other.position))
  }

  /** Some two earlier pulses lead up to the newest one in the cyclic rhythm. */
  predicate SequenceFound(pulses: Pulses) {
    || (CouldFollow(pulses[3], pulses[1]) && CouldFollow(pulses[1], pulses[0]))
    || (CouldFollow(pulses[3], pulses[2]) && CouldFollow(pulses[2], pulses[0]))
    || (CouldFollow(pulses[3], pulses[2]) && CouldFollow(pulses[2], pulses[1]))
  }

  function PushPulse(pulses: Pulses, pulse: Pulse): Pulses {
    [pulses[1], pulses[2], pulses[3], pulse]
  }

  function Acquire(s: Link, offset: Offset): Link {
    if s.inSync || offset == Invalid then s
    else
      var pulses := PushPulse(s.pulses, Pulse(offset, s.bitCount));
      if SequenceFound(pulses) then
        s.(pulses := pulses, inSync := true, expected := offset, current := NO_BLOCKS)
      else
        s.(pulses := pulses)
  }

  // ---------------------------------------------------------------------------
  // Keeping sync
  // ---------------------------------------------------------------------------

  /** The kind a block in sync is taken for: C may turn out to be C'. */
  function Refine(expected: Kind, offset: Offset): Kind {
    if expected == C && offset == CPrime then CPrime else expected
  }

  function OffsetOf(raw: Word): Offset {
    OffsetForSyndrome(Syndrome(raw))
  }

  /** What is kept of a block received in the place of the expected kind. */
  function Decode(raw: Word, expected: Kind, useFec: bool): Block {
    if OffsetOf(raw) == expected then Block(raw, raw / 0x400, true, false, expected)
    else if useFec && CorrectBurst(raw, expected).Some? then
      Block(raw, CorrectBurst(raw, expected).value / 0x400, true, true, expected)
    else Block(raw, raw / 0x400, false, true, OffsetOf(raw))
  }

  function SetBlock(group: Group, expected: Kind, block: Block): Group {
    if block.isReceived then group[BlockNumber(expected) := block] else group
  }

  /** Put the block of the expected kind into its group, and expect the next. */
  function Keep(s: Link): Link {
    var group := SetBlock(s.current, s.expected, Decode(s.register, s.expected, s.useFec));
    if NextOffset(s.expected) == A then
      s.(expected := A, current := NO_BLOCKS, ready := group, hasReady := true)
    else
      s.(expected := NextOffset(s.expected), current := group)
  }

  function Track(s: Link, offset: Offset): Link {
    var expected := Refine(s.expected, offset);
    var errors := Newest(s.errors + [offset != expected], ERROR_WINDOW);
    if Count(errors) > MAX_ERRORS_TOLERATED then
      s.(expected := expected, inSync := false, errors := [])
    else
      Keep(s.(expected := expected, errors := errors))
  }

  /** The last 26 bits, after one more. */
  function ShiftIn(register: Word, bit: bool): Word {
    (2 * register + Bit(bit)) % 0x400_0000
  }

  function FindBlock(s: Link): Link {
    var offset := OffsetOf(s.register);
    var t := Acquire(s, offset);
    if t.inSync then Track(t, offset) else t
  }

  function Settle(s: Link): Link {
    s.(untilNext := if s.inSync then BLOCK_LENGTH else 1)
  }

  function Step(s: Link, bit: bool): Link {
    var t := s.(register := ShiftIn(s.register, bit), bitCount := s.bitCount + 1);
    if s.untilNext > 1 then t.(untilNext := s.untilNext - 1) else Settle(FindBlock(t))
  }

  // ---------------------------------------------------------------------------
  // Receiving a stream
  // ---------------------------------------------------------------------------

  datatype Reception = Reception(link: Link, groups: seq<Group>)

  /** Collect a finished group, if there is one. */
  function Collect(s: Link): Reception {
    if s.hasReady then Reception(s.(hasReady := false), [s.ready]) else Reception(s, [])
  }

  /** Push bits one by one, collecting each group as it becomes ready. */
  function Receive(s: Link, bits: seq<bool>): Reception
    decreases |bits|
  {
    if bits == [] then Reception(s, [])
    else
      var first := Collect(Step(s, bits[0]));
      var rest := Receive(first.link, bits[1..]);
      Reception(rest.link, first.groups + rest.groups)
  }

  /** A group as the tuner passes it on: missing blocks read zero, and two error bits a block. */
  datatype RdsGroup = RdsGroup(a: Data, b: Data, c: Data, d: Data, errors: nat)

  function DataOrZero(block: Block): Data {
    if block.isReceived then block.data else 0
  }

  function ErrorLevel(block: Block): (e: nat)
    ensures e < 4
  {
    if !block.isReceived then 3 else if block.hadErrors then 1 else 0
  }

  function PackErrors(g: Group): nat {
    64 * ErrorLevel(g[0]) + 16 * ErrorLevel(g[1]) + 4 * ErrorLevel(g[2]) + ErrorLevel(g[3])
  }

  function Deliver(g: Group): RdsGroup {
    RdsGroup(DataOrZero(g[0]), DataOrZero(g[1]), DataOrZero(g[2]), DataOrZero(g[3]), PackErrors(g))
  }

  function DeliverAll(groups: seq<Group>): seq<RdsGroup> {
    if groups == [] then [] else [Deliver(groups[0])] + DeliverAll(groups[1..])
  }

  /** The four error levels can be read back from the packed byte, as its users do. */
  lemma PackedErrors(g: Group)
    ensures PackErrors(g) < 256
    ensures PackErrors(g) / 64 % 4 == ErrorLevel(g[0])
    ensures PackErrors(g) / 16 % 4 == ErrorLevel(g[1])
    ensures PackErrors(g) / 4 % 4 == ErrorLevel(g[2])
    ensures PackErrors(g) % 4 == ErrorLevel(g[3])
  {
    hide ErrorLevel;
    BaseFour(ErrorLevel(g[0]), ErrorLevel(g[1]), ErrorLevel(g[2]), ErrorLevel(g[3]));
  }

  lemma BaseFour(a: nat, b: nat, c: nat, d: nat)
    requires a < 4 && b < 4 && c < 4 && d < 4
    ensures var n := 64 * a + 16 * b + 4 * c + d;
            n / 64 % 4 == a && n / 16 % 4 == b && n / 4 % 4 == c && n % 4 == d && n < 256
  {
  }

  /** How the stream is cut into chunks does not matter. */
  lemma {:induction false} ReceiveConcat(s: Link, a: seq<bool>, b: seq<bool>)
    ensures var first := Receive(s, a);
            var second := Receive(first.link, b);
            Receive(s, a + b) == Reception(second.link, first.groups + second.groups)
    decreases |a|
  {
    hide Step;
    if a == [] {
      assert a + b == b;
    } else {
      assert (a + b)[0] == a[0] && (a + b)[1..] == a[1..] + b;
      ReceiveConcat(Collect(Step(s, a[0])).link, a[1..], b);
    }
  }
}
