/** The receiver's objects: burst correction tables, the pulse buffer, and the block stream. */
module BlockStreams {
  import opened Bitwise
  import opened BlockCode
  import opened BurstCorrection
  import opened Framing
  import opened RunningSums
  import opened Seqs
  import opened SyncMachine
  import opened Wrappers

  // ---------------------------------------------------------------------------
  // Syndromes and correction
  // ---------------------------------------------------------------------------

  /** The source multiplies each row by the bit it belongs to and adds up the rows. */
  method CalculateSyndrome(inputVector: nat) returns (result: Check)
    ensures result == Syndrome(inputVector)
  {
    hide Row;
    result := ZERO;
    for k := 0 to BLOCK_LENGTH
      invariant result.Plus(SyndromeFrom(Shr(inputVector, k), k)) == Syndrome(inputVector)
    {
      PlusMoves(result, RowIf(Shr(inputVector, k) % 2 == 1, k), SyndromeFrom(Shr(inputVector, k + 1), k + 1));
      result := result.Plus(RowIf(Shr(inputVector, k) % 2 == 1, k));
    }
  }

  lemma PlusMoves(a: Check, b: Check, c: Check)
    ensures a.Plus(b.Plus(c)) == a.Plus(b).Plus(c)
  {
  }

  type ErrorTable = map<Offset, seq<(Check, Word)>>

  /** For each kind of block, the syndrome and the error vector of every burst, in order. */
  ghost predicate IsErrorTable(table: ErrorTable) {
    forall kind: Kind :: kind in table && IsErrorList(table[kind], kind, BURSTS)
  }

  ghost predicate IsErrorList(list: seq<(Check, Word)>, kind: Kind, n: nat)
    requires n <= BURSTS
  {
    && |list| == n
    && forall b :: 0 <= b < n ==> list[b] == (TableSyndrome(kind, b), Burst(b))
  }

  /** Adding the offset word to an error vector gives the listed syndrome. */
  lemma SyndromeOfEntry(kind: Kind, b: nat)
    requires b < BURSTS
    ensures Syndrome(Xor(Burst(b), OffsetWord(kind).ToNat())) == TableSyndrome(kind, b)
  {
    hide Row, Pair, Burst, BurstSyndrome, Syndrome, OffsetSyndrome, OffsetWord, Check.ToNat;
    var word := OffsetWord(kind).ToNat();
    SyndromeLinear(Burst(b), word);
    SyndromeOfBurst(b);
    CheckOfToNat(OffsetWord(kind));
    SyndromeIsRemainder(word);
    ResidueOfCheck(word);
    OffsetWordAndSyndrome(kind);
    TimesPowerInjective(Syndrome(word), OffsetSyndrome(kind), 16);
    PlusCommutes(BurstSyndrome(b), OffsetSyndrome(kind));
  }

  lemma PlusCommutes(a: Check, b: Check)
    ensures a.Plus(b) == b.Plus(a)
  {
  }

  lemma BurstAt(wide: nat, shift: nat)
    requires wide < 2 && shift < 26
    ensures Burst(26 * wide + shift) == Shl(if wide == 0 then 1 else 3, shift) % 0x400_0000
  {
  }

  const KINDS: seq<Kind> := [A, B, C, CPrime, D]

  method MakeErrorLookupTable() returns (table: ErrorTable)
    ensures IsErrorTable(table)
  {
    table := map[];
    for i := 0 to |KINDS|
      invariant forall k :: 0 <= k < i ==> KINDS[k] in table && IsErrorList(table[KINDS[k]], KINDS[k], BURSTS)
    {
      var list := MakeErrorList(KINDS[i]);
      table := table[KINDS[i] := list];
    }
    forall kind: Kind ensures kind in table && IsErrorList(table[kind], kind, BURSTS) {
      assert KINDS[0] == A && KINDS[1] == B && KINDS[2] == C && KINDS[3] == CPrime && KINDS[4] == D;
      match kind { case A => case B => case C => case CPrime => case D => }
    }
  }

  lemma AppendEntry(list: seq<(Check, Word)>, kind: Kind, b: nat, entry: (Check, Word))
    requires b < BURSTS && IsErrorList(list, kind, b)
    requires entry == (TableSyndrome(kind, b), Burst(b))
    ensures IsErrorList(list + [entry], kind, b + 1)
  {
    hide TableSyndrome, Burst;
  }

  /** The inner loops: one wrong bit, then two adjacent ones, at each shift. */
  method MakeErrorList(kind: Kind) returns (list: seq<(Check, Word)>)
    ensures IsErrorList(list, kind, BURSTS)
  {
    hide TableSyndrome, Burst, OffsetWord, Check.ToNat, Syndrome, Xor, Shl;
    list := [];
    for wide := 0 to 2
      invariant IsErrorList(list, kind, 26 * wide)
    {
      for shift := 0 to BLOCK_LENGTH
        invariant IsErrorList(list, kind, 26 * wide + shift)
      {
        var errorVector := Shl(if wide == 0 then 1 else 3, shift) % 0x400_0000;
        BurstAt(wide, shift);
        var syndrome := CalculateSyndrome(Xor(errorVector, OffsetWord(kind).ToNat()));
        SyndromeOfEntry(kind, 26 * wide + shift);
        AppendEntry(list, kind, 26 * wide + shift, (syndrome, errorVector));
        list := list + [(syndrome, errorVector)];
      }
    }
  }

  /** The first table entry with the block's syndrome gives the error vector to remove. */
  method CorrectBurstErrors(table: ErrorTable, raw: Word, expected: Kind)
    returns (succeeded: bool, correctedBits: Word)
    requires IsErrorTable(table)
    ensures CorrectBurst(raw, expected) == if succeeded then Some(correctedBits) else None
    ensures !succeeded ==> correctedBits == raw
  {
    hide TableSyndrome, Burst;
    var syndrome := CalculateSyndrome(raw);
    succeeded, correctedBits := false, raw;
    var entries := table[expected];
    var i := 0;
    while i < |entries| && entries[i].0 != syndrome
      invariant i <= |entries|
      invariant FindBurst(syndrome, expected, 0) == FindBurst(syndrome, expected, i)
    {
      i := i + 1;
    }
    if i < |entries| {
      XorWord(raw, Burst(i));
      succeeded, correctedBits := true, Xor(raw, entries[i].1);
    }
  }

  // ---------------------------------------------------------------------------
  // Sync pulses
  // ---------------------------------------------------------------------------

  /** A pulse with its position cut to 32 bits. */
  function Wrapped(p: Pulse): Pulse {
    p.(position := p.position % COUNTER_SIZE)
  }

  lemma DistanceWraps(a: nat, b: nat)
    ensures Distance(a % COUNTER_SIZE, b % COUNTER_SIZE) == Distance(a, b)
  {
    var qa, qb := a / COUNTER_SIZE, b / COUNTER_SIZE;
    assert a - b == (a % COUNTER_SIZE - b % COUNTER_SIZE) + COUNTER_SIZE * (qa - qb);
    ModCounter(a % COUNTER_SIZE - b % COUNTER_SIZE, qa - qb);
  }

  lemma {:induction false} ModCounter(x: int, q: int)
    ensures (x + COUNTER_SIZE * q) % COUNTER_SIZE == x % COUNTER_SIZE
    decreases if q < 0 then -q else q
  {
    if q > 0 {
      ModCounter(x, q - 1);
      assert x + COUNTER_SIZE * q == (x + COUNTER_SIZE * (q - 1)) + COUNTER_SIZE;
    } else if q < 0 {
      ModCounter(x, q + 1);
      assert x + COUNTER_SIZE * (q + 1) == (x + COUNTER_SIZE * q) + COUNTER_SIZE;
    }
  }

  lemma RhythmKeptByWrapping(p: Pulse, q: Pulse)
    ensures CouldFollow(Wrapped(p), Wrapped(q)) == CouldFollow(p, q)
  {
    DistanceWraps(p.position, q.position);
  }

  class SyncPulseBuffer {
    const pulses: array<Pulse>

    constructor ()
      ensures fresh(pulses) && pulses.Length == 4
      ensures pulses[..] == [NO_PULSE, NO_PULSE, NO_PULSE, NO_PULSE]
    {
      pulses := new Pulse[4](_ => NO_PULSE);
    }

    method Push(offset: Offset, bitcount: nat)
      requires pulses.Length == 4
      modifies pulses
      ensures pulses[..] == PushPulse(old(pulses[..]), Pulse(offset, bitcount))
    {
      for i := 0 to pulses.Length - 1
        invariant forall k :: 0 <= k < i ==> pulses[k] == old(pulses[k + 1])
        invariant forall k :: i <= k < 4 ==> pulses[k] == old(pulses[k])
      {
        pulses[i] := pulses[i + 1];
      }
      pulses[pulses.Length - 1] := Pulse(offset, bitcount);
    }

    method IsSequenceFound() returns (found: bool)
      requires pulses.Length == 4
      ensures found == SequenceFound(pulses[..])
    {
      hide CouldFollow;
      var third := pulses[pulses.Length - 1];
      for first := 0 to pulses.Length - 2
        invariant forall i, j :: 0 <= i < first && i < j < 3 ==> !LeadsUp(pulses[..], i, j)
      {
        for second := first + 1 to pulses.Length - 1
          invariant forall i, j :: 0 <= i < first && i < j < 3 ==> !LeadsUp(pulses[..], i, j)
          invariant forall j :: first < j < second ==> !LeadsUp(pulses[..], first, j)
        {
          if CouldFollow(third, pulses[second]) && CouldFollow(pulses[second], pulses[first]) {
            assert LeadsUp(pulses[..], first, second);
            return true;
          }
        }
      }
      assert !LeadsUp(pulses[..], 0, 1) && !LeadsUp(pulses[..], 0, 2) && !LeadsUp(pulses[..], 1, 2);
      return false;
    }
  }

  ghost predicate LeadsUp(pulses: Pulses, first: nat, second: nat)
    requires first < second < 3
  {
    CouldFollow(pulses[3], pulses[second]) && CouldFollow(pulses[second], pulses[first])
  }

  // ---------------------------------------------------------------------------
  // The block stream
  // ---------------------------------------------------------------------------

  /** Pulses with 32-bit positions. */
  function WrapAll(pulses: Pulses): Pulses {
    [Wrapped(pulses[0]), Wrapped(pulses[1]), Wrapped(pulses[2]), Wrapped(pulses[3])]
  }

  lemma WrappedSequence(pulses: Pulses)
    ensures SequenceFound(WrapAll(pulses)) == SequenceFound(pulses)
  {
    hide CouldFollow, Wrapped;
    RhythmKeptByWrapping(pulses[3], pulses[1]);
    RhythmKeptByWrapping(pulses[1], pulses[0]);
    RhythmKeptByWrapping(pulses[3], pulses[2]);
    RhythmKeptByWrapping(pulses[2], pulses[0]);
    RhythmKeptByWrapping(pulses[2], pulses[1]);
  }

  lemma RegisterShifts(register: nat, bit: bool)
    requires register < COUNTER_SIZE
    ensures ((2 * register + Bit(bit)) % COUNTER_SIZE) % 0x400_0000 ==
            ShiftIn(register % 0x400_0000, bit)
  {
    ModWithin(2 * register + Bit(bit));
    DoubleMod(register, Bit(bit));
  }

  class BlockStream {
    var bitcount: nat
    var numBitsUntilNextBlock: nat
    var inputRegister: nat
    var expectedOffset: Kind
    var isInSync: bool
    const blockErrorSum50: RunningSum
    var useFec: bool
    var currentGroup: Group
    var readyGroup: Group
    var hasGroupReady: bool
    const syncBuffer: SyncPulseBuffer
    const errorLookupTable: ErrorTable
    /** What the machine of SyncMachine does on the same bits. */
    ghost var link: Link

    /** The object is in the state l of the machine, its countdown apart. */
    ghost predicate Represents(l: Link)
      reads this, blockErrorSum50, blockErrorSum50.history, syncBuffer.pulses
    {
      && bitcount == l.bitCount % COUNTER_SIZE
      && inputRegister < COUNTER_SIZE && inputRegister % 0x400_0000 == l.register
      && expectedOffset == l.expected
      && isInSync == l.inSync
      && useFec == l.useFec
      && currentGroup == l.current
      && readyGroup == l.ready
      && hasGroupReady == l.hasReady
      && Parts(l.errors, l.pulses)
    }

    /** So are the objects it is made of. */
    ghost predicate Parts(errors: ErrorWindow, pulses: Pulses)
      reads blockErrorSum50, blockErrorSum50.history, syncBuffer.pulses
    {
      && IsErrorTable(errorLookupTable)
      && CountsErrors(errors)
      && syncBuffer.pulses.Length == 4
      && syncBuffer.pulses[..] == WrapAll(pulses)
    }

    ghost predicate CountsErrors(errors: ErrorWindow)
      reads blockErrorSum50, blockErrorSum50.history
    {
      && blockErrorSum50.Valid() && blockErrorSum50.history.Length == ERROR_WINDOW
      && blockErrorSum50.window == Numbers(errors)
    }

    ghost predicate Valid()
      reads this, blockErrorSum50, blockErrorSum50.history, syncBuffer.pulses
    {
      Represents(link) && numBitsUntilNextBlock == link.untilNext
    }

    constructor (useFec: bool)
      ensures Valid() && link == Fresh(useFec)
      ensures fresh(blockErrorSum50) && fresh(blockErrorSum50.history)
      ensures fresh(syncBuffer) && fresh(syncBuffer.pulses)
    {
      var table := MakeErrorLookupTable();
      errorLookupTable := table;
      blockErrorSum50 := new RunningSum(ERROR_WINDOW);
      syncBuffer := new SyncPulseBuffer();
      bitcount, numBitsUntilNextBlock, inputRegister := 0, 1, 0;
      expectedOffset, isInSync := A, false;
      currentGroup, readyGroup, hasGroupReady := NO_BLOCKS, NO_BLOCKS, false;
      this.useFec := useFec;
      link := Fresh(useFec);
    }

    /** Out of sync, a valid block adds a pulse, and may complete a sequence that gives sync. */
    method AcquireSync(offset: Offset, ghost l: Link)
      requires Represents(l)
      modifies this`isInSync, this`expectedOffset, this`currentGroup, syncBuffer.pulses
      ensures Represents(Acquire(l, offset))
    {
      hide SequenceFound, CountsErrors, IsErrorTable;
      if isInSync {
        return;
      }
      if offset != Invalid {
        ghost var pulses := PushPulse(l.pulses, Pulse(offset, l.bitCount));
        syncBuffer.Push(offset, bitcount);
        assert syncBuffer.pulses[..] == WrapAll(pulses);
        WrappedSequence(pulses);
        var found := syncBuffer.IsSequenceFound();
        if found {
          isInSync := true;
          expectedOffset := offset;
          currentGroup := NO_BLOCKS;
        }
      }
    }

    /** Data of a block in sync, after correction if it needs any. */
    method RecoverBlock(received: Block) returns (block: Block)
      requires IsErrorTable(errorLookupTable)
      requires received.offset == OffsetOf(received.raw) && !received.isReceived
      requires received.hadErrors == (received.offset != expectedOffset)
      ensures block.isReceived == Decode(received.raw, expectedOffset, useFec).isReceived
      ensures block.isReceived ==> block == Decode(received.raw, expectedOffset, useFec)
    {
      hide OffsetOf, CorrectBurst, IsErrorTable;
      block := received.(data := received.raw / 0x400);

      if block.hadErrors && useFec {
        var succeeded, correctedBits := CorrectBurstErrors(errorLookupTable, block.raw, expectedOffset);
        if succeeded {
          block := block.(data := correctedBits / 0x400, offset := expectedOffset);
        }
      }

      if block.offset == expectedOffset {
        block := block.(isReceived := true);
      }
    }

    /** Count the block's raw syndrome in; sync is lost if too many have been wrong. */
    method CountBlock(hadErrors: bool, ghost before: ErrorWindow) returns (lost: bool)
      requires CountsErrors(before)
      modifies blockErrorSum50, blockErrorSum50.history
      ensures var errors := Newest(before + [hadErrors], ERROR_WINDOW);
              && lost == (Count(errors) > MAX_ERRORS_TOLERATED)
              && CountsErrors(if lost then [] else errors)
    {
      hide Sum, Count, Newest;
      PushFlag(before, hadErrors);
      blockErrorSum50.Push(Bit(hadErrors));
      SumCounts(Newest(before + [hadErrors], ERROR_WINDOW));
      var sum := blockErrorSum50.GetSum();
      lost := sum > MAX_ERRORS_TOLERATED;
      if lost {
        blockErrorSum50.Clear();
      }
    }

    /** The part of the block search that is done in sync. */
    method TrackBlock(received: Block, ghost l: Link)
      requires Represents(l) && isInSync
      requires received.raw == l.register && received.offset == OffsetOf(received.raw)
      requires !received.isReceived
      modifies this`isInSync, this`expectedOffset, this`currentGroup, this`readyGroup,
               this`hasGroupReady, blockErrorSum50, blockErrorSum50.history
      ensures Represents(Track(l, received.offset))
    {
      hide OffsetOf, Keep, Count, Newest, IsErrorTable, CountsErrors, WrapAll;
      if expectedOffset == C && received.offset == CPrime {
        expectedOffset := CPrime;
      }

      var block := received.(hadErrors := received.offset != expectedOffset);
      var lost := CountBlock(block.hadErrors, l.errors);
      if lost {
        isInSync := false;
        return;
      }
      ghost var errors := Newest(l.errors + [block.hadErrors], ERROR_WINDOW);
      KeepBlock(block, l.(expected := expectedOffset, errors := errors));
    }

    /** Add the block to its group, and expect the next one. */
    method KeepBlock(received: Block, ghost l: Link)
      requires Represents(l)
      requires received.raw == l.register && received.offset == OffsetOf(received.raw)
      requires !received.isReceived && received.hadErrors == (received.offset != l.expected)
      modifies this`expectedOffset, this`currentGroup, this`readyGroup, this`hasGroupReady
      ensures Represents(Keep(l))
    {
      hide OffsetOf, Decode, Parts;
      assert IsErrorTable(errorLookupTable) by { HasTable(l); }
      var block := RecoverBlock(received);
      if block.isReceived {
        currentGroup := currentGroup[BlockNumber(expectedOffset) := block];
      }

      var nextOffset := NextOffset(expectedOffset);
      if nextOffset == A {
        HandleNewlyReceivedGroup();
      }
      expectedOffset := nextOffset;
    }

    lemma HasTable(l: Link)
      requires Represents(l)
      ensures IsErrorTable(errorLookupTable)
    {
      hide IsErrorTable, CountsErrors;
    }

    /** The group in the making is finished: keep it for collection and begin an empty one. */
    method HandleNewlyReceivedGroup()
      modifies this`readyGroup, this`hasGroupReady, this`currentGroup
      ensures readyGroup == old(currentGroup) && hasGroupReady && currentGroup == NO_BLOCKS
    {
      readyGroup := currentGroup;
      hasGroupReady := true;
      currentGroup := NO_BLOCKS;
    }

    /** What the machine does with the window in its register. */
    method FindBlockInInputRegister(ghost l: Link)
      requires Represents(l)
      modifies this`isInSync, this`expectedOffset, this`currentGroup, this`readyGroup,
               this`hasGroupReady, blockErrorSum50, blockErrorSum50.history, syncBuffer.pulses
      ensures Represents(FindBlock(l))
    {
      hide Syndrome, Track, Acquire, Parts;
      var raw := inputRegister % 0x400_0000;
      var syndrome := CalculateSyndrome(raw);
      var block := Block(raw, 0, false, false, OffsetForSyndrome(syndrome));
      AcquireSync(block.offset, l);
      AcquireKeepsRegister(l, block.offset);

      if isInSync {
        TrackBlock(block, Acquire(l, block.offset));
      }
    }

    /** Shift a bit in and count it. */
    method ShiftBit(bit: bool, ghost l: Link)
      requires Represents(l)
      modifies this`inputRegister, this`bitcount
      ensures Represents(l.(register := ShiftIn(l.register, bit), bitCount := l.bitCount + 1))
    {
      hide ShiftIn, Parts;
      RegisterShifts(inputRegister, bit);
      CounterSteps(l.bitCount);
      inputRegister := (2 * inputRegister + Bit(bit)) % COUNTER_SIZE;
      bitcount := (bitcount + 1) % COUNTER_SIZE;
    }

    /** One step of the machine: the next bit comes in, and at the end of a block it is looked at. */
    method PushBit(bit: bool)
      requires Valid()
      modifies this, blockErrorSum50, blockErrorSum50.history, syncBuffer.pulses
      ensures Valid() && link == Step(old(link), bit)
    {
      hide FindBlock, ShiftIn, Parts, Step;
      ghost var l := link.(register := ShiftIn(link.register, bit), bitCount := link.bitCount + 1);
      StepBy(link, bit, l);
      ShiftBit(bit, link);
      numBitsUntilNextBlock := numBitsUntilNextBlock - 1;

      if numBitsUntilNextBlock == 0 {
        FindBlockInInputRegister(l);
        numBitsUntilNextBlock := if isInSync then BLOCK_LENGTH else 1;
      }
      link := Step(link, bit);
    }

    method HasGroupReady() returns (ready: bool)
      ensures ready == hasGroupReady
    {
      ready := hasGroupReady;
    }

    method PopGroup() returns (group: Group)
      requires Valid()
      modifies this`hasGroupReady, this`link
      ensures Valid() && link == old(link).(hasReady := false) && group == old(link).ready
    {
      hide Parts;
      hasGroupReady := false;
      link := link.(hasReady := false);
      group := readyGroup;
    }
  }

  lemma StepBy(s: Link, bit: bool, l: Link)
    requires l == s.(register := ShiftIn(s.register, bit), bitCount := s.bitCount + 1)
    ensures Step(s, bit) == if s.untilNext > 1 then l.(untilNext := s.untilNext - 1) else Settle(FindBlock(l))
  {
    hide ShiftIn, FindBlock;
  }

  lemma AcquireKeepsRegister(l: Link, offset: Offset)
    ensures Acquire(l, offset).register == l.register
  {
    hide SequenceFound;
  }

  lemma CounterSteps(n: nat)
    ensures (n % COUNTER_SIZE + 1) % COUNTER_SIZE == (n + 1) % COUNTER_SIZE
  {
  }

  /** Pushing a number onto the sum is pushing a flag onto the window. */
  lemma PushFlag(errors: ErrorWindow, flag: bool)
    ensures Newest(Numbers(errors) + [Bit(flag)], ERROR_WINDOW) ==
            Numbers(Newest(errors + [flag], ERROR_WINDOW))
  {
    assert Numbers(errors) + [Bit(flag)] == Numbers(errors + [flag]);
    NewestNumbers(errors + [flag], ERROR_WINDOW);
  }

  // ---------------------------------------------------------------------------
  // The decoder
  // ---------------------------------------------------------------------------

  class RdsDecoder {
    var blockStream: BlockStream

    ghost predicate Valid()
      reads this, blockStream, blockStream.blockErrorSum50, blockStream.blockErrorSum50.history,
            blockStream.syncBuffer.pulses
    {
      blockStream.Valid()
    }

    constructor ()
      ensures Valid() && blockStream.link == Fresh(true)
    {
      blockStream := new BlockStream(true);
    }

    method Reset()
      modifies this
      ensures Valid() && blockStream.link == Fresh(true)
    {
      blockStream := new BlockStream(true);
    }

    /** Every group that becomes ready is handed on once, in order. */
    method EmitGroups(bits: seq<bool>) returns (emitted: seq<RdsGroup>)
      requires Valid()
      modifies blockStream, blockStream.blockErrorSum50, blockStream.blockErrorSum50.history,
               blockStream.syncBuffer.pulses
      ensures Valid() && blockStream == old(blockStream)
      ensures var r := Receive(old(blockStream.link), bits);
              blockStream.link == r.link && emitted == DeliverAll(r.groups)
    {
      hide Step, Deliver;
      emitted := [];
      ghost var start := blockStream.link;
      ghost var groups: seq<Group> := [];
      for i := 0 to |bits|
        invariant Valid() && blockStream == old(blockStream)
        invariant Receive(start, bits[..i]) == Reception(blockStream.link, groups)
        invariant emitted == DeliverAll(groups)
      {
        assert bits[..i + 1] == bits[..i] + [bits[i]];
        ReceiveConcat(start, bits[..i], [bits[i]]);
        ReceiveOne(blockStream.link, bits[i]);
        blockStream.PushBit(bits[i]);
        var ready := blockStream.HasGroupReady();
        if ready {
          var g := blockStream.PopGroup();
          emitted := emitted + [Deliver(g)];
          DeliverAllPush(groups, g);
          groups := groups + [g];
        }
      }
      assert bits[..|bits|] == bits;
    }
  }

  lemma {:induction false} DeliverAllPush(groups: seq<Group>, g: Group)
    ensures DeliverAll(groups + [g]) == DeliverAll(groups) + [Deliver(g)]
  {
    hide Deliver;
    if groups == [] {
      assert [g][1..] == [];
    } else {
      assert (groups + [g])[1..] == groups[1..] + [g];
      DeliverAllPush(groups[1..], g);
    }
  }
}
