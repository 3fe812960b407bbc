/** In sync, groups come out exactly as they were sent, small bursts of errors notwithstanding. */
module GroupDecoding {
  import opened Bitwise
  import opened BlockCode
  import opened BurstCorrection
  import opened Framing
  import opened Seqs
  import opened SyncMachine
  import opened Wrappers

  // ---------------------------------------------------------------------------
  // Groups are made of four consecutive blocks
  // ---------------------------------------------------------------------------

  datatype Assembly = Assembly(groups: seq<Group>, current: Group, expected: Kind)

  /** Blocks put into groups, regardless of how many were wrong. */
  function Assemble(current: Group, expected: Kind, raws: seq<Word>, useFec: bool): Assembly
    decreases |raws|
  {
    if raws == [] then Assembly([], current, expected)
    else
      var kind := Refine(expected, OffsetOf(raws[0]));
      var group := SetBlock(current, kind, Decode(raws[0], kind, useFec));
      if NextOffset(kind) == A then
        var rest := Assemble(NO_BLOCKS, A, raws[1..], useFec);
        rest.(groups := [group] + rest.groups)
      else
        Assemble(group, NextOffset(kind), raws[1..], useFec)
  }

  lemma ProcessAndGroups(s: Link, raw: Word)
    requires Aligned(s) && ProcessBlock(s, raw).link.inSync
    ensures var next := ProcessBlock(s, raw);
            var kind := Refine(s.expected, OffsetOf(raw));
            var group := SetBlock(s.current, kind, Decode(raw, kind, s.useFec));
            && next.link.useFec == s.useFec
            && next.link.expected == NextOffset(kind)
            && if NextOffset(kind) == A then next.groups == [group] && next.link.current == NO_BLOCKS
               else next.groups == [] && next.link.current == group
  {
    hide Decode, Count, Newest, SetBlock, Refine, OffsetOf;
  }

  /** While sync lasts, what is received is the assembly of the blocks. */
  lemma {:induction false} ReceiveAssembles(s: Link, raws: seq<Word>)
    requires Aligned(s) && StaysInSync(s, raws)
    ensures var r := ReceiveBlocks(s, raws);
            Assemble(s.current, s.expected, raws, s.useFec) ==
            Assembly(r.groups, r.link.current, r.link.expected)
    decreases |raws|
  {
    hide ProcessBlock, Decode, SetBlock, Refine, OffsetOf;
    if raws != [] {
      ProcessKeepsAlignment(s, raws[0]);
      ProcessAndGroups(s, raws[0]);
      ReceiveAssembles(ProcessBlock(s, raws[0]).link, raws[1..]);
    }
  }

  /** A block as it stands in its group; an unusable one leaves its place empty. */
  function Kept(raw: Word, kind: Kind, useFec: bool): Block {
    if Decode(raw, kind, useFec).isReceived then Decode(raw, kind, useFec) else NO_BLOCK
  }

  /** The group made of four blocks in a row. */
  function GroupOf(raws: seq<Word>, useFec: bool): Group
    requires |raws| == 4
  {
    MakeGroup(Kept(raws[0], A, useFec), Kept(raws[1], B, useFec),
              Kept(raws[2], Refine(C, OffsetOf(raws[2])), useFec), Kept(raws[3], D, useFec))
  }

  lemma AssembleOneGroup(raws: seq<Word>, useFec: bool)
    requires |raws| >= 4
    ensures var rest := Assemble(NO_BLOCKS, A, raws[4..], useFec);
            Assemble(NO_BLOCKS, A, raws, useFec) ==
            rest.(groups := [GroupOf(raws[..4], useFec)] + rest.groups)
  {
    hide Decode, OffsetOf;
    var kind := Refine(C, OffsetOf(raws[2]));
    var g1 := SetBlock(NO_BLOCKS, A, Decode(raws[0], A, useFec));
    var g2 := SetBlock(g1, B, Decode(raws[1], B, useFec));
    var g3 := SetBlock(g2, kind, Decode(raws[2], kind, useFec));
    var g4 := SetBlock(g3, D, Decode(raws[3], D, useFec));
    var r1, r2, r3, r4 := raws[1..], raws[2..], raws[3..], raws[4..];
    assert r1[1..] == r2 && r2[1..] == r3 && r3[1..] == r4;
    assert r1[0] == raws[1] && r2[0] == raws[2] && r3[0] == raws[3];
    assert g4 == GroupOf(raws[..4], useFec);
    assert Assemble(NO_BLOCKS, A, raws, useFec) == Assemble(g1, B, r1, useFec);
    assert Assemble(g1, B, r1, useFec) == Assemble(g2, C, r2, useFec);
    assert Assemble(g2, C, r2, useFec) == Assemble(g3, D, r3, useFec);
  }

  /** A stream of whole groups, cut after every fourth block. */
  function GroupsOf(raws: seq<Word>, useFec: bool): seq<Group>
    decreases |raws|
  {
    if |raws| < 4 then [] else [GroupOf(raws[..4], useFec)] + GroupsOf(raws[4..], useFec)
  }

  lemma {:induction false} AssembleGroups(raws: seq<Word>, n: nat, useFec: bool)
    requires |raws| == 4 * n
    ensures Assemble(NO_BLOCKS, A, raws, useFec) == Assembly(GroupsOf(raws, useFec), NO_BLOCKS, A)
  {
    if n > 0 {
      hide GroupOf, Assemble;
      var tail := raws[4..];
      AssembleOneGroup(raws, useFec);
      AssembleGroups(tail, n - 1, useFec);
    }
  }

  /** From the start of a group, in sync throughout, one group comes out every 104 bits and
      it is made of those 104 bits alone. */
  lemma StreamIsGrouped(s: Link, raws: seq<Word>, n: nat)
    requires Aligned(s) && s.expected == A && s.current == NO_BLOCKS && |raws| == 4 * n
    requires WithinTolerance(s.errors, ErrorFlags(A, raws))
    ensures var r := Receive(s, Wire(raws));
            && r.groups == GroupsOf(raws, s.useFec)
            && Aligned(r.link) && r.link.expected == A && r.link.current == NO_BLOCKS
  {
    hide ProcessBlock, Tolerable, Receive, GroupOf, Assemble;
    SyncLossExact(s, raws);
    if raws != [] {
      StaysInSyncPrefix(s, raws);
    }
    StreamIsSliced(s, raws);
    ReceiveAssembles(s, raws);
    AssembleGroups(raws, n, s.useFec);
  }

  lemma {:induction false} StaysInSyncPrefix(s: Link, raws: seq<Word>)
    requires StaysInSync(s, raws) && raws != []
    ensures StaysInSync(s, raws[..|raws| - 1])
    decreases |raws|
  {
    hide ProcessBlock;
    var init := raws[..|raws| - 1];
    if init != [] {
      assert init[0] == raws[0] && init[1..] == raws[1..][..|raws[1..]| - 1];
      StaysInSyncPrefix(ProcessBlock(s, raws[0]).link, raws[1..]);
    }
  }

  // ---------------------------------------------------------------------------
  // Transmissions
  // ---------------------------------------------------------------------------

  /** Which burst, if any, hits a block on its way. */
  type Damage = d: Option<nat> | d.Some? ==> d.value < 52 witness None

  datatype TxBlock = TxBlock(data: Data, kind: Kind, damage: Damage)

  /** A group as sent: its third block is of kind C or C'. Damage to C' blocks is excluded,
      since the receiver only recognises a C' block by its undamaged syndrome. */
  datatype TxGroup = TxGroup(block1: TxBlock, block2: TxBlock, block3: TxBlock, block4: TxBlock)
  {
    predicate Valid() {
      && block1.kind == A && block2.kind == B && block4.kind == D
      && (block3.kind == C || (block3.kind == CPrime && block3.damage.None?))
    }

    function Blocks(): seq<TxBlock> {
      [block1, block2, block3, block4]
    }
  }

  /** The block as it arrives. */
  function Arrives(tx: TxBlock): Word {
    match tx.damage
    case None => Encode(tx.data, tx.kind)
    case Some(b) =>
      XorWord(Encode(tx.data, tx.kind), Burst(b));
      Xor(Encode(tx.data, tx.kind), Burst(b))
  }

  /** What is expected before the block arrives. */
  function Anticipated(kind: Kind): Kind {
    if kind == CPrime then C else kind
  }

  /** The receiver takes the block for what it is, notices damage exactly, and undoes it. */
  lemma BlockDecodes(tx: TxBlock)
    requires tx.kind == CPrime ==> tx.damage.None?
    ensures var raw := Arrives(tx);
            && Refine(Anticipated(tx.kind), OffsetOf(raw)) == tx.kind
            && (OffsetOf(raw) != tx.kind <==> tx.damage.Some?)
            && Decode(raw, tx.kind, true) == Block(raw, tx.data, true, tx.damage.Some?, tx.kind)
  {
    hide Encode, Burst, Syndrome, CorrectBurst, OffsetForSyndrome;
    EncodeKeepsData(tx.data, tx.kind);
    match tx.damage {
      case None =>
        CleanBlockSyndrome(tx.data, tx.kind);
      case Some(b) =>
        DamagedBlockSyndrome(tx.data, tx.kind, b);
        CorrectionRestores(tx.data, tx.kind, b);
    }
  }

  function GroupBlocks(groups: seq<TxGroup>): seq<TxBlock>
    ensures |GroupBlocks(groups)| == 4 * |groups|
  {
    if groups == [] then [] else groups[0].Blocks() + GroupBlocks(groups[1..])
  }

  function ArriveAll(blocks: seq<TxBlock>): (raws: seq<Word>)
    ensures |raws| == |blocks|
  {
    if blocks == [] then [] else [Arrives(blocks[0])] + ArriveAll(blocks[1..])
  }

  function DamageFlags(blocks: seq<TxBlock>): (flags: seq<bool>)
    ensures |flags| == |blocks|
  {
    if blocks == [] then [] else [blocks[0].damage.Some?] + DamageFlags(blocks[1..])
  }

  /** The group a listener should get. */
  function Delivered(group: TxGroup): Group {
    MakeGroup(Restored(group.block1), Restored(group.block2),
              Restored(group.block3), Restored(group.block4))
  }

  function Restored(tx: TxBlock): Block {
    Block(Arrives(tx), tx.data, true, tx.damage.Some?, tx.kind)
  }

  function DeliveredAll(groups: seq<TxGroup>): (r: seq<Group>)
    ensures |r| == |groups|
  {
    if groups == [] then [] else [Delivered(groups[0])] + DeliveredAll(groups[1..])
  }

  lemma ArriveGroup(groups: seq<TxGroup>)
    requires groups != []
    ensures var raws, g := ArriveAll(GroupBlocks(groups)), groups[0];
            && raws[0] == Arrives(g.block1) && raws[1] == Arrives(g.block2)
            && raws[2] == Arrives(g.block3) && raws[3] == Arrives(g.block4)
            && raws[4..] == ArriveAll(GroupBlocks(groups[1..]))
  {
    hide Arrives, ArriveAll;
    var blocks := GroupBlocks(groups);
    ArriveAt(blocks, 0);
    ArriveAt(blocks, 1);
    ArriveAt(blocks, 2);
    ArriveAt(blocks, 3);
    ArriveFrom(blocks, 4);
    assert blocks[4..] == GroupBlocks(groups[1..]);
  }

  lemma {:induction false} ArriveAt(blocks: seq<TxBlock>, i: nat)
    requires i < |blocks|
    ensures ArriveAll(blocks)[i] == Arrives(blocks[i])
  {
    hide Arrives;
    if i > 0 {
      ArriveAt(blocks[1..], i - 1);
    }
  }

  lemma {:induction false} ArriveFrom(blocks: seq<TxBlock>, i: nat)
    requires i <= |blocks|
    ensures ArriveAll(blocks)[i..] == ArriveAll(blocks[i..])
    decreases i
  {
    hide Arrives;
    if i > 0 {
      ArriveFrom(blocks[1..], i - 1);
      assert blocks[1..][i - 1..] == blocks[i..];
      assert ArriveAll(blocks)[1..][i - 1..] == ArriveAll(blocks)[i..];
    }
  }

  /** Blocks follow one another as the standard has it, from one of the expected kind on. */
  ghost predicate Chained(expected: Kind, blocks: seq<TxBlock>)
    decreases |blocks|
  {
    blocks == [] ||
    (&& Anticipated(blocks[0].kind) == expected
     && (blocks[0].kind == CPrime ==> blocks[0].damage.None?)
     && Chained(NextOffset(blocks[0].kind), blocks[1..]))
  }

  lemma {:induction false} ErrorFlagsAreDamage(expected: Kind, blocks: seq<TxBlock>)
    requires Chained(expected, blocks)
    ensures ErrorFlags(expected, ArriveAll(blocks)) == DamageFlags(blocks)
    decreases |blocks|
  {
    if blocks != [] {
      hide Arrives, OffsetOf, Refine, Decode;
      BlockDecodes(blocks[0]);
      assert ArriveAll(blocks)[1..] == ArriveAll(blocks[1..]);
      ErrorFlagsAreDamage(NextOffset(blocks[0].kind), blocks[1..]);
    }
  }

  lemma {:induction false} GroupsAreChained(groups: seq<TxGroup>)
    requires forall g <- groups :: g.Valid()
    ensures Chained(A, GroupBlocks(groups))
  {
    if groups != [] {
      assert groups[0] in groups;
      GroupsAreChained(groups[1..]);
      var b0 := GroupBlocks(groups);
      assert b0[1..][1..] == b0[2..] && b0[2..][1..] == b0[3..] && b0[3..][1..] == b0[4..];
      assert b0[4..] == GroupBlocks(groups[1..]);
      assert b0[1..][0] == b0[1] && b0[2..][0] == b0[2] && b0[3..][0] == b0[3];
      assert Chained(D, b0[3..]);
      assert Chained(C, b0[2..]);
      assert Chained(B, b0[1..]);
    }
  }

  lemma GroupArrives(group: TxGroup, raws: seq<Word>)
    requires group.Valid()
    requires |raws| == 4
    requires raws[0] == Arrives(group.block1) && raws[1] == Arrives(group.block2)
    requires raws[2] == Arrives(group.block3) && raws[3] == Arrives(group.block4)
    ensures GroupOf(raws, true) == Delivered(group)
  {
    hide Arrives, OffsetOf, Decode;
    BlockDecodes(group.block1);
    BlockDecodes(group.block2);
    BlockDecodes(group.block3);
    BlockDecodes(group.block4);
  }

  lemma {:induction false} GroupsArrive(groups: seq<TxGroup>)
    requires forall g <- groups :: g.Valid()
    ensures GroupsOf(ArriveAll(GroupBlocks(groups)), true) == DeliveredAll(groups)
  {
    if groups != [] {
      hide Arrives, GroupOf, Delivered;
      ArriveGroup(groups);
      GroupArrives(groups[0], ArriveAll(GroupBlocks(groups))[..4]);
      GroupsArrive(groups[1..]);
    }
  }

  /** In-sync decoding is exact. Every group sent comes out with its data, its damaged blocks
      marked and no others, provided no 50 blocks in a row hold more than 42 damaged ones. */
  lemma DecodingExact(s: Link, groups: seq<TxGroup>)
    requires Aligned(s) && s.expected == A && s.current == NO_BLOCKS && s.useFec
    requires forall g <- groups :: g.Valid()
    requires WithinTolerance(s.errors, DamageFlags(GroupBlocks(groups)))
    ensures var r := Receive(s, Wire(ArriveAll(GroupBlocks(groups))));
            && r.groups == DeliveredAll(groups)
            && Aligned(r.link) && r.link.expected == A && r.link.current == NO_BLOCKS
  {
    hide Tolerable, WithinTolerance, Receive, Wire, DamageFlags, ErrorFlags, Aligned;
    GroupsAreChained(groups);
    ErrorFlagsAreDamage(A, GroupBlocks(groups));
    StreamIsGrouped(s, ArriveAll(GroupBlocks(groups)), |groups|);
    GroupsArrive(groups);
  }

  /** What the tuner hands on for a delivered group: the four data words as sent, and two bits
      for each block that are 1 for a corrected one and 0 for a clean one. */
  lemma DeliveredAsSent(group: TxGroup)
    ensures var out := Deliver(Delivered(group));
            && out.a == group.block1.data && out.b == group.block2.data
            && out.c == group.block3.data && out.d == group.block4.data
            && out.errors / 64 % 4 == Bit(group.block1.damage.Some?)
            && out.errors / 16 % 4 == Bit(group.block2.damage.Some?)
            && out.errors / 4 % 4 == Bit(group.block3.damage.Some?)
            && out.errors % 4 == Bit(group.block4.damage.Some?)
  {
    hide Arrives, PackErrors;
    PackedErrors(Delivered(group));
  }
}
