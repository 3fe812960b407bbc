/** What is handed on for a group, whatever has become of its blocks. */
module Delivery {
  import opened BlockCode
  import opened BurstCorrection
  import opened Bitwise
  import opened Framing
  import opened GroupDecoding
  import opened Provenance
  import opened SyncMachine

  /** The two bits of a packed error byte for each place in a group. */
  function ErrorBits(errors: nat, place: nat): (e: nat)
    requires place < 4
    ensures e < 4
  {
    match place case 0 => errors / 64 % 4 case 1 => errors / 16 % 4 case 2 => errors / 4 % 4 case 3 => errors % 4
  }

  function WordAt(g: RdsGroup, place: nat): Data
    requires place < 4
  {
    match place case 0 => g.a case 1 => g.b case 2 => g.c case 3 => g.d
  }

  /** In every group: a missing block has both its bits set and its word is zero; a corrected one has
      the lower bit set and a clean one neither, and their words are their data. */
  lemma MissingBlocksMarked(g: Group)
    ensures var out := Deliver(g);
            && out.errors < 256
            && out.errors / 64 % 4 == (if !g[0].isReceived then 3 else if g[0].hadErrors then 1 else 0)
            && out.errors / 16 % 4 == (if !g[1].isReceived then 3 else if g[1].hadErrors then 1 else 0)
            && out.errors / 4 % 4 == (if !g[2].isReceived then 3 else if g[2].hadErrors then 1 else 0)
            && out.errors % 4 == (if !g[3].isReceived then 3 else if g[3].hadErrors then 1 else 0)
            && out.a == (if g[0].isReceived then g[0].data else 0)
            && out.b == (if g[1].isReceived then g[1].data else 0)
            && out.c == (if g[2].isReceived then g[2].data else 0)
            && out.d == (if g[3].isReceived then g[3].data else 0)
  {
    PackedErrors(g);
  }

  /** A group is handed on for each group, in order. */
  lemma {:induction false} DeliveredInOrder(groups: seq<Group>)
    ensures |DeliverAll(groups)| == |groups|
    ensures forall i :: 0 <= i < |groups| ==> DeliverAll(groups)[i] == Deliver(groups[i])
  {
    hide Deliver;
    if groups != [] {
      DeliveredInOrder(groups[1..]);
    }
  }

  // ---------------------------------------------------------------------------
  // Arbitrary damage
  // ---------------------------------------------------------------------------

  /** The word is one burst away from an encoding for its place. */
  ghost predicate Correctable(w: Word, kind: Kind) {
    exists e: nat, data: Data :: IsBurst(e) && Xor(w, e) == Encode(data, kind)
  }

  /** What is said of a received word: 0 and its data if it is an encoding for its place; 1 and the data
      of an encoding one burst away if it is not and there is one, and correction is on; 3 and zero
      if there is neither. */
  ghost predicate Reported(w: Word, kind: Kind, useFec: bool, e: nat, data: Data) {
    if IsEncoding(w, kind) then e == 0 && data == w / 0x400
    else if useFec && Correctable(w, kind) then
      e == 1 && exists burst: nat :: IsBurst(burst) && Xor(w, burst) == Encode(data, kind)
    else e == 3 && data == 0
  }

  lemma MarkedAt(g: Group, place: nat)
    requires place < 4
    ensures var e := ErrorBits(Deliver(g).errors, place);
            && (e == 3 <==> !g[place].isReceived)
            && (e == 1 <==> g[place].isReceived && g[place].hadErrors)
            && (e == 0 <==> g[place].isReceived && !g[place].hadErrors)
            && WordAt(Deliver(g), place) == (if g[place].isReceived then g[place].data else 0)
  {
    hide Deliver;
    MissingBlocksMarked(g);
  }

  lemma KeptReported(w: Word, kind: Kind, useFec: bool, e: nat, data: Data)
    requires var block := Kept(w, kind, useFec);
             && (e == 3 <==> !block.isReceived)
             && (e == 1 <==> block.isReceived && block.hadErrors)
             && (e == 0 <==> block.isReceived && !block.hadErrors)
             && data == (if block.isReceived then block.data else 0)
    ensures Reported(w, kind, useFec, e, data)
  {
    hide Encode, IsBurst, OffsetOf, CorrectBurst;
    var block := Decode(w, kind, useFec);
    CleanExactly(w, kind);
    if block.isReceived {
      DecodedBlockSound(w, kind, useFec);
    } else {
      DroppedBlockHopeless(w, kind, useFec);
    }
  }

  lemma CleanExactly(w: Word, kind: Kind)
    ensures OffsetOf(w) == kind <==> IsEncoding(w, kind)
  {
    hide Syndrome, Encode;
    OffsetForSyndromeExact(Syndrome(w), kind);
    SyndromeCharacterisesEncoding(w, kind);
  }

  /** The kind a word is taken for in each place of a group: in the third, an encoding of C' is one. */
  ghost function KindAt(w: Word, place: nat): Kind
    requires place < 4
  {
    if place == 0 then A else if place == 1 then B
    else if place == 3 then D else if IsEncoding(w, CPrime) then CPrime else C
  }

  lemma {:induction false} GroupAt(raws: seq<Word>, useFec: bool, i: nat)
    requires 4 * i + 4 <= |raws|
    ensures i < |GroupsOf(raws, useFec)|
    ensures GroupsOf(raws, useFec)[i] == GroupOf(raws[4 * i..4 * i + 4], useFec)
  {
    hide GroupOf;
    if i > 0 {
      GroupAt(raws[4..], useFec, i - 1);
      assert raws[4..][4 * (i - 1)..4 * i] == raws[4 * i..4 * i + 4];
    }
  }

  lemma BlockAt(raws: seq<Word>, useFec: bool, i: nat, place: nat)
    requires 4 * i + 4 <= |raws| && place < 4
    ensures i < |GroupsOf(raws, useFec)|
    ensures var w := raws[4 * i + place];
            GroupsOf(raws, useFec)[i][place] == Kept(w, KindAt(w, place), useFec)
  {
    hide Kept, OffsetOf, IsEncoding;
    GroupAt(raws, useFec, i);
    var four := raws[4 * i..4 * i + 4];
    assert four[place] == raws[4 * i + place];
    CleanExactly(four[2], CPrime);
  }

  /** While sync lasts, and whatever the damage to any block: one group is handed on for every four
      words, and of each word it reports exactly what the code can tell of it. */
  lemma AnyDamageReported(s: Link, raws: seq<Word>, n: nat, i: nat, place: nat)
    requires Aligned(s) && s.expected == A && s.current == NO_BLOCKS && |raws| == 4 * n
    requires WithinTolerance(s.errors, ErrorFlags(A, raws))
    requires i < n && place < 4
    ensures var out := DeliverAll(Receive(s, Wire(raws)).groups);
            var w := raws[4 * i + place];
            && |out| == n
            && Reported(w, KindAt(w, place), s.useFec, ErrorBits(out[i].errors, place), WordAt(out[i], place))
  {
    hide Kept, Receive, Wire, Aligned, WithinTolerance, ErrorFlags, GroupsOf, KindAt, ErrorBits, WordAt, Deliver,
         Reported;
    StreamIsGrouped(s, raws, n);
    var groups := GroupsOf(raws, s.useFec);
    DeliveredInOrder(groups);
    GroupsCount(raws, s.useFec, n);
    BlockAt(raws, s.useFec, i, place);
    MarkedAt(groups[i], place);
    var w := raws[4 * i + place];
    KeptReported(w, KindAt(w, place), s.useFec, ErrorBits(Deliver(groups[i]).errors, place),
                 WordAt(Deliver(groups[i]), place));
  }

  lemma {:induction false} GroupsCount(raws: seq<Word>, useFec: bool, n: nat)
    requires |raws| == 4 * n
    ensures |GroupsOf(raws, useFec)| == n
  {
    hide GroupOf;
    if n > 0 {
      GroupsCount(raws[4..], useFec, n - 1);
    }
  }
}
