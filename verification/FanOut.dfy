/** From a received group to the lines clients get. */
module FanOut {
  import opened Delivery
  import opened Seqs
  import opened SyncMachine
  import opened XdrRds

  /** Whatever has become of its blocks, a group is passed on whole if and only if its second block was
      received clean, and its words are then the data of its last three blocks, zero for a missing one.
      Its first block counts as a reading, clean if it was, and never confirms itself when missing. */
  lemma GroupFansOut(g: Group, window: seq<Reading>)
    ensures var out := Deliver(g);
            var r := Reading(out.a, g[0].isReceived && !g[0].hadErrors);
            var lines := LinesFor(window + [r], out.a, out.b, out.c, out.d, out.errors);
            && out.errors < 256 && (out.errors / 64 % 4 == 0 <==> r.clean)
            && (GroupLine(out.b, out.c, out.d, out.errors) in lines <==> g[1].isReceived && !g[1].hadErrors)
            && ((exists l <- lines :: l.PiLine?) <==>
                  g[0].isReceived && Confirmed(Newest(window + [r], 64), g[0].data))
  {
    hide Deliver, Confirmed;
    MissingBlocksMarked(g);
    var out := Deliver(g);
    var r := Reading(out.a, g[0].isReceived && !g[0].hadErrors);
    PiLineInLines(window + [r], out.a, out.b, out.c, out.d, out.errors);
    var lines := LinesFor(window + [r], out.a, out.b, out.c, out.d, out.errors);
    if l :| l in lines && l.PiLine? {
      assert l == PiLine(out.a, out.errors / 64 % 4);
    }
    if g[0].isReceived && Confirmed(Newest(window + [r], 64), g[0].data) {
      assert PiLine(out.a, out.errors / 64 % 4) in lines;
    }
  }
}
