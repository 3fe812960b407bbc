/** The whole data link: from PSK symbols to groups. */
module EndToEnd {
  import opened BiphaseProofs
  import opened ColdStart
  import opened Framing
  import opened GroupDecoding
  import opened Relock
  import opened Subcarrier
  import opened SyncMachine

  /** All the bits that reach the block stream from a state of the symbol decoders on, those from
      before the clock lock included. */
  function DecodedBits(s: Biphase, previous: bool, symbols: seq<real>): seq<bool> {
    DeltaDecode(previous, Values(s, symbols))
  }

  lemma {:induction false} ValuesConcat(s: Biphase, a: seq<real>, b: seq<real>)
    ensures Values(s, a + b) == Values(s, a) + Values(Run(s, a), b)
  {
    hide Run, Output;
    if b == [] {
      assert a + b == a;
    } else {
      var init, last := b[..|b| - 1], b[|b| - 1];
      assert (a + b)[..|a + b| - 1] == a + init;
      ValuesConcat(s, a, init);
      RunConcat(s, a, init);
    }
  }

  /** The bit that the next one is compared with. */
  function LastBit(previous: bool, bits: seq<bool>): bool {
    if bits == [] then previous else bits[|bits| - 1]
  }

  /** Differential decoding goes on from the last bit before. */
  lemma DeltaConcat(previous: bool, a: seq<bool>, b: seq<bool>)
    ensures DeltaDecode(previous, a + b) == DeltaDecode(previous, a) + DeltaDecode(LastBit(previous, a), b)
    ensures LastBit(previous, a + b) == LastBit(LastBit(previous, a), b)
  {
  }

  /** Decoding goes on from the state that earlier symbols leave. */
  lemma DecodedConcat(s: Biphase, previous: bool, a: seq<real>, b: seq<real>)
    ensures DecodedBits(s, previous, a + b) ==
            DecodedBits(s, previous, a) + DecodedBits(Run(s, a), LastBit(previous, Values(s, a)), b)
  {
    hide Run, Values, DeltaDecode;
    ValuesConcat(s, a, b);
    DeltaConcat(previous, Values(s, a), Values(Run(s, a), b));
  }

  /** What was decoded before the lock, one bit that depends on it, and then the data: for a decoder
      just switched on, */
  lemma BitsEndInData(symbols: seq<real>, data: seq<bool>, level: bool, amplitude: real, parity: nat, k: nat)
    returns (before: seq<bool>)
    requires Ideal(symbols, DiffEncode(level, data), amplitude, parity)
    requires ChangeIn(DiffEncode(level, data), parity, k) && CLOCK_HISTORY * (k + 1) <= |symbols|
    requires parity <= 1 && PairsDone(|symbols|, parity) == |data| > 64 * (k + 1)
    ensures DecodedBits(FRESH, false, symbols) == before + data[64 * (k + 1) + 1..]
  {
    hide Ideal, ChangeIn, Run, Values, DiffEncode, PairsDone, DecodedBits;
    var start, lock := CLOCK_HISTORY * (k + 1), 64 * (k + 1);
    var previous := LastBit(false, Values(FRESH, symbols[..start]));
    DecodedConcat(FRESH, false, symbols[..start], symbols[start..]);
    assert symbols[..start] + symbols[start..] == symbols;
    DataRecovered(symbols, data, level, amplitude, parity, k, previous);
    var bits := DecodedBits(Run(FRESH, symbols[..start]), previous, symbols[start..]);
    assert bits == DeltaDecode(previous, Values(Run(FRESH, symbols[..start]), symbols[start..])) by {
      Decoded(Run(FRESH, symbols[..start]), previous, symbols[start..]);
    }
    assert bits == [bits[0]] + data[lock + 1..];
    before := DecodedBits(FRESH, false, symbols[..start]) + [bits[0]];
  }

  lemma Decoded(s: Biphase, previous: bool, symbols: seq<real>)
    ensures DecodedBits(s, previous, symbols) == DeltaDecode(previous, Values(s, symbols))
  {
  }

  /** and for one in any state. */
  lemma BitsEndInDataFromAnywhere(s: Biphase, previous: bool, symbols: seq<real>, data: seq<bool>, level: bool,
                                  amplitude: real, parity: nat, k: nat)
    returns (before: seq<bool>)
    requires |s.window| < CLOCK_HISTORY && Ideal(symbols, DiffEncode(level, data), amplitude, parity)
    requires WindowEnd(s, k) <= |symbols| && StraddledWindow(s, data, parity, k)
    requires parity <= 1 && PairsDone(|symbols|, parity) == |data| > PairsDone(WindowEnd(s, k), parity)
    ensures DecodedBits(s, previous, symbols) == before + data[PairsDone(WindowEnd(s, k), parity) + 1..]
  {
    hide Ideal, StraddledWindow, Run, Values, DiffEncode, PairsDone, DecodedBits;
    var start, lock := WindowEnd(s, k), PairsDone(WindowEnd(s, k), parity);
    var last := LastBit(previous, Values(s, symbols[..start]));
    DecodedConcat(s, previous, symbols[..start], symbols[start..]);
    assert symbols[..start] + symbols[start..] == symbols;
    DataFromAnywhere(s, last, symbols, data, level, amplitude, parity, k);
    var bits := DecodedBits(Run(s, symbols[..start]), last, symbols[start..]);
    Decoded(Run(s, symbols[..start]), last, symbols[start..]);
    assert bits == [bits[0]] + data[lock + 1..];
    before := DecodedBits(s, previous, symbols[..start]) + [bits[0]];
  }

  /** Up to the tail, at most one window besides the last three whole blocks looks like a block. */
  ghost predicate CalmBefore(bits: seq<bool>, tail: seq<bool>, x: nat) {
    |tail| + 78 <= |bits| ==>
      AtMostOneSpurious(bits[..|bits| - |tail|], 0, |bits| - |tail| - 78, x)
  }

  /** An ideal transmission whose data end in noise, three undamaged blocks, the rest of a group and
      whole groups with tolerable damage, all this after the clock has locked. The decoder pushes
      every bit it makes into the block stream from the first symbol on, right or wrong: even so
      those groups are the last to come out, exactly as sent, provided at most one window up to the
      third block looks like a block by chance. */
  lemma SymbolsToGroups(symbols: seq<real>, data: seq<bool>, level: bool, amplitude: real, parity: nat,
                        k: nat, t: Transmission, x: nat)
    returns (early: seq<Group>)
    requires Ideal(symbols, DiffEncode(level, data), amplitude, parity)
    requires ChangeIn(DiffEncode(level, data), parity, k) && CLOCK_HISTORY * (k + 1) <= |symbols|
    requires parity <= 1 && PairsDone(|symbols|, parity) == |data| > 64 * (k + 1)
    requires data[64 * (k + 1) + 1..] == t.Head() + t.Tail() && t.Valid()
    requires CalmBefore(DecodedBits(FRESH, false, symbols), t.Tail(), x)
    ensures Receive(Fresh(true), DecodedBits(FRESH, false, symbols)).groups == early + DeliveredAll(t.groups)
  {
    hide Ideal, ChangeIn, Run, Values, DiffEncode, PairsDone, Receive, Fresh, DeltaDecode, DecodedBits,
         Transmission.Valid, Transmission.Tail, AtMostOneSpurious, DeliveredAll;
    var before := BitsEndInData(symbols, data, level, amplitude, parity, k);
    early := AfterBits(DecodedBits(FRESH, false, symbols), before, t, x);
  }

  /** The same after any retune, which renews the block stream but not the symbol decoders: they are
      in whatever state the station before has left them in, and the bits made while tuning have been
      pushed too. */
  lemma RetuneToGroups(s: Biphase, previous: bool, tuning: seq<bool>, symbols: seq<real>, data: seq<bool>,
                       level: bool, amplitude: real, parity: nat, k: nat, t: Transmission, x: nat)
    returns (early: seq<Group>)
    requires |s.window| < CLOCK_HISTORY && Ideal(symbols, DiffEncode(level, data), amplitude, parity)
    requires WindowEnd(s, k) <= |symbols| && StraddledWindow(s, data, parity, k)
    requires parity <= 1 && PairsDone(|symbols|, parity) == |data| > PairsDone(WindowEnd(s, k), parity)
    requires data[PairsDone(WindowEnd(s, k), parity) + 1..] == t.Head() + t.Tail() && t.Valid()
    requires CalmBefore(tuning + DecodedBits(s, previous, symbols), t.Tail(), x)
    ensures Receive(Fresh(true), tuning + DecodedBits(s, previous, symbols)).groups ==
            early + DeliveredAll(t.groups)
  {
    hide Ideal, StraddledWindow, Run, Values, DiffEncode, PairsDone, Receive, Fresh, DeltaDecode, DecodedBits,
         Transmission.Valid, Transmission.Tail, AtMostOneSpurious, DeliveredAll;
    var before := BitsEndInDataFromAnywhere(s, previous, symbols, data, level, amplitude, parity, k);
    var bits := tuning + DecodedBits(s, previous, symbols);
    assert bits == tuning + before + (t.Head() + t.Tail());
    early := AfterBits(bits, tuning + before, t, x);
  }

  lemma AfterBits(bits: seq<bool>, before: seq<bool>, t: Transmission, x: nat) returns (early: seq<Group>)
    requires bits == before + (t.Head() + t.Tail()) && t.Valid() && CalmBefore(bits, t.Tail(), x)
    ensures Receive(Fresh(true), bits).groups == early + DeliveredAll(t.groups)
  {
    hide Receive, Fresh, Chained, WithinTolerance, Lead, Wire, AtMostOneSpurious, DeliveredAll;
    var all := t.(noise := before + t.noise);
    assert all.Head() == before + t.Head();
    assert bits[..|bits| - |t.Tail()|] == all.Head();
    assert bits == all.Head() + all.Tail();
    early := ColdStartExact(all, x);
  }
}
