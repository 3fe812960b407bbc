/** From any state of the symbol decoders the clock locks again, and the data come out. */
module Relock {
  import opened BiphaseProofs
  import opened Subcarrier

  // ---------------------------------------------------------------------------
  // The window from any state
  // ---------------------------------------------------------------------------

  /** The amplitudes of a stretch of symbols after a given one. */
  function Amplitudes(previous: real, symbols: seq<real>): (s: seq<real>)
    ensures |s| == |symbols|
  {
    seq(|symbols|, j requires 0 <= j < |symbols| =>
      Abs(Difference(if j == 0 then previous else symbols[j - 1], symbols[j])))
  }

  lemma {:induction false} WithinWindow(s: Biphase, symbols: seq<real>)
    requires |s.window| + |symbols| < CLOCK_HISTORY
    ensures Run(s, symbols) ==
            Biphase(if symbols == [] then s.previous else symbols[|symbols| - 1],
                    s.window + Amplitudes(s.previous, symbols), s.polarity)
  {
    if symbols == [] {
      assert s.window + [] == s.window;
    } else {
      var n := |symbols| - 1;
      WithinWindow(s, symbols[..n]);
      assert Amplitudes(s.previous, symbols) ==
             Amplitudes(s.previous, symbols[..n]) + [Amplitudes(s.previous, symbols)[n]];
    }
  }

  /** The symbols that complete a window. */
  lemma ToWindowEnd(s: Biphase, symbols: seq<real>)
    requires |s.window| < CLOCK_HISTORY && |symbols| == CLOCK_HISTORY - |s.window|
    ensures Run(s, symbols) ==
            Biphase(symbols[|symbols| - 1], [],
                    Choose(s.window + Amplitudes(s.previous, symbols), s.polarity))
  {
    hide Choose;
    var n := |symbols| - 1;
    WithinWindow(s, symbols[..n]);
    assert Amplitudes(s.previous, symbols) ==
           Amplitudes(s.previous, symbols[..n]) + [Amplitudes(s.previous, symbols)[n]];
    assert s.window + Amplitudes(s.previous, symbols) ==
           s.window + Amplitudes(s.previous, symbols[..n]) + [Amplitudes(s.previous, symbols)[n]];
  }

  lemma {:induction false} WholeWindows(s: Biphase, symbols: seq<real>, k: nat)
    requires s.window == [] && |symbols| == CLOCK_HISTORY * k
    ensures Run(s, symbols).window == []
    ensures Run(s, symbols).previous == if k == 0 then s.previous else symbols[|symbols| - 1]
  {
    hide Choose;
    if k > 0 {
      var n := CLOCK_HISTORY * (k - 1);
      WholeWindows(s, symbols[..n], k - 1);
      RunConcat(s, symbols[..n], symbols[n..]);
      assert symbols[..n] + symbols[n..] == symbols;
      ToWindowEnd(Run(s, symbols[..n]), symbols[n..]);
    }
  }

  // ---------------------------------------------------------------------------
  // The decision is the same as from new
  // ---------------------------------------------------------------------------

  /** The symbol before an ideal stream is one of an ideal stream too. */
  ghost predicate Precedes(previous: real, bits: seq<bool>, amplitude: real, parity: nat) {
    && (previous == amplitude || previous == -amplitude)
    && (parity == 0 ==> bits != [] && previous == HalfSymbol(bits[0], 0, amplitude))
  }

  lemma ChunkDecides(symbols: seq<real>, bits: seq<bool>, amplitude: real, parity: nat, k: nat,
                     previous: real, polarity: nat)
    requires Ideal(symbols, bits, amplitude, parity) && ChangeIn(bits, parity, k)
    requires CLOCK_HISTORY * (k + 1) <= |symbols|
    requires if k > 0 then previous == symbols[CLOCK_HISTORY * k - 1]
             else previous == 0.0 || Precedes(previous, bits, amplitude, parity)
    ensures Choose(Amplitudes(previous, symbols[CLOCK_HISTORY * k..CLOCK_HISTORY * (k + 1)]), polarity) == parity
  {
    hide Choose, ChangeIn, Ideal;
    var chunk := symbols[CLOCK_HISTORY * k..CLOCK_HISTORY * (k + 1)];
    var w := Amplitudes(previous, chunk);
    WindowLength(symbols, k);
    SameButFirst(symbols, k, previous);
    if k > 0 || previous == 0.0 {
      assert w == WindowOf(symbols, k);
      WindowDecides(symbols, bits, amplitude, parity, k, polarity);
    } else {
      FirstChunkDecides(symbols, bits, amplitude, parity, previous, polarity);
    }
  }

  lemma SameButFirst(symbols: seq<real>, k: nat, previous: real)
    requires CLOCK_HISTORY * (k + 1) <= |symbols|
    ensures var w := Amplitudes(previous, symbols[CLOCK_HISTORY * k..CLOCK_HISTORY * (k + 1)]);
            && |w| == |WindowOf(symbols, k)| == CLOCK_HISTORY
            && (forall j :: 1 <= j < CLOCK_HISTORY ==> w[j] == WindowOf(symbols, k)[j])
            && (previous == (if k == 0 then 0.0 else symbols[CLOCK_HISTORY * k - 1]) ==>
                  w[0] == WindowOf(symbols, k)[0])
            && w[0] == Abs(Difference(previous, symbols[CLOCK_HISTORY * k]))
  {
    hide Abs, Difference;
    var n := CLOCK_HISTORY * k;
    var chunk := symbols[n..CLOCK_HISTORY * (k + 1)];
    var w := Amplitudes(previous, chunk);
    forall j | 1 <= j < CLOCK_HISTORY ensures w[j] == WindowOf(symbols, k)[j] {
      assert chunk[j] == symbols[n + j] && chunk[j - 1] == symbols[n + j - 1];
      assert WindowOf(symbols, k)[j] == Amplitude(symbols, n + j);
    }
    assert chunk[0] == symbols[n];
    assert WindowOf(symbols, k)[0] == Amplitude(symbols, n + 0);
  }

  lemma FirstChunkDecides(symbols: seq<real>, bits: seq<bool>, amplitude: real, parity: nat,
                          previous: real, polarity: nat)
    requires Ideal(symbols, bits, amplitude, parity) && ChangeIn(bits, parity, 0)
    requires CLOCK_HISTORY <= |symbols| && Precedes(previous, bits, amplitude, parity)
    ensures Choose(Amplitudes(previous, symbols[0..CLOCK_HISTORY]), polarity) == parity
  {
    hide Choose, ChangeAt, Amplitudes, WindowOf, Ideal;
    var w := Amplitudes(previous, symbols[0..CLOCK_HISTORY]);
    SameButFirst(symbols, 0, previous);
    FirstAmplitude(symbols, bits, amplitude, parity, previous);
    forall j | 1 <= j < CLOCK_HISTORY
      ensures if j % 2 == parity then w[j] == amplitude
              else w[j] == if ChangeAt(bits, parity, 0, j) then 0.0 else amplitude
    {
      WindowItem(symbols, bits, amplitude, parity, 0, j);
    }
    WindowItem(symbols, bits, amplitude, parity, 0, 0);
    var t: nat :| ChangeAt(bits, parity, 0, t);
    ChangePlace(bits, parity, 0, t);
    FullPlacesWin(w, amplitude, parity, t);
  }

  lemma FirstAmplitude(symbols: seq<real>, bits: seq<bool>, amplitude: real, parity: nat, previous: real)
    requires Ideal(symbols, bits, amplitude, parity) && symbols != []
    requires Precedes(previous, bits, amplitude, parity)
    ensures var x := Abs(Difference(previous, symbols[0]));
            (x == amplitude || x == 0.0) && (parity == 0 ==> x == amplitude)
  {
  }

  /** Whatever the state before an ideal stream, after the first whole window with a bit change it is
      that of a decoder that began as new with that stream. */
  lemma SameAfterLock(s: Biphase, symbols: seq<real>, bits: seq<bool>, amplitude: real, parity: nat, k: nat)
    requires s.window == [] && Precedes(s.previous, bits, amplitude, parity)
    requires Ideal(symbols, bits, amplitude, parity) && ChangeIn(bits, parity, k)
    requires CLOCK_HISTORY * (k + 1) <= |symbols|
    ensures Run(s, symbols[..CLOCK_HISTORY * (k + 1)]) == Run(FRESH, symbols[..CLOCK_HISTORY * (k + 1)])
  {
    hide Ideal, ChangeIn, Precedes, Choose, Amplitudes, Run;
    var n, m := CLOCK_HISTORY * k, CLOCK_HISTORY * (k + 1);
    assert symbols[..m] == symbols[..n] + symbols[n..m];
    RunConcat(s, symbols[..n], symbols[n..m]);
    RunConcat(FRESH, symbols[..n], symbols[n..m]);
    WholeWindows(s, symbols[..n], k);
    WholeWindows(FRESH, symbols[..n], k);
    var a, b := Run(s, symbols[..n]), Run(FRESH, symbols[..n]);
    ToWindowEnd(a, symbols[n..m]);
    ToWindowEnd(b, symbols[n..m]);
    NothingBefore(Amplitudes(a.previous, symbols[n..m]));
    NothingBefore(Amplitudes(b.previous, symbols[n..m]));
    ChunkDecides(symbols, bits, amplitude, parity, k, a.previous, a.polarity);
    ChunkDecides(symbols, bits, amplitude, parity, k, b.previous, b.polarity);
  }

  lemma NothingBefore(w: seq<real>)
    ensures [] + w == w
  {
  }

  // ---------------------------------------------------------------------------
  // The rest of a stream
  // ---------------------------------------------------------------------------

  /** Which bit, and which half of one, comes r symbols into a stream. */
  function ParityAfter(parity: nat, r: nat): nat { (parity + r) % 2 }

  function BitsBefore(parity: nat, r: nat): nat
    requires parity <= 1
  {
    (r + ParityAfter(parity, r) - parity) / 2
  }

  lemma RestIsIdeal(symbols: seq<real>, bits: seq<bool>, amplitude: real, parity: nat, r: nat)
    requires Ideal(symbols, bits, amplitude, parity) && 1 <= r < |symbols|
    ensures parity <= 1 && BitsBefore(parity, r) < |bits|
    ensures Ideal(symbols[r..], bits[BitsBefore(parity, r)..], amplitude, ParityAfter(parity, r))
    ensures Precedes(symbols[r - 1], bits[BitsBefore(parity, r)..], amplitude, ParityAfter(parity, r))
  {
    var p, shift := ParityAfter(parity, r), BitsBefore(parity, r);
    assert r + 1 - parity == 2 * shift + 1 - p;
    var later := symbols[r..];
    forall i | 0 <= i < |later|
      ensures later[i] == HalfSymbol(bits[shift..][(i + 1 - p) / 2], (i + 1 - p) % 2, amplitude)
    {
      Halves(shift, i + 1 - p);
    }
    Halves(shift, 0);
  }

  lemma Halves(shift: nat, v: nat)
    ensures (2 * shift + v) / 2 == shift + v / 2 && (2 * shift + v) % 2 == v % 2
  {
  }

  lemma {:induction false} DiffEncodeRest(level: bool, data: seq<bool>, shift: nat)
    requires shift <= |data|
    ensures var bits := DiffEncode(level, data);
            DiffEncode(if shift == 0 then level else bits[shift - 1], data[shift..]) == bits[shift..]
  {
    if shift == |data| {
      assert data[shift..] == [];
    } else {
      var n := |data| - 1;
      DiffEncodeRest(level, data[..n], shift);
      assert data[shift..][..n - shift] == data[..n][shift..];
    }
  }

  /** The level of the stream changes at some count in a stretch, between two biphase symbols. */
  ghost predicate StraddledIn(data: seq<bool>, parity: nat, from: nat, to: nat) {
    exists t: nat :: from <= t < to && Straddles(data, parity, t)
  }

  lemma ChangeInRest(level: bool, data: seq<bool>, parity: nat, r: nat, k: nat)
    requires parity <= 1 && 1 <= r && BitsBefore(parity, r) <= |data|
    requires StraddledIn(data, parity, r + CLOCK_HISTORY * k + if k == 0 then 1 else 0, r + CLOCK_HISTORY * (k + 1))
    ensures ChangeIn(DiffEncode(level, data)[BitsBefore(parity, r)..], ParityAfter(parity, r), k)
  {
    hide DiffEncode, Straddles, ChangeAt;
    var t: nat :| r + CLOCK_HISTORY * k + (if k == 0 then 1 else 0) <= t < r + CLOCK_HISTORY * (k + 1)
                  && Straddles(data, parity, t);
    ChangeAtInRest(level, data, parity, r, k, t);
  }

  lemma ChangeAtInRest(level: bool, data: seq<bool>, parity: nat, r: nat, k: nat, t: nat)
    requires parity <= 1 && 1 <= r && BitsBefore(parity, r) <= |data| && Straddles(data, parity, t)
    requires r < t && r + CLOCK_HISTORY * k <= t < r + CLOCK_HISTORY * (k + 1)
    ensures ChangeAt(DiffEncode(level, data)[BitsBefore(parity, r)..], ParityAfter(parity, r), k, t - r)
  {
    hide DiffEncode;
    var p, shift := ParityAfter(parity, r), BitsBefore(parity, r);
    assert r + 1 - parity == 2 * shift + 1 - p;
    Halves(shift, t - r + 1 - p);
    DiffEncodeStep(level, data, (t + 1 - parity) / 2);
  }

  // ---------------------------------------------------------------------------
  // The bits that come out
  // ---------------------------------------------------------------------------

  /** How many symbols fill up the window of a state; whole windows follow. */
  function WindowRest(s: Biphase): (r: nat)
    requires |s.window| < CLOCK_HISTORY
    ensures 1 <= r <= CLOCK_HISTORY
  {
    CLOCK_HISTORY - |s.window|
  }

  /** The end of whole window number k from a state on. */
  function WindowEnd(s: Biphase, k: nat): (end: nat)
    requires |s.window| < CLOCK_HISTORY
  {
    WindowRest(s) + CLOCK_HISTORY * (k + 1)
  }

  /** The level changes somewhere in whole window number k. */
  ghost predicate StraddledWindow(s: Biphase, data: seq<bool>, parity: nat, k: nat)
    requires |s.window| < CLOCK_HISTORY
  {
    StraddledIn(data, parity, WindowRest(s) + CLOCK_HISTORY * k + if k == 0 then 1 else 0, WindowEnd(s, k))
  }

  /** From any state of the decoder an ideal stream locks the clock with the first whole window in
      which the level changes, and from its end on every biphase bit comes out, and no other. */
  lemma LocksFromAnywhere(s: Biphase, symbols: seq<real>, data: seq<bool>, level: bool, amplitude: real,
                          parity: nat, k: nat)
    requires |s.window| < CLOCK_HISTORY && Ideal(symbols, DiffEncode(level, data), amplitude, parity)
    requires WindowEnd(s, k) <= |symbols| && StraddledWindow(s, data, parity, k)
    ensures parity <= 1 && PairsDone(WindowEnd(s, k), parity) <= PairsDone(|symbols|, parity) <= |data|
    ensures var start := WindowEnd(s, k);
            Values(Run(s, symbols[..start]), symbols[start..]) ==
            DiffEncode(level, data)[PairsDone(start, parity)..PairsDone(|symbols|, parity)]
  {
    hide Ideal, DiffEncode, Run, Values, ChangeIn, StraddledIn, ParityAfter, BitsBefore;
    var bits, r, m := DiffEncode(level, data), WindowRest(s), CLOCK_HISTORY * (k + 1);
    StateAtLock(s, symbols, data, level, amplitude, parity, k);
    var later, p, shift := symbols[r..], ParityAfter(parity, r), BitsBefore(parity, r);
    LockedValues(later, bits[shift..], amplitude, p, k, |later|);
    assert later[m..|later|] == symbols[r + m..];
    PairsSent(symbols, bits, amplitude, parity, |symbols|);
    RestPairs(parity, r, m);
    RestPairs(parity, r, |later|);
    PairsDoneByLock(k, p);
    SliceOfRest(bits, shift, 64 * (k + 1), PairsDone(|later|, p));
  }

  lemma SliceOfRest<T>(s: seq<T>, shift: nat, a: nat, b: nat)
    requires a <= b && shift + b <= |s|
    ensures s[shift..][a..b] == s[shift + a..shift + b]
  {
  }

  /** At the end of that window the state is that of a decoder new at the first whole window. */
  lemma StateAtLock(s: Biphase, symbols: seq<real>, data: seq<bool>, level: bool, amplitude: real,
                    parity: nat, k: nat)
    requires |s.window| < CLOCK_HISTORY && Ideal(symbols, DiffEncode(level, data), amplitude, parity)
    requires WindowEnd(s, k) <= |symbols| && StraddledWindow(s, data, parity, k)
    ensures var r := WindowRest(s);
            && parity <= 1 && BitsBefore(parity, r) <= |data|
            && Ideal(symbols[r..], DiffEncode(level, data)[BitsBefore(parity, r)..], amplitude, ParityAfter(parity, r))
            && ChangeIn(DiffEncode(level, data)[BitsBefore(parity, r)..], ParityAfter(parity, r), k)
            && Run(s, symbols[..WindowEnd(s, k)]) == Run(FRESH, symbols[r..][..CLOCK_HISTORY * (k + 1)])
  {
    hide Ideal, DiffEncode, Run, Choose, ChangeIn, Precedes, StraddledIn, Amplitudes, ParityAfter, BitsBefore;
    var bits, r, m := DiffEncode(level, data), WindowRest(s), CLOCK_HISTORY * (k + 1);
    RestIsIdeal(symbols, bits, amplitude, parity, r);
    var later := symbols[r..];
    ChangeInRest(level, data, parity, r, k);
    ToWindowEnd(s, symbols[..r]);
    SameAfterLock(Run(s, symbols[..r]), later, bits[BitsBefore(parity, r)..], amplitude, ParityAfter(parity, r), k);
    RunConcat(s, symbols[..r], later[..m]);
    assert symbols[..r] + later[..m] == symbols[..r + m];
  }

  lemma RestPairs(parity: nat, r: nat, n: nat)
    requires parity <= 1
    ensures PairsDone(r + n, parity) == BitsBefore(parity, r) + PairsDone(n, ParityAfter(parity, r))
  {
    assert r + 1 - parity == 2 * BitsBefore(parity, r) + 1 - ParityAfter(parity, r);
    Halves(BitsBefore(parity, r), n + 1 - ParityAfter(parity, r));
  }

  /** Differential decoding gives the data back but for the first bit, whatever came before. */
  lemma DataFromAnywhere(s: Biphase, previous: bool, symbols: seq<real>, data: seq<bool>, level: bool,
                         amplitude: real, parity: nat, k: nat)
    requires |s.window| < CLOCK_HISTORY && Ideal(symbols, DiffEncode(level, data), amplitude, parity)
    requires WindowEnd(s, k) <= |symbols| && StraddledWindow(s, data, parity, k)
    ensures parity <= 1
    ensures var start, first, end := WindowEnd(s, k), PairsDone(WindowEnd(s, k), parity), PairsDone(|symbols|, parity);
            var out := DeltaDecode(previous, Values(Run(s, symbols[..start]), symbols[start..]));
            && first + |out| == end <= |data|
            && forall i :: 1 <= i < |out| ==> out[i] == data[first + i]
  {
    hide Ideal, DiffEncode, Run, Values, StraddledWindow, PairsDone;
    LocksFromAnywhere(s, symbols, data, level, amplitude, parity, k);
    var bits := DiffEncode(level, data);
    forall i | 1 <= i < |data| ensures data[i] == (bits[i] != bits[i - 1]) {
      DiffEncodeStep(level, data, i);
    }
  }
}
