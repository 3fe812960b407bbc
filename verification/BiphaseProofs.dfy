/** Biphase and differential decoding invert the transmitter's coding, EN 50067 section 1.6. */
module BiphaseProofs {
  import opened Subcarrier
  import opened Wrappers

  // ---------------------------------------------------------------------------
  // The transmitter
  // ---------------------------------------------------------------------------

  /** The level of one half of a biphase symbol: a one goes up, a zero goes down. */
  function HalfSymbol(bit: bool, half: nat, amplitude: real): real {
    if bit == (half == 1) then amplitude else -amplitude
  }

  /** An ideal stream of the bits, whose pairs end at counts of the given parity. */
  ghost predicate Ideal(symbols: seq<real>, bits: seq<bool>, amplitude: real, parity: nat) {
    && amplitude > 0.0
    && parity <= 1
    && |symbols| + 1 - parity <= 2 * |bits|
    && forall t :: 0 <= t < |symbols| ==>
         var u := t + 1 - parity;
         symbols[t] == HalfSymbol(bits[u / 2], u % 2, amplitude)
  }

  /** Differential coding of the data: a one changes the level. */
  function DiffEncode(level: bool, data: seq<bool>): (bits: seq<bool>)
    ensures |bits| == |data|
  {
    if data == [] then []
    else
      var before := DiffEncode(level, data[..|data| - 1]);
      before + [data[|data| - 1] != if before == [] then level else before[|before| - 1]]
  }

  // ---------------------------------------------------------------------------
  // What the receiver sees
  // ---------------------------------------------------------------------------

  /** The amplitude measured at count t. */
  function Amplitude(symbols: seq<real>, t: nat): real
    requires t < |symbols|
  {
    Abs(Difference(if t == 0 then 0.0 else symbols[t - 1], symbols[t]))
  }

  /** After t symbols, the window holds the amplitudes since the last multiple of 128. */
  lemma {:induction false} RunTrace(symbols: seq<real>)
    ensures var s, n := Run(FRESH, symbols), |symbols|;
            && s.previous == (if n == 0 then 0.0 else symbols[n - 1])
            && |s.window| == n % CLOCK_HISTORY
            && forall j :: 0 <= j < |s.window| ==> s.window[j] == Amplitude(symbols, n - |s.window| + j)
  {
    if symbols != [] {
      var n := |symbols| - 1;
      RunTrace(symbols[..n]);
      forall t | 0 <= t < n ensures Amplitude(symbols[..n], t) == Amplitude(symbols, t) { }
    }
  }

  /** On the right places the amplitude is full; on the others it is full or zero, and zero
      exactly where the bit changes. The very first symbol has no predecessor. */
  lemma IdealAmplitude(symbols: seq<real>, bits: seq<bool>, amplitude: real, parity: nat, t: nat)
    requires Ideal(symbols, bits, amplitude, parity) && t < |symbols|
    ensures t > 0 && t % 2 == parity ==> Amplitude(symbols, t) == amplitude
    ensures t > 0 && t % 2 != parity ==>
              var i := (t + 1 - parity) / 2;
              Amplitude(symbols, t) == if bits[i - 1] == bits[i] then amplitude else 0.0
    ensures t == 0 ==> Amplitude(symbols, t) == amplitude / 2.0
  {
  }

  // ---------------------------------------------------------------------------
  // Sums over a window
  // ---------------------------------------------------------------------------

  /** n times a. */
  function Times(a: real, n: nat): real {
    if n == 0 then 0.0 else Times(a, n - 1) + a
  }

  /** How many of the places below n have the parity. */
  function Places(n: nat, parity: nat): nat {
    if n == 0 then 0 else Places(n - 1, parity) + if (n - 1) % 2 == parity then 1 else 0
  }

  lemma {:induction false} PlacesBalance(n: nat)
    ensures Places(2 * n, 0) == n && Places(2 * n, 1) == n
  {
    if n > 0 {
      PlacesBalance(n - 1);
      assert Places(2 * n - 1, 0) == Places(2 * n - 2, 0) + 1;
      assert Places(2 * n - 1, 1) == Places(2 * n - 2, 1);
    }
  }

  /** A sum of amplitudes is at most full, and less by as much as any one of them falls short. */
  lemma {:induction false} SumAtMost(s: seq<real>, parity: nat, a: real)
    requires forall j :: 0 <= j < |s| && j % 2 == parity ==> s[j] <= a
    ensures ParitySum(s, parity) <= Times(a, Places(|s|, parity))
    ensures forall j :: 0 <= j < |s| && j % 2 == parity ==>
              ParitySum(s, parity) <= Times(a, Places(|s|, parity)) - (a - s[j])
  {
    if s != [] {
      SumAtMost(s[..|s| - 1], parity, a);
    }
  }

  lemma {:induction false} SumExactly(s: seq<real>, parity: nat, a: real)
    requires forall j :: 0 <= j < |s| && j % 2 == parity ==> s[j] == a
    ensures ParitySum(s, parity) == Times(a, Places(|s|, parity))
  {
    if s != [] {
      SumExactly(s[..|s| - 1], parity, a);
    }
  }

  /** The sum falls short by what the first item does. */
  lemma {:induction false} SumButFirst(s: seq<real>, a: real)
    requires s != [] && forall j :: 1 <= j < |s| && j % 2 == 0 ==> s[j] == a
    ensures ParitySum(s, 0) == Times(a, Places(|s|, 0)) - (a - s[0])
  {
    if |s| > 1 {
      SumButFirst(s[..|s| - 1], a);
    } else {
      assert s[..0] == [];
    }
  }

  // ---------------------------------------------------------------------------
  // The clock decision
  // ---------------------------------------------------------------------------

  /** The amplitudes of window number k. */
  function WindowOf(symbols: seq<real>, k: nat): seq<real>
    requires CLOCK_HISTORY * (k + 1) <= |symbols|
  {
    seq(CLOCK_HISTORY, j requires 0 <= j < CLOCK_HISTORY => Amplitude(symbols, CLOCK_HISTORY * k + j))
  }

  function PolarityAt(symbols: seq<real>, t: nat): nat
    requires t <= |symbols|
  {
    Run(FRESH, symbols[..t]).polarity
  }

  lemma PolarityNext(symbols: seq<real>, t: nat)
    requires t < |symbols|
    ensures if (t + 1) % CLOCK_HISTORY == 0 then
              var k := t / CLOCK_HISTORY;
              && t + 1 == CLOCK_HISTORY * (k + 1)
              && PolarityAt(symbols, t + 1) == Choose(WindowOf(symbols, k), PolarityAt(symbols, t))
            else PolarityAt(symbols, t + 1) == PolarityAt(symbols, t)
  {
    hide Choose;
    var prefix := symbols[..t];
    RunTrace(prefix);
    var s := Run(FRESH, prefix);
    assert symbols[..t + 1][..t] == prefix;
    assert Run(FRESH, symbols[..t + 1]) == Next(s, symbols[t]);
    if (t + 1) % CLOCK_HISTORY == 0 {
      var k := t / CLOCK_HISTORY;
      forall j | 0 <= j < |s.window| ensures s.window[j] == Amplitude(symbols, CLOCK_HISTORY * k + j) {
        assert s.window[j] == Amplitude(prefix, t - |s.window| + j);
      }
      assert Amplitude(symbols, t) == Abs(Difference(s.previous, symbols[t]));
      assert s.window + [Abs(Difference(s.previous, symbols[t]))] == WindowOf(symbols, k);
    }
  }

  /** The bit sent changes at a count of window k, between two whole pairs. */
  ghost predicate ChangeAt(bits: seq<bool>, parity: nat, k: nat, t: nat) {
    && CLOCK_HISTORY * k <= t < CLOCK_HISTORY * (k + 1) && t > 0
    && t % 2 != parity <= 1
    && 1 <= (t + 1 - parity) / 2 < |bits|
    && bits[(t + 1 - parity) / 2 - 1] != bits[(t + 1 - parity) / 2]
  }

  ghost predicate ChangeIn(bits: seq<bool>, parity: nat, k: nat) {
    exists t: nat :: ChangeAt(bits, parity, k, t)
  }

  lemma WindowItem(symbols: seq<real>, bits: seq<bool>, amplitude: real, parity: nat, k: nat, j: nat)
    requires Ideal(symbols, bits, amplitude, parity) && CLOCK_HISTORY * (k + 1) <= |symbols|
    requires j < CLOCK_HISTORY
    ensures amplitude > 0.0 && parity <= 1
    ensures var x := WindowOf(symbols, k)[j];
            if k == 0 && j == 0 then x == amplitude / 2.0
            else if j % 2 == parity then x == amplitude
            else x == if ChangeAt(bits, parity, k, CLOCK_HISTORY * k + j) then 0.0 else amplitude
  {
    hide Amplitude, Ideal, ChangeAt;
    var t := CLOCK_HISTORY * k + j;
    IdealBounds(symbols, bits, amplitude, parity, t);
    assert t % 2 == j % 2 && t / CLOCK_HISTORY == k;
  }

  /** If the places of one parity are all full, and those of the other are too but for one, the
      first parity wins; if both are full, neither does. The first item may be halved. */
  lemma FullPlacesWin(w: seq<real>, amplitude: real, parity: nat, short: int)
    requires |w| == CLOCK_HISTORY && amplitude > 0.0 && parity <= 1
    requires forall j :: 1 <= j < |w| && j % 2 == parity ==> w[j] == amplitude
    requires forall j :: 0 <= j < |w| && j % 2 != parity ==> w[j] <= amplitude
    requires parity == 0 ==> w[0] == amplitude / 2.0 || w[0] == amplitude
    requires 0 <= short < |w| && short % 2 != parity && w[short] == 0.0
    ensures forall polarity :: Choose(w, polarity) == parity
  {
    hide ParitySum, Places;
    PlacesBalance(64);
    SumAtMost(w, 1 - parity, amplitude);
    if parity == 0 {
      SumButFirst(w, amplitude);
    } else {
      SumExactly(w, parity, amplitude);
    }
  }

  lemma AllFullKeeps(w: seq<real>, amplitude: real)
    requires |w| == CLOCK_HISTORY && forall j :: 0 <= j < |w| ==> w[j] == amplitude
    ensures forall polarity :: Choose(w, polarity) == polarity
  {
    hide ParitySum, Places;
    PlacesBalance(64);
    SumExactly(w, 0, amplitude);
    SumExactly(w, 1, amplitude);
  }

  /** A window with a bit change decides for the right parity; a later one without leaves the
      choice as it was. */
  lemma WindowDecides(symbols: seq<real>, bits: seq<bool>, amplitude: real, parity: nat,
                      k: nat, polarity: nat)
    requires Ideal(symbols, bits, amplitude, parity) && CLOCK_HISTORY * (k + 1) <= |symbols|
    ensures ChangeIn(bits, parity, k) ==> Choose(WindowOf(symbols, k), polarity) == parity
    ensures !ChangeIn(bits, parity, k) && k > 0 ==> Choose(WindowOf(symbols, k), polarity) == polarity
  {
    hide Ideal, WindowOf, Choose, ChangeAt;
    var w := WindowOf(symbols, k);
    WindowLength(symbols, k);
    WindowItem(symbols, bits, amplitude, parity, k, 0);
    forall j | 0 <= j < CLOCK_HISTORY
      ensures if k == 0 && j == 0 then w[j] == amplitude / 2.0
              else if j % 2 == parity then w[j] == amplitude
              else w[j] == if ChangeAt(bits, parity, k, CLOCK_HISTORY * k + j) then 0.0 else amplitude
    {
      WindowItem(symbols, bits, amplitude, parity, k, j);
    }
    if ChangeIn(bits, parity, k) {
      var t: nat :| ChangeAt(bits, parity, k, t);
      ChangePlace(bits, parity, k, t);
      FullPlacesWin(w, amplitude, parity, t - CLOCK_HISTORY * k);
    } else if k > 0 {
      AllFullKeeps(w, amplitude);
    }
  }

  lemma WindowLength(symbols: seq<real>, k: nat)
    requires CLOCK_HISTORY * (k + 1) <= |symbols|
    ensures |WindowOf(symbols, k)| == CLOCK_HISTORY
  {
  }

  lemma ChangePlace(bits: seq<bool>, parity: nat, k: nat, t: nat)
    requires ChangeAt(bits, parity, k, t)
    ensures var j := t - CLOCK_HISTORY * k;
            0 <= j < CLOCK_HISTORY && j % 2 != parity && (k == 0 ==> j > 0) && CLOCK_HISTORY * k + j == t
  {
  }

  lemma IdealBounds(symbols: seq<real>, bits: seq<bool>, amplitude: real, parity: nat, t: nat)
    requires Ideal(symbols, bits, amplitude, parity) && t < |symbols|
    ensures amplitude > 0.0 && parity <= 1
    ensures t > 0 && t % 2 == parity ==> Amplitude(symbols, t) == amplitude
    ensures t > 0 && t % 2 != parity ==>
              Amplitude(symbols, t) ==
              if ChangeAt(bits, parity, t / CLOCK_HISTORY, t) then 0.0 else amplitude
    ensures t == 0 ==> Amplitude(symbols, t) == amplitude / 2.0
  {
    IdealAmplitude(symbols, bits, amplitude, parity, t);
  }

  /** Once a window has held a bit change, the polarity is right and never flips again. */
  lemma {:induction false} PolarityLocks(symbols: seq<real>, bits: seq<bool>, amplitude: real,
                                         parity: nat, k: nat, t: nat)
    requires Ideal(symbols, bits, amplitude, parity)
    requires ChangeIn(bits, parity, k) && CLOCK_HISTORY * (k + 1) <= t <= |symbols|
    ensures PolarityAt(symbols, t) == parity
    decreases t
  {
    hide Ideal, ChangeIn, PolarityAt, Choose, WindowOf;
    PolarityNext(symbols, t - 1);
    if t % CLOCK_HISTORY == 0 {
      var k' := (t - 1) / CLOCK_HISTORY;
      WindowDecides(symbols, bits, amplitude, parity, k', PolarityAt(symbols, t - 1));
      if k' > k {
        PolarityLocks(symbols, bits, amplitude, parity, k, t - 1);
      } else {
        assert k' == k;
      }
    } else {
      PolarityLocks(symbols, bits, amplitude, parity, k, t - 1);
    }
  }

  // ---------------------------------------------------------------------------
  // The bits that come out
  // ---------------------------------------------------------------------------

  lemma {:induction false} RunConcat(s: Biphase, a: seq<real>, b: seq<real>)
    ensures Run(s, a + b) == Run(Run(s, a), b)
  {
    hide Next;
    if b == [] {
      assert a + b == a;
    } else {
      RunConcat(s, a, b[..|b| - 1]);
      assert (a + b)[..|a + b| - 1] == a + b[..|b| - 1];
    }
  }

  /** How many bits have come out by count n, if the polarity was right all along. */
  function PairsDone(n: nat, parity: nat): nat
    requires parity <= 1
  {
    (n + 1 - parity) / 2
  }

  lemma PairsDoneNext(n: nat, parity: nat)
    requires n > 0 && parity <= 1
    ensures PairsDone(n, parity) == PairsDone(n - 1, parity) + if (n - 1) % 2 == parity then 1 else 0
  {
  }

  lemma PairsDoneByLock(k: nat, parity: nat)
    requires parity <= 1
    ensures PairsDone(CLOCK_HISTORY * (k + 1), parity) == CLOCK_HISTORY * (k + 1) / 2 == 64 * (k + 1)
  {
  }

  lemma PairsSent(symbols: seq<real>, bits: seq<bool>, amplitude: real, parity: nat, n: nat)
    requires Ideal(symbols, bits, amplitude, parity) && n <= |symbols|
    ensures parity <= 1 && PairsDone(n, parity) <= |bits|
  {
  }

  /** What comes out at count t once the polarity is right. */
  lemma LockedOutput(symbols: seq<real>, bits: seq<bool>, amplitude: real, parity: nat, t: nat)
    requires Ideal(symbols, bits, amplitude, parity) && 0 < t < |symbols|
    requires PolarityAt(symbols, t) == parity
    ensures parity <= 1 && PairsDone(t, parity) < |bits|
    ensures Output(Run(FRESH, symbols[..t]), symbols[t]) ==
            if t % 2 == parity then Some(bits[PairsDone(t, parity)]) else None
  {
    hide Run;
    RunTrace(symbols[..t]);
    assert symbols[..t][t - 1] == symbols[t - 1];
    WindowParity(t);
  }

  lemma WindowParity(t: nat)
    ensures (t % CLOCK_HISTORY) % 2 == t % 2
  {
  }

  /** From the end of the first window with a bit change on, the biphase bits come out, one for
      every two symbols and none left out. */
  lemma {:induction false} LockedValues(symbols: seq<real>, bits: seq<bool>, amplitude: real,
                                        parity: nat, k: nat, n: nat)
    requires Ideal(symbols, bits, amplitude, parity) && ChangeIn(bits, parity, k)
    requires CLOCK_HISTORY * (k + 1) <= n <= |symbols|
    ensures parity <= 1 && 64 * (k + 1) <= PairsDone(n, parity) <= |bits|
    ensures Values(Run(FRESH, symbols[..CLOCK_HISTORY * (k + 1)]), symbols[CLOCK_HISTORY * (k + 1)..n]) ==
            bits[64 * (k + 1)..PairsDone(n, parity)]
    decreases n
  {
    hide ChangeIn, Run, Output, Next, PolarityAt, Values, PairsDone, Ideal;
    var start := CLOCK_HISTORY * (k + 1);
    PairsSent(symbols, bits, amplitude, parity, n);
    if n > start {
      LockedValues(symbols, bits, amplitude, parity, k, n - 1);
      PolarityLocks(symbols, bits, amplitude, parity, k, n - 1);
      LockedOutput(symbols, bits, amplitude, parity, n - 1);
      OneMoreValue(symbols, start, n);
      PairsDoneNext(n, parity);
    } else {
      PairsDoneByLock(k, parity);
      assert symbols[start..n] == [];
      NoValues(Run(FRESH, symbols[..start]));
    }
  }

  lemma NoValues(s: Biphase)
    ensures Values(s, []) == []
  {
  }

  lemma OneMoreValue(symbols: seq<real>, start: nat, n: nat)
    requires start < n <= |symbols|
    ensures var s := Run(FRESH, symbols[..start]);
            Values(s, symbols[start..n]) ==
            Values(s, symbols[start..n - 1]) +
            Emitted(Output(Run(FRESH, symbols[..n - 1]), symbols[n - 1]))
  {
    hide Run, Output, Next, Emitted;
    RunConcat(FRESH, symbols[..start], symbols[start..n - 1]);
    assert symbols[..start] + symbols[start..n - 1] == symbols[..n - 1];
    var part := symbols[start..n];
    assert part[..|part| - 1] == symbols[start..n - 1];
    assert part[|part| - 1] == symbols[n - 1];
  }

  lemma {:induction false} DiffEncodeStep(level: bool, data: seq<bool>, i: nat)
    requires i < |data|
    ensures var bits := DiffEncode(level, data);
            data[i] == (bits[i] != if i == 0 then level else bits[i - 1])
  {
    if i < |data| - 1 {
      DiffEncodeStep(level, data[..|data| - 1], i);
    }
  }

  /** Symbol and differential decoding together undo the transmitter: from the lock on, the data
      come out, except that the first bit depends on what was decoded before it. */
  lemma DataRecovered(symbols: seq<real>, data: seq<bool>, level: bool, amplitude: real, parity: nat,
                      k: nat, previous: bool)
    requires Ideal(symbols, DiffEncode(level, data), amplitude, parity)
    requires ChangeIn(DiffEncode(level, data), parity, k) && CLOCK_HISTORY * (k + 1) <= |symbols|
    ensures var first := 64 * (k + 1);
            var start := CLOCK_HISTORY * (k + 1);
            var out := DeltaDecode(previous, Values(Run(FRESH, symbols[..start]), symbols[start..]));
            && parity <= 1 && |out| == PairsDone(|symbols|, parity) - first
            && first + |out| <= |data|
            && (forall i :: 1 <= i < |out| ==> out[i] == data[first + i])
            && (|out| > 0 ==>
                  (out[0] == data[first] <==> previous == DiffEncode(level, data)[first - 1]))
  {
    hide ChangeIn, Ideal, Run, Values, DiffEncode, PairsDone;
    var bits := DiffEncode(level, data);
    var first, start := 64 * (k + 1), CLOCK_HISTORY * (k + 1);
    LockedValues(symbols, bits, amplitude, parity, k, |symbols|);
    assert symbols[start..|symbols|] == symbols[start..];
    forall i | first <= i < |data| ensures data[i] == (bits[i] != bits[i - 1]) {
      DiffEncodeStep(level, data, i);
    }
  }

  // ---------------------------------------------------------------------------
  // Negating every symbol
  // ---------------------------------------------------------------------------

  function Negate(symbols: seq<real>): (r: seq<real>)
    ensures |r| == |symbols|
    ensures forall i :: 0 <= i < |symbols| ==> r[i] == -symbols[i]
  {
    seq(|symbols|, i requires 0 <= i < |symbols| => -symbols[i])
  }

  /** For each bit that comes out, whether its two symbols were equal. */
  function Flat(s: Biphase, symbols: seq<real>): seq<bool> {
    if symbols == [] then []
    else
      var before := symbols[..|symbols| - 1];
      var t := Run(s, before);
      Flat(s, before) +
      if Output(t, symbols[|symbols| - 1]).None? then []
      else [Difference(t.previous, symbols[|symbols| - 1]) == 0.0]
  }

  lemma {:induction false} NegatedRun(symbols: seq<real>)
    ensures var s, t := Run(FRESH, symbols), Run(FRESH, Negate(symbols));
            t.previous == -s.previous && t.window == s.window && t.polarity == s.polarity
  {
    hide Choose;
    if symbols != [] {
      var before := symbols[..|symbols| - 1];
      NegatedRun(before);
      assert Negate(symbols)[..|symbols| - 1] == Negate(before);
    }
  }

  lemma NegatedOutput(s: Biphase, t: Biphase, symbol: real)
    requires t.previous == -s.previous && t.window == s.window && t.polarity == s.polarity
    ensures Output(t, -symbol) ==
            match Output(s, symbol)
            case None => None
            case Some(bit) => Some(if Difference(s.previous, symbol) == 0.0 then true else !bit)
    ensures Output(s, symbol).Some? && Difference(s.previous, symbol) == 0.0 ==> Output(s, symbol).value
  {
  }

  /** Bits from equal symbols read as a one either way round; all others are inverted. */
  lemma {:induction false} NegatedValues(symbols: seq<real>)
    ensures var v, w, flat := Values(FRESH, symbols), Values(FRESH, Negate(symbols)), Flat(FRESH, symbols);
            && |v| == |w| == |flat|
            && forall i :: 0 <= i < |v| ==> (flat[i] ==> v[i] && w[i]) && (!flat[i] ==> w[i] == !v[i])
  {
    hide Run, Output, Difference;
    if symbols != [] {
      var before, last := symbols[..|symbols| - 1], symbols[|symbols| - 1];
      NegatedValues(before);
      NegatedRun(before);
      NegatedOutput(Run(FRESH, before), Run(FRESH, Negate(before)), last);
      assert Negate(symbols)[..|symbols| - 1] == Negate(before);
    }
  }

  /** Inverting the whole signal leaves a decoded bit, other than the first, as it was exactly
      when its pair of symbols and the one before are both equal ones or both not. */
  lemma NegationInvariance(symbols: seq<real>, i: nat)
    requires 1 <= i < |Values(FRESH, symbols)|
    ensures |Values(FRESH, Negate(symbols))| == |Flat(FRESH, symbols)| == |Values(FRESH, symbols)|
    ensures DeltaDecode(false, Values(FRESH, Negate(symbols)))[i] ==
            DeltaDecode(false, Values(FRESH, symbols))[i]
            <==> Flat(FRESH, symbols)[i - 1] == Flat(FRESH, symbols)[i]
  {
    hide Run, Output, Next;
    NegatedValues(symbols);
  }

  /** So inversion is not harmless for every stream: with three equal symbols the first pair that
      comes out is not flat and the second is, and the second bit changes. */
  lemma NegationCanMatter()
    ensures var symbols := [1.0, 1.0, 1.0];
            && Flat(FRESH, symbols) == [false, true]
            && |Values(FRESH, symbols)| == |Values(FRESH, Negate(symbols))| == 2
            && DeltaDecode(false, Values(FRESH, Negate(symbols)))[1] !=
               DeltaDecode(false, Values(FRESH, symbols))[1]
  {
    var x := [1.0, 1.0, 1.0];
    var s1, s2 := Biphase(1.0, [0.5], 0), Biphase(1.0, [0.5, 0.0], 0);
    assert x[..2][..1] == x[..1] == [1.0] && x[..1][..0] == [];
    assert Run(FRESH, x[..1]) == Next(FRESH, 1.0) == s1;
    assert Run(FRESH, x[..2]) == Next(s1, 1.0) == s2;
    assert Flat(FRESH, x[..1]) == [false] && Values(FRESH, x[..1]) == [true];
    assert Flat(FRESH, x[..2]) == [false] && Values(FRESH, x[..2]) == [true];
    assert Flat(FRESH, x) == [false, true] && Values(FRESH, x) == [true, true];
    NegationInvariance(x, 1);
  }

  /** The counts at which bits come out. */
  function Counts(s: Biphase, symbols: seq<real>): seq<nat> {
    if symbols == [] then []
    else
      var before := symbols[..|symbols| - 1];
      Counts(s, before) + if Output(Run(s, before), symbols[|symbols| - 1]).None? then [] else [|before|]
  }

  /** The bit that comes out at a count is from two equal symbols if those two are. */
  lemma {:induction false} FlatAtCount(symbols: seq<real>, i: nat)
    requires i < |Flat(FRESH, symbols)|
    ensures |Counts(FRESH, symbols)| == |Flat(FRESH, symbols)|
    ensures var t := Counts(FRESH, symbols)[i];
            t < |symbols| && (Flat(FRESH, symbols)[i] <==> Amplitude(symbols, t) == 0.0)
    decreases |symbols|
  {
    hide Next, Output;
    if symbols != [] {
      var before := symbols[..|symbols| - 1];
      RunTrace(before);
      SameCounts(before);
      if i < |Flat(FRESH, before)| {
        FlatAtCount(before, i);
        var t := Counts(FRESH, before)[i];
        assert Amplitude(before, t) == Amplitude(symbols, t);
      }
    }
  }

  lemma {:induction false} SameCounts(symbols: seq<real>)
    ensures |Counts(FRESH, symbols)| == |Flat(FRESH, symbols)| == |Values(FRESH, symbols)|
  {
    hide Run, Output;
    if symbols != [] {
      SameCounts(symbols[..|symbols| - 1]);
    }
  }

  /** At count t of an ideal stream the decoder would compare halves of two different biphase
      symbols, between which the level changes: the data bit there is a one. */
  predicate Straddles(data: seq<bool>, parity: nat, t: nat) {
    t > 0 && t % 2 != parity <= 1 && (t + 1 - parity) / 2 < |data| && data[(t + 1 - parity) / 2]
  }

  /** On an ideal stream two symbols are equal exactly there. */
  lemma IdealFlat(symbols: seq<real>, data: seq<bool>, level: bool, amplitude: real, parity: nat, t: nat)
    requires Ideal(symbols, DiffEncode(level, data), amplitude, parity) && t < |symbols|
    ensures Amplitude(symbols, t) == 0.0 <==> Straddles(data, parity, t)
  {
    hide Amplitude, DiffEncode;
    var bits := DiffEncode(level, data);
    IdealAmplitude(symbols, bits, amplitude, parity, t);
    var i := (t + 1 - parity) / 2;
    if t > 0 && t % 2 != parity {
      assert 1 <= i < |data|;
      DiffEncodeStep(level, data, i);
    }
  }

  /** What negating an ideal stream does to it as a whole, before the clock has locked and after: a
      decoded bit other than the first stays as it was if and only if the decoder straddled a change
      of level both for it and for the bit before, or for neither. */
  lemma IdealNegation(symbols: seq<real>, data: seq<bool>, level: bool, amplitude: real, parity: nat, i: nat)
    requires Ideal(symbols, DiffEncode(level, data), amplitude, parity)
    requires 1 <= i < |Values(FRESH, symbols)|
    ensures |Values(FRESH, Negate(symbols))| == |Counts(FRESH, symbols)| == |Values(FRESH, symbols)|
    ensures var counts := Counts(FRESH, symbols);
            DeltaDecode(false, Values(FRESH, Negate(symbols)))[i] ==
            DeltaDecode(false, Values(FRESH, symbols))[i]
            <==> (Straddles(data, parity, counts[i - 1]) <==> Straddles(data, parity, counts[i]))
  {
    hide Values, Flat, Counts, Ideal, DiffEncode, Straddles, Amplitude, DeltaDecode;
    NegationInvariance(symbols, i);
    SameCounts(symbols);
    FlatAtCount(symbols, i - 1);
    FlatAtCount(symbols, i);
    IdealFlat(symbols, data, level, amplitude, parity, Counts(FRESH, symbols)[i - 1]);
    IdealFlat(symbols, data, level, amplitude, parity, Counts(FRESH, symbols)[i]);
  }

  /** So even on an ideal stream inversion can change more than the first bit, while the clock has
      not locked. */
  lemma IdealNegationCanMatter()
    ensures var symbols := [-1.0, 1.0, 1.0];
            && Ideal(symbols, DiffEncode(false, [true, true]), 1.0, 1)
            && |Values(FRESH, symbols)| == |Values(FRESH, Negate(symbols))| == 2
            && DeltaDecode(false, Values(FRESH, Negate(symbols)))[1] !=
               DeltaDecode(false, Values(FRESH, symbols))[1]
  {
    hide Ideal, Flat, Values, DeltaDecode, DiffEncode;
    TwoOnesIdeal();
    TwoOnesFlat();
    NegationInvariance([-1.0, 1.0, 1.0], 1);
  }

  lemma TwoOnesIdeal()
    ensures Ideal([-1.0, 1.0, 1.0], DiffEncode(false, [true, true]), 1.0, 1)
  {
    assert [true][..0] == [] && [true, true][..1] == [true];
    assert DiffEncode(false, [true]) == [true];
    assert DiffEncode(false, [true, true]) == [true, false];
  }

  lemma TwoOnesFlat()
    ensures Flat(FRESH, [-1.0, 1.0, 1.0]) == [false, true]
    ensures |Values(FRESH, [-1.0, 1.0, 1.0])| == 2
  {
    var x := [-1.0, 1.0, 1.0];
    var s1, s2 := Biphase(-1.0, [0.5], 0), Biphase(1.0, [0.5, 1.0], 0);
    assert x[..2][..1] == x[..1] == [-1.0] && x[..1][..0] == [];
    assert Run(FRESH, x[..1]) == Next(FRESH, -1.0) == s1;
    assert Run(FRESH, x[..2]) == Next(s1, 1.0) == s2;
    assert Flat(FRESH, x[..1]) == [false];
    assert Flat(FRESH, x[..2]) == [false];
    SameCounts(x);
  }

  lemma {:induction false} DiffEncodeInverted(level: bool, data: seq<bool>)
    ensures forall i :: 0 <= i < |data| ==> DiffEncode(!level, data)[i] != DiffEncode(level, data)[i]
  {
    if data != [] {
      DiffEncodeInverted(level, data[..|data| - 1]);
    }
  }

  /** From the clock lock on inversion is harmless on an ideal stream: the same data come out of the
      inverted stream from the same lock on, again apart from the first bit. */
  lemma InvertedDataRecovered(symbols: seq<real>, data: seq<bool>, level: bool, amplitude: real,
                              parity: nat, k: nat, previous: bool)
    requires Ideal(symbols, DiffEncode(level, data), amplitude, parity)
    requires ChangeIn(DiffEncode(level, data), parity, k) && CLOCK_HISTORY * (k + 1) <= |symbols|
    ensures var first := 64 * (k + 1);
            var start := CLOCK_HISTORY * (k + 1);
            var out := DeltaDecode(previous,
                                   Values(Run(FRESH, Negate(symbols)[..start]), Negate(symbols)[start..]));
            && parity <= 1 && |out| == PairsDone(|symbols|, parity) - first
            && first + |out| <= |data|
            && forall i :: 1 <= i < |out| ==> out[i] == data[first + i]
  {
    hide Run, Values;
    var bits, inverted := DiffEncode(level, data), DiffEncode(!level, data);
    DiffEncodeInverted(level, data);
    assert Ideal(Negate(symbols), inverted, amplitude, parity);
    var t: nat :| ChangeAt(bits, parity, k, t);
    assert ChangeAt(inverted, parity, k, t);
    DataRecovered(Negate(symbols), data, !level, amplitude, parity, k, previous);
  }
}
