/** Where a band scan tunes to, and what it reports.
 *
 * The tuner, the samples and the spectrum estimate are outside the model: Env says what each
 * retune, read and estimate yields, and may say anything.
 */
module ScanPlan {
  import opened Arithmetic
  import opened Wrappers

  const MIN_FREQ_KHZ: nat := 64000
  const MAX_FREQ_KHZ: nat := 108000
  const RATE_LIMIT: nat := 0x1_0000_0000

  /** The single-precision values nearest to 0.85 and 0.60. */
  const USABLE_SPECTRUM_FRACTION: real := 14260634.0 / 16777216.0
  const CENTER_STEP_FRACTION: real := 10066330.0 / 16777216.0

  datatype ScanConfig = ScanConfig(startKHz: int, stopKHz: int, stepKHz: int, bandwidthHz: int,
                                   continuous: bool)

  datatype Plan = Plan(startKHz: nat, stopKHz: nat, stepKHz: nat, channelCount: nat,
                       halfSpanHz: nat, centerStepHz: nat)
  {
    /** The frequency of a channel, and the tuner centre of a capture. */
    function Frequency(ch: nat): nat {
      (startKHz + ch * stepKHz) * 1000
    }

    function Center(capture: nat): nat {
      startKHz * 1000 + halfSpanHz + capture * centerStepHz
    }

    function EndCenter(): nat {
      stopKHz * 1000 + halfSpanHz
    }

    /** A capture at the centre spans the frequency. */
    predicate Spans(centerHz: nat, frequencyHz: nat) {
      centerHz - halfSpanHz <= frequencyHz <= centerHz + halfSpanHz
    }
  }

  /** The width of spectrum that counts for one channel. */
  function ChannelBandwidth(bandwidthHz: int): (w: int)
    ensures 10000 <= w <= 200000
  {
    Clamp(if bandwidthHz > 0 then bandwidthHz else 56000, 10000, 200000)
  }

  /** Half the width of spectrum that one capture is trusted with. */
  function UsableHalfSpan(sampleRate: nat, bandwidthHz: int): (h: nat)
    ensures h <= sampleRate
  {
    var channelBandwidth := ChannelBandwidth(bandwidthHz);
    HalfSpanBound(sampleRate);
    Min((sampleRate as real * USABLE_SPECTRUM_FRACTION / 2.0).Floor,
        Max(1, sampleRate / 2 - channelBandwidth / 2))
  }

  lemma HalfSpanBound(sampleRate: nat)
    ensures 0 <= (sampleRate as real * USABLE_SPECTRUM_FRACTION / 2.0).Floor <= sampleRate
  {
    assert sampleRate as real * USABLE_SPECTRUM_FRACTION / 2.0 <= sampleRate as real;
  }

  function CenterStep(sampleRate: nat, stepKHz: nat, halfSpanHz: nat): (s: nat)
    requires stepKHz > 0
    ensures s > 0
  {
    var coverageCap := Max(1, halfSpanHz * 3 / 2);
    var preferred := (sampleRate as real * CENTER_STEP_FRACTION).Floor;
    Max(stepKHz * 1000, Min(preferred, coverageCap))
  }

  function MakePlan(config: ScanConfig, sampleRate: nat): Plan {
    var start := Clamp(Min(config.startKHz, config.stopKHz), MIN_FREQ_KHZ, MAX_FREQ_KHZ);
    var stop := Clamp(Max(config.startKHz, config.stopKHz), MIN_FREQ_KHZ, MAX_FREQ_KHZ);
    var step := Max(5, config.stepKHz);
    var halfSpan := UsableHalfSpan(sampleRate, config.bandwidthHz);
    Plan(start, stop, step, (stop - start) / step + 1, halfSpan, CenterStep(sampleRate, step, halfSpan))
  }

  // ---------------------------------------------------------------------------
  // Coverage
  // ---------------------------------------------------------------------------

  /** What the arithmetic of MakePlan comes to. */
  ghost predicate WellPlanned(p: Plan) {
    && MIN_FREQ_KHZ <= p.startKHz <= p.stopKHz <= MAX_FREQ_KHZ
    && p.stepKHz >= 5
    && p.channelCount > 0
    && p.startKHz + (p.channelCount - 1) * p.stepKHz <= p.stopKHz
    && p.stopKHz < p.startKHz + p.channelCount * p.stepKHz
    && (p.centerStepHz == p.stepKHz * 1000 || 0 < p.centerStepHz <= 2 * p.halfSpanHz)
  }

  lemma PlansAreWell(config: ScanConfig, sampleRate: nat)
    ensures WellPlanned(MakePlan(config, sampleRate))
  {
    hide UsableHalfSpan;
    var p := MakePlan(config, sampleRate);
    ChannelsFit(p.stopKHz - p.startKHz, p.stepKHz);
    var capped := Max(1, p.halfSpanHz * 3 / 2);
    var preferred := (sampleRate as real * CENTER_STEP_FRACTION).Floor;
    assert p.centerStepHz == Max(p.stepKHz * 1000, Min(preferred, capped));
  }

  lemma ChannelsFit(width: nat, step: nat)
    requires step > 0
    ensures (width / step) * step <= width < (width / step + 1) * step
  {
  }

  /** The range is the one requested, either way round, as far as it lies within 64 and 108 MHz, and
      the step the one requested, but at least 5 kHz. */
  lemma PlanFollowsRequest(config: ScanConfig, sampleRate: nat)
    ensures var p := MakePlan(config, sampleRate);
            var low := if config.startKHz <= config.stopKHz then config.startKHz else config.stopKHz;
            var high := if config.startKHz <= config.stopKHz then config.stopKHz else config.startKHz;
            && p.startKHz == (if low < 64000 then 64000 else if low > 108000 then 108000 else low)
            && p.stopKHz == (if high < 64000 then 64000 else if high > 108000 then 108000 else high)
            && p.stepKHz == (if config.stepKHz >= 5 then config.stepKHz else 5)
  {
    hide UsableHalfSpan, CenterStep;
  }

  /** A channel is scanned if and only if it is a whole number of steps above the start and not beyond
      the stop. */
  lemma ChannelsRequested(config: ScanConfig, sampleRate: nat, k: nat)
    ensures var p := MakePlan(config, sampleRate);
            k < p.channelCount <==> p.startKHz + k * p.stepKHz <= p.stopKHz
  {
    hide MakePlan;
    PlansAreWell(config, sampleRate);
    var p := MakePlan(config, sampleRate);
    if k < p.channelCount {
      Monotone(k, p.channelCount - 1, p.stepKHz);
    } else {
      Monotone(p.channelCount, k, p.stepKHz);
    }
  }

  /** Every channel lies within the span of a planned capture, whichever of the channel step and
      the coverage cap sets the distance between captures. */
  lemma EveryChannelCovered(config: ScanConfig, sampleRate: nat, ch: nat)
    requires ch < MakePlan(config, sampleRate).channelCount
    ensures var p := MakePlan(config, sampleRate);
            exists capture: nat :: p.Center(capture) <= p.EndCenter()
                                   && p.Spans(p.Center(capture), p.Frequency(ch))
  {
    hide MakePlan;
    PlansAreWell(config, sampleRate);
    var p := MakePlan(config, sampleRate);
    if p.centerStepHz == p.stepKHz * 1000 {
      var capture := CoveredByStep(p, ch);
    } else {
      var capture := CoveredByCap(p, ch);
    }
  }

  lemma ChannelInBand(p: Plan, ch: nat)
    requires WellPlanned(p) && ch < p.channelCount
    ensures p.Frequency(ch) == p.startKHz * 1000 + ch * p.stepKHz * 1000
    ensures p.Frequency(ch) <= p.stopKHz * 1000
  {
    Monotone(ch, p.channelCount - 1, p.stepKHz);
  }

  /** Captures as far apart as channels: each has a channel on its lower edge. */
  lemma CoveredByStep(p: Plan, ch: nat) returns (capture: nat)
    requires WellPlanned(p) && ch < p.channelCount && p.centerStepHz == p.stepKHz * 1000
    ensures p.Center(capture) <= p.EndCenter() && p.Spans(p.Center(capture), p.Frequency(ch))
  {
    hide WellPlanned, Plan.Frequency;
    capture := ch;
    ChannelInBand(p, ch);
    SameProduct(ch, p.stepKHz);
  }

  /** Captures no further apart than their spans are wide: no gap is left between them. */
  lemma CoveredByCap(p: Plan, ch: nat) returns (capture: nat)
    requires WellPlanned(p) && ch < p.channelCount && p.centerStepHz != p.stepKHz * 1000
    ensures p.Center(capture) <= p.EndCenter() && p.Spans(p.Center(capture), p.Frequency(ch))
  {
    hide WellPlanned, Plan.Frequency, Plan.Center, Plan.Spans;
    ChannelInBand(p, ch);
    var distance := CapDistance(p, ch);
    capture := distance / p.centerStepHz;
    Quotient(distance, p.centerStepHz);
    CapCovers(p, ch, capture, capture * p.centerStepHz);
  }

  lemma CapDistance(p: Plan, ch: nat) returns (distance: nat)
    requires WellPlanned(p) && ch < p.channelCount && p.centerStepHz != p.stepKHz * 1000
    ensures p.Frequency(ch) == p.startKHz * 1000 + distance
    ensures distance <= (p.stopKHz - p.startKHz) * 1000
    ensures 0 < p.centerStepHz <= 2 * p.halfSpanHz
  {
    hide Plan.Frequency;
    ChannelInBand(p, ch);
    distance := ch * p.stepKHz * 1000;
  }

  lemma CapCovers(p: Plan, ch: nat, capture: nat, shift: nat)
    requires shift == capture * p.centerStepHz
    requires p.startKHz * 1000 + shift <= p.Frequency(ch) <= p.startKHz * 1000 + shift + 2 * p.halfSpanHz
    requires p.Frequency(ch) <= p.stopKHz * 1000
    ensures p.Center(capture) <= p.EndCenter() && p.Spans(p.Center(capture), p.Frequency(ch))
  {
    hide Plan.Frequency;
  }

  lemma Quotient(n: nat, step: nat)
    requires step > 0
    ensures (n / step) * step <= n < (n / step) * step + step
  {
  }

  lemma NextProduct(a: nat, b: nat)
    ensures (a + 1) * b == a * b + b
  {
  }

  lemma Monotone(a: nat, b: nat, c: nat)
    requires a <= b
    ensures a * c <= b * c
  {
  }

  lemma SameProduct(a: nat, b: nat)
    ensures a * (b * 1000) == a * b * 1000
  {
  }

  /** The centres tuned to are unsigned 32-bit numbers, so none is cut off. */
  lemma CentersFit(config: ScanConfig, sampleRate: nat, capture: nat)
    requires sampleRate < RATE_LIMIT
    requires var p := MakePlan(config, sampleRate); p.Center(capture) <= p.EndCenter()
    ensures MakePlan(config, sampleRate).Center(capture) < RATE_LIMIT
  {
    hide MakePlan;
    PlansAreWell(config, sampleRate);
    HalfSpanFits(config, sampleRate);
  }

  lemma HalfSpanFits(config: ScanConfig, sampleRate: nat)
    requires sampleRate < RATE_LIMIT
    ensures MakePlan(config, sampleRate).halfSpanHz <= 0x8000_0000
  {
    var r := sampleRate as real * USABLE_SPECTRUM_FRACTION / 2.0;
    assert r <= sampleRate as real / 2.0;
  }

  // ---------------------------------------------------------------------------
  // The sweep
  // ---------------------------------------------------------------------------

  /** An estimate gives a level for each channel, or none if no usable bins are left for it. */
  type Estimate = nat -> Option<real>

  /** What the outside world does during one scan. */
  datatype Env = Env(
    mayProceed: nat -> bool,                    // before capture number j: not stopped or cancelled
    tunes: nat -> bool,                         // retuning for capture number j succeeds
    capture: nat -> Option<Estimate>,           // its estimate, if samples were read and sufficed
    fallbackTunes: nat -> bool,                 // the same for the batch that starts at a channel,
    fallbackReads: nat -> bool,                 // where reading and estimating can fail apart,
    fallbackCapture: nat -> Option<Estimate>,
    single: nat -> Option<real>)                // and for a channel measured on its own

  function Louder(a: Option<real>, b: Option<real>): Option<real> {
    if a.None? then b else if b.None? || b.value <= a.value then a else b
  }

  /** The loudest estimate of a channel among the first n captures that span it. */
  function Measured(p: Plan, env: Env, n: nat, ch: nat): Option<real> {
    if n == 0 then None
    else Louder(Measured(p, env, n - 1, ch), Heard(p, env, n - 1, ch))
  }

  /** What capture number j says about a channel. */
  function Heard(p: Plan, env: Env, j: nat, ch: nat): Option<real> {
    if env.capture(j).Some? && p.Spans(p.Center(j), p.Frequency(ch)) then env.capture(j).value(ch)
    else None
  }

  /** The sweep is over before capture number n. */
  ghost predicate SweepEnds(p: Plan, env: Env, n: nat) {
    p.Center(n) > p.EndCenter() || !env.mayProceed(n) || !env.tunes(n)
  }

  /** Take in an estimate for the channels in a range that the capture spans. */
  method EstimateLevels(p: Plan, estimate: Estimate, centerHz: nat, first: nat, end: nat,
                        onlyMissing: bool, levels: array<Option<real>>)
    requires first <= end <= levels.Length
    modifies levels
    ensures forall ch :: 0 <= ch < levels.Length ==>
              levels[ch] ==
              if first <= ch < end && p.Spans(centerHz, p.Frequency(ch)) && !(onlyMissing && old(levels[ch]).Some?)
              then Louder(old(levels[ch]), estimate(ch)) else old(levels[ch])
  {
    hide Plan.Spans, Plan.Frequency;
    for ch := first to end
      invariant forall k :: 0 <= k < levels.Length ==>
                  levels[k] ==
                  if first <= k < ch && p.Spans(centerHz, p.Frequency(k)) && !(onlyMissing && old(levels[k]).Some?)
                  then Louder(old(levels[k]), estimate(k)) else old(levels[k])
    {
      if onlyMissing && levels[ch].Some? {
        continue;
      }
      if !p.Spans(centerHz, p.Frequency(ch)) {
        continue;
      }
      if estimate(ch).None? {
        continue;
      }
      levels[ch] := Louder(levels[ch], estimate(ch));
    }
  }

  method Sweep(p: Plan, env: Env, levels: array<Option<real>>) returns (captures: nat, aborted: bool)
    requires levels.Length == p.channelCount && p.centerStepHz > 0
    requires forall ch :: 0 <= ch < levels.Length ==> levels[ch].None?
    modifies levels
    ensures SweepEnds(p, env, captures) && forall j :: 0 <= j < captures ==> !SweepEnds(p, env, j)
    ensures aborted <==> p.Center(captures) <= p.EndCenter()
    ensures forall ch :: 0 <= ch < p.channelCount ==> levels[ch] == Measured(p, env, captures, ch)
  {
    hide Plan.Spans, Plan.Frequency;
    captures, aborted := 0, false;
    var centerHz := p.Center(0);
    while centerHz <= p.EndCenter()
      invariant centerHz == p.Center(captures)
      invariant forall j :: 0 <= j < captures ==> !SweepEnds(p, env, j)
      invariant forall ch :: 0 <= ch < p.channelCount ==> levels[ch] == Measured(p, env, captures, ch)
      decreases p.EndCenter() + p.centerStepHz - centerHz
    {
      if !env.mayProceed(captures) {
        aborted := true;
        break;
      }
      if !env.tunes(captures) {
        aborted := true;
        break;
      }
      var estimate := env.capture(captures);
      if estimate.Some? {
        EstimateLevels(p, estimate.value, centerHz, 0, p.channelCount, false, levels);
      }
      NextProduct(captures, p.centerStepHz);
      centerHz := centerHz + p.centerStepHz;
      captures := captures + 1;
    }
  }

  // ---------------------------------------------------------------------------
  // Fallback batches
  // ---------------------------------------------------------------------------

  /** Channels first to last, measured with one retune. */
  datatype Batch = Batch(first: nat, last: nat)

  /** How far a batch that starts at a missing channel extends: while channels are missing and
      the frequency is within two half spans of the first. */
  function BatchEnd(p: Plan, levels: seq<Option<real>>, first: nat, end: nat): (last: nat)
    requires end < |levels|
    ensures end <= last < |levels|
    decreases |levels| - end
  {
    if end + 1 < |levels| && levels[end + 1].None?
       && p.Frequency(end + 1) <= p.Frequency(first) + p.halfSpanHz * 2
    then BatchEnd(p, levels, first, end + 1)
    else end
  }

  function Batches(p: Plan, levels: seq<Option<real>>, ch: nat): seq<Batch>
    decreases |levels| - ch
  {
    if ch >= |levels| then []
    else if levels[ch].Some? then Batches(p, levels, ch + 1)
    else
      var last := BatchEnd(p, levels, ch, ch);
      [Batch(ch, last)] + Batches(p, levels, last + 1)
  }

  /** The tuner frequency of a batch. */
  function BatchCenter(p: Plan, b: Batch): nat {
    (p.Frequency(b.first) + p.Frequency(b.last)) / 2
  }

  lemma {:induction false} BatchEndMissing(p: Plan, levels: seq<Option<real>>, first: nat, end: nat)
    requires first <= end < |levels| && p.Frequency(end) <= p.Frequency(first) + p.halfSpanHz * 2
    requires forall ch :: first <= ch <= end ==> levels[ch].None?
    ensures var last := BatchEnd(p, levels, first, end);
            && (forall ch :: first <= ch <= last ==> levels[ch].None?)
            && p.Frequency(last) <= p.Frequency(first) + p.halfSpanHz * 2
    decreases |levels| - end
  {
    hide Plan.Frequency;
    if end + 1 < |levels| && levels[end + 1].None?
       && p.Frequency(end + 1) <= p.Frequency(first) + p.halfSpanHz * 2 {
      BatchEndMissing(p, levels, first, end + 1);
    }
  }

  /** Some batch holds the channel. */
  ghost predicate Held(all: seq<Batch>, ch: nat) {
    exists i :: 0 <= i < |all| && all[i].first <= ch <= all[i].last
  }

  /** Batches within channels low to high - 1, in increasing order. */
  ghost predicate InOrder(all: seq<Batch>, low: nat, high: nat) {
    && (forall i :: 0 <= i < |all| ==> low <= all[i].first <= all[i].last < high)
    && (forall i, j :: 0 <= i < j < |all| ==> all[i].last < all[j].first)
  }

  lemma Prepended(b: Batch, rest: seq<Batch>, high: nat)
    requires b.first <= b.last < high && InOrder(rest, b.last + 1, high)
    ensures InOrder([b] + rest, b.first, high)
    ensures forall ch: nat :: Held([b] + rest, ch) <==> b.first <= ch <= b.last || Held(rest, ch)
  {
    var all := [b] + rest;
    forall ch: nat ensures Held(all, ch) <==> b.first <= ch <= b.last || Held(rest, ch) {
      if b.first <= ch <= b.last {
        assert all[0] == b;
      }
      if Held(rest, ch) {
        var i :| 0 <= i < |rest| && rest[i].first <= ch <= rest[i].last;
        assert all[i + 1] == rest[i];
      }
    }
  }

  /** The batches together hold exactly the missing channels from ch on, each of them once and in
      increasing order. */
  lemma {:induction false} BatchesHoldMissing(p: Plan, levels: seq<Option<real>>, ch: nat)
    ensures var all := Batches(p, levels, ch);
            && InOrder(all, ch, |levels|)
            && (forall k :: ch <= k < |levels| ==> (levels[k].None? <==> Held(all, k)))
    decreases |levels| - ch
  {
    hide Plan.Frequency, Held, BatchEnd;
    if ch < |levels| {
      if levels[ch].Some? {
        BatchesHoldMissing(p, levels, ch + 1);
        assert !Held(Batches(p, levels, ch), ch) by {
          NotHeldBelow(Batches(p, levels, ch), ch + 1, |levels|, ch);
        }
      } else {
        BatchEndMissing(p, levels, ch, ch);
        var last := BatchEnd(p, levels, ch, ch);
        BatchesHoldMissing(p, levels, last + 1);
        Prepended(Batch(ch, last), Batches(p, levels, last + 1), |levels|);
      }
    }
  }

  lemma NotHeldBelow(all: seq<Batch>, low: nat, high: nat, ch: nat)
    requires InOrder(all, low, high) && ch < low
    ensures !Held(all, ch)
  {
  }

  /** Every channel of a batch is within the span of a capture at its midpoint. */
  lemma BatchFits(p: Plan, levels: seq<Option<real>>, first: nat, ch: nat)
    requires first < |levels| && levels[first].None?
    requires first <= ch <= BatchEnd(p, levels, first, first)
    ensures p.Spans(BatchCenter(p, Batch(first, BatchEnd(p, levels, first, first))), p.Frequency(ch))
  {
    var last := BatchEnd(p, levels, first, first);
    BatchEndMissing(p, levels, first, first);
    Monotone(first, ch, p.stepKHz);
    Monotone(ch, last, p.stepKHz);
  }

  // ---------------------------------------------------------------------------
  // Fallback batches are as few as can be
  // ---------------------------------------------------------------------------

  /** The most channels that fit within two half spans. */
  function BatchLimit(p: Plan): (k: nat)
    requires p.stepKHz > 0
    ensures k > 0
  {
    p.halfSpanHz * 2 / (p.stepKHz * 1000) + 1
  }

  /** How many batches the greedy rule makes of n missing channels in a row. */
  function GreedyCount(n: nat, limit: nat): nat
    requires limit > 0
  {
    if n == 0 then 0 else 1 + GreedyCount(if n <= limit then 0 else n - limit, limit)
  }

  function Total(sizes: seq<nat>): nat {
    if sizes == [] then 0 else sizes[0] + Total(sizes[1..])
  }

  /** A run of channels of this size fits within two half spans. */
  predicate FitsOneRetune(p: Plan, size: nat) {
    size == 0 || p.Frequency(size - 1) <= p.Frequency(0) + p.halfSpanHz * 2
  }

  lemma LimitExact(p: Plan, size: nat)
    requires p.stepKHz > 0
    ensures FitsOneRetune(p, size) <==> size <= BatchLimit(p)
  {
    if size > 0 {
      var step, width := p.stepKHz * 1000, p.halfSpanHz * 2;
      ChannelsFit(width, step);
      SameProduct(size - 1, p.stepKHz);
      assert p.Frequency(size - 1) == p.Frequency(0) + (size - 1) * step;
      if size - 1 <= width / step {
        Monotone(size - 1, width / step, step);
      } else {
        Monotone(width / step + 1, size - 1, step);
      }
    }
  }

  /** No way to split a run of missing channels into pieces that fit needs fewer retunes. */
  lemma {:induction false} GreedyIsMinimal(p: Plan, n: nat, sizes: seq<nat>)
    requires p.stepKHz > 0
    requires forall size <- sizes :: FitsOneRetune(p, size)
    requires Total(sizes) >= n
    ensures GreedyCount(n, BatchLimit(p)) <= |sizes|
    decreases |sizes|
  {
    hide BatchLimit, FitsOneRetune;
    if n > 0 {
      assert sizes[0] in sizes;
      LimitExact(p, sizes[0]);
      var left := if n <= BatchLimit(p) then 0 else n - BatchLimit(p);
      GreedyIsMinimal(p, left, sizes[1..]);
    }
  }

  /** Channels from a up to b are missing, and b is not, or there is none. */
  ghost predicate MissingRun(levels: seq<Option<real>>, a: nat, b: nat) {
    && a <= b <= |levels|
    && (forall k :: a <= k < b ==> levels[k].None?)
    && (b < |levels| ==> levels[b].Some?)
  }

  lemma {:induction false} BatchEndInRun(p: Plan, levels: seq<Option<real>>, a: nat, b: nat, end: nat)
    requires p.stepKHz > 0 && MissingRun(levels, a, b) && a <= end < b
    requires end - a + 1 <= BatchLimit(p)
    ensures BatchEnd(p, levels, a, end) == if b - a <= BatchLimit(p) then b - 1 else a + BatchLimit(p) - 1
    decreases b - end
  {
    hide BatchLimit;
    if end + 1 < |levels| {
      LimitExact(p, end + 2 - a);
      SameSpacing(p, a, end + 1);
      if end + 1 < b && end + 2 - a <= BatchLimit(p) {
        BatchEndInRun(p, levels, a, b, end + 1);
      }
    }
  }

  lemma SameSpacing(p: Plan, a: nat, b: nat)
    requires a <= b
    ensures p.Frequency(b) - p.Frequency(a) == p.Frequency(b - a) - p.Frequency(0)
  {
    assert b * p.stepKHz == a * p.stepKHz + (b - a) * p.stepKHz;
  }

  /** The batches of one run of missing channels are as many as the greedy count says, and hence
      no more than any split of the run into pieces that fit one retune. */
  lemma {:induction false} RunBatches(p: Plan, levels: seq<Option<real>>, a: nat, b: nat)
    requires p.stepKHz > 0 && MissingRun(levels, a, b)
    ensures |Batches(p, levels, a)| == GreedyCount(b - a, BatchLimit(p)) + |Batches(p, levels, b)|
    decreases b - a
  {
    hide BatchLimit;
    if a < b {
      LimitPositive(p);
      BatchEndInRun(p, levels, a, b, a);
      var last := BatchEnd(p, levels, a, a);
      RunBatches(p, levels, last + 1, b);
    }
  }

  /** A run of missing channels is measured with as few retunes as any split of it allows whose
      pieces each fit one. */
  lemma RunIsMinimal(p: Plan, levels: seq<Option<real>>, a: nat, b: nat, sizes: seq<nat>)
    requires p.stepKHz > 0 && MissingRun(levels, a, b)
    requires (forall size <- sizes :: FitsOneRetune(p, size)) && Total(sizes) >= b - a
    ensures |Batches(p, levels, a)| - |Batches(p, levels, b)| <= |sizes|
  {
    hide BatchLimit, FitsOneRetune, Batches, GreedyCount;
    LimitPositive(p);
    RunBatches(p, levels, a, b);
    GreedyIsMinimal(p, b - a, sizes);
  }

  lemma LimitPositive(p: Plan)
    requires p.stepKHz > 0
    ensures BatchLimit(p) >= 1
  {
  }

  // ---------------------------------------------------------------------------
  // The whole scan
  // ---------------------------------------------------------------------------

  /** The level reported for a channel of a fallback batch, whatever fails. */
  function FallbackLevel(env: Env, b: Batch, ch: nat): real {
    if !env.fallbackTunes(b.first) || !env.fallbackReads(b.first) then 0.0
    else
      var level := match env.fallbackCapture(b.first)
        case None => env.single(ch)
        case Some(estimate) => estimate(ch);
      if level.Some? then level.value else 0.0
  }

  /** Retune to the middle of a batch and measure its channels. */
  method MeasureBatch(p: Plan, env: Env, b: Batch, levels: array<Option<real>>)
    requires b.first <= b.last < levels.Length
    requires forall ch :: b.first <= ch <= b.last ==>
               levels[ch].None? && p.Spans(BatchCenter(p, b), p.Frequency(ch))
    modifies levels
    ensures forall ch :: 0 <= ch < levels.Length ==>
              levels[ch] == if b.first <= ch <= b.last then Some(FallbackLevel(env, b, ch)) else old(levels[ch])
  {
    hide Plan.Spans, Plan.Frequency, BatchCenter;
    if !env.fallbackTunes(b.first) || !env.fallbackReads(b.first) {
      SetMissingToZero(b, levels);
      return;
    }
    var estimate := env.fallbackCapture(b.first);
    if estimate.Some? {
      EstimateLevels(p, estimate.value, BatchCenter(p, b), b.first, b.last + 1, true, levels);
    } else {
      for ch := b.first to b.last + 1
        invariant forall k :: 0 <= k < levels.Length ==>
                    levels[k] == if b.first <= k < ch then Some(FallbackLevel(env, b, k)) else old(levels[k])
      {
        var level := env.single(ch);
        levels[ch] := if level.Some? then level else Some(0.0);
      }
    }
    SetMissingToZero(b, levels);
  }

  method SetMissingToZero(b: Batch, levels: array<Option<real>>)
    requires b.first <= b.last < levels.Length
    modifies levels
    ensures forall ch :: 0 <= ch < levels.Length ==>
              levels[ch] == if b.first <= ch <= b.last && old(levels[ch]).None? then Some(0.0) else old(levels[ch])
  {
    for ch := b.first to b.last + 1
      invariant forall k :: 0 <= k < levels.Length ==>
                  levels[k] == if b.first <= k < ch && old(levels[k]).None? then Some(0.0) else old(levels[k])
    {
      if levels[ch].None? {
        levels[ch] := Some(0.0);
      }
    }
  }

  method FindBatchEnd(p: Plan, levels: array<Option<real>>, first: nat) returns (last: nat)
    requires first < levels.Length
    ensures last == BatchEnd(p, levels[..], first, first)
  {
    hide Plan.Frequency;
    last := first;
    while last + 1 < levels.Length && levels[last + 1].None?
          && p.Frequency(last + 1) <= p.Frequency(first) + p.halfSpanHz * 2
      invariant first <= last < levels.Length
      invariant BatchEnd(p, levels[..], first, first) == BatchEnd(p, levels[..], first, last)
    {
      last := last + 1;
    }
  }

  /** Give every channel without a level one, batch by batch. */
  method FillMissing(p: Plan, env: Env, levels: array<Option<real>>) returns (batches: seq<Batch>)
    modifies levels
    ensures batches == Batches(p, old(levels[..]), 0)
    ensures forall ch :: 0 <= ch < levels.Length && old(levels[ch]).Some? ==> levels[ch] == old(levels[ch])
    ensures forall b <- batches, ch :: b.first <= ch <= b.last < levels.Length ==>
              levels[ch] == Some(FallbackLevel(env, b, ch))
  {
    hide Plan.Spans, Plan.Frequency, FallbackLevel, BatchCenter;
    ghost var before := levels[..];
    batches := [];
    var ch := 0;
    while ch < levels.Length
      invariant ch <= levels.Length
      invariant Batches(p, before, 0) == batches + Batches(p, before, ch)
      invariant forall b <- batches :: b.last < ch
      invariant forall k :: 0 <= k < levels.Length && (k >= ch || before[k].Some?) ==> levels[k] == before[k]
      invariant forall b <- batches, k :: b.first <= k <= b.last < levels.Length ==>
                  levels[k] == Some(FallbackLevel(env, b, k))
    {
      if levels[ch].Some? {
        ch := ch + 1;
        continue;
      }
      var last := FindBatchEnd(p, levels, ch);
      SameBatchEnd(p, levels[..], before, ch, ch);
      BatchEndMissing(p, before, ch, ch);
      var b := Batch(ch, last);
      forall k | b.first <= k <= b.last ensures p.Spans(BatchCenter(p, b), p.Frequency(k)) {
        BatchFits(p, before, ch, k);
      }
      MeasureBatch(p, env, b, levels);
      batches := batches + [b];
      ch := last + 1;
    }
  }

  lemma {:induction false} SameBatchEnd(p: Plan, a: seq<Option<real>>, b: seq<Option<real>>, first: nat, end: nat)
    requires end < |a| == |b| && forall k :: end <= k < |a| ==> a[k] == b[k]
    ensures BatchEnd(p, a, first, end) == BatchEnd(p, b, first, end)
    decreases |a| - end
  {
    hide Plan.Frequency;
    if end + 1 < |a| {
      SameBatchEnd(p, a, b, first, end + 1);
    }
  }

  /** One reported channel: its frequency in kHz and its level. */
  datatype Entry = Entry(freqKHz: nat, level: real)

  /** The line for the channels that have a level. */
  function LineOf(p: Plan, levels: seq<Option<real>>): seq<Entry> {
    if levels == [] then []
    else
      var ch := |levels| - 1;
      LineOf(p, levels[..ch]) +
      match levels[ch] case None => [] case Some(level) => [Entry(p.startKHz + ch * p.stepKHz, level)]
  }

  /** If all of them have one, all are listed. */
  lemma {:induction false} LineComplete(p: Plan, levels: seq<Option<real>>)
    requires forall ch :: 0 <= ch < |levels| ==> levels[ch].Some?
    ensures var line := LineOf(p, levels);
            && |line| == |levels|
            && forall ch :: 0 <= ch < |line| ==> line[ch] == Entry(p.startKHz + ch * p.stepKHz, levels[ch].value)
  {
    if levels != [] {
      LineComplete(p, levels[..|levels| - 1]);
    }
  }

  method EmitLine(p: Plan, levels: array<Option<real>>) returns (line: seq<Entry>)
    ensures line == LineOf(p, levels[..])
  {
    line := [];
    for ch := 0 to levels.Length
      invariant line == LineOf(p, levels[..ch])
    {
      assert levels[..ch + 1][..ch] == levels[..ch];
      if levels[ch].Some? {
        line := line + [Entry(p.startKHz + ch * p.stepKHz, levels[ch].value)];
      }
    }
    assert levels[..levels.Length] == levels[..];
  }

  /** One scan. With no sample rate nothing is reported. Otherwise the line lists every channel
      once, in increasing order, whatever retunes or reads fail or however early the sweep is
      stopped; channels that some capture of the sweep measured keep that level, and the others
      get that of their fallback batch. The scan stays active only if it is a continuous one
      whose sweep was not cut short. */
  method RunScan(config: ScanConfig, sampleRate: nat, env: Env)
    returns (line: Option<seq<Entry>>, captures: nat, batches: seq<Batch>, stillActive: bool)
    ensures sampleRate == 0 ==> line.None? && stillActive == config.continuous
    ensures sampleRate > 0 ==>
              var low := if config.startKHz <= config.stopKHz then config.startKHz else config.stopKHz;
              var high := if config.startKHz <= config.stopKHz then config.stopKHz else config.startKHz;
              var start := if low < 64000 then 64000 else if low > 108000 then 108000 else low;
              var stop := if high < 64000 then 64000 else if high > 108000 then 108000 else high;
              var step := if config.stepKHz >= 5 then config.stepKHz else 5;
              && line.Some?
              && (forall k: nat :: k < |line.value| <==> start + k * step <= stop)
              && (forall k :: 0 <= k < |line.value| ==> line.value[k].freqKHz == start + k * step)
    ensures sampleRate > 0 ==>
              var p := MakePlan(config, sampleRate);
              var measured := MeasuredLevels(p, env, captures);
              && line.Some? && |line.value| == p.channelCount
              && (forall ch :: 0 <= ch < p.channelCount ==>
                    line.value[ch].freqKHz == p.startKHz + ch * p.stepKHz)
              && (forall i, j :: 0 <= i < j < p.channelCount ==>
                    line.value[i].freqKHz < line.value[j].freqKHz)
              && (forall j :: 0 <= j < captures ==>
                    p.Center(j) <= p.EndCenter() && env.mayProceed(j) && env.tunes(j))
              && (p.Center(captures) > p.EndCenter() || !env.mayProceed(captures) || !env.tunes(captures))
              && batches == Batches(p, measured, 0)
              && (forall ch :: 0 <= ch < p.channelCount && measured[ch].Some? ==>
                    line.value[ch].level == measured[ch].value)
              && (forall b <- batches, ch :: b.first <= ch <= b.last < p.channelCount ==>
                    line.value[ch].level == FallbackLevel(env, b, ch))
              && (stillActive <==> config.continuous && p.Center(captures) > p.EndCenter())
  {
    hide MakePlan, FallbackLevel, Plan.Spans, Plan.Center, Plan.EndCenter, LineOf;
    PlanFollowsRequest(config, sampleRate);
    forall k: nat {
      ChannelsRequested(config, sampleRate, k);
    }
    captures, batches := 0, [];
    if sampleRate == 0 {
      line := None;
      stillActive := config.continuous;
      return;
    }
    var p := MakePlan(config, sampleRate);
    PlansAreWell(config, sampleRate);
    var levels := new Option<real>[p.channelCount](_ => None);
    var aborted;
    captures, aborted, batches := MeasureAll(p, env, levels);
    forall j | 0 <= j < captures ensures p.Center(j) <= p.EndCenter() && env.mayProceed(j) && env.tunes(j) {
      assert !SweepEnds(p, env, j);
    }
    var entries := EmitLine(p, levels);
    LineComplete(p, levels[..]);
    IncreasingOrder(p);
    line := Some(entries);
    stillActive := config.continuous && !aborted;
  }

  /** The sweep and then the fallback leave no channel without a level. */
  method MeasureAll(p: Plan, env: Env, levels: array<Option<real>>)
    returns (captures: nat, aborted: bool, batches: seq<Batch>)
    requires levels.Length == p.channelCount && p.centerStepHz > 0
    requires forall ch :: 0 <= ch < levels.Length ==> levels[ch].None?
    modifies levels
    ensures SweepEnds(p, env, captures) && forall j :: 0 <= j < captures ==> !SweepEnds(p, env, j)
    ensures aborted <==> p.Center(captures) <= p.EndCenter()
    ensures var measured := MeasuredLevels(p, env, captures);
            && batches == Batches(p, measured, 0)
            && (forall ch :: 0 <= ch < p.channelCount ==> levels[ch].Some?)
            && (forall ch :: 0 <= ch < p.channelCount && measured[ch].Some? ==> levels[ch] == measured[ch])
            && (forall b <- batches, ch :: b.first <= ch <= b.last < p.channelCount ==>
                  levels[ch] == Some(FallbackLevel(env, b, ch)))
  {
    hide FallbackLevel, Plan.Spans, SweepEnds, Plan.Center, Plan.EndCenter, Batches, Measured;
    captures, aborted := Sweep(p, env, levels);
    assert levels[..] == MeasuredLevels(p, env, captures);
    ghost var measured := levels[..];
    batches := FillMissing(p, env, levels);
    forall ch | 0 <= ch < p.channelCount ensures levels[ch].Some? {
      if measured[ch].None? {
        var b := BatchHolding(p, measured, ch);
        assert b in batches && b.first <= ch <= b.last < p.channelCount;
      }
    }
  }

  lemma BatchHolding(p: Plan, levels: seq<Option<real>>, ch: nat) returns (b: Batch)
    requires ch < |levels| && levels[ch].None?
    ensures b in Batches(p, levels, 0) && b.first <= ch <= b.last < |levels|
  {
    BatchesHoldMissing(p, levels, 0);
    var all := Batches(p, levels, 0);
    var i :| 0 <= i < |all| && all[i].first <= ch <= all[i].last;
    b := all[i];
  }

  function MeasuredLevels(p: Plan, env: Env, captures: nat): (levels: seq<Option<real>>)
    ensures |levels| == p.channelCount
    ensures forall ch :: 0 <= ch < p.channelCount ==> levels[ch] == Measured(p, env, captures, ch)
  {
    seq(p.channelCount, ch requires 0 <= ch => Measured(p, env, captures, ch))
  }

  lemma IncreasingOrder(p: Plan)
    requires WellPlanned(p)
    ensures forall i, j :: 0 <= i < j ==> p.startKHz + i * p.stepKHz < p.startKHz + j * p.stepKHz
  {
    forall i: nat, j: nat | i < j ensures i * p.stepKHz < j * p.stepKHz {
      Monotone(i + 1, j, p.stepKHz);
      NextProduct(i, p.stepKHz);
    }
  }

  /** The level measured for a channel is one that some capture reported, and none that spans the
      channel reported more. */
  lemma {:induction false} MeasuredIsLoudest(p: Plan, env: Env, n: nat, ch: nat)
    ensures var m := Measured(p, env, n, ch);
            if m.None? then forall j :: 0 <= j < n ==> Heard(p, env, j, ch).None?
            else
              && (exists j :: 0 <= j < n && Heard(p, env, j, ch) == m)
              && (forall j :: 0 <= j < n && Heard(p, env, j, ch).Some? ==>
                    Heard(p, env, j, ch).value <= m.value)
  {
    hide Heard;
    if n > 0 {
      MeasuredIsLoudest(p, env, n - 1, ch);
    }
  }

  /** If nothing goes wrong in the sweep, every channel whose estimates are usable is measured by
      it, and no fallback is needed. */
  lemma UndisturbedSweepMeasures(config: ScanConfig, sampleRate: nat, env: Env, n: nat, ch: nat)
    requires var p := MakePlan(config, sampleRate); p.Center(n) > p.EndCenter() && ch < p.channelCount
    requires forall j :: 0 <= j < n ==> env.capture(j).Some? && env.capture(j).value(ch).Some?
    ensures Measured(MakePlan(config, sampleRate), env, n, ch).Some?
  {
    hide MakePlan;
    var p := MakePlan(config, sampleRate);
    EveryChannelCovered(config, sampleRate, ch);
    var capture: nat :| p.Center(capture) <= p.EndCenter() && p.Spans(p.Center(capture), p.Frequency(ch));
    if capture >= n {
      Monotone(n, capture, p.centerStepHz);
    }
    assert Heard(p, env, capture, ch).Some?;
    MeasuredIsLoudest(p, env, n, ch);
  }
}
