/** How many retunes the fallback of a scan takes, against the fewest that could do. */
module ScanMinimum {
  import opened Arithmetic
  import opened Wrappers
  import opened ScanPlan

  // ---------------------------------------------------------------------------
  // Levels without islands
  // ---------------------------------------------------------------------------

  /** Two missing channels with a measured one between them are too far apart for one retune. */
  ghost predicate NoIslands(p: Plan, levels: seq<Option<real>>) {
    forall a, b, c | 0 <= a < b < c < |levels| && levels[a].None? && levels[b].Some? && levels[c].None? ::
      p.Frequency(c) > p.Frequency(a) + 2 * p.halfSpanHz
  }

  lemma FrequencyGrows(p: Plan, a: nat, b: nat)
    requires a <= b
    ensures p.Frequency(a) <= p.Frequency(b)
    ensures a < b && p.stepKHz > 0 ==> p.Frequency(a) < p.Frequency(b)
  {
    Monotone(a, b, p.stepKHz);
    if a < b {
      Monotone(a + 1, b, p.stepKHz);
      NextProduct(a, p.stepKHz);
    }
  }

  /** Why a batch ends where it does. */
  lemma {:induction false} BatchStops(p: Plan, levels: seq<Option<real>>, first: nat, end: nat)
    requires end < |levels|
    ensures var next := BatchEnd(p, levels, first, end) + 1;
            || next == |levels| || levels[next].Some?
            || p.Frequency(next) > p.Frequency(first) + 2 * p.halfSpanHz
    decreases |levels| - end
  {
    hide Plan.Frequency;
    if end + 1 < |levels| {
      BatchStops(p, levels, first, end + 1);
    }
  }

  /** A missing channel after the end of a batch is out of reach from its first. */
  lemma BeyondBatch(p: Plan, levels: seq<Option<real>>, first: nat, later: nat)
    requires NoIslands(p, levels) && first < |levels| && levels[first].None?
    requires BatchEnd(p, levels, first, first) < later < |levels| && levels[later].None?
    ensures p.Frequency(later) > p.Frequency(first) + 2 * p.halfSpanHz
  {
    hide Plan.Frequency;
    var next := BatchEnd(p, levels, first, first) + 1;
    BatchStops(p, levels, first, first);
    FrequencyGrows(p, next, later);
  }

  /** The first channels of any two batches are too far apart for one retune. */
  ghost predicate Apart(p: Plan, all: seq<Batch>) {
    forall i, j | 0 <= i < j < |all| ::
      p.Frequency(all[j].first) > p.Frequency(all[i].first) + 2 * p.halfSpanHz
  }

  lemma {:induction false} BatchesApart(p: Plan, levels: seq<Option<real>>, ch: nat)
    requires NoIslands(p, levels)
    ensures var all := Batches(p, levels, ch);
            && Apart(p, all)
            && forall b <- all :: ch <= b.first < |levels| && levels[b.first].None?
    decreases |levels| - ch
  {
    hide Plan.Frequency, NoIslands, BatchEnd;
    if ch < |levels| {
      if levels[ch].Some? {
        BatchesApart(p, levels, ch + 1);
      } else {
        var last := BatchEnd(p, levels, ch, ch);
        var rest := Batches(p, levels, last + 1);
        BatchesApart(p, levels, last + 1);
        forall j | 0 <= j < |rest|
          ensures p.Frequency(rest[j].first) > p.Frequency(ch) + 2 * p.halfSpanHz
        {
          assert rest[j] in rest;
          BeyondBatch(p, levels, ch, rest[j].first);
        }
      }
    }
  }

  // ---------------------------------------------------------------------------
  // No fewer retunes will do
  // ---------------------------------------------------------------------------

  /** Retunes to these frequencies reach every missing channel. */
  ghost predicate Reaches(p: Plan, levels: seq<Option<real>>, centers: seq<nat>) {
    forall ch | 0 <= ch < |levels| && levels[ch].None? :: ReachedFrom(p, centers, ch)
  }

  ghost predicate ReachedFrom(p: Plan, centers: seq<nat>, ch: nat) {
    exists i :: 0 <= i < |centers| && p.Spans(centers[i], p.Frequency(ch))
  }

  /** Batches so far apart take a retune each. */
  lemma {:induction false} OneRetuneEach(p: Plan, all: seq<Batch>, centers: seq<nat>)
    requires Apart(p, all) && forall b <- all :: ReachedFrom(p, centers, b.first)
    ensures |all| <= |centers|
    decreases |all|
  {
    hide Plan.Frequency;
    if all != [] {
      var head := all[0];
      assert head in all;
      var i :| 0 <= i < |centers| && p.Spans(centers[i], p.Frequency(head.first));
      var others := centers[..i] + centers[i + 1..];
      forall b <- all[1..] ensures ReachedFrom(p, others, b.first) {
        var k :| 1 <= k < |all| && all[k] == b;
        assert ReachedFrom(p, centers, b.first);
        var j :| 0 <= j < |centers| && p.Spans(centers[j], p.Frequency(b.first));
        assert j != i;
        assert others[if j < i then j else j - 1] == centers[j];
      }
      OneRetuneEach(p, all[1..], others);
    }
  }

  /** Without islands no set of retunes reaches all missing channels with fewer than there are
      batches. */
  lemma BatchesMinimal(p: Plan, levels: seq<Option<real>>, centers: seq<nat>)
    requires NoIslands(p, levels) && Reaches(p, levels, centers)
    ensures |Batches(p, levels, 0)| <= |centers|
  {
    hide NoIslands, ReachedFrom, Apart;
    BatchesApart(p, levels, 0);
    OneRetuneEach(p, Batches(p, levels, 0), centers);
  }

  // ---------------------------------------------------------------------------
  // How few retunes would do
  // ---------------------------------------------------------------------------

  /** The last channel that one retune can reach together with a first one, measured or not. */
  function WideEnd(p: Plan, count: nat, first: nat, end: nat): (last: nat)
    requires end < count
    ensures end <= last < count
    decreases count - end
  {
    if end + 1 < count && p.Frequency(end + 1) <= p.Frequency(first) + p.halfSpanHz * 2
    then WideEnd(p, count, first, end + 1)
    else end
  }

  /** The batches there would be if they went on across measured channels. */
  function WideBatches(p: Plan, levels: seq<Option<real>>, ch: nat): seq<Batch>
    decreases |levels| - ch
  {
    if ch >= |levels| then []
    else if levels[ch].Some? then WideBatches(p, levels, ch + 1)
    else
      var last := WideEnd(p, |levels|, ch, ch);
      [Batch(ch, last)] + WideBatches(p, levels, last + 1)
  }

  lemma {:induction false} WideEndReach(p: Plan, count: nat, first: nat, end: nat)
    requires first <= end < count && p.Frequency(end) <= p.Frequency(first) + 2 * p.halfSpanHz
    ensures var last := WideEnd(p, count, first, end);
            && p.Frequency(last) <= p.Frequency(first) + 2 * p.halfSpanHz
            && (last + 1 < count ==> p.Frequency(last + 1) > p.Frequency(first) + 2 * p.halfSpanHz)
    decreases count - end
  {
    hide Plan.Frequency;
    if end + 1 < count && p.Frequency(end + 1) <= p.Frequency(first) + p.halfSpanHz * 2 {
      WideEndReach(p, count, first, end + 1);
    }
  }

  lemma {:induction false} WideApart(p: Plan, levels: seq<Option<real>>, ch: nat)
    ensures var all := WideBatches(p, levels, ch);
            Apart(p, all) && forall b <- all :: ch <= b.first < |levels| && levels[b.first].None?
    decreases |levels| - ch
  {
    hide Plan.Frequency, WideEnd;
    if ch < |levels| {
      if levels[ch].Some? {
        WideApart(p, levels, ch + 1);
      } else {
        var last := WideEnd(p, |levels|, ch, ch);
        var rest := WideBatches(p, levels, last + 1);
        WideApart(p, levels, last + 1);
        WideEndReach(p, |levels|, ch, ch);
        forall j | 0 <= j < |rest|
          ensures p.Frequency(rest[j].first) > p.Frequency(ch) + 2 * p.halfSpanHz
        {
          assert rest[j] in rest;
          FrequencyGrows(p, last + 1, rest[j].first);
        }
      }
    }
  }

  /** A retune for each of these batches, so that its first channel is at the lower edge. */
  function WideCenters(p: Plan, all: seq<Batch>): (centers: seq<nat>)
    ensures |centers| == |all|
  {
    seq(|all|, i requires 0 <= i < |all| => p.Frequency(all[i].first) + p.halfSpanHz)
  }

  lemma {:induction false} WideReach(p: Plan, levels: seq<Option<real>>, ch: nat, k: nat)
    requires ch <= k < |levels| && levels[k].None?
    ensures exists b <- WideBatches(p, levels, ch) ::
              p.Frequency(b.first) <= p.Frequency(k) <= p.Frequency(b.first) + 2 * p.halfSpanHz
    decreases |levels| - ch
  {
    hide Plan.Frequency, WideEnd;
    if levels[ch].Some? {
      WideReach(p, levels, ch + 1, k);
    } else {
      var last := WideEnd(p, |levels|, ch, ch);
      WideEndReach(p, |levels|, ch, ch);
      var all := WideBatches(p, levels, ch);
      assert all == [Batch(ch, last)] + WideBatches(p, levels, last + 1);
      if k <= last {
        FrequencyGrows(p, ch, k);
        FrequencyGrows(p, k, last);
        assert Batch(ch, last) in all;
      } else {
        WideReach(p, levels, last + 1, k);
      }
    }
  }

  lemma WideCentersReach(p: Plan, levels: seq<Option<real>>)
    ensures Reaches(p, levels, WideCenters(p, WideBatches(p, levels, 0)))
  {
    hide Plan.Frequency, WideBatches;
    var all := WideBatches(p, levels, 0);
    var centers := WideCenters(p, all);
    forall k | 0 <= k < |levels| && levels[k].None? ensures ReachedFrom(p, centers, k) {
      WideReach(p, levels, 0, k);
      var b :| b in all && p.Frequency(b.first) <= p.Frequency(k) <= p.Frequency(b.first) + 2 * p.halfSpanHz;
      var i :| 0 <= i < |all| && all[i] == b;
      assert p.Spans(centers[i], p.Frequency(k));
    }
  }

  /** As many retunes as wide batches are enough, and fewer never are. */
  lemma WideIsFewest(p: Plan, levels: seq<Option<real>>, centers: seq<nat>)
    ensures Reaches(p, levels, WideCenters(p, WideBatches(p, levels, 0)))
    ensures Reaches(p, levels, centers) ==> |WideBatches(p, levels, 0)| <= |centers|
  {
    hide Plan.Frequency, Plan.Spans, WideBatches, WideCenters, ReachedFrom, Apart;
    WideCentersReach(p, levels);
    WideApart(p, levels, 0);
    if Reaches(p, levels, centers) {
      OneRetuneEach(p, WideBatches(p, levels, 0), centers);
    }
  }

  /** The fallback takes the fewest retunes that can reach all missing channels if and only if it
      would not take fewer by going on across measured channels. */
  lemma MinimalExactly(p: Plan, levels: seq<Option<real>>)
    ensures (forall centers | Reaches(p, levels, centers) :: |Batches(p, levels, 0)| <= |centers|) <==>
            |Batches(p, levels, 0)| <= |WideBatches(p, levels, 0)|
  {
    hide Reaches, Batches, WideBatches;
    WideIsFewest(p, levels, []);
    forall centers | Reaches(p, levels, centers) ensures |WideBatches(p, levels, 0)| <= |centers| {
      WideIsFewest(p, levels, centers);
    }
  }

  // ---------------------------------------------------------------------------
  // Thorough captures leave no islands
  // ---------------------------------------------------------------------------

  /** A capture that yields an estimate gives a level to every channel it spans. */
  ghost predicate Thorough(p: Plan, env: Env) {
    forall j: nat, ch: nat | env.capture(j).Some? && p.Spans(p.Center(j), p.Frequency(ch)) ::
      env.capture(j).value(ch).Some?
  }

  lemma ThoroughLeavesNoIslands(p: Plan, env: Env, n: nat)
    requires Thorough(p, env)
    ensures NoIslands(p, MeasuredLevels(p, env, n))
  {
    hide Plan.Frequency, Plan.Center, Measured, Thorough;
    var levels := MeasuredLevels(p, env, n);
    forall a, b, c | 0 <= a < b < c < |levels| && levels[a].None? && levels[b].Some? && levels[c].None?
      ensures p.Frequency(c) > p.Frequency(a) + 2 * p.halfSpanHz
    {
      MeasuredIsLoudest(p, env, n, a);
      MeasuredIsLoudest(p, env, n, b);
      MeasuredIsLoudest(p, env, n, c);
      var j :| 0 <= j < n && Heard(p, env, j, b) == Measured(p, env, n, b);
      UnheardNotSpanned(p, env, j, a);
      UnheardNotSpanned(p, env, j, c);
      FrequencyGrows(p, a, b);
      FrequencyGrows(p, b, c);
    }
  }

  lemma UnheardNotSpanned(p: Plan, env: Env, j: nat, ch: nat)
    requires Thorough(p, env) && env.capture(j).Some? && Heard(p, env, j, ch).None?
    ensures !p.Spans(p.Center(j), p.Frequency(ch))
  {
    hide Plan.Frequency, Plan.Center, Plan.Spans;
  }

  /** So a scan whose captures are thorough takes the fewest fallback retunes there can be, for the
      whole band and wherever one might tune, however many captures fail and however early the sweep
      ends. */
  lemma FallbackMinimal(p: Plan, env: Env, captures: nat, centers: seq<nat>)
    requires Thorough(p, env) && Reaches(p, MeasuredLevels(p, env, captures), centers)
    ensures |Batches(p, MeasuredLevels(p, env, captures), 0)| <= |centers|
  {
    hide NoIslands, Reaches, Thorough, Batches, MeasuredLevels;
    ThoroughLeavesNoIslands(p, env, captures);
    BatchesMinimal(p, MeasuredLevels(p, env, captures), centers);
  }

  // ---------------------------------------------------------------------------
  // Which captures are thorough
  // ---------------------------------------------------------------------------

  /** To the nearest whole number, halves away from zero. */
  function Round(x: real): int {
    if x >= 0.0 then (x + 0.5).Floor else -((-x + 0.5).Floor)
  }

  function Magnitude(n: int): nat {
    if n < 0 then -n else n
  }

  /** Bins to either side of the middle of a channel that count for it, bins around the tuner
      frequency that never count, and the bin in the middle of a channel. */
  function BinHalf(config: ScanConfig, sampleRate: nat, nfft: nat): int
    requires sampleRate > 0 && nfft > 0
  {
    Max(1, Round(ChannelBandwidth(config.bandwidthHz) as real * 0.5 / BinWidth(sampleRate, nfft)))
  }

  function DcRejectBins(sampleRate: nat, nfft: nat): int
    requires sampleRate > 0 && nfft > 0
  {
    var width := BinWidth(sampleRate, nfft);
    Max(1, Round(2000.0 / if width < 1.0 then 1.0 else width))
  }

  function CenterBin(sampleRate: nat, nfft: nat, relHz: int): int
    requires sampleRate > 0
  {
    Round(relHz as real / sampleRate as real * nfft as real)
  }

  function BinWidth(sampleRate: nat, nfft: nat): (w: real)
    requires sampleRate > 0 && nfft > 0
    ensures w > 0.0
  {
    sampleRate as real / nfft as real
  }

  /** A channel gets a level only if this finds a bin for it. */
  method CountBins(centerBin: int, binHalf: nat, dcRejectBins: nat) returns (usedBins: nat)
    ensures usedBins == 0 <==> Magnitude(centerBin) + binHalf <= dcRejectBins
  {
    usedBins := 0;
    for b := centerBin - binHalf to centerBin + binHalf + 1
      invariant usedBins == 0 <==> forall k :: centerBin - binHalf <= k < b ==> Magnitude(k) <= dcRejectBins
    {
      if Magnitude(b) > dcRejectBins {
        usedBins := usedBins + 1;
      }
    }
    if usedBins == 0 {
      assert Magnitude(centerBin - binHalf) <= dcRejectBins && Magnitude(centerBin + binHalf) <= dcRejectBins;
    }
  }

  /** No bin is left for a channel. */
  ghost predicate NoBins(config: ScanConfig, sampleRate: nat, nfft: nat, centerHz: nat, frequencyHz: nat)
    requires sampleRate > 0 && nfft > 0
  {
    Magnitude(CenterBin(sampleRate, nfft, frequencyHz - centerHz)) + BinHalf(config, sampleRate, nfft)
    <= DcRejectBins(sampleRate, nfft)
  }

  /** Estimates come from spectra of at least 1024 bins and leave out channels without bins only. */
  ghost predicate FromSpectra(config: ScanConfig, sampleRate: nat, env: Env, nfft: nat -> nat)
    requires sampleRate > 0
  {
    var p := MakePlan(config, sampleRate);
    forall j: nat, ch: nat | env.capture(j).Some? && p.Spans(p.Center(j), p.Frequency(ch)) ::
      && nfft(j) >= 1024
      && (env.capture(j).value(ch).None? <==> NoBins(config, sampleRate, nfft(j), p.Center(j), p.Frequency(ch)))
  }

  lemma RoundsBelow(x: real, y: real)
    requires x >= 1.5 && 0.0 <= y <= 0.4 * x
    ensures Max(1, Round(y)) < Round(x)
  {
    assert Round(x) as real > x - 0.5 && Round(y) as real <= y + 0.5;
  }

  lemma Scaled(half: real, width: real)
    requires 5000.0 <= half && width > 0.0 && 1.5 * width <= half
    ensures half / width >= 1.5
    ensures width >= 1.0 ==> 0.0 <= 2000.0 / width <= 0.4 * (half / width)
    ensures width < 1.0 ==> 2000.0 <= 0.4 * (half / width)
  {
    var x := half / width;
    assert x * width == half;
    if width >= 1.0 {
      var y := 2000.0 / width;
      assert y * width == 2000.0;
      Cancel(y, 0.4 * x, width);
    } else {
      Cancel(5000.0, x, width);
    }
    Cancel(1.5, x, width);
  }

  lemma Cancel(a: real, b: real, width: real)
    requires width > 0.0 && a * width <= b * width
    ensures a <= b
  {
  }

  lemma RoundExactly(x: real, n: int)
    requires x >= 0.0 && n >= 1
    ensures n <= Round(x) <==> x >= n as real - 0.5
  {
  }

  /** A channel counts as many bins to either side of its middle as half its width is worth, rounded,
      and no less than one. */
  lemma BinHalfExactly(config: ScanConfig, sampleRate: nat, nfft: nat, n: nat)
    requires sampleRate > 0 && nfft > 0
    ensures n <= BinHalf(config, sampleRate, nfft) <==>
            n <= 1 || ChannelBandwidth(config.bandwidthHz) as real * 0.5 >=
                      sampleRate as real / nfft as real * (n as real - 0.5)
  {
    hide ChannelBandwidth, Round;
    var half := ChannelBandwidth(config.bandwidthHz) as real * 0.5;
    QuotientAtLeast(half, BinWidth(sampleRate, nfft), n as real - 0.5);
    if n >= 1 {
      RoundExactly(half / BinWidth(sampleRate, nfft), n);
    }
  }

  /** Around the tuner frequency 2 kHz to either side do not count, rounded to bins of at least 1 Hz, and
      no less than one bin. */
  lemma DcRejectExactly(sampleRate: nat, nfft: nat, n: nat)
    requires sampleRate > 0 && nfft > 0
    ensures var width := if sampleRate < nfft then 1.0 else sampleRate as real / nfft as real;
            n <= DcRejectBins(sampleRate, nfft) <==> n <= 1 || 2000.0 >= width * (n as real - 0.5)
  {
    hide Round;
    var w := BinWidth(sampleRate, nfft);
    var wide := if w < 1.0 then 1.0 else w;
    QuotientAtLeast(sampleRate as real, nfft as real, 1.0);
    QuotientAtLeast(2000.0, wide, n as real - 0.5);
    if n >= 1 {
      RoundExactly(2000.0 / wide, n);
    }
  }

  /** The middle of a channel falls into the nearest bin. */
  lemma CenterBinNearest(sampleRate: nat, nfft: nat, relHz: int)
    requires sampleRate > 0
    ensures var bin := relHz as real / sampleRate as real * nfft as real;
            -0.5 <= bin - CenterBin(sampleRate, nfft, relHz) as real <= 0.5
  {
  }

  lemma QuotientAtLeast(a: real, w: real, x: real)
    requires w > 0.0 && a >= 0.0
    ensures a / w >= 0.0
    ensures a / w >= x <==> a >= w * x
  {
    var q := a / w;
    assert q * w == a;
    if q >= x {
      assert (q - x) * w >= 0.0;
    } else {
      assert (x - q) * w > 0.0;
    }
  }

  /** With a rate of at most a third of 1024 channel widths, no channel is without bins. */
  lemma BinsForAll(config: ScanConfig, sampleRate: nat, nfft: nat, centerHz: nat, frequencyHz: nat)
    requires sampleRate > 0 && nfft >= 1024
    requires 3 * sampleRate <= 1024 * ChannelBandwidth(config.bandwidthHz)
    ensures !NoBins(config, sampleRate, nfft, centerHz, frequencyHz)
  {
    hide ChannelBandwidth, CenterBin, Round, BinWidth;
    var half, width := ChannelBandwidth(config.bandwidthHz) as real * 0.5, BinWidth(sampleRate, nfft);
    NarrowBins(sampleRate, nfft, ChannelBandwidth(config.bandwidthHz));
    Scaled(half, width);
    RoundsBelow(half / width, 2000.0 / if width < 1.0 then 1.0 else width);
  }

  lemma NarrowBins(sampleRate: nat, nfft: nat, bandwidth: nat)
    requires sampleRate > 0 && nfft >= 1024 && 3 * sampleRate <= 1024 * bandwidth
    ensures 1.5 * BinWidth(sampleRate, nfft) <= bandwidth as real * 0.5
  {
    var width := BinWidth(sampleRate, nfft);
    assert width * nfft as real == sampleRate as real;
    assert width * 1024.0 <= width * nfft as real;
  }

  lemma SpectraAreThorough(config: ScanConfig, sampleRate: nat, env: Env, nfft: nat -> nat)
    requires sampleRate > 0 && FromSpectra(config, sampleRate, env, nfft)
    requires 3 * sampleRate <= 1024 * ChannelBandwidth(config.bandwidthHz)
    ensures Thorough(MakePlan(config, sampleRate), env)
  {
    hide MakePlan, ChannelBandwidth, Plan.Center, Plan.Frequency, Plan.Spans, NoBins;
    var p := MakePlan(config, sampleRate);
    forall j: nat, ch: nat | env.capture(j).Some? && p.Spans(p.Center(j), p.Frequency(ch))
      ensures env.capture(j).value(ch).Some?
    {
      BinsForAll(config, sampleRate, nfft(j), p.Center(j), p.Frequency(ch));
    }
  }

  /** Up to this rate every bandwidth leaves bins for all channels. The tuner's rates are 256000,
      1024000 and 2048000. */
  const HIGHEST_THOROUGH_RATE: nat := 3_413_333

  /** So at the tuner's rates the fallback of every scan takes the fewest retunes there can be,
      whatever the range, step and bandwidth, the spectra, and the failures. */
  lemma FallbackAlwaysMinimal(config: ScanConfig, sampleRate: nat, env: Env, nfft: nat -> nat,
                              captures: nat, centers: seq<nat>)
    requires 0 < sampleRate <= HIGHEST_THOROUGH_RATE && FromSpectra(config, sampleRate, env, nfft)
    requires Reaches(MakePlan(config, sampleRate), MeasuredLevels(MakePlan(config, sampleRate), env, captures),
                     centers)
    ensures var p := MakePlan(config, sampleRate);
            |Batches(p, MeasuredLevels(p, env, captures), 0)| <= |centers|
  {
    hide MakePlan, ChannelBandwidth, FromSpectra, Reaches, Thorough, Batches, MeasuredLevels;
    SpectraAreThorough(config, sampleRate, env, nfft);
    FallbackMinimal(MakePlan(config, sampleRate), env, captures, centers);
  }

  // ---------------------------------------------------------------------------
  // A scan that is not thorough, at a rate beyond those of the tuner
  // ---------------------------------------------------------------------------

  const COARSE: ScanConfig := ScanConfig(90000, 98405, 205, 10000, false)
  const COARSE_RATE: nat := 8_200_000
  const COARSE_PLAN: Plan := Plan(90000, 98405, 205, 42, 3_485_000, 4_920_000)

  lemma CoarsePlan()
    ensures MakePlan(COARSE, COARSE_RATE) == COARSE_PLAN
  {
  }

  /** Nothing fails, each spectrum has 1024 bins, and a channel without bins gets no level. */
  function CoarseEnv(): Env {
    Env(_ => true, _ => true,
        (j: nat) => Some((ch: nat) => if OnCenter(j, ch) then None else Some(1.0)),
        _ => true, _ => true, _ => None, _ => None)
  }

  /** The channel is exactly where capture j is tuned to. */
  predicate OnCenter(j: nat, ch: nat) {
    COARSE_PLAN.Frequency(ch) == COARSE_PLAN.Center(j)
  }

  lemma CoarseBins(relHz: int)
    requires relHz % 205_000 == 0
    ensures BinHalf(COARSE, COARSE_RATE, 1024) == 1 && DcRejectBins(COARSE_RATE, 1024) == 1
    ensures Magnitude(CenterBin(COARSE_RATE, 1024, relHz)) + 1 <= 1 <==> relHz == 0
  {
    assert BinHalf(COARSE, COARSE_RATE, 1024) == 1 && DcRejectBins(COARSE_RATE, 1024) == 1;
    var bin := relHz as real / 8_200_000.0 * 1024.0;
    assert relHz > 0 ==> bin >= 25.0;
    assert relHz < 0 ==> bin <= -25.0;
  }

  lemma WholeSteps(ch: nat, j: nat)
    ensures (COARSE_PLAN.Frequency(ch) - COARSE_PLAN.Center(j)) % 205_000 == 0
  {
    var steps := ch - 17 - 24 * j;
    assert COARSE_PLAN.Frequency(ch) - COARSE_PLAN.Center(j) == 205_000 * steps;
  }

  lemma CoarseFromSpectra()
    ensures FromSpectra(COARSE, COARSE_RATE, CoarseEnv(), _ => 1024)
  {
    hide MakePlan, BinHalf, CenterBin, DcRejectBins, Plan.Center, Plan.Frequency;
    CoarsePlan();
    forall j: nat, ch: nat
      ensures OnCenter(j, ch) <==>
              NoBins(COARSE, COARSE_RATE, 1024, COARSE_PLAN.Center(j), COARSE_PLAN.Frequency(ch))
    {
      WholeSteps(ch, j);
      CoarseBins(COARSE_PLAN.Frequency(ch) - COARSE_PLAN.Center(j));
    }
  }

  /** The levels that two captures leave: channels 17 and 41, on which they are centred, are missing. */
  lemma CoarseLevels(ch: nat)
    requires ch < 42
    ensures Measured(COARSE_PLAN, CoarseEnv(), 2, ch) == if ch == 17 || ch == 41 then None else Some(1.0)
  {
    hide Heard, CoarseEnv;
    CoarseHeard(ch, 0);
    CoarseHeard(ch, 1);
    var m1 := Measured(COARSE_PLAN, CoarseEnv(), 1, ch);
    assert Measured(COARSE_PLAN, CoarseEnv(), 0, ch) == None;
    assert m1 == Louder(None, Heard(COARSE_PLAN, CoarseEnv(), 0, ch));
    assert Measured(COARSE_PLAN, CoarseEnv(), 2, ch) == Louder(m1, Heard(COARSE_PLAN, CoarseEnv(), 1, ch));
  }

  lemma CoarseHeard(ch: nat, j: nat)
    requires ch < 42 && j < 2
    ensures Heard(COARSE_PLAN, CoarseEnv(), j, ch) ==
            if ch == 17 + 24 * j || ch < 24 * j || ch > 34 + 24 * j then None else Some(1.0)
  {
  }

  lemma {:induction false} SkipMeasured(p: Plan, levels: seq<Option<real>>, a: nat, b: nat)
    requires a <= b <= |levels| && forall ch :: a <= ch < b ==> levels[ch].Some?
    ensures Batches(p, levels, a) == Batches(p, levels, b)
    decreases b - a
  {
    if a < b {
      SkipMeasured(p, levels, a + 1, b);
    }
  }

  /** Without thorough captures the fallback can take more retunes than it must. In this scan the
      bins around the tuner frequency are all a channel has, so the two channels that captures are
      centred on get no level; channels between them do, and keep them in two batches, although a
      single retune to channel 29 would reach both. */
  lemma BatchesStopAtMeasuredChannels()
    ensures MakePlan(COARSE, COARSE_RATE) == COARSE_PLAN
    ensures FromSpectra(COARSE, COARSE_RATE, CoarseEnv(), _ => 1024)
    ensures SweepEnds(COARSE_PLAN, CoarseEnv(), 2)
            && forall j :: 0 <= j < 2 ==> !SweepEnds(COARSE_PLAN, CoarseEnv(), j)
    ensures var levels := MeasuredLevels(COARSE_PLAN, CoarseEnv(), 2);
            && |Batches(COARSE_PLAN, levels, 0)| == 2
            && Reaches(COARSE_PLAN, levels, [COARSE_PLAN.Frequency(29)])
  {
    hide Measured, MakePlan, FromSpectra, Batches;
    CoarsePlan();
    CoarseFromSpectra();
    forall ch | 0 <= ch < 42 {
      CoarseLevels(ch);
    }
    TwoBatches(MeasuredLevels(COARSE_PLAN, CoarseEnv(), 2));
    CoarseReached(MeasuredLevels(COARSE_PLAN, CoarseEnv(), 2));
  }

  lemma CoarseReached(levels: seq<Option<real>>)
    requires |levels| == 42 && forall ch :: 0 <= ch < 42 ==> (levels[ch].None? <==> ch == 17 || ch == 41)
    ensures Reaches(COARSE_PLAN, levels, [COARSE_PLAN.Frequency(29)])
  {
    var center := COARSE_PLAN.Frequency(29);
    assert [center][0] == center;
    assert COARSE_PLAN.Spans(center, COARSE_PLAN.Frequency(17));
    assert COARSE_PLAN.Spans(center, COARSE_PLAN.Frequency(41));
  }

  lemma TwoBatches(levels: seq<Option<real>>)
    requires |levels| == 42 && forall ch :: 0 <= ch < 42 ==> (levels[ch].None? <==> ch == 17 || ch == 41)
    ensures |Batches(COARSE_PLAN, levels, 0)| == 2
  {
    hide Plan.Frequency;
    SkipMeasured(COARSE_PLAN, levels, 0, 17);
    SkipMeasured(COARSE_PLAN, levels, 18, 41);
    assert BatchEnd(COARSE_PLAN, levels, 17, 17) == 17;
    assert BatchEnd(COARSE_PLAN, levels, 41, 41) == 41;
    assert Batches(COARSE_PLAN, levels, 42) == [];
    assert Batches(COARSE_PLAN, levels, 41) == [Batch(41, 41)];
    assert Batches(COARSE_PLAN, levels, 17) == [Batch(17, 17)] + Batches(COARSE_PLAN, levels, 18);
  }
}
