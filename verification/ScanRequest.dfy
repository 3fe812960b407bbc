/** What a scan makes of the request it was given. */
module ScanRequest {
  import opened ScanPlan

  /** The half span is the largest number of Hz within 0.85 of half the rate, in single precision, that
      leaves room for half a channel up to half the rate, or 1 if there is no such room. */
  lemma HalfSpanExactly(config: ScanConfig, sampleRate: nat, h: nat)
    ensures var wanted := if config.bandwidthHz <= 0 then 56000 else config.bandwidthHz;
            var bandwidth := if wanted < 10000 then 10000 else if wanted > 200000 then 200000 else wanted;
            h <= MakePlan(config, sampleRate).halfSpanHz <==>
            && h as real <= sampleRate as real * (14260634.0 / 16777216.0) / 2.0
            && (h <= 1 || h + bandwidth / 2 <= sampleRate / 2)
  {
    hide CenterStep;
    FloorExactly(sampleRate as real * (14260634.0 / 16777216.0) / 2.0, h);
    HalfSpanBound(sampleRate);
  }

  /** The centres are the largest number of Hz apart that is at most the channel step; or else at most
      0.60 of the rate, in single precision, and one and a half half spans, so that captures overlap
      by a quarter of their width. */
  lemma CenterStepExactly(config: ScanConfig, sampleRate: nat, s: nat)
    ensures var p := MakePlan(config, sampleRate);
            s <= p.centerStepHz <==>
            || s <= p.stepKHz * 1000
            || (s as real <= sampleRate as real * (10066330.0 / 16777216.0) && (s <= 1 || 2 * s <= 3 * p.halfSpanHz))
  {
    hide UsableHalfSpan;
    FloorExactly(sampleRate as real * (10066330.0 / 16777216.0), s);
  }

  lemma FloorExactly(x: real, n: nat)
    ensures n <= x.Floor <==> n as real <= x
  {
  }

  /** In the order of captures, the lower edge of each is half a half span or more below the upper edge
      of the one before, unless they are a channel step apart. */
  lemma CapturesOverlap(config: ScanConfig, sampleRate: nat, j: nat)
    ensures var p := MakePlan(config, sampleRate);
            p.centerStepHz > p.stepKHz * 1000 && p.centerStepHz > 1 ==>
              2 * (p.Center(j) + p.halfSpanHz - (p.Center(j + 1) - p.halfSpanHz)) >= p.halfSpanHz
  {
    hide MakePlan;
    var p := MakePlan(config, sampleRate);
    CenterStepExactly(config, sampleRate, p.centerStepHz);
    NextProduct(j, p.centerStepHz);
  }

  /** Where the plan's channels and captures lie. */
  lemma PlanGeometry(p: Plan, k: nat, centerHz: nat, frequencyHz: nat)
    ensures p.Frequency(k) == 1000 * p.startKHz + 1000 * (k * p.stepKHz)
    ensures p.Center(0) == 1000 * p.startKHz + p.halfSpanHz && p.Center(k + 1) == p.Center(k) + p.centerStepHz
    ensures p.EndCenter() == 1000 * p.stopKHz + p.halfSpanHz
    ensures p.Spans(centerHz, frequencyHz) <==>
            frequencyHz <= centerHz + p.halfSpanHz && centerHz <= frequencyHz + p.halfSpanHz
  {
    NextProduct(k, p.centerStepHz);
  }

  /** A batch is measured from the middle of its first and last channel. */
  lemma MidpointExactly(p: Plan, b: Batch)
    ensures var sum := p.Frequency(b.first) + p.Frequency(b.last);
            2 * BatchCenter(p, b) <= sum <= 2 * BatchCenter(p, b) + 1
  {
  }

  /** The whole band in steps of 50 kHz. */
  lemma WholeBand()
    ensures var p := MakePlan(ScanConfig(87500, 108000, 50, 56000, false), 1024000);
            p.channelCount == 411 && p.Frequency(0) == 87_500_000 && p.Frequency(410) == 108_000_000
  {
  }

  /** What is reported for a channel that the sweep has left without a level: the estimate of its batch;
      if that capture gave none at all, what measuring the channel on its own gave; and zero if there is
      neither or the batch could not be tuned to or read. */
  lemma FallbackReports(env: Env, b: Batch, ch: nat)
    ensures var level := FallbackLevel(env, b, ch);
            && (!env.fallbackTunes(b.first) || !env.fallbackReads(b.first) ==> level == 0.0)
            && (env.fallbackTunes(b.first) && env.fallbackReads(b.first) && env.fallbackCapture(b.first).Some? ==>
                  level == match env.fallbackCapture(b.first).value(ch) case Some(x) => x case None => 0.0)
            && (env.fallbackTunes(b.first) && env.fallbackReads(b.first) && env.fallbackCapture(b.first).None? ==>
                  level == match env.single(ch) case Some(x) => x case None => 0.0)
  {
  }
}
