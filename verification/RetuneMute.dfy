/** The gain envelope put over the audio while the receiver settles after a retune. */
module RetuneMute {
  import opened Arithmetic

  /** How many samples are still to be scaled, of how many when the mute was armed. */
  datatype Mute = Mute(remaining: nat, total: nat)
  {
    predicate Valid() {
      remaining <= total && (remaining == 0 ==> total == 0)
    }
  }

  function Armed(n: nat): (m: Mute)
    ensures m.Valid()
  {
    Mute(n, n)
  }

  function FadeSamples(outputRate: nat, total: nat): (fade: nat)
    ensures fade >= 1 && (total > 0 ==> fade <= total)
  {
    var shorter := if outputRate / 200 < total / 2 then outputRate / 200 else total / 2;
    if shorter < 1 then 1 else shorter
  }

  /** Each fade takes a two-hundredth of a second or half of the mute, whichever is shorter, but at
      least one sample. */
  lemma FadeExactly(outputRate: nat, total: nat, n: nat)
    ensures n <= FadeSamples(outputRate, total) <==> n <= 1 || (200 * n <= outputRate && 2 * n <= total)
  {
  }

  /** The gain for sample `idx` of a mute over `total` samples. */
  function Gain(idx: nat, total: nat, outputRate: nat): real
    requires idx < total
  {
    var fade := FadeSamples(outputRate, total);
    Clamped(if idx < fade then 1.0 - idx as real / fade as real
            else if idx >= total - fade then (total - idx) as real / fade as real
            else 0.0)
  }

  function Clamped(g: real): real {
    if g < 0.0 then 0.0 else if g > 1.0 then 1.0 else g
  }

  /** The envelope falls from 1 over the first fade, is silent in between, and over the last fade
      falls from 1 again: it does not rise to where the audio goes on. */
  lemma EnvelopeShape(idx: nat, total: nat, outputRate: nat)
    requires idx < total
    ensures var fade := FadeSamples(outputRate, total);
            var g := Gain(idx, total, outputRate);
            && 0.0 <= g <= 1.0
            && (g == 0.0 <==> fade <= idx < total - fade)
            && (g == 1.0 <==> idx == 0 || (fade <= idx && idx == total - fade))
            && (idx + 1 < total && (idx + 1 < fade || (idx >= fade && idx >= total - fade)) ==>
                  Gain(idx + 1, total, outputRate) < g)
  {
    var fade := FadeSamples(outputRate, total);
    if idx < fade {
      Ratio(idx, fade);
    } else if idx >= total - fade {
      Ratio(total - idx, fade);
    }
    if idx + 1 < fade {
      RatioGrows(idx, fade);
      Ratio(idx + 1, fade);
    } else if idx + 1 < total && idx >= fade && idx >= total - fade {
      RatioGrows(total - idx - 1, fade);
      Ratio(total - idx - 1, fade);
    }
  }

  /** Both fades are straight lines: each sample of the first is one part in `fade` lower than the one
      before, and the last sample of all is one part in `fade`. */
  lemma EnvelopeSlopes(idx: nat, total: nat, outputRate: nat)
    requires idx < total
    ensures var fade := FadeSamples(outputRate, total) as real;
            var g := Gain(idx, total, outputRate);
            && (idx as real < fade ==> fade * (1.0 - g) == idx as real)
            && (fade <= idx as real && (total as real) - fade <= idx as real ==>
                  fade * g == (total as real) - (idx as real))
  {
    var fade := FadeSamples(outputRate, total);
    if idx < fade {
      Ratio(idx, fade);
      Part(idx, fade);
    } else if idx >= total - fade {
      Ratio(total - idx, fade);
      Part(total - idx, fade);
    }
  }

  lemma Part(a: nat, b: nat)
    requires b > 0
    ensures b as real * (a as real / b as real) == a as real
    ensures b as real * (1.0 - (1.0 - a as real / b as real)) == a as real
  {
  }

  lemma Ratio(a: nat, b: nat)
    requires 0 < b && a <= b
    ensures 0.0 <= a as real / b as real <= 1.0
    ensures a as real / b as real == 0.0 <==> a == 0
    ensures a as real / b as real == 1.0 <==> a == b
  {
  }

  lemma RatioGrows(a: nat, b: nat)
    requires 0 < b
    ensures a as real / b as real < (a + 1) as real / b as real
  {
  }

  // ---------------------------------------------------------------------------
  // Blocks
  // ---------------------------------------------------------------------------

  /** The factor that the n-th sample from now is scaled by. */
  function Factor(m: Mute, n: nat, outputRate: nat): real
    requires m.Valid()
  {
    if n < m.remaining then Gain(m.total - m.remaining + n, m.total, outputRate) else 1.0
  }

  /** The mute once n more samples have been put out. */
  function Advance(m: Mute, n: nat): (r: Mute)
    requires m.Valid()
    ensures r.Valid()
  {
    if n >= m.remaining then Mute(0, 0) else m.(remaining := m.remaining - n)
  }

  function Scaled(m: Mute, samples: seq<real>, outputRate: nat): (out: seq<real>)
    requires m.Valid()
    ensures |out| == |samples|
    ensures forall i :: 0 <= i < |out| ==> out[i] == Scale(samples[i], Factor(m, i, outputRate))
  {
    seq(|samples|, i requires 0 <= i < |samples| => Scale(samples[i], Factor(m, i, outputRate)))
  }

  lemma AdvanceTwice(m: Mute, a: nat, b: nat)
    requires m.Valid()
    ensures Advance(Advance(m, a), b) == Advance(m, a + b)
  {
  }

  lemma FactorAhead(m: Mute, a: nat, n: nat, outputRate: nat)
    requires m.Valid()
    ensures Factor(Advance(m, a), n, outputRate) == Factor(m, a + n, outputRate)
  {
  }

  lemma ScaledConcat(m: Mute, s: seq<real>, t: seq<real>, outputRate: nat)
    requires m.Valid()
    ensures Scaled(m, s + t, outputRate) == Scaled(m, s, outputRate) + Scaled(Advance(m, |s|), t, outputRate)
  {
    hide Factor, Advance, Scale;
    var later := Scaled(Advance(m, |s|), t, outputRate);
    forall i | 0 <= i < |t| ensures later[i] == Scaled(m, s + t, outputRate)[|s| + i] {
      FactorAhead(m, |s|, i, outputRate);
    }
  }

  /** What happens to the output: a block of samples, or the mute is armed anew. */
  datatype Event = Block(samples: seq<real>) | Arm(n: nat)

  datatype State = State(mute: Mute, out: seq<real>)

  function Run(events: seq<Event>, start: Mute, outputRate: nat): (s: State)
    requires start.Valid()
    ensures s.mute.Valid()
  {
    if events == [] then State(start, [])
    else
      var s := Run(events[..|events| - 1], start, outputRate);
      match events[|events| - 1]
      case Block(samples) =>
        State(Advance(s.mute, |samples|), s.out + Scaled(s.mute, samples, outputRate))
      case Arm(n) => s.(mute := Armed(n))
  }

  lemma {:induction false} RunConcat(a: seq<Event>, b: seq<Event>, start: Mute, outputRate: nat)
    requires start.Valid()
    ensures var first := Run(a, start, outputRate);
            var second := Run(b, first.mute, outputRate);
            Run(a + b, start, outputRate) == State(second.mute, first.out + second.out)
  {
    hide Scaled, Advance;
    if b == [] {
      assert a + b == a;
    } else {
      RunConcat(a, b[..|b| - 1], start, outputRate);
      assert (a + b)[..|a + b| - 1] == a + b[..|b| - 1];
    }
  }

  function Samples(blocks: seq<Event>): seq<real> {
    if blocks == [] then []
    else Samples(blocks[..|blocks| - 1])
         + match blocks[|blocks| - 1] case Block(samples) => samples case Arm(_) => []
  }

  /** However the samples are cut into blocks, the n-th of them is scaled by what the state before
      the first says. */
  lemma {:induction false} PartitionInvariant(blocks: seq<Event>, start: Mute, outputRate: nat)
    requires start.Valid() && forall b <- blocks :: b.Block?
    ensures Run(blocks, start, outputRate)
            == State(Advance(start, |Samples(blocks)|), Scaled(start, Samples(blocks), outputRate))
  {
    if blocks != [] {
      var before, samples := blocks[..|blocks| - 1], blocks[|blocks| - 1].samples;
      PartitionInvariant(before, start, outputRate);
      ScaledConcat(start, Samples(before), samples, outputRate);
      AdvanceTwice(start, |Samples(before)|, |samples|);
    }
  }

  /** After the mute is armed, until it is armed again: the samples before are as they were, exactly
      the armed number of samples is scaled, each by a gain that depends on its place and on that
      number alone, and all after them pass unchanged, for any cut into blocks. */
  lemma ArmedSamplesScaled(before: seq<Event>, n: nat, blocks: seq<Event>, start: Mute, outputRate: nat)
    requires start.Valid() && forall b <- blocks :: b.Block?
    ensures var earlier := Run(before, start, outputRate).out;
            var x := Samples(blocks);
            var s := Run(before + [Arm(n)] + blocks, start, outputRate);
            && s.out == earlier + Scaled(Armed(n), x, outputRate)
            && (forall k :: 0 <= k < |x| ==>
                  Scaled(Armed(n), x, outputRate)[k] == if k < n then Scale(x[k], Gain(k, n, outputRate)) else x[k])
            && s.mute.remaining == (if |x| < n then n - |x| else 0)
  {
    hide Gain, Scaled, Scale, Samples, Run;
    ArmedRun(before, n, blocks, start, outputRate);
    PartitionInvariant(blocks, Armed(n), outputRate);
    var x := Samples(blocks);
    forall k | 0 <= k < |x|
      ensures Scaled(Armed(n), x, outputRate)[k] == if k < n then Scale(x[k], Gain(k, n, outputRate)) else x[k]
    {
      FromTheStart(n, x, k, outputRate);
    }
  }

  lemma FromTheStart(n: nat, x: seq<real>, k: nat, outputRate: nat)
    requires k < |x|
    ensures Scaled(Armed(n), x, outputRate)[k] == if k < n then Scale(x[k], Gain(k, n, outputRate)) else x[k]
  {
    hide Gain;
  }

  lemma ArmedRun(before: seq<Event>, n: nat, blocks: seq<Event>, start: Mute, outputRate: nat)
    requires start.Valid()
    ensures var earlier, later := Run(before, start, outputRate), Run(blocks, Armed(n), outputRate);
            Run(before + [Arm(n)] + blocks, start, outputRate) == State(later.mute, earlier.out + later.out)
  {
    hide Scaled, Advance;
    var armed := before + [Arm(n)];
    assert armed[..|armed| - 1] == before;
    RunConcat(armed, blocks, start, outputRate);
  }

  // ---------------------------------------------------------------------------
  // The loop
  // ---------------------------------------------------------------------------

  class Muter {
    var remaining: nat
    var total: nat

    predicate Valid()
      reads this
    {
      Mute(remaining, total).Valid()
    }

    /** A mute of this many samples is armed from the start. */
    constructor (n: nat)
      ensures Valid() && Mute(remaining, total) == Armed(n)
    {
      remaining, total := n, n;
    }

    method Arm(n: nat)
      modifies this
      ensures Valid() && Mute(remaining, total) == Armed(n)
    {
      remaining, total := n, n;
    }

    /** Scale one block of output in place. */
    method Process(left: array<real>, right: array<real>, outSamples: nat, outputRate: nat)
      requires Valid() && left != right && outSamples <= left.Length && outSamples <= right.Length
      modifies this, left, right
      ensures Valid() && Mute(remaining, total) == Advance(old(Mute(remaining, total)), outSamples)
      ensures forall i :: 0 <= i < left.Length ==>
                left[i] == if i < outSamples
                           then Scale(old(left[i]), Factor(old(Mute(remaining, total)), i, outputRate))
                           else old(left[i])
      ensures forall i :: 0 <= i < right.Length ==>
                right[i] == if i < outSamples
                            then Scale(old(right[i]), Factor(old(Mute(remaining, total)), i, outputRate))
                            else old(right[i])
    {
      hide Gain, FadeSamples;
      if remaining > 0 && outSamples > 0 {
        var muteCount := if outSamples < remaining then outSamples else remaining;
        ScaleBlock(left, right, muteCount, outputRate);
        remaining := remaining - muteCount;
        if remaining == 0 {
          total := 0;
        }
      }
    }

    method ScaleBlock(left: array<real>, right: array<real>, muteCount: nat, outputRate: nat)
      requires Valid() && 0 < muteCount <= remaining
      requires left != right && muteCount <= left.Length && muteCount <= right.Length
      modifies left, right
      ensures forall i :: 0 <= i < left.Length ==>
                left[i] == if i < muteCount then Scale(old(left[i]), Gain(total - remaining + i, total, outputRate))
                           else old(left[i])
      ensures forall i :: 0 <= i < right.Length ==>
                right[i] == if i < muteCount then Scale(old(right[i]), Gain(total - remaining + i, total, outputRate))
                            else old(right[i])
    {
      hide Gain, Scale, FadeSamples;
      var alreadyMuted := if total > remaining then total - remaining else 0;
      var fade := FadeSamples(outputRate, total);
      for i := 0 to muteCount
        invariant forall k :: 0 <= k < left.Length ==>
                    left[k] == if k < i then Scale(old(left[k]), Gain(alreadyMuted + k, total, outputRate))
                               else old(left[k])
        invariant forall k :: 0 <= k < right.Length ==>
                    right[k] == if k < i then Scale(old(right[k]), Gain(alreadyMuted + k, total, outputRate))
                                else old(right[k])
      {
        var gain := GainFor(alreadyMuted + i, fade, outputRate);
        left[i] := Scale(left[i], gain);
        right[i] := Scale(right[i], gain);
      }
    }

    method GainFor(idx: nat, fade: nat, outputRate: nat) returns (gain: real)
      requires idx < total && fade == FadeSamples(outputRate, total)
      ensures gain == Gain(idx, total, outputRate)
    {
      gain := 0.0;
      if idx < fade {
        gain := 1.0 - idx as real / fade as real;
      } else if idx >= total - fade {
        var tail := total - idx;
        gain := tail as real / fade as real;
      }
      gain := Clamped(gain);
    }
  }
}
