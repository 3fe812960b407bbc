/** The channel-power squelch: fade mute against a decaying reference, and a soft gain ramp.
 *
 * Levels are real numbers; a level or SNR that is not finite is None.
 */
module Squelch {
  import opened Arithmetic
  import opened Wrappers

  // ---------------------------------------------------------------------------
  // The gate as a machine
  // ---------------------------------------------------------------------------

  datatype Config = Config(dropDb: real, hysteresisDb: real, refDecayPerUpdate: real)
  {
    /** What configuring guarantees, whatever values are passed in. */
    predicate Valid() {
      dropDb >= 3.0 && hysteresisDb >= 0.0 && refDecayPerUpdate >= 0.0
    }
  }

  /** The gate and its two references, which are absent until the first value. */
  datatype Gate = Gate(isOpen: bool, power: Option<real>, snr: Option<real>)

  const OPEN := Gate(true, None, None)

  /** A reference rises at once to a new value and otherwise decays. */
  function Follow(reference: Option<real>, value: real, decay: real): real {
    if reference.None? then value else RealMax(value, reference.value - decay)
  }

  predicate Faded(value: real, reference: real, c: Config) {
    value < reference - c.dropDb
  }

  predicate Recovered(value: real, reference: real, c: Config) {
    value > reference - c.dropDb + c.hysteresisDb
  }

  /** The fade mute: either value may close the gate, both must have recovered to open it. */
  function Update(g: Gate, power: Option<real>, snr: Option<real>, c: Config): Gate {
    if power.None? then g
    else
      var powerRef := Follow(g.power, power.value, c.refDecayPerUpdate);
      if snr.None? then
        Gate(if g.isOpen then !Faded(power.value, powerRef, c) else Recovered(power.value, powerRef, c),
             Some(powerRef), g.snr)
      else
        var snrRef := Follow(g.snr, snr.value, c.refDecayPerUpdate);
        Gate(if g.isOpen then !Faded(power.value, powerRef, c) && !Faded(snr.value, snrRef, c)
             else Recovered(power.value, powerRef, c) && Recovered(snr.value, snrRef, c),
             Some(powerRef), Some(snrRef))
  }

  // ---------------------------------------------------------------------------
  // The reference is the decayed maximum of the past
  // ---------------------------------------------------------------------------

  /** The reference after a run of values. */
  function ReferenceOf(values: seq<real>, decay: real): Option<real> {
    if values == [] then None
    else
      var n := |values| - 1;
      Some(Follow(ReferenceOf(values[..n], decay), values[n], decay))
  }

  /** The value at place i of n, less what it has decayed since. */
  function Decayed(values: seq<real>, i: nat, decay: real): real
    requires i < |values|
  {
    values[i] - decay * ((|values| - 1 - i) as real)
  }

  /** Whatever the history, the reference is the largest past value less its decay. */
  lemma {:induction false} ReferenceIsDecayedMax(values: seq<real>, decay: real)
    requires values != [] && decay >= 0.0
    ensures ReferenceOf(values, decay).Some?
    ensures forall i :: 0 <= i < |values| ==> Decayed(values, i, decay) <= ReferenceOf(values, decay).value
    ensures exists i :: 0 <= i < |values| && Decayed(values, i, decay) == ReferenceOf(values, decay).value
  {
    hide Decayed;
    var n := |values| - 1;
    DecayedNow(values, decay);
    if n > 0 {
      var before := values[..n];
      ReferenceIsDecayedMax(before, decay);
      forall i | 0 <= i < n
        ensures Decayed(values, i, decay) == Decayed(before, i, decay) - decay
      {
        DecayedOlder(values, i, decay);
      }
      var best :| 0 <= best < n && Decayed(before, best, decay) == ReferenceOf(before, decay).value;
      assert Decayed(values, best, decay) == ReferenceOf(before, decay).value - decay;
    }
  }

  lemma DecayedNow(values: seq<real>, decay: real)
    requires values != []
    ensures Decayed(values, |values| - 1, decay) == values[|values| - 1]
  {
  }

  lemma DecayedOlder(values: seq<real>, i: nat, decay: real)
    requires i < |values| - 1
    ensures Decayed(values, i, decay) == Decayed(values[..|values| - 1], i, decay) - decay
  {
    OneStepOlder(decay, |values| - 2 - i);
  }

  lemma OneStepOlder(decay: real, age: nat)
    ensures decay * ((age + 1) as real) == decay * (age as real) + decay
  {
    assert (age + 1) as real == age as real + 1.0;
  }

  /** One block's measurements. */
  datatype Measurement = Measurement(power: Option<real>, snr: Option<real>)

  function UpdateAll(g: Gate, history: seq<Measurement>, c: Config): Gate {
    if history == [] then g
    else
      var last := history[|history| - 1];
      Update(UpdateAll(g, history[..|history| - 1], c), last.power, last.snr, c)
  }

  /** The powers and the SNRs that count: an update without power is skipped altogether. */
  function Powers(history: seq<Measurement>): seq<real> {
    if history == [] then []
    else
      var last := history[|history| - 1];
      Powers(history[..|history| - 1]) + if last.power.Some? then [last.power.value] else []
  }

  function Snrs(history: seq<Measurement>): seq<real> {
    if history == [] then []
    else
      var last := history[|history| - 1];
      Snrs(history[..|history| - 1]) +
      if last.power.Some? && last.snr.Some? then [last.snr.value] else []
  }

  /** After any history since the last reset, both references are those of the values that count. */
  lemma {:induction false} ReferencesOfHistory(history: seq<Measurement>, c: Config)
    ensures UpdateAll(OPEN, history, c).power == ReferenceOf(Powers(history), c.refDecayPerUpdate)
    ensures UpdateAll(OPEN, history, c).snr == ReferenceOf(Snrs(history), c.refDecayPerUpdate)
  {
    if history != [] {
      var before, last := history[..|history| - 1], history[|history| - 1];
      ReferencesOfHistory(before, c);
      if last.power.Some? {
        assert Powers(history)[..|Powers(history)| - 1] == Powers(before);
      } else {
        assert Powers(history) == Powers(before);
      }
      if last.power.Some? && last.snr.Some? {
        assert Snrs(history)[..|Snrs(history)| - 1] == Snrs(before);
      } else {
        assert Snrs(history) == Snrs(before);
      }
    }
  }

  // ---------------------------------------------------------------------------
  // Reopening under a steady input
  // ---------------------------------------------------------------------------

  /** n updates with the same measurement. */
  function Steady(g: Gate, m: Measurement, c: Config, n: nat): Gate {
    if n == 0 then g else Update(Steady(g, m, c, n - 1), m.power, m.snr, c)
  }

  /** The reference after n steady updates. */
  function SteadyReference(reference: Option<real>, value: real, decay: real, n: nat): real {
    if reference.None? then value else RealMax(value, reference.value - decay * (n as real))
  }

  /** The value has recovered from its reference after n steady updates. */
  predicate RecoveredBy(reference: Option<real>, value: Option<real>, c: Config, n: nat) {
    value.Some? ==>
      Recovered(value.value, SteadyReference(reference, value.value, c.refDecayPerUpdate, n), c)
  }

  lemma FollowSteady(reference: Option<real>, value: real, decay: real, n: nat)
    requires decay >= 0.0
    ensures Follow(reference, value, decay) == SteadyReference(reference, value, decay, 1)
    ensures n > 0 ==> Follow(Some(SteadyReference(reference, value, decay, n)), value, decay) ==
                      SteadyReference(reference, value, decay, n + 1)
  {
    OneStepOlder(decay, n);
    OneStepOlder(decay, 0);
  }

  lemma RecoveryStays(reference: Option<real>, value: Option<real>, c: Config, n: nat)
    requires c.Valid() && RecoveredBy(reference, value, c, n)
    ensures RecoveredBy(reference, value, c, n + 1)
    ensures value.Some? ==>
              !Faded(value.value, SteadyReference(reference, value.value, c.refDecayPerUpdate, n + 1), c)
  {
    OneStepOlder(c.refDecayPerUpdate, n);
  }

  /** From closed, after n > 0 steady updates the gate is open exactly when both values have
      recovered from their decayed references; so once open it stays open. */
  lemma {:induction false} SteadyGate(g: Gate, m: Measurement, c: Config, n: nat)
    requires c.Valid() && !g.isOpen && m.power.Some? && n > 0
    ensures var s := Steady(g, m, c, n);
            && s.power == Some(SteadyReference(g.power, m.power.value, c.refDecayPerUpdate, n))
            && s.snr == (if m.snr.None? then g.snr
                         else Some(SteadyReference(g.snr, m.snr.value, c.refDecayPerUpdate, n)))
            && (s.isOpen <==> RecoveredBy(g.power, m.power, c, n) && RecoveredBy(g.snr, m.snr, c, n))
  {
    hide SteadyReference, Faded, Recovered, Follow, Config.Valid;
    assert c.refDecayPerUpdate >= 0.0 by { ValidDecay(c); }
    FollowSteady(g.power, m.power.value, c.refDecayPerUpdate, n - 1);
    if m.snr.Some? {
      FollowSteady(g.snr, m.snr.value, c.refDecayPerUpdate, n - 1);
    }
    if n > 1 {
      SteadyGate(g, m, c, n - 1);
      if RecoveredBy(g.power, m.power, c, n - 1) && RecoveredBy(g.snr, m.snr, c, n - 1) {
        RecoveryStays(g.power, m.power, c, n - 1);
        RecoveryStays(g.snr, m.snr, c, n - 1);
      }
    } else {
      assert Steady(g, m, c, 0) == g;
    }
  }

  lemma ValidDecay(c: Config)
    requires c.Valid()
    ensures c.refDecayPerUpdate >= 0.0
  {
  }

  /** How far a reference has to come down before its value counts as recovered. */
  function Excess(reference: Option<real>, value: Option<real>, c: Config): real {
    if value.None? || reference.None? then 0.0
    else RealMax(0.0, reference.value - value.value - c.dropDb + c.hysteresisDb)
  }

  /** With some decay and a hysteresis smaller than the drop, a closed gate reopens within the
      number of updates that decay takes up the larger excess, and stays open. */
  lemma GateReopens(g: Gate, m: Measurement, c: Config, n: nat)
    requires c.Valid() && !g.isOpen && m.power.Some?
    requires c.refDecayPerUpdate > 0.0 && c.hysteresisDb < c.dropDb
    requires n as real > Excess(g.power, m.power, c) / c.refDecayPerUpdate
    requires n as real > Excess(g.snr, m.snr, c) / c.refDecayPerUpdate
    ensures Steady(g, m, c, n).isOpen
  {
    hide Excess, RecoveredBy;
    ExcessUsedUp(g.power, m.power, c, n);
    ExcessUsedUp(g.snr, m.snr, c, n);
    SteadyGate(g, m, c, n);
  }

  lemma ExcessUsedUp(reference: Option<real>, value: Option<real>, c: Config, n: nat)
    requires c.refDecayPerUpdate > 0.0 && c.hysteresisDb < c.dropDb
    requires n as real > Excess(reference, value, c) / c.refDecayPerUpdate
    ensures n > 0 && RecoveredBy(reference, value, c, n)
  {
    EnoughUpdates(Excess(reference, value, c), c.refDecayPerUpdate, n);
  }

  lemma EnoughUpdates(excess: real, decay: real, n: nat)
    requires decay > 0.0 && excess >= 0.0 && n as real > excess / decay
    ensures n > 0 && decay * (n as real) > excess
  {
    var q := excess / decay;
    assert excess == decay * q;
    assert decay * (n as real) - decay * q == decay * (n as real - q);
    Positive(decay, n as real - q);
    NonNegative(excess, decay);
  }

  lemma Positive(a: real, b: real)
    requires a > 0.0 && b > 0.0
    ensures a * b > 0.0
  {
  }

  lemma NonNegative(a: real, b: real)
    requires a >= 0.0 && b > 0.0
    ensures a / b >= 0.0
  {
  }

  /** Some measurements open a closed gate if and only if the hysteresis is smaller than the drop:
      otherwise it stays closed whatever comes. */
  lemma GateStuck(g: Gate, c: Config)
    requires c.Valid() && !g.isOpen
    ensures (exists history :: UpdateAll(g, history, c).isOpen) <==> c.hysteresisDb < c.dropDb
  {
    if c.hysteresisDb >= c.dropDb {
      forall history: seq<Measurement> ensures !UpdateAll(g, history, c).isOpen {
        StaysClosed(g, history, c);
      }
    } else {
      var history := OpeningHistory(g, c);
      assert UpdateAll(g, history, c).isOpen;
    }
  }

  lemma OpeningHistory(g: Gate, c: Config) returns (history: seq<Measurement>)
    requires c.Valid() && !g.isOpen && c.hysteresisDb < c.dropDb
    ensures UpdateAll(g, history, c).isOpen
  {
    var peak := Measurement(Some(if g.power.Some? then g.power.value else 0.0), None);
    history := [peak];
    assert history[..0] == [];
    assert UpdateAll(g, history, c) == Update(g, peak.power, peak.snr, c);
  }

  lemma {:induction false} StaysClosed(g: Gate, history: seq<Measurement>, c: Config)
    requires c.Valid() && !g.isOpen && c.hysteresisDb >= c.dropDb
    ensures !UpdateAll(g, history, c).isOpen
  {
    if history != [] {
      StaysClosed(g, history[..|history| - 1], c);
    }
  }

  // ---------------------------------------------------------------------------
  // The fixed threshold
  // ---------------------------------------------------------------------------

  /** One update with a fixed threshold; at -119 dBFS or less the squelch is off. */
  function UpdateFixed(isOpen: bool, power: Option<real>, openDbfs: real, hysteresisDb: real): bool {
    if openDbfs <= -119.0 then true
    else if power.None? then isOpen
    else if isOpen then !(power.value < openDbfs)
    else power.value > openDbfs + hysteresisDb
  }

  function UpdateFixedAll(isOpen: bool, powers: seq<Option<real>>, openDbfs: real, hysteresisDb: real): bool {
    if powers == [] then isOpen
    else
      var n := |powers| - 1;
      UpdateFixed(UpdateFixedAll(isOpen, powers[..n], openDbfs, hysteresisDb), powers[n], openDbfs, hysteresisDb)
  }

  /** The gate is as the last level outside the hysteresis band left it, whatever came before and
      since. */
  lemma {:induction false} LastDecisiveLevel(isOpen: bool, powers: seq<Option<real>>, openDbfs: real,
                                             hysteresisDb: real, last: nat)
    requires openDbfs > -119.0 && hysteresisDb >= 0.0 && last < |powers|
    requires powers[last].Some? && (powers[last].value < openDbfs || powers[last].value > openDbfs + hysteresisDb)
    requires forall i :: last < i < |powers| && powers[i].Some? ==>
               openDbfs <= powers[i].value <= openDbfs + hysteresisDb
    ensures UpdateFixedAll(isOpen, powers, openDbfs, hysteresisDb) <==> powers[last].value >= openDbfs
  {
    var n := |powers| - 1;
    if last < n {
      LastDecisiveLevel(isOpen, powers[..n], openDbfs, hysteresisDb, last);
    }
  }

  /** Without any such level it stays as it was; and at -119 dBFS or below it is open after any update. */
  lemma {:induction false} UndecidedGate(isOpen: bool, powers: seq<Option<real>>, openDbfs: real, hysteresisDb: real)
    requires hysteresisDb >= 0.0
    ensures openDbfs <= -119.0 && powers != [] ==> UpdateFixedAll(isOpen, powers, openDbfs, hysteresisDb)
    ensures openDbfs > -119.0
            && (forall i :: 0 <= i < |powers| && powers[i].Some? ==>
                  openDbfs <= powers[i].value <= openDbfs + hysteresisDb) ==>
              UpdateFixedAll(isOpen, powers, openDbfs, hysteresisDb) == isOpen
  {
    if powers != [] {
      UndecidedGate(isOpen, powers[..|powers| - 1], openDbfs, hysteresisDb);
    }
  }

  // ---------------------------------------------------------------------------
  // The gain ramp
  // ---------------------------------------------------------------------------

  /** The gain after n samples on the way to a target. */
  function Ramp(gain: real, target: real, alpha: real, n: nat): real {
    if n == 0 then gain
    else RampStep(Ramp(gain, target, alpha, n - 1), target, alpha)
  }

  function RampStep(gain: real, target: real, alpha: real): real {
    gain + alpha * (target - gain)
  }

  /** The ramp does not depend on how the samples are split into blocks. */
  lemma {:induction false} RampSplits(gain: real, target: real, alpha: real, m: nat, n: nat)
    ensures Ramp(gain, target, alpha, m + n) == Ramp(Ramp(gain, target, alpha, m), target, alpha, n)
  {
    if n > 0 {
      RampSplits(gain, target, alpha, m, n - 1);
    }
  }

  /** d times the n-th power of r. */
  function Geometric(d: real, r: real, n: nat): real {
    if n == 0 then d else r * Geometric(d, r, n - 1)
  }

  /** The distance to the target shrinks geometrically. */
  lemma {:induction false} RampClosedForm(gain: real, target: real, alpha: real, n: nat)
    ensures Ramp(gain, target, alpha, n) == target + Geometric(gain - target, 1.0 - alpha, n)
  {
    hide RampStep;
    if n > 0 {
      RampClosedForm(gain, target, alpha, n - 1);
      StepFromTarget(Geometric(gain - target, 1.0 - alpha, n - 1), target, alpha);
    }
  }

  lemma StepFromTarget(d: real, target: real, alpha: real)
    ensures RampStep(target + d, target, alpha) == target + (1.0 - alpha) * d
  {
    TimesNegative(alpha, d);
    assert (1.0 - alpha) * d == d - alpha * d;
  }

  lemma TimesNegative(a: real, b: real)
    ensures a * -b == -(a * b)
  {
  }

  /** The gain stays between where it was and the target. */
  lemma {:induction false} RampBounded(gain: real, target: real, alpha: real, n: nat)
    requires 0.0 <= alpha <= 1.0
    ensures gain <= target ==> gain <= Ramp(gain, target, alpha, n) <= target
    ensures gain >= target ==> target <= Ramp(gain, target, alpha, n) <= gain
  {
    hide RampStep;
    if n > 0 {
      RampBounded(gain, target, alpha, n - 1);
      Between(Ramp(gain, target, alpha, n - 1), target, alpha);
    }
  }

  lemma Between(x: real, target: real, alpha: real)
    requires 0.0 <= alpha <= 1.0
    ensures x <= target ==> x <= RampStep(x, target, alpha) <= target
    ensures x >= target ==> target <= RampStep(x, target, alpha) <= x
  {
    hide RampStep;
    var d := x - target;
    assert target + d == x;
    StepFromTarget(d, target, alpha);
    if d <= 0.0 {
      Shrinks(1.0 - alpha, -d);
      TimesNegative(1.0 - alpha, d);
    } else {
      Shrinks(1.0 - alpha, d);
    }
  }

  lemma Shrinks(alpha: real, d: real)
    requires 0.0 <= alpha <= 1.0 && d >= 0.0
    ensures 0.0 <= alpha * d <= d
  {
    assert d - alpha * d == (1.0 - alpha) * d;
  }

  // ---------------------------------------------------------------------------
  // The squelch as an object
  // ---------------------------------------------------------------------------

  class Squelch {
    var openDbfs: real
    var hysteresisDb: real
    var rampAlpha: real
    var gain: real
    var isOpen: bool
    var adaptive: bool
    var refInit: bool
    var refDbfs: real
    var dropDb: real
    var refDecayPerUpdate: real
    var snrRefInit: bool
    var snrRef: real

    /** What the configuration amounts to for the fade mute. */
    function FadeConfig(): Config
      reads this
    {
      Config(dropDb, hysteresisDb, refDecayPerUpdate)
    }

    function State(): Gate
      reads this
    {
      Gate(isOpen, if refInit then Some(refDbfs) else None, if snrRefInit then Some(snrRef) else None)
    }

    constructor ()
      ensures !adaptive && State() == OPEN && gain == 1.0 && openDbfs == -120.0
    {
      openDbfs, hysteresisDb, rampAlpha, gain := -120.0, 3.0, 0.001, 1.0;
      isOpen, adaptive := true, false;
      refInit, refDbfs, dropDb, refDecayPerUpdate := false, -120.0, 10.0, 0.0;
      snrRefInit, snrRef := false, 0.0;
    }

    /** The ramp constant 1 - exp(-1 / (seconds * sample rate)) is passed in. */
    method Configure(openDbfs: real, hysteresisDb: real, rampAlpha: real)
      modifies this`openDbfs, this`hysteresisDb, this`rampAlpha, this`gain, this`isOpen
      ensures this.openDbfs == openDbfs && this.hysteresisDb == RealMax(0.0, hysteresisDb)
      ensures this.rampAlpha == rampAlpha && gain == 1.0 && isOpen
    {
      this.openDbfs := openDbfs;
      this.hysteresisDb := RealMax(0.0, hysteresisDb);
      this.rampAlpha := rampAlpha;
      gain := 1.0;
      isOpen := true;
    }

    method ConfigureFadeMute(dropDb: real, hysteresisDb: real, rampAlpha: real, refDecayDbPerSec: real,
                             updatesPerSec: real)
      modifies this
      ensures adaptive && State().isOpen && State().power.None? && State().snr.None?
      ensures FadeConfig().Valid() && gain == 1.0 && this.rampAlpha == rampAlpha
      ensures this.dropDb == RealMax(3.0, dropDb) && this.hysteresisDb == RealMax(0.0, hysteresisDb)
      ensures refDecayPerUpdate * RealMax(1.0, updatesPerSec) == RealMax(0.0, refDecayDbPerSec)
      ensures openDbfs == old(openDbfs)
    {
      adaptive := true;
      this.dropDb := RealMax(3.0, dropDb);
      this.hysteresisDb := RealMax(0.0, hysteresisDb);
      this.rampAlpha := rampAlpha;
      refDecayPerUpdate := RealMax(0.0, refDecayDbPerSec) / RealMax(1.0, updatesPerSec);
      NonNegative(RealMax(0.0, refDecayDbPerSec), RealMax(1.0, updatesPerSec));
      refInit := false;
      snrRefInit := false;
      gain := 1.0;
      isOpen := true;
    }

    /** Forget the previous station, keep the configuration. */
    method Reset()
      modifies this`gain, this`isOpen, this`refInit, this`refDbfs, this`snrRefInit, this`snrRef
      ensures State() == OPEN && gain == 1.0
    {
      gain := 1.0;
      isOpen := true;
      refInit := false;
      refDbfs := -120.0;
      snrRefInit := false;
      snrRef := 0.0;
    }

    method UpdateGate(channelPowerDbfs: Option<real>, demodSnrDb: Option<real>)
      requires adaptive ==> FadeConfig().Valid()
      modifies this`isOpen, this`refInit, this`refDbfs, this`snrRefInit, this`snrRef
      ensures adaptive ==> State() == Update(old(State()), channelPowerDbfs, demodSnrDb, FadeConfig())
      ensures !adaptive ==>
                State() == old(State()).(isOpen := UpdateFixed(old(isOpen), channelPowerDbfs, openDbfs, hysteresisDb))
    {
      if adaptive {
        if channelPowerDbfs.None? {
          return;
        }
        var dbfs := channelPowerDbfs.value;
        if !refInit {
          refDbfs := dbfs;
          refInit := true;
        }
        refDbfs := RealMax(dbfs, refDbfs - refDecayPerUpdate);
        var openLevel := refDbfs - dropDb;
        var powerFaded := dbfs < openLevel;
        var powerRecovered := dbfs > openLevel + hysteresisDb;

        var snrFaded, snrRecovered := false, true;
        if demodSnrDb.Some? {
          if !snrRefInit {
            snrRef := demodSnrDb.value;
            snrRefInit := true;
          }
          snrRef := RealMax(demodSnrDb.value, snrRef - refDecayPerUpdate);
          var snrOpenLevel := snrRef - dropDb;
          snrFaded := demodSnrDb.value < snrOpenLevel;
          snrRecovered := demodSnrDb.value > snrOpenLevel + hysteresisDb;
        }

        if isOpen {
          if powerFaded || snrFaded {
            isOpen := false;
          }
        } else if powerRecovered && snrRecovered {
          isOpen := true;
        }
        return;
      }
      if openDbfs <= -119.0 {
        isOpen := true;
        return;
      }
      if channelPowerDbfs.None? {
        return;
      }
      var dbfs := channelPowerDbfs.value;
      if isOpen {
        if dbfs < openDbfs {
          isOpen := false;
        }
      } else {
        if dbfs > openDbfs + hysteresisDb {
          isOpen := true;
        }
      }
    }

    /** Scale both channels by the ramping gain. */
    method Process(left: array<real>, right: array<real>, numSamples: nat)
      requires left != right && numSamples <= left.Length && numSamples <= right.Length
      modifies this`gain, left, right
      ensures var off := !adaptive && openDbfs <= -119.0;
              var target := if isOpen then 1.0 else 0.0;
              && gain == (if off then old(gain) else Ramp(old(gain), target, rampAlpha, numSamples))
              && (off ==> left[..] == old(left[..]) && right[..] == old(right[..]))
              && (!off ==> forall i :: 0 <= i < numSamples ==>
                    var g := Ramp(old(gain), target, rampAlpha, i + 1);
                    left[i] == Scale(old(left[i]), g) && right[i] == Scale(old(right[i]), g))
      ensures left[numSamples..] == old(left[numSamples..])
      ensures right[numSamples..] == old(right[numSamples..])
    {
      hide Scale, RampStep;
      if numSamples == 0 {
        return;
      }
      if !adaptive && openDbfs <= -119.0 {
        return;
      }
      var target := if isOpen then 1.0 else 0.0;
      for i := 0 to numSamples
        invariant gain == Ramp(old(gain), target, rampAlpha, i)
        invariant forall k :: 0 <= k < i ==>
                    var g := Ramp(old(gain), target, rampAlpha, k + 1);
                    left[k] == Scale(old(left[k]), g) && right[k] == Scale(old(right[k]), g)
        invariant forall k :: i <= k < left.Length ==> left[k] == old(left[k])
        invariant forall k :: i <= k < right.Length ==> right[k] == old(right[k])
      {
        gain := RampStep(gain, target, rampAlpha);
        left[i] := Scale(left[i], gain);
        right[i] := Scale(right[i], gain);
      }
    }
  }
}
