/** The fade mute over any history: exactly when the gate closes, and when it opens again. */
module SquelchGate {
  import opened Squelch

  /** The last value is more than the drop below an earlier one less what that has decayed since. */
  ghost predicate Behind(values: seq<real>, c: Config) {
    exists i :: 0 <= i < |values| &&
      values[|values| - 1] < Decayed(values, i, c.refDecayPerUpdate) - c.dropDb
  }

  /** The last value is within the drop, less the hysteresis, of every value so decayed. */
  ghost predicate CaughtUp(values: seq<real>, c: Config) {
    forall i :: 0 <= i < |values| ==>
      values[|values| - 1] > Decayed(values, i, c.refDecayPerUpdate) - c.dropDb + c.hysteresisDb
  }

  lemma ByReference(values: seq<real>, c: Config)
    requires values != [] && c.Valid()
    ensures ReferenceOf(values, c.refDecayPerUpdate).Some?
    ensures var reference, last := ReferenceOf(values, c.refDecayPerUpdate).value, values[|values| - 1];
            && (Behind(values, c) <==> last < reference - c.dropDb)
            && (CaughtUp(values, c) <==> last > reference - c.dropDb + c.hysteresisDb)
  {
    hide Decayed, ReferenceOf;
    assert c.refDecayPerUpdate >= 0.0;
    ReferenceIsDecayedMax(values, c.refDecayPerUpdate);
    var best :| 0 <= best < |values|
                && Decayed(values, best, c.refDecayPerUpdate) == ReferenceOf(values, c.refDecayPerUpdate).value;
  }

  lemma OneMore(history: seq<Measurement>, m: Measurement, c: Config)
    ensures UpdateAll(OPEN, history + [m], c) == Update(UpdateAll(OPEN, history, c), m.power, m.snr, c)
    ensures m.power.Some? ==> Powers(history + [m]) == Powers(history) + [m.power.value]
    ensures m.power.Some? && m.snr.Some? ==> Snrs(history + [m]) == Snrs(history) + [m.snr.value]
  {
    assert (history + [m])[..|history|] == history;
  }

  /** Whatever came before, since the last reset: without an estimate of the power nothing changes; an
      open gate closes if and only if the power or the SNR has fallen behind; and a closed one opens if
      and only if both have recovered, where an SNR that is not known does not count. */
  lemma GateExactly(history: seq<Measurement>, m: Measurement, c: Config)
    requires c.Valid()
    ensures var before, after := UpdateAll(OPEN, history, c), UpdateAll(OPEN, history + [m], c);
            var powers, snrs := Powers(history + [m]), Snrs(history + [m]);
            && (m.power.None? ==> after == before)
            && (m.power.Some? && before.isOpen ==>
                  (!after.isOpen <==> Behind(powers, c) || (m.snr.Some? && Behind(snrs, c))))
            && (m.power.Some? && !before.isOpen ==>
                  (after.isOpen <==> CaughtUp(powers, c) && (m.snr.Some? ==> CaughtUp(snrs, c))))
  {
    hide UpdateAll, Powers, Snrs, Behind, CaughtUp, ReferenceOf, Config.Valid;
    OneMore(history, m, c);
    ReferencesOfHistory(history + [m], c);
    if m.power.Some? {
      ByReference(Powers(history + [m]), c);
      if m.snr.Some? {
        ByReference(Snrs(history + [m]), c);
      }
    }
  }

  /** The last update of a history finds a fade. */
  ghost predicate FadesAt(history: seq<Measurement>, c: Config)
    requires history != []
  {
    var m := history[|history| - 1];
    m.power.Some? && (Behind(Powers(history), c) || (m.snr.Some? && Behind(Snrs(history), c)))
  }

  ghost predicate OpenAllAlong(history: seq<Measurement>, c: Config) {
    forall n :: 0 <= n <= |history| ==> UpdateAll(OPEN, history[..n], c).isOpen
  }

  ghost predicate NeverFades(history: seq<Measurement>, c: Config) {
    forall n :: 1 <= n <= |history| ==> !FadesAt(history[..n], c)
  }

  /** The gate is open all along if and only if no update so far has found a fade: it closes with the
      first that does, and a gate that is fed values within the drop of their past stays open. */
  lemma {:induction false} OpenUntilFade(history: seq<Measurement>, c: Config)
    requires c.Valid()
    ensures OpenAllAlong(history, c) <==> NeverFades(history, c)
  {
    hide UpdateAll, FadesAt, Config.Valid, OpenAllAlong, NeverFades;
    if history == [] {
      NothingYet(c);
    } else {
      var before, m := history[..|history| - 1], history[|history| - 1];
      OpenUntilFade(before, c);
      assert history == before + [m];
      OneMoreOpen(before, m, c);
      if OpenAllAlong(before, c) {
        OpenNow(before, c);
        ClosesIfFades(before, m, c);
      }
    }
  }

  lemma NothingYet(c: Config)
    ensures OpenAllAlong([], c) && NeverFades([], c)
  {
    var none: seq<Measurement> := [];
    assert forall n :: 0 <= n <= |none| ==> none[..n] == none;
  }

  lemma OpenNow(history: seq<Measurement>, c: Config)
    requires OpenAllAlong(history, c)
    ensures UpdateAll(OPEN, history, c).isOpen
  {
    assert history[..|history|] == history;
  }

  lemma OneMoreOpen(before: seq<Measurement>, m: Measurement, c: Config)
    ensures OpenAllAlong(before + [m], c) <==> OpenAllAlong(before, c) && UpdateAll(OPEN, before + [m], c).isOpen
    ensures NeverFades(before + [m], c) <==> NeverFades(before, c) && !FadesAt(before + [m], c)
  {
    hide UpdateAll, FadesAt;
    var history := before + [m];
    assert forall n :: 0 <= n <= |before| ==> history[..n] == before[..n];
    assert history[..|history|] == history;
    if NeverFades(history, c) {
      forall n | 1 <= n <= |before| ensures !FadesAt(before[..n], c) {
        assert !FadesAt(history[..n], c);
      }
    }
    if OpenAllAlong(history, c) {
      forall n | 0 <= n <= |before| ensures UpdateAll(OPEN, before[..n], c).isOpen {
        assert UpdateAll(OPEN, history[..n], c).isOpen;
      }
    }
  }

  lemma ClosesIfFades(before: seq<Measurement>, m: Measurement, c: Config)
    requires c.Valid() && UpdateAll(OPEN, before, c).isOpen
    ensures !UpdateAll(OPEN, before + [m], c).isOpen <==> FadesAt(before + [m], c)
  {
    hide UpdateAll, Behind, Config.Valid;
    GateExactly(before, m, c);
  }
}
