/** The ladder of gains that follows overload down and headroom up. */
module AutoGain {

  datatype GainStep = Stay | Down | Up

  const MILLISECOND: int := 1_000_000  // times are in nanoseconds
  const DOWN_SPACING: int := 900 * MILLISECOND
  const UP_SPACING: int := 4000 * MILLISECOND
  const LOWEST_GAIN: nat := 3

  /** What to do for one block, from its share of clipped samples and its level. */
  function DecideStep(currentMode: int, clipRatio: real, dbfs: real, downElapsed: bool, upElapsed: bool): GainStep {
    var overload := clipRatio > 0.02 || dbfs > -5.0;
    var headroom := clipRatio < 0.0005 && dbfs < -20.0;
    if overload && downElapsed && currentMode < LOWEST_GAIN then Down
    else if headroom && upElapsed && currentMode > 0 then Up
    else Stay
  }

  /** The requested rung, whether it is still to be applied, and when it last went down and up. */
  datatype Servo = Servo(requested: int, pending: bool, lastDown: int, lastUp: int)
  {
    function Mode(): (m: nat)
      ensures m <= LOWEST_GAIN
    {
      if requested < 0 then 0 else if requested > LOWEST_GAIN then LOWEST_GAIN else requested
    }
  }

  /** The servo after one block. */
  function Adjusted(s: Servo, enabled: bool, now: int, clipRatio: real, dbfs: real): Servo {
    if !enabled then s
    else
      match DecideStep(s.Mode(), clipRatio, dbfs, now - s.lastDown >= DOWN_SPACING, now - s.lastUp >= UP_SPACING)
      case Down => s.(requested := s.Mode() + 1, pending := true, lastDown := now)
      case Up => s.(requested := s.Mode() - 1, pending := true, lastUp := now)
      case Stay => s
  }

  /** What each block does. More than 2 % clipped samples or a level above -5 dBFS takes one rung down if
      there is one and the last step down was 900 ms ago; else less than 0.05 % and a level below -20
      takes one up, if there is one and the last step up was 4000 ms ago; else nothing changes. */
  lemma StepsExactly(s: Servo, now: int, clipRatio: real, dbfs: real)
    ensures var mode := if s.requested < 0 then 0 else if s.requested > 3 then 3 else s.requested;
            var down := (clipRatio > 0.02 || dbfs > -5.0) && now - s.lastDown >= 900_000_000 && mode <= 2;
            var up := clipRatio < 0.0005 && dbfs < -20.0 && now - s.lastUp >= 4_000_000_000 && mode >= 1;
            && (down ==> Adjusted(s, true, now, clipRatio, dbfs) == Servo(mode + 1, true, now, s.lastUp))
            && (!down && up ==> Adjusted(s, true, now, clipRatio, dbfs) == Servo(mode - 1, true, s.lastDown, now))
            && (!down && !up ==> Adjusted(s, true, now, clipRatio, dbfs) == s)
            && Adjusted(s, false, now, clipRatio, dbfs) == s
            && s.Mode() == mode
  {
  }

  class AutoGainControl {
    var requestedMode: int
    var pendingMode: bool
    var lastGainDown: int
    var lastGainUp: int

    function State(): Servo
      reads this
    {
      Servo(requestedMode, pendingMode, lastGainDown, lastGainUp)
    }

    method MaybeAdjust(useSdrppGainStrategy: bool, cliGain: int, imsAgcEnabled: bool,
                       now: int, clipRatio: real, dbfs: real)
      modifies this
      ensures State() == Adjusted(old(State()), !useSdrppGainStrategy && cliGain < 0 && !imsAgcEnabled,
                                  now, clipRatio, dbfs)
    {
      if useSdrppGainStrategy || cliGain >= 0 || imsAgcEnabled {
        return;
      }
      var downElapsed := now - lastGainDown >= DOWN_SPACING;
      var upElapsed := now - lastGainUp >= UP_SPACING;
      var current := if requestedMode < 0 then 0
                     else if requestedMode > LOWEST_GAIN then LOWEST_GAIN else requestedMode;
      match DecideStep(current, clipRatio, dbfs, downElapsed, upElapsed)
      case Down =>
        requestedMode, pendingMode, lastGainDown := current + 1, true, now;
      case Up =>
        requestedMode, pendingMode, lastGainUp := current - 1, true, now;
      case Stay =>
    }
  }

  // ---------------------------------------------------------------------------
  // The loop closed over a constant input
  // ---------------------------------------------------------------------------

  datatype Ladder = DirectRtl | Tef

  function ModeGainDb(ladder: Ladder, mode: nat): nat {
    match ladder
    case DirectRtl => (match mode case 0 => 18 case 1 => 12 case 2 => 7 case _ => 0)
    case Tef => (match mode case 0 => 44 case 1 => 36 case 2 => 30 case _ => 24)
  }

  /** The gain applied in a mode, with the boost that the equaliser bit asks for. */
  function AppliedGainDb(ladder: Ladder, mode: nat, boosted: bool): nat {
    var g := ModeGainDb(ladder, mode) + if boosted then 4 else 0;
    if g > 49 then 49 else g
  }

  /** The gains of both ladders, 4 dB more if boosted. */
  lemma Ladders(boosted: bool)
    ensures var extra := if boosted then 4 else 0;
            && AppliedGainDb(DirectRtl, 0, boosted) == 18 + extra && AppliedGainDb(Tef, 0, boosted) == 44 + extra
            && AppliedGainDb(DirectRtl, 1, boosted) == 12 + extra && AppliedGainDb(Tef, 1, boosted) == 36 + extra
            && AppliedGainDb(DirectRtl, 2, boosted) == 7 + extra && AppliedGainDb(Tef, 2, boosted) == 30 + extra
            && AppliedGainDb(DirectRtl, 3, boosted) == extra && AppliedGainDb(Tef, 3, boosted) == 24 + extra
  {
  }

  /** One rung is worth less than the dead band between the two thresholds. */
  lemma RungWithinDeadBand(ladder: Ladder, mode: nat, boosted: bool)
    requires mode < LOWEST_GAIN
    ensures 5 <= AppliedGainDb(ladder, mode, boosted) - AppliedGainDb(ladder, mode + 1, boosted) <= 8
  {
  }

  /** Constant input: the level it would have at no gain, and the ladder it is amplified by. */
  datatype Input = Input(level: real, ladder: Ladder, boosted: bool)
  {
    function Dbfs(mode: nat): real {
      level + AppliedGainDb(ladder, mode, boosted) as real
    }

    /** Up to -5 dBFS next to nothing is clipped. */
    ghost predicate Allows(b: Block, mode: nat) {
      Dbfs(mode) <= -5.0 ==> b.clipRatio < 0.0005
    }

    /** Neither threshold asks for a step that the ladder still has. */
    predicate Rests(mode: nat) {
      && (Dbfs(mode) <= -5.0 || mode >= LOWEST_GAIN)
      && (Dbfs(mode) >= -20.0 || mode == 0)
    }
  }

  /** One block: when it is measured, whether its samples were still taken at the gain before the
      last step, and its share of clipped samples. */
  datatype Block = Block(now: int, late: bool, clipRatio: real)

  /** The servo, the mode before its last step and the time of that step. */
  datatype Loop = Loop(servo: Servo, previous: nat, changed: int)

  /** The mode whose gain a block's samples were taken at. A gain is in force 900 ms after it was
      requested at the latest. */
  function Heard(l: Loop, b: Block): nat {
    if b.late && b.now - l.changed < DOWN_SPACING then l.previous else l.servo.Mode()
  }

  function After(l: Loop, b: Block, input: Input): Loop {
    var servo := Adjusted(l.servo, true, b.now, b.clipRatio, input.Dbfs(Heard(l, b)));
    if servo == l.servo then l else Loop(servo, l.servo.Mode(), b.now)
  }

  /** A run: states, and the blocks between them in order of time, clipped only as the input
      allows. It starts with the gain of its mode in force, and with no step in the future. */
  ghost predicate IsRun(t: seq<Loop>, blocks: seq<Block>, input: Input) {
    && |t| == |blocks| + 1
    && (forall i :: 0 <= i < |blocks| ==> t[i + 1] == After(t[i], blocks[i], input))
    && (forall i :: 0 <= i < |blocks| ==> input.Allows(blocks[i], Heard(t[i], blocks[i])))
    && (forall i, j :: 0 <= i <= j < |blocks| ==> blocks[i].now <= blocks[j].now)
    && Idle(t[0])
    && (|blocks| > 0 ==> SettledTimers(t[0], blocks[0].now))
  }

  ghost predicate SettledTimers(l: Loop, now: int) {
    l.servo.lastDown <= now && l.servo.lastUp <= now && l.changed <= now
  }

  /** No step is under way and none was taken yet. */
  ghost predicate Idle(l: Loop) {
    l.previous == l.servo.Mode()
  }

  ghost predicate Falling(l: Loop, input: Input) {
    && l.servo.Mode() == l.previous + 1
    && l.changed == l.servo.lastDown
    && input.Dbfs(l.previous) > -5.0
  }

  ghost predicate Rising(l: Loop, input: Input) {
    && l.servo.Mode() + 1 == l.previous <= LOWEST_GAIN
    && l.changed == l.servo.lastUp
    && input.Dbfs(l.previous) < -20.0
  }

  /** One block: a loop that has gone down never goes up, and the other way round, even while blocks
      are still late. */
  lemma OneBlock(l: Loop, b: Block, input: Input)
    requires Idle(l) || Falling(l, input) || Rising(l, input)
    requires input.Allows(b, Heard(l, b))
    ensures var n := After(l, b, input);
            || n == l
            || (Falling(n, input) && !Rising(l, input) && n.servo.Mode() == l.servo.Mode() + 1
                && b.now - l.servo.lastDown >= DOWN_SPACING && n.servo.lastDown == b.now)
            || (Rising(n, input) && !Falling(l, input) && n.servo.Mode() + 1 == l.servo.Mode()
                && b.now - l.servo.lastUp >= UP_SPACING && n.servo.lastUp == b.now)
  {
    var m := l.servo.Mode();
    if Falling(l, input) {
      RungWithinDeadBand(input.ladder, l.previous, input.boosted);
    } else if Rising(l, input) {
      RungWithinDeadBand(input.ladder, m, input.boosted);
    }
  }

  lemma {:induction false} Phases(t: seq<Loop>, blocks: seq<Block>, input: Input, n: nat)
    requires IsRun(t, blocks, input) && n < |t|
    ensures t[n] == t[0] || Falling(t[n], input) || Rising(t[n], input)
    ensures n > 0 ==> SettledTimers(t[n], blocks[n - 1].now)
  {
    hide Falling, Rising, Idle;
    if n > 0 {
      Phases(t, blocks, input, n - 1);
      OneBlock(t[n - 1], blocks[n - 1], input);
    }
  }

  lemma {:induction false} DirectionKept(t: seq<Loop>, blocks: seq<Block>, input: Input, i: nat, j: nat)
    requires IsRun(t, blocks, input) && i <= j < |t|
    ensures Falling(t[i], input) ==> Falling(t[j], input) && t[i].servo.Mode() <= t[j].servo.Mode()
    ensures Rising(t[i], input) ==> Rising(t[j], input) && t[i].servo.Mode() >= t[j].servo.Mode()
    decreases j
  {
    hide IsRun, After;
    if i < j {
      DirectionKept(t, blocks, input, i, j - 1);
      StepOf(t, blocks, input, j - 1);
    }
  }

  /** Block number i of a run. */
  lemma StepOf(t: seq<Loop>, blocks: seq<Block>, input: Input, i: nat)
    requires IsRun(t, blocks, input) && i + 1 < |t|
    ensures |t| == |blocks| + 1 && t[i + 1] == After(t[i], blocks[i], input)
    ensures var l, n, b := t[i], t[i + 1], blocks[i];
            || n == l
            || (Falling(n, input) && !Rising(l, input) && n.servo.Mode() == l.servo.Mode() + 1
                && b.now - l.servo.lastDown >= DOWN_SPACING && n.servo.lastDown == b.now)
            || (Rising(n, input) && !Falling(l, input) && n.servo.Mode() + 1 == l.servo.Mode()
                && b.now - l.servo.lastUp >= UP_SPACING && n.servo.lastUp == b.now)
  {
    hide Falling, Rising, Idle, After;
    Phases(t, blocks, input, i);
    OneBlock(t[i], blocks[i], input);
  }

  /** Over a whole run the gain only ever falls or only ever rises. */
  lemma NeverReverses(t: seq<Loop>, blocks: seq<Block>, input: Input)
    requires IsRun(t, blocks, input)
    ensures || (forall i, j :: 0 <= i <= j < |t| ==> t[i].servo.Mode() <= t[j].servo.Mode())
            || (forall i, j :: 0 <= i <= j < |t| ==> t[i].servo.Mode() >= t[j].servo.Mode())
  {
    hide IsRun;
    var last := LastOf(t, blocks, input);
    forall i, j | 0 <= i <= j < |t|
      ensures if Rising(t[last], input) then t[i].servo.Mode() >= t[j].servo.Mode()
              else t[i].servo.Mode() <= t[j].servo.Mode()
    {
      Ordered(t, blocks, input, i, j, last);
    }
  }

  lemma LastOf(t: seq<Loop>, blocks: seq<Block>, input: Input) returns (last: nat)
    requires IsRun(t, blocks, input)
    ensures last + 1 == |t|
  {
    last := |blocks|;
  }

  lemma {:induction false} Ordered(t: seq<Loop>, blocks: seq<Block>, input: Input, i: nat, j: nat, last: nat)
    requires IsRun(t, blocks, input) && i <= j <= last && last + 1 == |t|
    ensures if Rising(t[last], input) then t[i].servo.Mode() >= t[j].servo.Mode()
            else t[i].servo.Mode() <= t[j].servo.Mode()
    decreases j - i
  {
    hide IsRun, After;
    if i < j {
      StepOf(t, blocks, input, i);
      DirectionKept(t, blocks, input, i + 1, last);
      Ordered(t, blocks, input, i + 1, j, last);
    }
  }

  /** How many of the first n blocks changed the gain. */
  ghost function Steps(t: seq<Loop>, n: nat): nat
    requires n < |t|
  {
    if n == 0 then 0 else Steps(t, n - 1) + if t[n] != t[n - 1] then 1 else 0
  }

  /** The number of steps is the distance travelled on the ladder, which has three. */
  lemma AtMostThreeSteps(t: seq<Loop>, blocks: seq<Block>, input: Input, n: nat)
    requires IsRun(t, blocks, input) && n < |t|
    ensures Steps(t, n) <= 3
    ensures var d := t[n].servo.Mode() - t[0].servo.Mode(); Steps(t, n) == if d < 0 then -d else d
  {
    StepsTravel(t, blocks, input, n);
  }

  lemma {:induction false} StepsTravel(t: seq<Loop>, blocks: seq<Block>, input: Input, n: nat)
    requires IsRun(t, blocks, input) && n < |t|
    ensures Rising(t[n], input) ==> Steps(t, n) == t[0].servo.Mode() - t[n].servo.Mode()
    ensures Falling(t[n], input) ==> Steps(t, n) == t[n].servo.Mode() - t[0].servo.Mode()
    ensures !Rising(t[n], input) && !Falling(t[n], input) ==> Steps(t, n) == 0 && t[n] == t[0]
  {
    hide After;
    if n > 0 {
      StepsTravel(t, blocks, input, n - 1);
      StepOf(t, blocks, input, n - 1);
    } else {
      assert Idle(t[0]);
    }
  }

  /** Two steps down are at least 900 ms apart, and two steps up 4000 ms. */
  lemma StepsSpaced(t: seq<Loop>, blocks: seq<Block>, input: Input, i: nat, j: nat)
    requires IsRun(t, blocks, input) && i < j < |blocks|
    requires t[i + 1] != t[i] && t[j + 1] != t[j]
    ensures blocks[j].now - blocks[i].now >=
            if t[j + 1].servo.Mode() > t[j].servo.Mode() then 900_000_000 else 4_000_000_000
  {
    hide After;
    StepOf(t, blocks, input, i);
    StepOf(t, blocks, input, j);
    DirectionKept(t, blocks, input, i + 1, j);
    LastStep(t, blocks, input, i, j);
  }

  lemma {:induction false} LastStep(t: seq<Loop>, blocks: seq<Block>, input: Input, i: nat, j: nat)
    requires IsRun(t, blocks, input) && i < j < |blocks| && t[i + 1] != t[i]
    ensures Falling(t[i + 1], input) ==> t[j].servo.lastDown >= blocks[i].now
    ensures Rising(t[i + 1], input) ==> t[j].servo.lastUp >= blocks[i].now
    decreases j
  {
    hide After, Falling, Rising;
    if i + 1 < j {
      LastStep(t, blocks, input, i, j - 1);
      StepOf(t, blocks, input, j - 1);
      NewTimers(t[j - 1], blocks[j - 1], input);
    } else {
      StepOf(t, blocks, input, i);
      assert !(Falling(t[i + 1], input) && Rising(t[i + 1], input)) by { Apart(t[i + 1], input); }
    }
  }

  lemma Apart(l: Loop, input: Input)
    ensures !(Falling(l, input) && Rising(l, input))
  {
  }

  lemma NewTimers(l: Loop, b: Block, input: Input)
    ensures var n := After(l, b, input);
            && (n.servo.lastDown == l.servo.lastDown || n.servo.lastDown == b.now)
            && (n.servo.lastUp == l.servo.lastUp || n.servo.lastUp == b.now)
  {
  }

  /** A gain at rest stays as it is for the rest of the run, late blocks notwithstanding. */
  lemma {:induction false} RestsForever(t: seq<Loop>, blocks: seq<Block>, input: Input, i: nat, j: nat)
    requires IsRun(t, blocks, input) && i <= j < |t| && input.Rests(t[i].servo.Mode())
    ensures t[j] == t[i]
    decreases j
  {
    if i < j {
      RestsForever(t, blocks, input, i, j - 1);
      Phases(t, blocks, input, j - 1);
    }
  }

  /** A block that comes when both timers have run out, and leaves the gain as it is, finds it at
      rest. */
  lemma IdleMeansRest(l: Loop, b: Block, input: Input)
    requires After(l, b, input) == l && input.Allows(b, Heard(l, b)) && SettledTimers(l, b.now - UP_SPACING)
    ensures input.Rests(l.servo.Mode())
  {
  }

  /** Between blocks 4000 ms apart the gain takes a step unless it is at rest. */
  lemma StepOrRest(t: seq<Loop>, blocks: seq<Block>, input: Input, i: nat, j: nat)
    requires IsRun(t, blocks, input) && i < j < |blocks| && blocks[j].now - blocks[i].now >= UP_SPACING
    requires t[i + 1].servo.Mode() == t[j + 1].servo.Mode()
    ensures input.Rests(t[j + 1].servo.Mode())
  {
    hide After, Falling, Rising, Idle;
    forall k | i + 1 <= k <= j + 1 ensures t[k] == t[i + 1] {
      Unmoved(t, blocks, input, i + 1, k, j + 1);
    }
    Phases(t, blocks, input, i + 1);
    assert t[j + 1] == After(t[j], blocks[j], input);
    IdleMeansRest(t[j], blocks[j], input);
  }

  lemma {:induction false} Unmoved(t: seq<Loop>, blocks: seq<Block>, input: Input, i: nat, k: nat, j: nat)
    requires IsRun(t, blocks, input) && i <= k <= j < |t| && t[i].servo.Mode() == t[j].servo.Mode()
    ensures t[k] == t[i]
    decreases k
  {
    hide IsRun, After, Falling, Rising;
    if i < k {
      var last := LastOf(t, blocks, input);
      Ordered(t, blocks, input, i, k - 1, last);
      Ordered(t, blocks, input, k - 1, k, last);
      Ordered(t, blocks, input, k, j, last);
      StepOf(t, blocks, input, k - 1);
      Ordered(t, blocks, input, k - 1, j, last);
      Unmoved(t, blocks, input, i, k - 1, j);
    }
  }

  /** Whatever the input and wherever the ladder starts: after four stretches of 4000 ms the gain
      is at rest and holds for good. */
  lemma HoldsForever(t: seq<Loop>, blocks: seq<Block>, input: Input,
                     a: nat, b: nat, c: nat, d: nat, e: nat, later: nat)
    requires IsRun(t, blocks, input) && a < b < c < d < e < later < |t|
    requires blocks[b].now - blocks[a].now >= UP_SPACING && blocks[c].now - blocks[b].now >= UP_SPACING
    requires blocks[d].now - blocks[c].now >= UP_SPACING && blocks[e].now - blocks[d].now >= UP_SPACING
    ensures input.Rests(t[e + 1].servo.Mode()) && t[later] == t[e + 1]
  {
    hide Input.Rests;
    Travelled(t, blocks, input, a, b, c, d, e);
    if input.Rests(t[b + 1].servo.Mode()) {
      RestsForever(t, blocks, input, b + 1, e + 1);
    } else if input.Rests(t[c + 1].servo.Mode()) {
      RestsForever(t, blocks, input, c + 1, e + 1);
    } else if input.Rests(t[d + 1].servo.Mode()) {
      RestsForever(t, blocks, input, d + 1, e + 1);
    }
    RestsForever(t, blocks, input, e + 1, later);
  }

  lemma Travelled(t: seq<Loop>, blocks: seq<Block>, input: Input, a: nat, b: nat, c: nat, d: nat, e: nat)
    requires IsRun(t, blocks, input) && a < b < c < d < e < |blocks|
    requires blocks[b].now - blocks[a].now >= UP_SPACING && blocks[c].now - blocks[b].now >= UP_SPACING
    requires blocks[d].now - blocks[c].now >= UP_SPACING && blocks[e].now - blocks[d].now >= UP_SPACING
    ensures |t| == |blocks| + 1
    ensures || input.Rests(t[b + 1].servo.Mode()) || input.Rests(t[c + 1].servo.Mode())
            || input.Rests(t[d + 1].servo.Mode()) || input.Rests(t[e + 1].servo.Mode())
  {
    hide Input.Rests;
    NeverReverses(t, blocks, input);
    var m := [t[a + 1], t[b + 1], t[c + 1], t[d + 1], t[e + 1]];
    if m[0].servo.Mode() == m[1].servo.Mode() { StepOrRest(t, blocks, input, a, b); }
    else if m[1].servo.Mode() == m[2].servo.Mode() { StepOrRest(t, blocks, input, b, c); }
    else if m[2].servo.Mode() == m[3].servo.Mode() { StepOrRest(t, blocks, input, c, d); }
    else { StepOrRest(t, blocks, input, d, e); }
  }
}
