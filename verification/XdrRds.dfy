/** How the server passes RDS groups on to its clients: the programme identification is held back
    until a window of recent groups confirms it, and lines go out through a bounded queue. */
module XdrRds {
  import opened Wrappers
  import opened Seqs
  import opened Broadcast

  const PI_WINDOW: nat := 64
  const MAX_RDS_QUEUE: nat := 256
  const MAX_SCAN_QUEUE: nat := 8
  const NO_PI: Word := 0xFFFF
  const INVALID: nat := 4

  type Word = x: nat | x < 0x1_0000
  type Byte = x: nat | x < 0x100

  // ---------------------------------------------------------------------------
  // Confirming the programme identification
  // ---------------------------------------------------------------------------

  /** What one group said: its first block, and whether that was received without errors. */
  datatype Reading = Reading(pi: Word, clean: bool)

  function Copies(w: seq<Reading>, value: Word): nat {
    if w == [] then 0 else Copies(w[..|w| - 1], value) + if w[|w| - 1].pi == value then 1 else 0
  }

  function CleanCopies(w: seq<Reading>, value: Word): nat {
    if w == [] then 0
    else CleanCopies(w[..|w| - 1], value) + if w[|w| - 1] == Reading(value, true) then 1 else 0
  }

  function StateOf(count: nat, correct: nat): nat {
    if correct >= 2 then 0
    else if count >= 2 && correct > 0 then 1
    else if count >= 3 then 2
    else if count == 2 || correct > 0 then 3
    else INVALID
  }

  /** The five states by what has been counted. */
  lemma StatesByCounts(count: nat, correct: nat)
    requires correct <= count
    ensures var state := StateOf(count, correct);
            && (state == 0 <==> correct >= 2)
            && (state == 1 <==> correct == 1 && count >= 2)
            && (state == 2 <==> correct == 0 && count >= 3)
            && (state == 3 <==> (correct == 0 && count == 2) || (correct == 1 && count == 1))
            && (state == 4 <==> correct == 0 && count <= 1)
  {
  }

  /** Two groups of the window agree on the value, and one of them is clean. */
  ghost predicate Confirmed(w: seq<Reading>, value: Word) {
    exists i, j :: 0 <= i < |w| && 0 <= j < |w| && i != j && w[i].pi == value && w[j] == Reading(value, true)
  }

  lemma {:induction false} NoCopies(w: seq<Reading>, value: Word)
    ensures Copies(w, value) == 0 <==> forall i :: 0 <= i < |w| ==> w[i].pi != value
    ensures CleanCopies(w, value) == 0 <==> forall i :: 0 <= i < |w| ==> w[i] != Reading(value, true)
    ensures CleanCopies(w, value) <= Copies(w, value)
  {
    if w != [] {
      NoCopies(w[..|w| - 1], value);
    }
  }

  lemma ConfirmedStep(w: seq<Reading>, r: Reading, value: Word)
    ensures Confirmed(w + [r], value) <==>
            || Confirmed(w, value)
            || (r == Reading(value, true) && exists i :: 0 <= i < |w| && w[i].pi == value)
            || (r.pi == value && exists j :: 0 <= j < |w| && w[j] == Reading(value, true))
  {
    var all, n := w + [r], |w|;
    assert all[n] == r;
    assert forall i :: 0 <= i < n ==> all[i] == w[i];
    if Confirmed(all, value) {
      var i, j :| 0 <= i <= n && 0 <= j <= n && i != j && all[i].pi == value && all[j] == Reading(value, true);
      if i < n {
        assert w[i].pi == value;
      }
      if j < n {
        assert w[j] == Reading(value, true);
      }
    }
  }

  lemma {:induction false} ConfirmedByCounts(w: seq<Reading>, value: Word)
    ensures Confirmed(w, value) <==> Copies(w, value) >= 2 && CleanCopies(w, value) >= 1
  {
    hide Confirmed;
    if w == [] {
      NotConfirmedEmpty(value);
    } else {
      var rest, r := w[..|w| - 1], w[|w| - 1];
      ConfirmedByCounts(rest, value);
      NoCopies(rest, value);
      ConfirmedStep(rest, r, value);
      assert rest + [r] == w;
    }
  }

  lemma NotConfirmedEmpty(value: Word)
    ensures !Confirmed([], value)
  {
  }

  /** The two best states mean exactly that the value is confirmed. */
  lemma DebounceExact(w: seq<Reading>, value: Word)
    ensures StateOf(Copies(w, value), CleanCopies(w, value)) <= 1 <==> Confirmed(w, value)
  {
    ConfirmedByCounts(w, value);
    NoCopies(w, value);
  }

  lemma {:induction false} CountsConcat(v: seq<Reading>, w: seq<Reading>, value: Word)
    ensures Copies(v + w, value) == Copies(v, value) + Copies(w, value)
    ensures CleanCopies(v + w, value) == CleanCopies(v, value) + CleanCopies(w, value)
  {
    if w == [] {
      assert v + w == v;
    } else {
      CountsConcat(v, w[..|w| - 1], value);
      assert (v + w)[..|v + w| - 1] == v + w[..|w| - 1];
    }
  }

  // ---------------------------------------------------------------------------
  // The ring of readings and the bits that mark errors
  // ---------------------------------------------------------------------------

  /** Each of the newest readings is in the slot that its number selects. */
  ghost predicate InSlots(slots: seq<Reading>, window: seq<Reading>) {
    && |slots| == PI_WINDOW
    && forall k :: 0 <= k < |window| && |window| - PI_WINDOW <= k ==> slots[k % PI_WINDOW] == window[k]
  }

  lemma SlotWritten(slots: seq<Reading>, window: seq<Reading>, r: Reading)
    requires InSlots(slots, window)
    ensures InSlots(slots[|window| % PI_WINDOW := r], window + [r])
  {
    var n := |window|;
    forall k | 0 <= k <= n && n + 1 - PI_WINDOW <= k
      ensures slots[n % PI_WINDOW := r][k % PI_WINDOW] == (window + [r])[k]
    {
      if k < n {
        OtherSlot(k, n - k);
      }
    }
  }

  /** Where the next reading goes, if the last one of n went just before. */
  lemma NextSlot(n: nat)
    ensures ((n + PI_WINDOW - 1) % PI_WINDOW + 1) % PI_WINDOW == n % PI_WINDOW
    ensures (n + 1 + PI_WINDOW - 1) % PI_WINDOW == n % PI_WINDOW < PI_WINDOW
  {
  }

  lemma OtherSlot(k: nat, d: nat)
    requires 0 < d < PI_WINDOW
    ensures k % PI_WINDOW != (k + d) % PI_WINDOW
  {
  }

  /** Counting over the slots in use, in whatever order they lie, counts over the newest readings. */
  lemma SlotsCount(slots: seq<Reading>, window: seq<Reading>, fill: nat, value: Word)
    requires InSlots(slots, window) && fill == if |window| < PI_WINDOW then |window| else PI_WINDOW
    ensures Copies(slots[..fill], value) == Copies(Newest(window, PI_WINDOW), value)
    ensures CleanCopies(slots[..fill], value) == CleanCopies(Newest(window, PI_WINDOW), value)
  {
    if |window| < PI_WINDOW {
      assert slots[..fill] == window;
    } else {
      var r := |window| % PI_WINDOW;
      var tail, head := Rotated(slots, window, r);
      CountsConcat(tail, head, value);
      CountsConcat(head, tail, value);
      assert slots[..fill] == head + tail;
    }
  }

  lemma Rotated(slots: seq<Reading>, window: seq<Reading>, r: nat) returns (tail: seq<Reading>, head: seq<Reading>)
    requires InSlots(slots, window) && |window| >= PI_WINDOW && r == |window| % PI_WINDOW
    ensures slots == head + tail && Newest(window, PI_WINDOW) == tail + head
  {
    tail, head := slots[r..], slots[..r];
    var newest := Newest(window, PI_WINDOW);
    forall i | 0 <= i < PI_WINDOW ensures newest[i] == (tail + head)[i] {
      var k := |window| - PI_WINDOW + i;
      assert newest[i] == window[k];
      Turn(|window|, i);
    }
  }

  lemma Turn(n: nat, i: nat)
    requires n >= PI_WINDOW && i < PI_WINDOW
    ensures (n - PI_WINDOW + i) % PI_WINDOW ==
            if n % PI_WINDOW + i < PI_WINDOW then n % PI_WINDOW + i else n % PI_WINDOW + i - PI_WINDOW
  {
  }

  /** (b & (1 << bit)) != 0 */
  predicate BitAt(b: nat, bit: nat) {
    if bit == 0 then b % 2 == 1 else BitAt(b / 2, bit - 1)
  }

  /** b | (1 << bit) if the bit is to be set, b & ~(1 << bit) if not. */
  function WithBit(b: nat, bit: nat, on: bool): nat {
    if bit == 0 then b / 2 * 2 + if on then 1 else 0
    else WithBit(b / 2, bit - 1, on) * 2 + b % 2
  }

  /** Marking one bit leaves the others as they were. */
  lemma {:induction false} BitsApart(b: nat, bit: nat, on: bool, other: nat)
    ensures BitAt(WithBit(b, bit, on), other) <==> if bit == other then on else BitAt(b, other)
  {
    if bit > 0 && other > 0 {
      BitsApart(b / 2, bit - 1, on, other - 1);
    }
  }

  function Pow2(n: nat): nat {
    if n == 0 then 1 else 2 * Pow2(n - 1)
  }

  /** Marking one of the lowest bits does not outgrow them. */
  lemma {:induction false} BitsFit(b: nat, bit: nat, on: bool, width: nat)
    requires b < Pow2(width) && bit < width
    ensures WithBit(b, bit, on) < Pow2(width)
  {
    var half := Pow2(width - 1);
    assert Pow2(width) == 2 * half;
    assert b / 2 < half;
    if bit > 0 {
      BitsFit(b / 2, bit - 1, on, width - 1);
    }
  }

  // ---------------------------------------------------------------------------
  // The lines sent to clients
  // ---------------------------------------------------------------------------

  /** A confirmed identification with how doubtful its block was, or a whole group. */
  datatype RdsLine = PiLine(pi: Word, doubt: nat) | GroupLine(b: Word, c: Word, d: Word, errors: Byte)

  function Digit(n: nat): (c: char)
    requires n < 16
  {
    "0123456789ABCDEF"[n]
  }

  lemma DigitDistinguishes(a: nat, b: nat)
    requires a < 16 && b < 16 && Digit(a) == Digit(b)
    ensures a == b
  {
  }

  /** The lowest `digits` hexadecimal digits of a number. */
  function Hex(n: nat, digits: nat): (s: string)
    ensures |s| == digits
  {
    if digits == 0 then "" else Hex(n / 16, digits - 1) + [Digit(n % 16)]
  }

  function Text(line: RdsLine): string {
    match line
    case PiLine(pi, doubt) => "P" + Hex(pi, 4) + "???"[..if doubt < 3 then doubt else 3]
    case GroupLine(b, c, d, errors) => "R" + Hex(b, 4) + Hex(c, 4) + Hex(d, 4) + Hex(errors, 2)
  }

  function Pow16(n: nat): nat {
    if n == 0 then 1 else 16 * Pow16(n - 1)
  }

  lemma {:induction false} HexDistinguishes(a: nat, b: nat, digits: nat)
    requires a < Pow16(digits) && b < Pow16(digits) && Hex(a, digits) == Hex(b, digits)
    ensures a == b
  {
    hide Digit;
    if digits > 0 {
      var s, t := Hex(a, digits), Hex(b, digits);
      assert s[..digits - 1] == Hex(a / 16, digits - 1) && t[..digits - 1] == Hex(b / 16, digits - 1);
      HexDistinguishes(a / 16, b / 16, digits - 1);
      assert s[digits - 1] == Digit(a % 16) && t[digits - 1] == Digit(b % 16);
      DigitDistinguishes(a % 16, b % 16);
    }
  }

  /** What a reader makes of a hexadecimal digit. */
  function DigitValue(c: char): Option<nat> {
    if '0' <= c <= '9' then Some((c - '0') as nat)
    else if 'A' <= c <= 'F' then Some((c - 'A') as nat + 10)
    else None
  }

  /** What a reader makes of a hexadecimal number, most significant digit first. */
  function Parse(s: string): Option<nat> {
    if s == "" then Some(0)
    else
      var high, low := Parse(s[..|s| - 1]), DigitValue(s[|s| - 1]);
      if high.Some? && low.Some? then Some(16 * high.value + low.value) else None
  }

  lemma DigitRead(n: nat)
    requires n < 16
    ensures DigitValue(Digit(n)) == Some(n)
  {
    match n {
      case 0 => case 1 => case 2 => case 3 => case 4 => case 5 => case 6 => case 7 => case 8 =>
      case 9 => case 10 => case 11 => case 12 => case 13 => case 14 => case 15 =>
    }
  }

  lemma {:induction false} HexRead(n: nat, digits: nat)
    requires n < Pow16(digits)
    ensures Parse(Hex(n, digits)) == Some(n)
  {
    hide Digit, DigitValue;
    if digits > 0 {
      var s := Hex(n, digits);
      assert s[..digits - 1] == Hex(n / 16, digits - 1) && s[digits - 1] == Digit(n % 16);
      HexRead(n / 16, digits - 1);
      DigitRead(n % 16);
    }
  }

  /** A reader gets back from a line what is in it: an identification and as many question marks as it
      is doubtful, up to three, or three words and the error byte. */
  lemma TextRead(line: RdsLine)
    ensures var s := Text(line);
            match line
            case PiLine(pi, doubt) =>
              && |s| == 5 + (if doubt < 3 then doubt else 3)
              && s[0] == 'P' && Parse(s[1..5]) == Some(pi) && forall i :: 5 <= i < |s| ==> s[i] == '?'
            case GroupLine(b, c, d, errors) =>
              && |s| == 15 && s[0] == 'R'
              && Parse(s[1..5]) == Some(b) && Parse(s[5..9]) == Some(c)
              && Parse(s[9..13]) == Some(d) && Parse(s[13..15]) == Some(errors)
  {
    hide Hex, Parse;
    assert Pow16(2) == 0x100 && Pow16(4) == 0x1_0000;
    var s := Text(line);
    match line
    case PiLine(pi, doubt) =>
      HexRead(pi, 4);
      assert s[1..5] == Hex(pi, 4);
    case GroupLine(b, c, d, errors) =>
      HexRead(b, 4);
      HexRead(c, 4);
      HexRead(d, 4);
      HexRead(errors, 2);
      assert s[1..5] == Hex(b, 4) && s[5..9] == Hex(c, 4) && s[9..13] == Hex(d, 4) && s[13..15] == Hex(errors, 2);
  }

  /** No two lines read the same: nothing a client is told is ambiguous. */
  lemma TextDistinguishes(x: RdsLine, y: RdsLine)
    requires x.PiLine? ==> x.doubt <= 3
    requires y.PiLine? ==> y.doubt <= 3
    requires Text(x) == Text(y)
    ensures x == y
  {
    hide Hex;
    var s, t := Text(x), Text(y);
    assert Pow16(2) == 0x100 && Pow16(4) == 0x1_0000;
    assert s[0] == t[0];
    if x.PiLine? {
      assert s[1..5] == Hex(x.pi, 4) && t[1..5] == Hex(y.pi, 4);
      HexDistinguishes(x.pi, y.pi, 4);
      assert |s| == 5 + x.doubt && |t| == 5 + y.doubt;
    } else {
      assert s[1..5] == Hex(x.b, 4) && t[1..5] == Hex(y.b, 4);
      assert s[5..9] == Hex(x.c, 4) && t[5..9] == Hex(y.c, 4);
      assert s[9..13] == Hex(x.d, 4) && t[9..13] == Hex(y.d, 4);
      assert s[13..] == Hex(x.errors, 2) && t[13..] == Hex(y.errors, 2);
      HexDistinguishes(x.b, y.b, 4);
      HexDistinguishes(x.c, y.c, 4);
      HexDistinguishes(x.d, y.d, 4);
      HexDistinguishes(x.errors, y.errors, 2);
    }
  }

  /** What a group adds to the lines, once it is the newest of the window: its identification if the
      first block is present and the newest readings confirm it, and the whole group if its second
      block is clean. */
  ghost function LinesFor(window: seq<Reading>, a: Word, b: Word, c: Word, d: Word, errors: Byte): seq<RdsLine> {
    (if ErrorsOf(errors, 0) != 3 && Confirmed(Newest(window, PI_WINDOW), a)
     then [PiLine(a, ErrorsOf(errors, 0))] else [])
    + if ErrorsOf(errors, 1) == 0 then [GroupLine(b, c, d, errors)] else []
  }

  /** The lines of a group are its identification, if that is passed on, and then the group itself, with
      its last three words and its error byte as received, if the bits of the second block are clear;
      and nothing else. */
  lemma GroupPassedOn(window: seq<Reading>, a: Word, b: Word, c: Word, d: Word, errors: Byte)
    ensures var lines := LinesFor(window, a, b, c, d, errors);
            && (errors / 16 % 4 == 0 ==>
                  && lines != [] && lines[|lines| - 1] == GroupLine(b, c, d, errors)
                  && |lines| <= 2 && (|lines| == 2 ==> lines[0] == PiLine(a, errors / 64 % 4)))
            && (errors / 16 % 4 != 0 ==> lines == [] || lines == [PiLine(a, errors / 64 % 4)])
  {
    hide Confirmed;
  }

  /** A group's identification is passed on exactly if its first block is present and, among the 63
      readings before it, there is a clean one of the same value, or any one of it if the group's own
      is clean. Which of them came before a retune makes no difference. */
  lemma IdentificationPassedOn(window: seq<Reading>, a: Word, b: Word, c: Word, d: Word, errors: Byte)
    ensures var recent := Newest(window, 63);
            var lines := LinesFor(window + [Reading(a, errors / 64 % 4 == 0)], a, b, c, d, errors);
            PiLine(a, errors / 64 % 4) in lines <==>
            && errors / 64 % 4 != 3
            && exists i :: 0 <= i < |recent| && recent[i].pi == a && (recent[i].clean || errors / 64 % 4 == 0)
  {
    var level: nat := errors / 64 % 4;
    var r := Reading(a, level == 0);
    var recent := Newest(window, 63);
    assert Newest(window + [r], PI_WINDOW) == recent + [r];
    ConfirmedStep(recent, r, a);
    PiLineInLines(window + [r], a, b, c, d, errors);
    if Confirmed(recent, a) {
      var i, j :| && 0 <= i < |recent| && 0 <= j < |recent| && i != j
                  && recent[i].pi == a && recent[j] == Reading(a, true);
      assert recent[j].pi == a && recent[j].clean;
    }
  }

  lemma PiLineInLines(window: seq<Reading>, a: Word, b: Word, c: Word, d: Word, errors: Byte)
    ensures PiLine(a, errors / 64 % 4) in LinesFor(window, a, b, c, d, errors) <==>
            errors / 64 % 4 != 3 && Confirmed(Newest(window, 64), a)
  {
    hide Confirmed;
  }

  /** The two bits of a packed error byte that belong to one of the four blocks. */
  function ErrorsOf(errors: Byte, block: nat): (e: nat)
    requires block < 4
    ensures e < 4
  {
    match block case 0 => errors / 64 % 4 case 1 => errors / 16 % 4 case 2 => errors / 4 % 4 case 3 => errors % 4
  }

  // ---------------------------------------------------------------------------
  // The server
  // ---------------------------------------------------------------------------

  class XdrServer {
    const piBuffer: array<Word>
    const piErrorBuffer: array<Byte>
    var piFill: nat
    var piPos: nat
    var piLastState: nat
    var piLastValue: Word
    var rdsQueue: Queue<RdsLine>
    var scanQueue: Queue<string>
    var frequency: nat

    /** The readings since the window was last reset, and every line ever queued. */
    ghost var window: seq<Reading>
    ghost var rdsLog: seq<RdsLine>
    ghost var scanLog: seq<string>

    ghost predicate Valid()
      reads this, piBuffer, piErrorBuffer
    {
      && piBuffer.Length == PI_WINDOW && piErrorBuffer.Length == PI_WINDOW / 8
      && piFill == (if |window| < PI_WINDOW then |window| else PI_WINDOW)
      && piPos == (|window| + PI_WINDOW - 1) % PI_WINDOW
      && InSlots(Slots(), window)
      && Holds(rdsQueue, rdsLog, MAX_RDS_QUEUE)
      && Holds(scanQueue, scanLog, MAX_SCAN_QUEUE)
    }

    ghost function Slot(k: nat): Reading
      requires piBuffer.Length == PI_WINDOW && piErrorBuffer.Length == PI_WINDOW / 8 && k < PI_WINDOW
      reads piBuffer, piErrorBuffer
    {
      Reading(piBuffer[k], !BitAt(piErrorBuffer[k / 8], k % 8))
    }

    ghost function Slots(): (s: seq<Reading>)
      requires piBuffer.Length == PI_WINDOW && piErrorBuffer.Length == PI_WINDOW / 8
      reads piBuffer, piErrorBuffer
      ensures |s| == PI_WINDOW && forall k :: 0 <= k < PI_WINDOW ==> s[k] == Slot(k)
    {
      seq(PI_WINDOW, k requires 0 <= k < PI_WINDOW reads piBuffer, piErrorBuffer => Slot(k))
    }

    constructor (initialFrequency: nat)
      ensures Valid() && fresh(piBuffer) && fresh(piErrorBuffer)
      ensures window == [] && rdsLog == [] && scanLog == [] && frequency == initialFrequency
      ensures piLastState == 4 && piLastValue == 0xFFFF
    {
      piBuffer := new Word[PI_WINDOW](_ => 0);
      piErrorBuffer := new Byte[PI_WINDOW / 8](_ => 0);
      piFill, piPos, piLastState, piLastValue := 0, PI_WINDOW - 1, INVALID, NO_PI;
      rdsQueue, scanQueue, frequency := Queue([], 1), Queue([], 1), initialFrequency;
      window, rdsLog, scanLog := [], [], [];
      new;
      EmptyHolds<RdsLine>(MAX_RDS_QUEUE);
      EmptyHolds<string>(MAX_SCAN_QUEUE);
    }

    /** How well the newest readings support a value. */
    method EvaluatePiState(value: Word) returns (state: nat)
      requires Valid()
      ensures var newest := Newest(window, PI_WINDOW);
              && state == StateOf(Copies(newest, value), CleanCopies(newest, value))
              && (state <= 1 <==> Confirmed(newest, value))
    {
      hide Holds, Confirmed;
      var count, correct := 0, 0;
      for i := 0 to piFill
        invariant count == Copies(Slots()[..i], value) && correct == CleanCopies(Slots()[..i], value)
      {
        assert Slots()[..i + 1][..i] == Slots()[..i];
        if piBuffer[i] == value {
          count := count + 1;
          if !BitAt(piErrorBuffer[i / 8], i % 8) {
            correct := correct + 1;
          }
        }
      }
      SlotsCount(Slots(), window, piFill, value);
      DebounceExact(Newest(window, PI_WINDOW), value);
      state := StateOf(count, correct);
    }

    method WriteSlot(pos: nat, pi: Word, clean: bool)
      requires piBuffer.Length == PI_WINDOW && piErrorBuffer.Length == PI_WINDOW / 8 && pos < PI_WINDOW
      modifies piBuffer, piErrorBuffer
      ensures Slots() == old(Slots())[pos := Reading(pi, clean)]
    {
      piBuffer[pos] := pi;
      var errPos, errBit := pos / 8, pos % 8;
      ghost var before := piErrorBuffer[..];
      var marks := piErrorBuffer[errPos];
      BitsFit(marks, errBit, !clean, 8);
      assert Pow2(8) == 0x100;
      piErrorBuffer[errPos] := WithBit(marks, errBit, !clean);
      forall k | 0 <= k < PI_WINDOW
        ensures BitAt(piErrorBuffer[k / 8], k % 8) == if k == pos then !clean else BitAt(before[k / 8], k % 8)
      {
        BitsApart(marks, errBit, !clean, k % 8);
      }
    }

    /** Put a reading in the next slot of the ring. */
    method Record(pi: Word, clean: bool)
      requires Valid()
      modifies this`piFill, this`piPos, this`window, piBuffer, piErrorBuffer
      ensures Valid() && window == old(window) + [Reading(pi, clean)]
    {
      hide Holds, InSlots;
      NextSlot(|window|);
      ghost var next := window + [Reading(pi, clean)];
      SlotWritten(Slots(), window, Reading(pi, clean));
      WriteSlot((piPos + 1) % PI_WINDOW, pi, clean);
      assert InSlots(Slots(), next);
      piPos := (piPos + 1) % PI_WINDOW;
      if piFill < PI_WINDOW {
        piFill := piFill + 1;
      }
      window := next;
    }

    method QueueRds(line: RdsLine)
      requires Valid()
      modifies this`rdsQueue, this`rdsLog
      ensures Valid() && rdsLog == old(rdsLog) + [line]
    {
      hide InSlots, Enqueue, Holds;
      EnqueueHolds(rdsQueue, rdsLog, line, MAX_RDS_QUEUE);
      rdsQueue := Enqueue(rdsQueue, line, MAX_RDS_QUEUE);
      rdsLog := rdsLog + [line];
    }

    /** Take in one group. */
    method UpdateRds(a: Word, b: Word, c: Word, d: Word, errors: Byte)
      requires Valid()
      modifies this, piBuffer, piErrorBuffer
      ensures Valid()
      ensures window == old(window) + [Reading(a, errors / 64 % 4 == 0)]
      ensures rdsLog == old(rdsLog)
                        + (if errors / 64 % 4 != 3 && Confirmed(Newest(window, 64), a)
                           then [PiLine(a, errors / 64 % 4)] else [])
                        + (if errors / 16 % 4 == 0 then [GroupLine(b, c, d, errors)] else [])
      ensures rdsLog == old(rdsLog) + LinesFor(window, a, b, c, d, errors)
      ensures var newest := Newest(window, 64);
              && piLastState == StateOf(Copies(newest, a), CleanCopies(newest, a))
              && piLastValue == if errors / 64 % 4 != 3 && Confirmed(newest, a) then a else old(piLastValue)
      ensures frequency == old(frequency) && scanQueue == old(scanQueue) && scanLog == old(scanLog)
    {
      hide InSlots, Enqueue, Holds, Confirmed;
      var aErrors, bErrors := ErrorsOf(errors, 0), ErrorsOf(errors, 1);
      Record(a, aErrors == 0);
      var state := EvaluatePiState(a);
      if aErrors != 3 && state <= 1 {
        QueueRds(PiLine(a, aErrors));
        piLastValue := a;
      }
      if bErrors == 0 {
        QueueRds(GroupLine(b, c, d, errors));
      }
      piLastState := state;
    }

    /** The tuner has been set to a frequency. */
    method SetFrequencyState(freqHz: nat)
      requires Valid()
      modifies this, piBuffer, piErrorBuffer
      ensures Valid()
      ensures window == if freqHz != 0 && freqHz != old(frequency) then [] else old(window)
      ensures frequency == if freqHz == 0 then old(frequency) else freqHz
      ensures piLastValue == if freqHz != 0 && freqHz != old(frequency) then NO_PI else old(piLastValue)
      ensures rdsQueue == old(rdsQueue) && rdsLog == old(rdsLog)
      ensures scanQueue == old(scanQueue) && scanLog == old(scanLog)
    {
      hide Holds;
      if freqHz == 0 {
        return;
      }
      if freqHz != frequency {
        piFill, piPos, piLastState, piLastValue := 0, PI_WINDOW - 1, INVALID, NO_PI;
        forall k | 0 <= k < piBuffer.Length { piBuffer[k] := 0; }
        forall k | 0 <= k < piErrorBuffer.Length { piErrorBuffer[k] := 0; }
        window := [];
      }
      frequency := freqHz;
    }

    /** A client asks for a frequency in Hz; None stands for an argument that does not parse. */
    method TuneCommand(freqHz: Option<nat>) returns (answer: bool)
      requires Valid()
      modifies this`frequency
      ensures Valid()
      ensures answer <==> freqHz.Some? && 64_000_000 <= freqHz.value <= 108_000_000
      ensures frequency == if answer then freqHz.value else old(frequency)
    {
      hide Holds, InSlots;
      if freqHz.None? || !(64_000_000 <= freqHz.value <= 108_000_000) {
        return false;
      }
      frequency := freqHz.value;
      return true;
    }

    method PushScanLine(line: string)
      requires Valid()
      modifies this`scanQueue, this`scanLog
      ensures Valid()
      ensures scanLog == if line == "" then old(scanLog) else old(scanLog) + ["U" + line]
    {
      hide InSlots, Enqueue, Holds;
      if line == "" {
        return;
      }
      EnqueueHolds(scanQueue, scanLog, "U" + line, MAX_SCAN_QUEUE);
      scanQueue := Enqueue(scanQueue, "U" + line, MAX_SCAN_QUEUE);
      scanLog := scanLog + ["U" + line];
    }
  }

  /** A retune that a client asked for does not reset the window: the command has already stored the
      frequency by the time the tuner is set to it. A retune from elsewhere does, unless the
      frequency is the one stored. */
  method RetuneOnRequest(server: XdrServer, freqHz: nat)
    requires server.Valid() && 64_000_000 <= freqHz <= 108_000_000
    modifies server, server.piBuffer, server.piErrorBuffer
    ensures server.Valid() && server.frequency == freqHz
    ensures server.window == old(server.window) && server.piLastValue == old(server.piLastValue)
  {
    var answer := server.TuneCommand(Some(freqHz));
    server.SetFrequencyState(freqHz);
  }

  /** One connected client. */
  class Session {
    var lastRds: nat
    var lastScan: nat

    ghost predicate Valid(server: XdrServer)
      reads this, server
    {
      lastRds <= |server.rdsLog| && lastScan <= |server.scanLog|
    }

    /** A client starts after whatever is queued already. */
    constructor (server: XdrServer)
      requires server.Valid()
      ensures Valid(server)
      ensures lastRds == |server.rdsLog| && lastScan == |server.scanLog|
    {
      hide InSlots;
      lastRds, lastScan := JoinCursor(server.rdsQueue), JoinCursor(server.scanQueue);
      new;
      PollGivesFresh(server.rdsQueue, server.rdsLog, 0, MAX_RDS_QUEUE);
      PollGivesFresh(server.scanQueue, server.scanLog, 0, MAX_SCAN_QUEUE);
    }

    /** Collect what is new to this client, without changing the server. */
    method Poll(server: XdrServer) returns (rds: seq<Entry<RdsLine>>, scan: seq<Entry<string>>)
      requires server.Valid() && Valid(server)
      modifies this
      ensures server.Valid() && Valid(server)
      ensures rds == Fresh(server.rdsLog, old(lastRds), 256) && lastRds == |server.rdsLog|
      ensures scan == Fresh(server.scanLog, old(lastScan), 8) && lastScan == |server.scanLog|
    {
      hide InSlots, Fresh, Holds;
      rds, lastRds := PollQueue(server.rdsQueue, server.rdsLog, lastRds, MAX_RDS_QUEUE);
      scan, lastScan := PollQueue(server.scanQueue, server.scanLog, lastScan, MAX_SCAN_QUEUE);
    }
  }
}
