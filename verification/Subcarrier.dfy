/** From PSK symbols to data bits: biphase and differential decoding.
 *
 * Only the real part of a symbol plays a role, and it is a real number here.
 */
module Subcarrier {
  import opened Wrappers

  const CLOCK_HISTORY: nat := 128

  // ---------------------------------------------------------------------------
  // The decoders as machines
  // ---------------------------------------------------------------------------

  /** The previous symbol, the biphase amplitudes since the last clock decision, and the choice
      of symbol pairs: those that end at an even or at an odd count. */
  datatype Biphase = Biphase(previous: real, window: seq<real>, polarity: nat)

  const FRESH := Biphase(0.0, [], 0)

  function Abs(x: real): (r: real)
    ensures r >= 0.0
  {
    if x < 0.0 then -x else x
  }

  /** Half the difference of two consecutive symbols. */
  function Difference(previous: real, symbol: real): real {
    (symbol - previous) * 0.5
  }

  /** The sum of the items at even or at odd places. */
  function ParitySum(s: seq<real>, parity: nat): real {
    if s == [] then 0.0
    else ParitySum(s[..|s| - 1], parity) + if (|s| - 1) % 2 == parity then s[|s| - 1] else 0.0
  }

  /** The places with the stronger amplitudes are taken to end the pairs. */
  function Choose(window: seq<real>, polarity: nat): nat {
    if ParitySum(window, 0) > ParitySum(window, 1) then 0
    else if ParitySum(window, 1) > ParitySum(window, 0) then 1
    else polarity
  }

  function Next(s: Biphase, symbol: real): Biphase {
    var window := s.window + [Abs(Difference(s.previous, symbol))];
    if |window| == CLOCK_HISTORY then Biphase(symbol, [], Choose(window, s.polarity))
    else Biphase(symbol, window, s.polarity)
  }

  function Output(s: Biphase, symbol: real): Option<bool> {
    if |s.window| % 2 == s.polarity then Some(Difference(s.previous, symbol) >= 0.0) else None
  }

  /** The decoder after a run of symbols. */
  function Run(s: Biphase, symbols: seq<real>): Biphase {
    if symbols == [] then s
    else Next(Run(s, symbols[..|symbols| - 1]), symbols[|symbols| - 1])
  }

  /** The bits that come out on the way. */
  function Values(s: Biphase, symbols: seq<real>): seq<bool> {
    if symbols == [] then []
    else
      var before := symbols[..|symbols| - 1];
      Values(s, before) + Emitted(Output(Run(s, before), symbols[|symbols| - 1]))
  }

  function Emitted(output: Option<bool>): seq<bool> {
    if output.Some? then [output.value] else []
  }

  /** Differential decoding of a run of bits after a given one. */
  function DeltaDecode(previous: bool, bits: seq<bool>): (r: seq<bool>)
    ensures |r| == |bits|
  {
    seq(|bits|, i requires 0 <= i < |bits| =>
      bits[i] != if i == 0 then previous else bits[i - 1])
  }

  // ---------------------------------------------------------------------------
  // The decoders as objects
  // ---------------------------------------------------------------------------

  class BiphaseDecoder {
    var prevPskSymbol: real
    const clockHistory: array<real>
    var clock: nat
    var clockPolarity: nat

    ghost predicate Valid()
      reads this, clockHistory
    {
      clockHistory.Length == CLOCK_HISTORY && clock < CLOCK_HISTORY
    }

    ghost function State(): Biphase
      requires Valid()
      reads this, clockHistory
    {
      Biphase(prevPskSymbol, clockHistory[..clock], clockPolarity)
    }

    constructor ()
      ensures Valid() && State() == FRESH && fresh(clockHistory)
    {
      prevPskSymbol := 0.0;
      clockHistory := new real[CLOCK_HISTORY](_ => 0.0);
      clock := 0;
      clockPolarity := 0;
    }

    /** Take in one symbol; every other one ends a pair that gives a bit. */
    method Push(pskSymbol: real) returns (hasValue: bool, value: bool)
      requires Valid()
      modifies this, clockHistory
      ensures Valid() && State() == Next(old(State()), pskSymbol)
      ensures Output(old(State()), pskSymbol) == if hasValue then Some(value) else None
    {
      var biphaseSymbol := (pskSymbol - prevPskSymbol) * 0.5;
      value := biphaseSymbol >= 0.0;
      hasValue := clock % 2 == clockPolarity;
      prevPskSymbol := pskSymbol;

      ghost var window := clockHistory[..clock] + [Abs(biphaseSymbol)];
      clockHistory[clock] := Abs(biphaseSymbol);
      clock := clock + 1;
      assert clockHistory[..clock] == window;

      if clock == clockHistory.Length {
        var evenSum, oddSum := SumByParity();
        assert clockHistory[..] == window;
        if evenSum > oddSum {
          clockPolarity := 0;
        } else if oddSum > evenSum {
          clockPolarity := 1;
        }

        for i := 0 to clockHistory.Length
          modifies clockHistory
        {
          clockHistory[i] := 0.0;
        }
        clock := 0;
      }
    }

    method SumByParity() returns (evenSum: real, oddSum: real)
      requires clockHistory.Length == CLOCK_HISTORY
      ensures evenSum == ParitySum(clockHistory[..], 0)
      ensures oddSum == ParitySum(clockHistory[..], 1)
    {
      evenSum, oddSum := 0.0, 0.0;
      var i := 0;
      while i < clockHistory.Length
        invariant i % 2 == 0 && i <= clockHistory.Length
        invariant evenSum == ParitySum(clockHistory[..i], 0)
        invariant oddSum == ParitySum(clockHistory[..i], 1)
      {
        assert clockHistory[..i + 1][..i] == clockHistory[..i];
        assert clockHistory[..i + 2][..i + 1] == clockHistory[..i + 1];
        evenSum := evenSum + clockHistory[i];
        oddSum := oddSum + clockHistory[i + 1];
        i := i + 2;
      }
      assert clockHistory[..i] == clockHistory[..];
    }
  }

  class DeltaDecoder {
    var prevInput: bool

    constructor ()
      ensures !prevInput
    {
      prevInput := false;
    }

    method Decode(inputBit: bool) returns (outputBit: bool)
      modifies this
      ensures [outputBit] == DeltaDecode(old(prevInput), [inputBit]) && prevInput == inputBit
    {
      outputBit := inputBit != prevInput;
      prevInput := inputBit;
    }
  }
}
