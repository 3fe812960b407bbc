/** The sum of the newest numbers pushed, kept in a circular array. */
module RunningSums {
  import opened Seqs

  /** Overwriting the oldest item and moving on drops it and appends the new one. */
  lemma Rotate(h: seq<int>, p: nat, x: int)
    requires p < |h|
    ensures var h', p' := h[p := x], (p + 1) % |h|;
            h'[p'..] + h'[..p'] == (h[p..] + h[..p])[1..] + [x]
  {
    if p + 1 < |h| {
      assert (p + 1) % |h| == p + 1;
    } else {
      assert (p + 1) % |h| == 0;
    }
  }

  lemma Slide(ring: seq<int>, window: seq<int>, x: int)
    requires 0 < |ring| && |window| <= |ring| && ring == Zeros(|ring| - |window|) + window
    ensures var next := Newest(window + [x], |ring|);
            ring[1..] + [x] == Zeros(|ring| - |next|) + next
  {
  }

  class RunningSum {
    const history: array<int>
    var pointer: nat
    /** The newest numbers pushed since the last clear. */
    ghost var window: seq<int>

    /** Read from the pointer round to it, the array is the window after zeros. Where the pointer
        stands does not matter, which is why clearing may leave it where it is. */
    ghost predicate Valid()
      reads this, history
    {
      && pointer < history.Length
      && |window| <= history.Length
      && history[pointer..] + history[..pointer] == Zeros(history.Length - |window|) + window
    }

    constructor (size: nat)
      requires size > 0
      ensures Valid() && fresh(history) && history.Length == size && window == []
    {
      history := new int[size](_ => 0);
      pointer := 0;
      window := [];
      new;
      assert history[pointer..] + history[..pointer] == Zeros(size) + [];
    }

    method GetSum() returns (sum: int)
      requires Valid()
      ensures sum == Sum(window)
    {
      sum := 0;
      for i := 0 to history.Length
        invariant sum == Sum(history[..i])
      {
        SumPush(history[..i], history[i]);
        assert history[..i + 1] == history[..i] + [history[i]];
        sum := sum + history[i];
      }
      assert history[..history.Length] == history[..pointer] + history[pointer..];
      SumConcat(history[..pointer], history[pointer..]);
      SumConcat(history[pointer..], history[..pointer]);
      SumConcat(Zeros(history.Length - |window|), window);
      SumOfZeros(history.Length - |window|);
    }

    method Push(number: int)
      requires Valid()
      modifies this, history
      ensures Valid()
      ensures window == Newest(old(window) + [number], history.Length)
    {
      Rotate(history[..], pointer, number);
      Slide(history[pointer..] + history[..pointer], window, number);
      history[pointer] := number;
      pointer := (pointer + 1) % history.Length;
      window := Newest(window + [number], history.Length);
      assert history[..] == old(history[..])[old(pointer) := number];
      assert history[pointer..] + history[..pointer] == history[..][pointer..] + history[..][..pointer];
    }

    method Clear()
      requires Valid()
      modifies this, history
      ensures Valid() && window == []
    {
      for i := 0 to history.Length
        invariant pointer == old(pointer)
        invariant forall k :: 0 <= k < i ==> history[k] == 0
      {
        history[i] := 0;
      }
      window := [];
      assert history[pointer..] + history[..pointer] == Zeros(history.Length) + [];
    }
  }
}
