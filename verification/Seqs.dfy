/** Suffixes, counts and sums of sequences. */
module Seqs {

  /** The newest n items, or all of them if there are fewer. */
  function Newest<T>(s: seq<T>, n: nat): (r: seq<T>)
    ensures |r| == if |s| <= n then |s| else n
  {
    if |s| <= n then s else s[|s| - n..]
  }

  /** Counted from the end, the newest items are those of the whole. */
  lemma NewestFromEnd<T>(s: seq<T>, n: nat, i: nat)
    requires i < n && i < |s|
    ensures i < |Newest(s, n)| && Newest(s, n)[|Newest(s, n)| - 1 - i] == s[|s| - 1 - i]
  {
  }

  /** Dropping all but the newest early or late makes no difference. */
  lemma NewestOfNewest<T>(s: seq<T>, t: seq<T>, n: nat)
    ensures Newest(Newest(s, n) + t, n) == Newest(s + t, n)
  {
  }

  function Count(s: seq<bool>): nat {
    if s == [] then 0 else Count(s[..|s| - 1]) + if s[|s| - 1] then 1 else 0
  }

  lemma CountPush(s: seq<bool>, b: bool)
    ensures Count(s + [b]) == Count(s) + if b then 1 else 0
  {
    assert (s + [b])[..|s|] == s;
  }

  lemma {:induction false} CountConcat(s: seq<bool>, t: seq<bool>)
    ensures Count(s + t) == Count(s) + Count(t)
  {
    if t == [] {
      assert s + t == s;
    } else {
      CountConcat(s, t[..|t| - 1]);
      assert (s + t)[..|s + t| - 1] == s + t[..|t| - 1];
    }
  }

  /** One more item raises the count among the newest by at most one. */
  lemma CountNewestPush(s: seq<bool>, b: bool, n: nat)
    ensures Count(Newest(s + [b], n)) <= Count(Newest(s, n)) + 1
  {
    hide Count;
    if n == 0 {
      assert Newest(s + [b], 0) == [] == Newest(s, 0);
    } else if |s| < n {
      assert Newest(s + [b], n) == s + [b] && Newest(s, n) == s;
      CountPush(s, b);
    } else {
      var oldest, kept := s[|s| - n..|s| - n + 1], s[|s| - n + 1..];
      NewestMoves(s, b, n);
      CountPush(kept, b);
      CountConcat(oldest, kept);
    }
  }

  /** Pushing onto a full window drops its oldest item. */
  lemma NewestMoves(s: seq<bool>, b: bool, n: nat)
    requires 0 < n <= |s|
    ensures var kept := s[|s| - n + 1..];
            && Newest(s + [b], n) == kept + [b]
            && Newest(s, n) == s[|s| - n..|s| - n + 1] + kept
  {
    assert (s + [b])[|s| + 1 - n..] == s[|s| - n + 1..] + [b];
    assert s[|s| - n..] == s[|s| - n..|s| - n + 1] + s[|s| - n + 1..];
  }

  function Sum(s: seq<int>): int {
    if s == [] then 0 else Sum(s[..|s| - 1]) + s[|s| - 1]
  }

  lemma SumPush(s: seq<int>, x: int)
    ensures Sum(s + [x]) == Sum(s) + x
  {
    assert (s + [x])[..|s|] == s;
  }

  lemma {:induction false} SumConcat(s: seq<int>, t: seq<int>)
    ensures Sum(s + t) == Sum(s) + Sum(t)
  {
    if t == [] {
      assert s + t == s;
    } else {
      SumConcat(s, t[..|t| - 1]);
      assert (s + t)[..|s + t| - 1] == s + t[..|t| - 1];
    }
  }

  function Zeros(n: nat): (s: seq<int>)
    ensures |s| == n && forall i :: 0 <= i < n ==> s[i] == 0
  {
    seq(n, _ => 0)
  }

  lemma {:induction false} SumOfZeros(n: nat)
    ensures Sum(Zeros(n)) == 0
  {
    if n > 0 {
      SumOfZeros(n - 1);
      assert Zeros(n)[..n - 1] == Zeros(n - 1);
    }
  }

  /** Flags as the numbers a sum is taken of. */
  function Numbers(flags: seq<bool>): (s: seq<int>)
    ensures |s| == |flags|
    ensures forall i :: 0 <= i < |s| ==> s[i] == if flags[i] then 1 else 0
  {
    seq(|flags|, i requires 0 <= i < |flags| => if flags[i] then 1 else 0)
  }

  lemma {:induction false} SumCounts(flags: seq<bool>)
    ensures Sum(Numbers(flags)) == Count(flags)
  {
    if flags != [] {
      var n := |flags| - 1;
      SumCounts(flags[..n]);
      assert Numbers(flags)[..n] == Numbers(flags[..n]);
    }
  }

  lemma NewestNumbers(flags: seq<bool>, n: nat)
    ensures Newest(Numbers(flags), n) == Numbers(Newest(flags, n))
  {
  }
}
