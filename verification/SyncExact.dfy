/** Exactly when sync is gained, in terms of the stream alone. */
module SyncExact {
  import opened Acquisition
  import opened BlockCode
  import opened ColdStart
  import opened Seqs
  import opened SyncMachine

  /** For pulses in order and less than 2^32 bits apart the counters tell the truth. */
  lemma TrueRhythm(later: Pulse, earlier: Pulse)
    requires earlier.offset != Invalid ==>
               earlier.position < later.position < earlier.position + COUNTER_SIZE
    ensures CouldFollow(later, earlier) <==> Genuine(later, earlier)
  {
    if earlier.offset != Invalid {
      RhythmExact(later, earlier);
    }
  }

  /** Some two earlier pulses lead up to the newest, as far as the counters tell. */
  ghost predicate ChainIn(pulses: Pulses) {
    exists i: nat, j: nat :: i < j < 3 && CouldFollow(pulses[3], pulses[j]) && CouldFollow(pulses[j], pulses[i])
  }

  lemma SequenceByChain(pulses: Pulses)
    ensures SequenceFound(pulses) <==> ChainIn(pulses)
  {
    hide CouldFollow;
    if SequenceFound(pulses) {
      var i, j := FindSequence(pulses);
    }
  }

  lemma BufferedBefore(useFec: bool, log: seq<bool>, n: nat)
    requires n <= |log|
    ensures var q := LinkAt(useFec, log, n).pulses;
            && (forall i | 0 <= i < 4 && q[i].offset != Invalid :: q[i].position <= n)
            && (forall i, j | 0 <= i < j < 4 && q[i].offset != Invalid ::
                  q[j].offset != Invalid && q[i].position < q[j].position)
  {
    hide Receive, Fresh, OffsetAt;
    AlwaysConsistent(useFec, log[..n]);
  }

  /** Out of sync, a window gives sync if and only if it is a valid block and two of the three pulses
      buffered last lead up to it: each one to six whole blocks before the next, in any mix, with
      block numbers as far apart. */
  lemma SyncGainedExactly(useFec: bool, log: seq<bool>, n: nat)
    requires n < |log| && !LinkAt(useFec, log, n).inSync
    requires YoungAt(LinkAt(useFec, log, n).pulses, n + 1)
    ensures var q, p := LinkAt(useFec, log, n).pulses, PulseAt(log, n + 1);
            LinkAt(useFec, log, n + 1).inSync <==>
            && p.offset != Invalid
            && exists i: nat, j: nat :: 1 <= i < j < 4 && Genuine(p, q[j]) && Genuine(q[j], q[i])
  {
    hide LinkAt, OffsetAt, CouldFollow, Genuine, SequenceFound;
    var q, p := LinkAt(useFec, log, n).pulses, PulseAt(log, n + 1);
    SearchAt(useFec, log, n);
    BufferedBefore(useFec, log, n);
    if p.offset != Invalid {
      var pulses := PushPulse(q, p);
      SequenceByChain(pulses);
      forall j: nat | 1 <= j < 4 ensures CouldFollow(p, q[j]) <==> Genuine(p, q[j]) {
        assert q[j] in q;
        TrueRhythm(p, q[j]);
      }
      forall i: nat, j: nat | 1 <= i < j < 4 ensures CouldFollow(q[j], q[i]) <==> Genuine(q[j], q[i]) {
        assert q[i] in q;
        TrueRhythm(q[j], q[i]);
      }
      ChainShifts(pulses, q, p);
    }
  }

  lemma ChainShifts(pulses: Pulses, q: Pulses, p: Pulse)
    requires pulses == PushPulse(q, p)
    requires forall j: nat | 1 <= j < 4 :: CouldFollow(p, q[j]) <==> Genuine(p, q[j])
    requires forall i: nat, j: nat | 1 <= i < j < 4 :: CouldFollow(q[j], q[i]) <==> Genuine(q[j], q[i])
    ensures ChainIn(pulses) <==> exists i: nat, j: nat :: 1 <= i < j < 4 && Genuine(p, q[j]) && Genuine(q[j], q[i])
  {
    hide CouldFollow, Genuine;
    if ChainIn(pulses) {
      var i: nat, j: nat :| i < j < 3 && CouldFollow(pulses[3], pulses[j]) && CouldFollow(pulses[j], pulses[i]);
      assert pulses[j] == q[j + 1] && pulses[i] == q[i + 1];
      assert Genuine(p, q[j + 1]) && Genuine(q[j + 1], q[i + 1]);
    }
    if i: nat, j: nat :| 1 <= i < j < 4 && Genuine(p, q[j]) && Genuine(q[j], q[i]) {
      assert pulses[j - 1] == q[j] && pulses[i - 1] == q[i];
      assert CouldFollow(pulses[3], pulses[j - 1]) && CouldFollow(pulses[j - 1], pulses[i - 1]);
    }
  }

  // ---------------------------------------------------------------------------
  // From the stream alone
  // ---------------------------------------------------------------------------

  /** The valid windows that end after position u and up to n. */
  function Seen(log: seq<bool>, u: nat, n: nat): seq<Pulse>
    requires n <= |log|
    decreases n
  {
    if n <= u then []
    else Seen(log, u, n - 1) + if OffsetAt(log, n) != Invalid then [PulseAt(log, n)] else []
  }

  /** Valid windows after u and up to n, in order. */
  ghost predicate InOrder(s: seq<Pulse>, u: nat, n: nat) {
    && (forall i :: 0 <= i < |s| ==> s[i].offset != Invalid && u < s[i].position <= n)
    && (forall i, j :: 0 <= i < j < |s| ==> s[i].position < s[j].position)
  }

  lemma {:induction false} SeenInOrder(log: seq<bool>, u: nat, n: nat)
    requires u <= n <= |log|
    ensures InOrder(Seen(log, u, n), u, n)
    decreases n
  {
    hide OffsetAt, InOrder;
    if u == n {
      NothingSeen(log, u);
      assert InOrder([], u, n) by { NoneInOrder(u, n); }
    } else {
      SeenInOrder(log, u, n - 1);
      OneMoreSeen(log, u, n);
      OneMoreInOrder(Seen(log, u, n - 1), PulseAt(log, n), u, n);
    }
  }

  lemma NoneInOrder(u: nat, n: nat)
    ensures InOrder([], u, n)
  {
  }

  lemma OneMoreSeen(log: seq<bool>, u: nat, n: nat)
    requires u < n <= |log|
    ensures Seen(log, u, n) ==
            if OffsetAt(log, n) != Invalid then Seen(log, u, n - 1) + [PulseAt(log, n)] else Seen(log, u, n - 1)
  {
    hide OffsetAt;
    assert Seen(log, u, n - 1) + [] == Seen(log, u, n - 1);
  }

  lemma OneMoreInOrder(s: seq<Pulse>, p: Pulse, u: nat, n: nat)
    requires u < n && InOrder(s, u, n - 1) && p.position == n
    ensures InOrder(s, u, n)
    ensures p.offset != Invalid ==> InOrder(s + [p], u, n)
  {
  }

  /** Out of sync, the buffer holds the four windows seen last. */
  lemma {:induction false} BufferHoldsNewest(useFec: bool, log: seq<bool>, u: nat, n: nat)
    requires u <= n <= |log| && forall k | u <= k <= n :: !LinkAt(useFec, log, k).inSync
    ensures LinkAt(useFec, log, n).pulses == Newest(LinkAt(useFec, log, u).pulses + Seen(log, u, n), 4)
    decreases n
  {
    hide LinkAt, OffsetAt, SequenceFound, Seen, Newest;
    var stale := LinkAt(useFec, log, u).pulses;
    if u == n {
      NothingSeen(log, u);
      assert stale + [] == stale;
      assert Newest(stale, 4) == stale by { AllNewest(stale); }
    } else {
      BufferHoldsNewest(useFec, log, u, n - 1);
      SearchAt(useFec, log, n - 1);
      OneMoreSeen(log, u, n);
      var seen := Seen(log, u, n - 1);
      if OffsetAt(log, n) != Invalid {
        assert stale + (seen + [PulseAt(log, n)]) == stale + seen + [PulseAt(log, n)];
        PushIsNewest(stale + seen, PulseAt(log, n));
      }
    }
  }

  lemma NothingSeen(log: seq<bool>, u: nat)
    requires u <= |log|
    ensures Seen(log, u, u) == []
  {
  }

  lemma AllNewest(pulses: Pulses)
    ensures Newest(pulses, 4) == pulses
  {
  }

  lemma PushIsNewest(all: seq<Pulse>, p: Pulse)
    requires |all| >= 4
    ensures PushPulse(Newest(all, 4), p) == Newest(all + [p], 4)
  {
  }

  /** Two of the three windows seen last lead up to a pulse. */
  ghost predicate LedUpTo(seen: seq<Pulse>, p: Pulse) {
    exists i, j :: 0 <= i < j < |seen| && |seen| - 3 <= i && Genuine(p, seen[j]) && Genuine(seen[j], seen[i])
  }

  /** When a receiver that is out of sync at u with nothing useful buffered is in sync again, as long
      as that takes less than 2^32 bits: with the first valid window that two of the three valid windows
      seen last lead up to. Lost and spurious blocks between them make no difference otherwise. */
  lemma SyncFromStream(useFec: bool, log: seq<bool>, u: nat, n: nat)
    requires u <= n < |log| && n + 1 < u + COUNTER_SIZE
    requires forall k | u <= k <= n :: !LinkAt(useFec, log, k).inSync
    requires OutOfSync(LinkAt(useFec, log, u), u, n + 1)
    ensures LinkAt(useFec, log, n + 1).inSync <==>
            OffsetAt(log, n + 1) != Invalid && LedUpTo(Seen(log, u, n), PulseAt(log, n + 1))
  {
    hide LinkAt, OffsetAt, CouldFollow, Genuine, SequenceFound, AllStale;
    var stale, seen := LinkAt(useFec, log, u).pulses, Seen(log, u, n);
    var q, p := LinkAt(useFec, log, n).pulses, PulseAt(log, n + 1);
    SearchAt(useFec, log, n);
    BufferHoldsNewest(useFec, log, u, n);
    SeenInOrder(log, u, n);
    NothingFollowsStale(stale, u, n + 1);
    if p.offset != Invalid {
      SequenceByChain(PushPulse(q, p));
      ChainAmongSeen(stale, seen, q, p, u, n + 1);
    }
  }

  lemma ChainAmongSeen(stale: Pulses, seen: seq<Pulse>, q: Pulses, p: Pulse, u: nat, n: nat)
    requires q == Newest(stale + seen, 4) && p.position == n && u < n < u + COUNTER_SIZE
    requires forall i :: 0 <= i < |seen| ==> seen[i].offset != Invalid && u < seen[i].position < n
    requires forall i, j :: 0 <= i < j < |seen| ==> seen[i].position < seen[j].position
    requires forall r: Pulse, i | 0 <= i < 4 && u < r.position <= n :: !CouldFollow(r, stale[i])
    ensures ChainIn(PushPulse(q, p)) <==> LedUpTo(seen, p)
  {
    hide CouldFollow, Genuine, Newest, LedUpTo, ChainIn;
    var m := |seen|;
    forall j | 0 <= j < m ensures CouldFollow(p, seen[j]) <==> Genuine(p, seen[j]) {
      TrueRhythm(p, seen[j]);
    }
    forall i, j | 0 <= i < j < m ensures CouldFollow(seen[j], seen[i]) <==> Genuine(seen[j], seen[i]) {
      TrueRhythm(seen[j], seen[i]);
    }
    PlacesInBuffer(stale, seen, q, p);
    if ChainIn(PushPulse(q, p)) {
      ChainIsSeen(stale, seen, PushPulse(q, p), p, u, n);
    }
    if LedUpTo(seen, p) {
      SeenIsChain(seen, PushPulse(q, p), p);
    }
  }

  /** Where the windows seen last lie in the buffer, and that all else in it is stale. */
  ghost predicate Placed(stale: Pulses, seen: seq<Pulse>, pulses: Pulses, p: Pulse) {
    && pulses[3] == p
    && forall k | 0 <= k < 3 ::
         if |seen| + k >= 3 then pulses[k] == seen[|seen| + k - 3] else pulses[k] == stale[|seen| + k + 1]
  }

  lemma PlacesInBuffer(stale: Pulses, seen: seq<Pulse>, q: Pulses, p: Pulse)
    requires q == Newest(stale + seen, 4)
    ensures Placed(stale, seen, PushPulse(q, p), p)
  {
    var all := stale + seen;
    assert forall k :: 0 <= k < 4 ==> q[k] == all[|seen| + k];
  }

  lemma ChainIsSeen(stale: Pulses, seen: seq<Pulse>, pulses: Pulses, p: Pulse, u: nat, n: nat)
    requires Placed(stale, seen, pulses, p) && p.position == n && u < n && ChainIn(pulses)
    requires forall i :: 0 <= i < |seen| ==> u < seen[i].position < n
    requires forall r: Pulse, i | 0 <= i < 4 && u < r.position <= n :: !CouldFollow(r, stale[i])
    requires forall j | 0 <= j < |seen| :: CouldFollow(p, seen[j]) ==> Genuine(p, seen[j])
    requires forall i, j | 0 <= i < j < |seen| :: CouldFollow(seen[j], seen[i]) ==> Genuine(seen[j], seen[i])
    ensures LedUpTo(seen, p)
  {
    hide CouldFollow, Genuine;
    var i: nat, j: nat :| i < j < 3 && CouldFollow(pulses[3], pulses[j]) && CouldFollow(pulses[j], pulses[i]);
    var m := |seen|;
    assert m + j >= 3;
    assert m + i >= 3;
    assert Genuine(p, seen[m + j - 3]) && Genuine(seen[m + j - 3], seen[m + i - 3]);
  }

  lemma SeenIsChain(seen: seq<Pulse>, pulses: Pulses, p: Pulse)
    requires pulses[3] == p && LedUpTo(seen, p)
    requires forall k | 0 <= k < 3 && |seen| + k >= 3 :: pulses[k] == seen[|seen| + k - 3]
    requires forall j | 0 <= j < |seen| :: Genuine(p, seen[j]) ==> CouldFollow(p, seen[j])
    requires forall i, j | 0 <= i < j < |seen| :: Genuine(seen[j], seen[i]) ==> CouldFollow(seen[j], seen[i])
    ensures ChainIn(pulses)
  {
    hide CouldFollow, Genuine;
    var m := |seen|;
    var i, j :| 0 <= i < j < m && m - 3 <= i && Genuine(p, seen[j]) && Genuine(seen[j], seen[i]);
    assert pulses[i - m + 3] == seen[i] && pulses[j - m + 3] == seen[j];
    assert CouldFollow(pulses[3], pulses[j - m + 3]) && CouldFollow(pulses[j - m + 3], pulses[i - m + 3]);
  }
}
