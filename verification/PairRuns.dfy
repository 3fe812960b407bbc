/** Whole histories of the device and the speaker ring: pairs stay pairs, and what becomes of each. */
module PairRuns {
  import opened Arithmetic
  import opened DeviceRings
  import opened RingBuffers
  import opened Seqs

  datatype Ring = Device | Speaker

  /** What happens to a ring: whole pairs come in, at most so many pairs are asked for, in low-latency
      mode or not, or the ring is emptied. */
  datatype Event<T> = Put(pairs: seq<(T, T)>) | Get(count: nat, lowLatency: bool) | Flush

  // ---------------------------------------------------------------------------
  // The ring, item by item
  // ---------------------------------------------------------------------------

  /** What the ring holds and all it has handed out. */
  datatype Items<T> = Items(queue: seq<T>, delivered: seq<T>)

  function Hand<T>(s: Items<T>, taken: Taken<T>): Items<T> {
    Items(taken.left, s.delivered + taken.bytes)
  }

  /** One event, as the methods of the ring specify it. */
  function After<T>(ring: Ring, s: Items<T>, e: Event<T>, capacity: nat): Items<T> {
    match e
    case Flush => s.(queue := [])
    case Put(pairs) =>
      if ring == Device then s.(queue := Newest(s.queue + Interleave(pairs), capacity))
      else s.(queue := PushAll(s.queue, Stereo(Firsts(pairs), Seconds(pairs)), capacity))
    case Get(count, lowLatency) =>
      if ring == Speaker then
        var n := Min(2 * count, |s.queue|);
        Hand(s, Taken(s.queue[..n], s.queue[n..]))
      else if count == 0 then s
      else Hand(s, Take(s.queue, Min(count * 2, MAX_READ_BYTES), lowLatency))
  }

  function Run<T>(ring: Ring, events: seq<Event<T>>, capacity: nat): Items<T> {
    if events == [] then Items([], [])
    else After(ring, Run(ring, events[..|events| - 1], capacity), events[|events| - 1], capacity)
  }

  function Firsts<T>(pairs: seq<(T, T)>): (s: seq<T>)
    ensures |s| == |pairs|
  {
    seq(|pairs|, i requires 0 <= i < |pairs| => pairs[i].0)
  }

  function Seconds<T>(pairs: seq<(T, T)>): (s: seq<T>)
    ensures |s| == |pairs|
  {
    seq(|pairs|, i requires 0 <= i < |pairs| => pairs[i].1)
  }

  // ---------------------------------------------------------------------------
  // The fate of every pair
  // ---------------------------------------------------------------------------

  /** All pairs put in so far, and of those that have left the ring, whether they were delivered or
      dropped. The others are still in it. */
  datatype Ledger<T> = Ledger(log: seq<(T, T)>, delivered: seq<bool>)
  {
    predicate Valid(capacity: nat) {
      |delivered| <= |log| <= |delivered| + capacity
    }

    function Waiting(): seq<(T, T)>
      requires |delivered| <= |log|
    {
      log[|delivered|..]
    }

    /** The oldest so many pairs leave, all with the same fate. */
    function Leave(count: nat, fate: bool): Ledger<T> {
      Ledger(log, delivered + seq(count, _ => fate))
    }
  }

  /** The pairs asked for in one read of the device are limited, and the speaker is never asked to
      skip any. */
  function Asked<T>(ring: Ring, e: Event<T>): Event<T> {
    if !e.Get? then e
    else if ring == Device then e.(count := Min(e.count, 524_288))
    else e.(lowLatency := false)
  }

  /** The oldest pairs make room for new ones; a read takes the oldest, or in low-latency mode drops
      all but the newest it asks for and takes those; emptying drops all. */
  function Record<T>(l: Ledger<T>, e: Event<T>, capacity: nat): (r: Ledger<T>)
    requires l.Valid(capacity)
    ensures r.Valid(capacity)
  {
    var waiting := |l.log| - |l.delivered|;
    match e
    case Flush => l.Leave(waiting, false)
    case Put(pairs) =>
      var total := waiting + |pairs|;
      Ledger(l.log + pairs, l.delivered).Leave(if total > capacity then total - capacity else 0, false)
    case Get(count, lowLatency) =>
      if count == 0 then l
      else if waiting <= count then l.Leave(waiting, true)
      else if lowLatency then l.Leave(waiting - count, false).Leave(count, true)
      else l.Leave(count, true)
  }

  function Fates<T>(ring: Ring, events: seq<Event<T>>, capacity: nat): (l: Ledger<T>)
    ensures l.Valid(capacity)
  {
    if events == [] then Ledger([], [])
    else Record(Fates(ring, events[..|events| - 1], capacity), Asked(ring, events[|events| - 1]), capacity)
  }

  /** The pairs marked. */
  function Marked<T>(log: seq<(T, T)>, marks: seq<bool>): seq<(T, T)>
    requires |marks| <= |log|
  {
    if marks == [] then []
    else
      var n := |marks| - 1;
      Marked(log, marks[..n]) + if marks[n] then [log[n]] else []
  }

  lemma {:induction false} MarkedLonger<T>(log: seq<(T, T)>, more: seq<(T, T)>, marks: seq<bool>)
    requires |marks| <= |log|
    ensures Marked(log + more, marks) == Marked(log, marks)
  {
    if marks != [] {
      MarkedLonger(log, more, marks[..|marks| - 1]);
    }
  }

  lemma {:induction false} MarkedMore<T>(log: seq<(T, T)>, marks: seq<bool>, count: nat, fate: bool)
    requires |marks| + count <= |log|
    ensures Marked(log, marks + seq(count, _ => fate)) ==
            Marked(log, marks) + if fate then log[|marks|..|marks| + count] else []
  {
    var all := marks + seq(count, _ => fate);
    if count == 0 {
      assert all == marks;
    } else {
      MarkedMore(log, marks, count - 1, fate);
      assert all[..|all| - 1] == marks + seq(count - 1, _ => fate);
    }
  }

  /** The ring holds the waiting pairs, and has handed out those marked, item by item. */
  ghost predicate Agrees<T>(s: Items<T>, l: Ledger<T>) {
    && |l.delivered| <= |l.log|
    && s.queue == Interleave(l.Waiting())
    && s.delivered == Interleave(Marked(l.log, l.delivered))
  }

  /** Pairs leave from the head of the queue. */
  lemma LeaveAgrees<T>(s: Items<T>, l: Ledger<T>, count: nat, fate: bool)
    requires Agrees(s, l) && count <= |l.Waiting()|
    ensures Agrees(Items(Interleave(l.Waiting()[count..]),
                         s.delivered + if fate then Interleave(l.Waiting()[..count]) else []),
                   l.Leave(count, fate))
  {
    hide Interleave;
    MarkedMore(l.log, l.delivered, count, fate);
    var marked := Marked(l.log, l.delivered);
    assert l.log[|l.delivered|..|l.delivered| + count] == l.Waiting()[..count];
    InterleaveConcat(marked, l.Waiting()[..count]);
    assert l.Leave(count, fate).Waiting() == l.Waiting()[count..];
    assert marked + [] == marked;
  }

  lemma PutAgrees<T>(ring: Ring, s: Items<T>, l: Ledger<T>, pairs: seq<(T, T)>, n: nat)
    requires Agrees(s, l) && l.Valid(n)
    ensures Agrees(After(ring, s, Put(pairs), 2 * n), Record(l, Put(pairs), n))
  {
    hide Interleave, Marked, After, Newest;
    var all := Ledger(l.log + pairs, l.delivered);
    var total := |l.Waiting()| + |pairs|;
    var drop := if total > n then total - n else 0;
    MarkedLonger(l.log, pairs, l.delivered);
    assert all.Waiting() == l.Waiting() + pairs;
    LeaveAgrees(Items(Interleave(all.Waiting()), s.delivered), all, drop, false);
    assert s.delivered + [] == s.delivered;
    NewestBySlice(all.Waiting(), n, drop);
    PutKeepsNewest(ring, s, l.Waiting(), pairs, n);
  }

  lemma NewestBySlice<T>(s: seq<T>, n: nat, drop: nat)
    requires drop == if |s| > n then |s| - n else 0
    ensures s[drop..] == Newest(s, n)
  {
  }

  lemma PutKeepsNewest<T>(ring: Ring, s: Items<T>, waiting: seq<(T, T)>, pairs: seq<(T, T)>, n: nat)
    requires s.queue == Interleave(waiting) && |waiting| <= n
    ensures After(ring, s, Put(pairs), 2 * n) == s.(queue := Interleave(Newest(waiting + pairs, n)))
  {
    hide Interleave, PushAll, Newest;
    if ring == Device {
      PairsKept(waiting, pairs, n);
    } else {
      assert Zip(Firsts(pairs), Seconds(pairs)) == pairs;
      SpeakerPairsKept(waiting, Firsts(pairs), Seconds(pairs), n);
    }
  }

  lemma FlushAgrees<T>(ring: Ring, s: Items<T>, l: Ledger<T>, n: nat)
    requires Agrees(s, l) && l.Valid(n)
    ensures Agrees(After(ring, s, Flush, 2 * n), Record(l, Flush, n))
  {
    LeaveAgrees(s, l, |l.Waiting()|, false);
    assert l.Waiting()[|l.Waiting()|..] == [];
    assert s.delivered + [] == s.delivered;
  }

  lemma NewestLeave<T>(s: Items<T>, l: Ledger<T>, count: nat)
    requires Agrees(s, l) && count < |l.Waiting()|
    ensures Agrees(Items([], s.delivered + Interleave(Newest(l.Waiting(), count))),
                   l.Leave(|l.Waiting()| - count, false).Leave(count, true))
  {
    hide Interleave, Marked;
    var drop := |l.Waiting()| - count;
    var rest := l.Leave(drop, false);
    LeaveAgrees(s, l, drop, false);
    assert s.delivered + [] == s.delivered;
    assert rest.Waiting() == l.Waiting()[drop..] == Newest(l.Waiting(), count);
    LeaveAgrees(Items(Interleave(rest.Waiting()), s.delivered), rest, count, true);
    assert rest.Waiting()[count..] == [] && rest.Waiting()[..count] == rest.Waiting();
    assert |Interleave<T>([])| == 0;
  }

  lemma OldestLeave<T>(s: Items<T>, l: Ledger<T>, count: nat)
    requires Agrees(s, l)
    ensures var k := Min(|l.Waiting()|, count);
            k <= |l.Waiting()|
            && Agrees(Items(Interleave(l.Waiting()[k..]), s.delivered + Interleave(l.Waiting()[..k])),
                      l.Leave(k, true))
  {
    hide Interleave, Marked;
    LeaveAgrees(s, l, Min(|l.Waiting()|, count), true);
  }

  lemma GetAgrees<T>(ring: Ring, s: Items<T>, l: Ledger<T>, e: Event<T>, n: nat)
    requires Agrees(s, l) && l.Valid(n) && e.Get?
    ensures Agrees(After(ring, s, e, 2 * n), Record(l, Asked(ring, e), n))
  {
    hide Interleave, Take, Agrees;
    var waiting := l.Waiting();
    var count := Asked(ring, e).count;
    assert s.queue == Interleave(waiting) by { AgreeingQueue(s, l); }
    if ring == Speaker || !e.lowLatency || |waiting| <= count {
      OldestLeave(s, l, count);
      if ring == Speaker {
        FrontPairs(waiting, count);
        NoneLeave(l);
      } else {
        ReadsTakePairs(waiting, count, e.lowLatency);
      }
    } else if e.count > 0 {
      LowLatencyTakesNewest(waiting, count);
      NewestLeave(s, l, count);
    }
  }

  lemma AgreeingQueue<T>(s: Items<T>, l: Ledger<T>)
    requires Agrees(s, l)
    ensures s.queue == Interleave(l.Waiting())
  {
  }

  lemma NoneLeave<T>(l: Ledger<T>)
    ensures l.Leave(0, true) == l
  {
  }

  /** After any history of whole-pair events, a ring of even capacity holds exactly the pairs that
      are waiting, so that its head is the first half of one, and has handed out exactly the pairs
      marked as delivered, each once, whole and in the order in which they came in. All others that
      have left were dropped. */
  lemma {:induction false} PairsNeverTorn<T>(ring: Ring, events: seq<Event<T>>, n: nat)
    ensures Agrees(Run(ring, events, 2 * n), Fates(ring, events, n))
  {
    hide Agrees, After, Record;
    if events == [] {
      NothingAgrees<T>();
    } else {
      var before, e := events[..|events| - 1], events[|events| - 1];
      PairsNeverTorn(ring, before, n);
      match e {
        case Put(pairs) => PutAgrees(ring, Run(ring, before, 2 * n), Fates(ring, before, n), pairs, n);
        case Get(_, _) => GetAgrees(ring, Run(ring, before, 2 * n), Fates(ring, before, n), e, n);
        case Flush => FlushAgrees(ring, Run(ring, before, 2 * n), Fates(ring, before, n), n);
      }
    }
  }

  lemma NothingAgrees<T>()
    ensures Agrees<T>(Items([], []), Ledger([], []))
  {
  }
}
