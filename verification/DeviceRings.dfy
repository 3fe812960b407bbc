/** The byte ring of the RTL-SDR device and the sample ring of the speaker output. */
module DeviceRings {
  import opened Arithmetic
  import opened RingBuffers
  import opened Seqs

  /** n without its lowest bit. */
  function Even(n: nat): (e: nat)
    ensures e <= n
  {
    n - n % 2
  }

  // ---------------------------------------------------------------------------
  // The device ring
  // ---------------------------------------------------------------------------

  const MAX_READ_BYTES: nat := 0x10_0000

  /** What one read takes from the queue: in low-latency mode the oldest whole pairs beyond the
      request are dropped first. */
  datatype Taken<T> = Taken(bytes: seq<T>, left: seq<T>)

  function Take<T>(queue: seq<T>, requested: nat, lowLatency: bool): Taken<T> {
    if lowLatency && |queue| > requested then TakeOldest(queue[Even(|queue| - requested)..], requested)
    else TakeOldest(queue, requested)
  }

  function TakeOldest<T>(queue: seq<T>, requested: nat): Taken<T> {
    var n := Even(Min(|queue|, requested));
    Taken(queue[..n], queue[n..])
  }

  /** What is dropped first, and what is then taken. */
  lemma TakenBySteps<T>(queue: seq<T>, requested: nat, lowLatency: bool)
    ensures var rest := if lowLatency && |queue| > requested then queue[Even(|queue| - requested)..] else queue;
            var n := Even(Min(|rest|, requested));
            && Take(queue, requested, lowLatency) == Taken(rest[..n], rest[n..])
            && (n == 0 ==> Take(queue, requested, lowLatency) == Taken([], rest))
            && (queue == [] ==> Take(queue, requested, lowLatency) == Taken([], []))
  {
  }

  /** A read of any queue: what is left out are whole pairs from the head, and only in low-latency mode
      and as few as leave at most one byte more than requested; what is taken are as many whole pairs as
      the rest and the request allow; and nothing else is lost. */
  lemma ReadsExactly<T>(queue: seq<T>, requested: nat, lowLatency: bool) returns (skipped: nat)
    ensures skipped <= |queue| && skipped % 2 == 0
    ensures !lowLatency || |queue| <= requested ==> skipped == 0
    ensures lowLatency && |queue| > requested ==> requested <= |queue| - skipped <= requested + 1
    ensures var taken := Take(queue, requested, lowLatency);
            && queue == queue[..skipped] + taken.bytes + taken.left
            && |taken.bytes| % 2 == 0
            && |taken.bytes| <= requested && (|taken.left| >= 2 ==> requested < |taken.bytes| + 2)
  {
    hide Even, Take, Min;
    skipped := if lowLatency && |queue| > requested then Even(|queue| - requested) else 0;
    ReadSizes(|queue|, requested, lowLatency);
    TakenAfterSkip(queue, requested, lowLatency, skipped);
    ThreeParts(queue, skipped, Even(Min(|queue| - skipped, requested)));
  }

  lemma TakenAfterSkip<T>(queue: seq<T>, requested: nat, lowLatency: bool, skipped: nat)
    requires skipped == if lowLatency && |queue| > requested then Even(|queue| - requested) else 0
    ensures skipped <= |queue|
    ensures var rest, n := queue[skipped..], Even(Min(|queue| - skipped, requested));
            n <= |rest| && Take(queue, requested, lowLatency) == Taken(rest[..n], rest[n..])
  {
    hide Even;
    if skipped == 0 {
      assert queue[0..] == queue;
    }
  }

  lemma ReadSizes(size: nat, requested: nat, lowLatency: bool)
    ensures var skipped := if lowLatency && size > requested then Even(size - requested) else 0;
            var n := Even(Min(size - skipped, requested));
            && skipped <= size && skipped % 2 == 0 && n % 2 == 0 && n <= requested && n <= size - skipped
            && (lowLatency && size > requested ==> requested <= size - skipped <= requested + 1)
            && (size - skipped - n >= 2 ==> requested < n + 2)
  {
    hide Even;
    if size > requested {
      EvenIs(size - requested);
    }
    var skipped := if lowLatency && size > requested then Even(size - requested) else 0;
    EvenIs(Min(size - skipped, requested));
  }

  lemma EvenIs(n: nat)
    ensures Even(n) % 2 == 0 && Even(n) <= n <= Even(n) + 1
  {
  }

  lemma ThreeParts<T>(s: seq<T>, i: nat, n: nat)
    requires i + n <= |s|
    ensures |s[i..]| == |s| - i && s == s[..i] + s[i..][..n] + s[i..][n..]
  {
  }

  /** Writing one item after the last: a full ring loses its oldest. */
  lemma PushedByte<T>(data: seq<T>, start: nat, size: nat, b: T)
    requires start < |data| && size <= |data|
    ensures var w := Wrap(start + size, |data|);
            && w < |data|
            && Newest(Contents(data, start, size) + [b], |data|) ==
               if size == |data| then Contents(data[w := b], Wrap(start + 1, |data|), size)
               else Contents(data[w := b], start, size + 1)
  {
    hide Contents;
    var w := Wrap(start + size, |data|);
    assert data[w := b] == data[..w] + [b] + data[w + 1..];
    if size == |data| {
      FrontDropped(data, start, size, 1);
      ChunkAppended(data, Wrap(start + 1, |data|), size - 1, [b]);
    } else {
      ChunkAppended(data, start, size, [b]);
    }
  }

  /** A ring that tells full from empty by a flag. */
  class RtlRing<T(0)> {
    const ring: array<T>
    var readPos: nat
    var writePos: nat
    var full: bool

    ghost predicate Valid()
      reads this
    {
      && ring.Length > 0 && readPos < ring.Length && writePos < ring.Length
      && (full ==> readPos == writePos)
    }

    function Available(): (n: nat)
      requires Valid()
      reads this
      ensures n <= ring.Length
      ensures writePos == Wrap(readPos + n, ring.Length)
    {
      if full then ring.Length
      else if writePos >= readPos then writePos - readPos
      else (ring.Length - readPos) + writePos
    }

    ghost function Queue(): seq<T>
      requires Valid()
      reads this, ring
    {
      Contents(ring[..], readPos, Available())
    }

    constructor (capacity: nat)
      requires capacity > 0
      ensures Valid() && Queue() == [] && ring.Length == capacity && fresh(ring)
    {
      ring := new T[capacity];
      readPos, writePos, full := 0, 0, false;
    }

    method PushByte(b: T)
      requires Valid()
      modifies this, ring
      ensures Valid() && Queue() == Newest(old(Queue()) + [b], ring.Length)
    {
      hide Contents;
      PushedByte(ring[..], readPos, Available(), b);
      ring[writePos] := b;
      assert ring[..] == old(ring[..])[writePos := b];
      writePos := writePos + 1;
      if writePos >= ring.Length {
        writePos := 0;
      }
      if full {
        readPos := readPos + 1;
        if readPos >= ring.Length {
          readPos := 0;
        }
      }
      full := writePos == readPos;
    }

    /** Bytes from the device, the oldest ones overwritten if there is no room. */
    method AsyncCallback(buf: array<T>, len: nat)
      requires Valid() && buf != ring && len <= buf.Length
      modifies this, ring
      ensures Valid() && Queue() == Newest(old(Queue()) + buf[..len], ring.Length)
    {
      hide Contents, Newest;
      ghost var queue := Queue();
      NewestNothing(queue, ring.Length);
      assert buf[..0] == [];
      for i := 0 to len
        invariant Valid() && Queue() == Newest(queue + buf[..i], ring.Length)
      {
        NewestOfNewest(queue + buf[..i], [buf[i]], ring.Length);
        assert queue + buf[..i + 1] == queue + buf[..i] + [buf[i]];
        PushByte(buf[i]);
      }
    }

    /** Leave out the oldest bytes. */
    method Skip(n: nat)
      requires Valid() && n <= Available()
      modifies this
      ensures Valid() && Queue() == old(Queue())[n..]
    {
      hide Contents;
      if n == 0 {
        assert Queue()[0..] == Queue();
        return;
      }
      FrontDropped(ring[..], readPos, Available(), n);
      ModIsWrap(readPos + n, ring.Length);
      readPos := (readPos + n) % ring.Length;
      full := false;
    }

    /** Read up to maxSamples I/Q pairs, once waiting for data is over. */
    method ReadIQ(maxSamples: nat, lowLatencyMode: bool) returns (bytes: seq<T>)
      requires Valid()
      modifies this
      ensures Valid()
      ensures maxSamples == 0 ==> bytes == [] && Queue() == old(Queue())
      ensures maxSamples > 0 ==>
                var taken := Take(old(Queue()), Min(maxSamples * 2, 1_048_576), lowLatencyMode);
                bytes == taken.bytes && Queue() == taken.left
    {
      hide Contents, Even, Take, TakeOldest;
      bytes := [];
      if maxSamples == 0 {
        return;
      }
      var requestedBytes := Min(maxSamples * 2, MAX_READ_BYTES);
      TakenBySteps(Queue(), requestedBytes, lowLatencyMode);
      var available := Available();
      if available == 0 {
        return;
      }
      if lowLatencyMode && available > requestedBytes {
        var drop := Even(available - requestedBytes);
        Skip(drop);
        available := Available();
      }
      var bytesToRead := Even(Min(available, requestedBytes));
      if bytesToRead == 0 {
        return;
      }
      bytes := CopyOut(bytesToRead);
      Skip(bytesToRead);
    }

    /** The oldest n bytes, in one or two stretches. */
    method CopyOut(n: nat) returns (bytes: seq<T>)
      requires Valid() && n <= Available()
      ensures bytes == Queue()[..n]
    {
      hide Contents;
      ghost var queue, data, size := Queue(), ring[..], Available();
      bytes := [];
      var remaining, pos := n, readPos;
      while remaining > 0
        invariant 0 <= remaining && |bytes| + remaining == n
        invariant pos == Wrap(readPos + |bytes|, ring.Length)
        invariant bytes == queue[..|bytes|]
      {
        var head := ring.Length - pos;
        var chunk := Min(remaining, head);
        FrontDropped(data, readPos, size, |bytes|);
        FrontChunk(data, pos, size - |bytes|, chunk);
        assert queue[|bytes|..][..chunk] == queue[|bytes|..|bytes| + chunk];
        bytes := bytes + ring[pos..pos + chunk];
        remaining := remaining - chunk;
        pos := pos + chunk;
        if pos >= ring.Length {
          pos := 0;
        }
      }
    }

    method FlushBuffers()
      requires Valid()
      modifies this
      ensures Valid() && Queue() == []
    {
      readPos := writePos;
      full := false;
    }
  }

  lemma NewestNothing<T>(queue: seq<T>, n: nat)
    requires |queue| <= n
    ensures Newest(queue + [], n) == queue
  {
    assert queue + [] == queue;
  }

  lemma EvenOfDouble(m: nat)
    ensures Even(2 * m) == 2 * m
  {
  }

  /** Reads take whole pairs from the head of a queue of whole pairs and leave whole pairs. The
      source always requests an even number of bytes. */
  lemma ReadsTakePairs<T>(pairs: seq<(T, T)>, m: nat, lowLatency: bool)
    requires lowLatency ==> |pairs| <= m
    ensures var n := Min(|pairs|, m);
            Take(Interleave(pairs), 2 * m, lowLatency) ==
            Taken(Interleave(pairs[..n]), Interleave(pairs[n..]))
  {
    hide Even, Interleave, Min;
    FrontPairs(pairs, m);
  }

  /** In low-latency mode, with more there than requested, they take the newest whole pairs. */
  lemma LowLatencyTakesNewest<T>(pairs: seq<(T, T)>, m: nat)
    requires |pairs| > m
    ensures Take(Interleave(pairs), 2 * m, true) == Taken(Interleave(Newest(pairs, m)), [])
  {
    hide Interleave, Take;
    var drop := |pairs| - m;
    InterleaveSplit(pairs, drop);
    TakeTail(Interleave(pairs), drop, m);
  }

  lemma TakeTail<T>(queue: seq<T>, drop: nat, m: nat)
    requires |queue| == 2 * (drop + m) && drop > 0
    ensures Take(queue, 2 * m, true) == Taken(queue[2 * drop..], [])
  {
    hide Even;
    EvenOfDouble(drop);
    EvenOfDouble(m);
    var tail := queue[2 * drop..];
    assert tail[..2 * m] == tail && tail[2 * m..] == [];
  }

  lemma FrontPairs<T>(pairs: seq<(T, T)>, m: nat)
    ensures var queue, n := Interleave(pairs), Min(|pairs|, m);
            && n <= |pairs|
            && Even(Min(|queue|, 2 * m)) == 2 * n
            && queue[..2 * n] == Interleave(pairs[..n]) && queue[2 * n..] == Interleave(pairs[n..])
  {
    var n := Min(|pairs|, m);
    EvenOfDouble(n);
    InterleaveSplit(pairs, n);
  }

  // ---------------------------------------------------------------------------
  // The speaker ring
  // ---------------------------------------------------------------------------

  const CHANNELS: nat := 2

  /** Left and right samples in turn. */
  function Stereo<T>(left: seq<T>, right: seq<T>): (s: seq<T>)
    requires |left| == |right|
    ensures |s| == 2 * |left|
  {
    if left == [] then []
    else Stereo(left[..|left| - 1], right[..|right| - 1]) + [left[|left| - 1], right[|right| - 1]]
  }

  /** The samples of a push that the ring starts with: those that cannot fit are not even written. */
  function FirstKept(numSamples: nat, capacity: nat): (start: nat)
    ensures start <= numSamples
  {
    if numSamples * CHANNELS >= capacity then (numSamples * CHANNELS - capacity) / CHANNELS else 0
  }

  /** Pushing keeps the newest samples, except that a ring of odd capacity is emptied by a push
      that would fill it. */
  function PushAll<T>(queue: seq<T>, samples: seq<T>, capacity: nat): seq<T> {
    if samples == [] || capacity == 0 then queue
    else if capacity % 2 == 1 && |samples| >= capacity then []
    else Newest(queue + samples, capacity)
  }

  class SpeakerRing<T(0)> {
    const ring: array<T>
    var readPos: nat
    var writePos: nat
    var size: nat

    ghost predicate Valid()
      reads this
    {
      && size <= ring.Length
      && (ring.Length > 0 ==> readPos < ring.Length && writePos == Wrap(readPos + size, ring.Length))
    }

    ghost function Queue(): seq<T>
      requires Valid()
      reads this, ring
    {
      if ring.Length == 0 then [] else Contents(ring[..], readPos, size)
    }

    constructor (capacity: nat)
      ensures Valid() && Queue() == [] && ring.Length == capacity && fresh(ring)
    {
      ring := new T[capacity];
      readPos, writePos, size := 0, 0, 0;
    }

    method ClearQueue()
      requires Valid()
      modifies this
      ensures Valid() && Queue() == []
    {
      readPos, writePos, size := 0, 0, 0;
    }

    /** Drop the oldest samples that are in the way. */
    method MakeRoom(keptSamples: nat)
      requires Valid() && ring.Length > 0 && keptSamples <= ring.Length
      modifies this
      ensures Valid() && size + keptSamples <= ring.Length
      ensures var total := |old(Queue())| + keptSamples;
              Queue() == if total <= ring.Length then old(Queue()) else old(Queue())[total - ring.Length..]
    {
      if size + keptSamples > ring.Length {
        var drop := Min(size + keptSamples - ring.Length, size);
        FrontDropped(ring[..], readPos, size, drop);
        ModIsWrap(readPos + drop, ring.Length);
        readPos := (readPos + drop) % ring.Length;
        size := size - drop;
      }
    }

    /** Write one sample at the end. */
    method PutSample(x: T, ghost total: nat)
      requires ring.Length > 0 && readPos < ring.Length && total < ring.Length
      requires writePos == Wrap(readPos + total, ring.Length)
      modifies this`writePos, ring
      ensures writePos == Wrap(readPos + total + 1, ring.Length)
      ensures Contents(ring[..], readPos, total + 1) == Contents(old(ring[..]), readPos, total) + [x]
    {
      hide Contents;
      ChunkAppended(ring[..], readPos, total, [x]);
      ring[writePos] := x;
      assert ring[..] == old(ring[..writePos]) + [x] + old(ring[writePos + 1..]);
      ModIsWrap(writePos + 1, ring.Length);
      writePos := (writePos + 1) % ring.Length;
    }

    method WritePairs(left: array<T>, right: array<T>, start: nat, end: nat)
      requires Valid() && ring.Length > 0 && left != ring && right != ring
      requires start <= end <= left.Length && end <= right.Length && size + 2 * (end - start) <= ring.Length
      modifies this, ring
      ensures Valid() && Queue() == old(Queue()) + Stereo(left[start..end], right[start..end])
    {
      hide Contents;
      ghost var queue := Queue();
      for i := start to end
        invariant readPos == old(readPos) && size == old(size)
        invariant writePos == Wrap(readPos + size + 2 * (i - start), ring.Length)
        invariant Contents(ring[..], readPos, size + 2 * (i - start)) ==
                  queue + Stereo(left[start..i], right[start..i])
      {
        ghost var written := queue + Stereo(left[start..i], right[start..i]);
        PutSample(left[i], size + 2 * (i - start));
        PutSample(right[i], size + 2 * (i - start) + 1);
        assert left[start..i + 1][..i - start] == left[start..i];
        assert right[start..i + 1][..i - start] == right[start..i];
        assert written + [left[i]] + [right[i]] ==
               queue + (Stereo(left[start..i], right[start..i]) + [left[i], right[i]]);
      }
      size := size + 2 * (end - start);
    }

    method PushSamples(left: array<T>, right: array<T>, numSamples: nat)
      requires Valid() && left != ring && right != ring
      requires numSamples <= left.Length && numSamples <= right.Length
      modifies this, ring
      ensures Valid()
      ensures Queue() == PushAll(old(Queue()), Stereo(left[..numSamples], right[..numSamples]), ring.Length)
    {
      hide Contents, Stereo, PushAll, FirstKept;
      if numSamples == 0 || ring.Length == 0 {
        assert PushAll(Queue(), Stereo(left[..numSamples], right[..numSamples]), ring.Length) == Queue() by {
          NothingPushed(Queue(), left[..numSamples], right[..numSamples], ring.Length);
        }
        return;
      }
      var startSample := FirstKept(numSamples, ring.Length);
      var keptSamples := (numSamples - startSample) * CHANNELS;
      Pushed(Queue(), left[..numSamples], right[..numSamples], ring.Length);
      assert left[..numSamples][startSample..] == left[startSample..numSamples];
      assert right[..numSamples][startSample..] == right[startSample..numSamples];
      if keptSamples > ring.Length {
        ClearQueue();
        return;
      }
      MakeRoom(keptSamples);
      WritePairs(left, right, startSample, numSamples);
    }

    method PopSamples(maxSamples: nat) returns (dest: seq<T>)
      requires Valid()
      modifies this
      ensures Valid()
      ensures var n := Min(maxSamples, |old(Queue())|);
              dest == old(Queue())[..n] && Queue() == old(Queue())[n..]
    {
      hide Contents;
      dest := [];
      if maxSamples == 0 || ring.Length == 0 {
        return;
      }
      var toRead := Min(maxSamples, size);
      ghost var queue, start, data := Queue(), readPos, ring[..];
      while |dest| < toRead
        invariant |dest| <= toRead && dest == queue[..|dest|]
        invariant readPos == Wrap(start + |dest|, ring.Length)
        invariant size == old(size) && writePos == old(writePos)
      {
        ItemAt(data, start, size, |dest|);
        assert queue[..|dest| + 1] == queue[..|dest|] + [ring[readPos]];
        dest := dest + [ring[readPos]];
        ModIsWrap(readPos + 1, ring.Length);
        readPos := (readPos + 1) % ring.Length;
      }
      FrontDropped(data, start, size, toRead);
      size := size - toRead;
    }
  }

  lemma {:induction false} StereoTail<T>(left: seq<T>, right: seq<T>, k: nat)
    requires k <= |left| == |right|
    ensures Stereo(left[k..], right[k..]) == Stereo(left, right)[2 * k..]
    decreases |left|
  {
    if k < |left| {
      var n := |left| - 1;
      StereoTail(left[..n], right[..n], k);
      assert left[k..][..n - k] == left[..n][k..] && right[k..][..n - k] == right[..n][k..];
    }
  }

  /** What is written, after what is kept, comes to the newest samples. */
  lemma KeptNewest<T>(queue: seq<T>, samples: seq<T>, capacity: nat, start: nat)
    requires capacity > 0 && samples != [] && |samples| % 2 == 0 && |queue| <= capacity
    requires start == FirstKept(|samples| / 2, capacity)
    ensures var kept := |samples| - 2 * start;
            if kept > capacity then PushAll(queue, samples, capacity) == []
            else
              var room := if |queue| + kept <= capacity then queue else queue[|queue| + kept - capacity..];
              PushAll(queue, samples, capacity) == room + samples[2 * start..]
  {
    if |samples| >= capacity {
      if capacity % 2 == 0 {
        assert 2 * start == |samples| - capacity;
      } else {
        assert 2 * start == |samples| - capacity - 1;
      }
    }
  }

  lemma NothingPushed<T>(queue: seq<T>, left: seq<T>, right: seq<T>, capacity: nat)
    requires |left| == |right| && (left == [] || capacity == 0)
    ensures PushAll(queue, Stereo(left, right), capacity) == queue
  {
  }

  /** The same of the two channels of a push. */
  lemma Pushed<T>(queue: seq<T>, left: seq<T>, right: seq<T>, capacity: nat)
    requires capacity > 0 && |left| == |right| > 0 && |queue| <= capacity
    ensures var start := FirstKept(|left|, capacity);
            var kept := (|left| - start) * CHANNELS;
            if kept > capacity then PushAll(queue, Stereo(left, right), capacity) == []
            else
              var room := if |queue| + kept <= capacity then queue else queue[|queue| + kept - capacity..];
              PushAll(queue, Stereo(left, right), capacity) == room + Stereo(left[start..], right[start..])
  {
    hide Stereo, PushAll, FirstKept;
    var start := FirstKept(|left|, capacity);
    StereoTail(left, right, start);
    DoubleIsEven(|left|);
    KeptNewest(queue, Stereo(left, right), capacity, start);
  }

  /** Left and right as pairs. */
  function Zip<T>(left: seq<T>, right: seq<T>): (pairs: seq<(T, T)>)
    requires |left| == |right|
    ensures |pairs| == |left|
  {
    seq(|left|, i requires 0 <= i < |left| => (left[i], right[i]))
  }

  lemma {:induction false} StereoIsInterleave<T>(left: seq<T>, right: seq<T>)
    requires |left| == |right|
    ensures Stereo(left, right) == Interleave(Zip(left, right))
  {
    if left != [] {
      var n := |left| - 1;
      StereoIsInterleave(left[..n], right[..n]);
      assert Zip(left, right) == Zip(left[..n], right[..n]) + [(left[n], right[n])];
      InterleaveConcat(Zip(left[..n], right[..n]), [(left[n], right[n])]);
      assert [(left[n], right[n])][1..] == [];
      assert Interleave([(left[n], right[n])]) == [left[n], right[n]];
    }
  }

  /** A ring of even capacity always holds whole pairs, the newest that fit: its head is a left
      sample as long as pops are even. */
  lemma SpeakerPairsKept<T>(queue: seq<(T, T)>, left: seq<T>, right: seq<T>, n: nat)
    requires |left| == |right|
    requires |queue| <= n
    ensures PushAll(Interleave(queue), Stereo(left, right), 2 * n) ==
            Interleave(Newest(queue + Zip(left, right), n))
  {
    hide Interleave, Stereo, Zip, Newest;
    if left == [] || n == 0 {
      assert Newest(queue + Zip(left, right), n) == queue by {
        NothingKept(queue, Zip(left, right), n);
      }
    } else {
      StereoIsInterleave(left, right);
      PairsKept(queue, Zip(left, right), n);
      DoubleIsEven(n);
    }
  }

  lemma DoubleIsEven(n: nat)
    ensures (2 * n) % 2 == 0
  {
  }

  lemma NothingKept<T>(queue: seq<T>, input: seq<T>, n: nat)
    requires |queue| <= n && (input == [] || n == 0)
    ensures Newest(queue + input, n) == queue
  {
  }
}
