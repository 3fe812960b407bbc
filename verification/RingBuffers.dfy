/** The circular buffers between the device, the signal processing and the sound card. Each is
 *  proved to be a queue that keeps the newest items it has room for. */
module RingBuffers {
  import opened Seqs
  import opened Wrappers

  // ---------------------------------------------------------------------------
  // Reading a circular buffer as a queue
  // ---------------------------------------------------------------------------

  function Wrap(i: nat, capacity: nat): nat {
    if i < capacity then i else i - capacity
  }

  lemma ModIsWrap(i: nat, capacity: nat)
    requires i < 2 * capacity
    ensures i % capacity == Wrap(i, capacity)
  {
    if i >= capacity {
      assert i == capacity + (i - capacity);
    }
  }

  /** The items from the read position on. */
  function Contents<T>(data: seq<T>, start: nat, size: nat): (s: seq<T>)
    requires start < |data| && size <= |data|
    ensures |s| == size
  {
    seq(size, i requires 0 <= i < size => data[Wrap(start + i, |data|)])
  }

  /** Writing a chunk just after the last item, into free space, appends it. */
  lemma ChunkAppended<T>(data: seq<T>, start: nat, size: nat, chunk: seq<T>)
    requires start < |data| && size + |chunk| <= |data|
    requires Wrap(start + size, |data|) + |chunk| <= |data|
    ensures var w := Wrap(start + size, |data|);
            var next := data[..w] + chunk + data[w + |chunk|..];
            |next| == |data| && Contents(next, start, size + |chunk|) == Contents(data, start, size) + chunk
  {
    var w := Wrap(start + size, |data|);
    var next := data[..w] + chunk + data[w + |chunk|..];
    var before, after := Contents(data, start, size), Contents(next, start, size + |chunk|);
    forall i | 0 <= i < size + |chunk| ensures after[i] == (before + chunk)[i] {
      var at := Wrap(start + i, |data|);
      if i < size {
        assert at < w || at >= w + |chunk|;
        assert next[at] == data[at];
      } else {
        assert at == w + (i - size);
        assert next[at] == chunk[i - size];
      }
    }
  }

  lemma FrontDropped<T>(data: seq<T>, start: nat, size: nat, k: nat)
    requires start < |data| && k <= size <= |data|
    ensures Wrap(start + k, |data|) < |data|
    ensures Contents(data, Wrap(start + k, |data|), size - k) == Contents(data, start, size)[k..]
  {
    var before, after := Contents(data, start, size), Contents(data, Wrap(start + k, |data|), size - k);
    forall i | 0 <= i < size - k ensures after[i] == before[k..][i] {
      assert Wrap(Wrap(start + k, |data|) + i, |data|) == Wrap(start + k + i, |data|);
    }
  }

  lemma ItemAt<T>(data: seq<T>, start: nat, size: nat, k: nat)
    requires start < |data| && k < size <= |data|
    ensures Wrap(start + k, |data|) < |data|
    ensures Contents(data, start, size)[k] == data[Wrap(start + k, |data|)]
  {
  }

  lemma FrontChunk<T>(data: seq<T>, start: nat, size: nat, k: nat)
    requires start < |data| && k <= size <= |data| && start + k <= |data|
    ensures Contents(data, start, size)[..k] == data[start..start + k]
  {
    var before := Contents(data, start, size);
    forall i | 0 <= i < k ensures before[..k][i] == data[start..start + k][i] {
      assert Wrap(start + i, |data|) == start + i;
    }
  }

  /** Copy n items between arrays. */
  method MemCopy<T>(dst: array<T>, dstPos: nat, src: array<T>, srcPos: nat, n: nat)
    requires dst != src && dstPos + n <= dst.Length && srcPos + n <= src.Length
    modifies dst
    ensures dst[..] == old(dst[..dstPos]) + src[srcPos..srcPos + n] + old(dst[dstPos + n..])
  {
    for i := 0 to n
      invariant forall k :: 0 <= k < dst.Length ==>
                  dst[k] == if dstPos <= k < dstPos + i then src[srcPos + k - dstPos] else old(dst[k])
    {
      dst[dstPos + i] := src[srcPos + i];
    }
    assert dst[..dstPos] == old(dst[..dstPos]);
    assert dst[dstPos..dstPos + n] == src[srcPos..srcPos + n];
    assert dst[dstPos + n..] == old(dst[dstPos + n..]);
    assert dst[..] == dst[..dstPos] + dst[dstPos..dstPos + n] + dst[dstPos + n..];
  }

  // ---------------------------------------------------------------------------
  // The staging ring before the decimator
  // ---------------------------------------------------------------------------

  /** What is left after making room, and what is then written, are the newest items. */
  lemma Appended<T>(queue: seq<T>, input: seq<T>, first: nat, kept: seq<T>, capacity: nat)
    requires |queue| <= capacity
    requires if |input| >= capacity then first == |input| - capacity && kept == []
             else first == 0 &&
                  kept == if |queue| + |input| <= capacity then queue else queue[|queue| + |input| - capacity..]
    ensures kept + input[first..] == Newest(queue + input, capacity)
  {
  }

  /** Staging of IQ data. A sample is two bytes (unit 2), or one complex number (unit 1). */
  class StagingRing<T(0)> {
    const ring: array<T>
    const linearized: array<T>
    const unit: nat
    var readPos: nat
    var writePos: nat
    var size: nat

    ghost predicate Valid()
      reads this
    {
      && ring != linearized
      && unit > 0
      && size <= ring.Length
      && (ring.Length > 0 ==> readPos < ring.Length && writePos == Wrap(readPos + size, ring.Length))
    }

    ghost function Queue(): seq<T>
      requires Valid()
      reads this, ring
    {
      if ring.Length == 0 then [] else Contents(ring[..], readPos, size)
    }

    constructor (blockSamples: nat, blocks: nat, unit: nat)
      requires unit > 0
      ensures Valid() && Queue() == [] && this.unit == unit
      ensures ring.Length == blockSamples * unit * blocks && linearized.Length == blockSamples * unit
      ensures fresh(ring) && fresh(linearized)
    {
      ring := new T[blockSamples * unit * blocks];
      linearized := new T[blockSamples * unit];
      this.unit := unit;
      readPos, writePos, size := 0, 0, 0;
    }

    method Clear()
      requires Valid()
      modifies this
      ensures Valid() && Queue() == []
    {
      readPos, writePos, size := 0, 0, 0;
    }

    /** Make room for what is coming: all that was there goes if it alone fills the ring. */
    method MakeRoom(incoming: nat) returns (srcOffset: nat)
      requires Valid() && ring.Length > 0
      modifies this
      ensures Valid() && srcOffset <= incoming && size + (incoming - srcOffset) <= ring.Length
      ensures if incoming >= ring.Length then srcOffset == incoming - ring.Length && Queue() == []
              else srcOffset == 0 &&
                   Queue() == (if |old(Queue())| + incoming <= ring.Length then old(Queue())
                               else old(Queue())[|old(Queue())| + incoming - ring.Length..])
    {
      srcOffset := 0;
      if incoming >= ring.Length {
        srcOffset := incoming - ring.Length;
        Clear();
      } else if size + incoming > ring.Length {
        var drop := size + incoming - ring.Length;
        FrontDropped(ring[..], readPos, size, drop);
        ModIsWrap(readPos + drop, ring.Length);
        readPos := (readPos + drop) % ring.Length;
        size := size - drop;
      }
    }

    /** Copy one stretch of items to a write position, and say where the next one goes. */
    method PutChunk(iq: array<T>, src: nat, chunk: nat, pos: nat, ghost total: nat) returns (next: nat)
      requires iq != ring && src + chunk <= iq.Length
      requires readPos < ring.Length && total + chunk <= ring.Length
      requires pos == Wrap(readPos + total, ring.Length) && pos + chunk <= ring.Length
      modifies ring
      ensures next == Wrap(readPos + total + chunk, ring.Length)
      ensures Contents(ring[..], readPos, total + chunk) ==
              Contents(old(ring[..]), readPos, total) + iq[src..src + chunk]
    {
      hide Contents;
      ChunkAppended(ring[..], readPos, total, iq[src..src + chunk]);
      MemCopy(ring, pos, iq, src, chunk);
      ModIsWrap(pos + chunk, ring.Length);
      next := (pos + chunk) % ring.Length;
    }

    /** Write n items after the last one. */
    method WriteAll(iq: array<T>, first: nat, n: nat)
      requires Valid() && ring.Length > 0 && iq != ring
      requires first + n <= iq.Length && size + n <= ring.Length
      modifies this, ring
      ensures Valid() && Queue() == old(Queue()) + iq[first..first + n]
    {
      hide Contents;
      ghost var queue := Queue();
      var src, remaining := first, n;
      while remaining > 0
        invariant first <= src && 0 <= remaining && src + remaining == first + n
        invariant readPos == old(readPos) && size == old(size)
        invariant writePos == Wrap(readPos + size + (src - first), ring.Length)
        invariant Contents(ring[..], readPos, size + (src - first)) == queue + iq[first..src]
      {
        var chunk := if remaining < ring.Length - writePos then remaining else ring.Length - writePos;
        assert iq[first..src] + iq[src..src + chunk] == iq[first..src + chunk];
        writePos := PutChunk(iq, src, chunk, writePos, size + (src - first));
        src := src + chunk;
        remaining := remaining - chunk;
      }
      size := size + n;
    }

    /** The newest items stay. */
    method Append(iq: array<T>, sampleCount: nat)
      requires Valid() && iq != ring && sampleCount * unit <= iq.Length
      modifies this, ring
      ensures Valid()
      ensures Queue() == Newest(old(Queue()) + iq[..sampleCount * unit], ring.Length)
    {
      hide Contents;
      if sampleCount == 0 || ring.Length == 0 {
        return;
      }
      var incoming := sampleCount * unit;
      ghost var queue := Queue();
      var srcOffset := MakeRoom(incoming);
      Appended(queue, iq[..incoming], srcOffset, Queue(), ring.Length);
      WriteAll(iq, srcOffset, incoming - srcOffset);
    }

    /** Copy the oldest items out, and say where the ones after them start. */
    method CopyOut(required: nat) returns (pos: nat)
      requires Valid() && ring.Length > 0 && required <= size && required <= linearized.Length
      modifies linearized
      ensures linearized[..required] == Queue()[..required]
      ensures pos == Wrap(readPos + required, ring.Length)
    {
      hide Contents;
      ghost var queue, data := Queue(), ring[..];
      var dstOffset, remaining := 0, required;
      pos := readPos;
      while remaining > 0
        invariant 0 <= dstOffset && 0 <= remaining && dstOffset + remaining == required
        invariant ring[..] == data && pos == Wrap(readPos + dstOffset, ring.Length)
        invariant linearized[..dstOffset] == queue[..dstOffset]
      {
        var chunk := if remaining < ring.Length - pos then remaining else ring.Length - pos;
        FrontDropped(data, readPos, size, dstOffset);
        FrontChunk(data, pos, size - dstOffset, chunk);
        assert queue[dstOffset..][..chunk] == queue[dstOffset..dstOffset + chunk];
        MemCopy(linearized, dstOffset, ring, pos, chunk);
        assert linearized[..dstOffset + chunk] == queue[..dstOffset] + queue[dstOffset..dstOffset + chunk];
        ModIsWrap(pos + chunk, ring.Length);
        pos := (pos + chunk) % ring.Length;
        dstOffset := dstOffset + chunk;
        remaining := remaining - chunk;
      }
    }

    /** Hand the oldest samples to the decimator in one piece, if there are enough. */
    method LinearizeBlock(sampleCount: nat) returns (ok: bool)
      requires Valid()
      modifies this, linearized
      ensures Valid()
      ensures var n := sampleCount * unit;
              && ok == (ring.Length > 0 && n <= linearized.Length && n <= |old(Queue())|)
              && (ok ==> linearized[..n] == old(Queue())[..n] && Queue() == old(Queue())[n..])
              && (!ok ==> Queue() == old(Queue()))
    {
      hide Contents;
      var required := sampleCount * unit;
      if ring.Length == 0 || linearized.Length < required || size < required {
        return false;
      }
      var pos := CopyOut(required);
      FrontDropped(ring[..], readPos, size, required);
      readPos := pos;
      size := size - required;
      return true;
    }

    /** The staging part of processing: take samples in, and have a block ready if one is full.
        The block is then in the linearized buffer. */
    method Process(iq: array<T>, samples: nat, blockSamples: nat) returns (ready: bool)
      requires Valid() && iq != ring && iq != linearized && samples * unit <= iq.Length
      requires blockSamples > 0 && linearized.Length == blockSamples * unit
      requires ring.Length >= linearized.Length
      modifies this, ring, linearized
      ensures Valid()
      ensures var next := Stage(old(Queue()), iq[..samples * unit], linearized.Length, ring.Length);
              && Queue() == next.queue
              && next.block == if ready then Some(linearized[..]) else None
    {
      hide Contents;
      assert blockSamples * unit > 0 by { PositiveProduct(blockSamples, unit); }
      if samples == 0 {
        return false;
      }
      PositiveProduct(samples, unit);
      Append(iq, samples);
      if size < blockSamples * unit {
        return false;
      }
      ready := LinearizeBlock(blockSamples);
      assert linearized[..linearized.Length] == linearized[..];
    }
  }

  lemma PositiveProduct(a: nat, b: nat)
    requires a > 0 && b > 0
    ensures a * b > 0
  {
  }

  // ---------------------------------------------------------------------------
  // Staging as a whole
  // ---------------------------------------------------------------------------

  datatype Staged<T> = Staged(queue: seq<T>, block: Option<seq<T>>)

  /** One call: nothing for no input; otherwise at most one block of n items comes out. */
  function Stage<T>(queue: seq<T>, input: seq<T>, n: nat, capacity: nat): Staged<T>
    requires n <= capacity
  {
    if input == [] then Staged(queue, None)
    else
      var next := Newest(queue + input, capacity);
      if |next| < n then Staged(next, None) else Staged(next[n..], Some(next[..n]))
  }

  /** One call of any size: of the newest items that fit into the ring nothing is lost, and the oldest
      block of them comes out, if there is a whole one and the call brings anything. */
  lemma StageExactly<T>(queue: seq<T>, input: seq<T>, n: nat, capacity: nat)
    requires n <= capacity && |queue| <= capacity
    ensures var s := Stage(queue, input, n, capacity);
            var all := queue + input;
            var kept := if |all| > capacity then all[|all| - capacity..] else all;
            && (s.block.Some? <==> input != [] && |kept| >= n)
            && (if s.block.Some? then |s.block.value| == n && s.block.value + s.queue == kept else s.queue == kept)
  {
    if input == [] {
      assert queue + input == queue;
    }
  }

  datatype Blocks<T> = Blocks(blocks: seq<seq<T>>, rest: seq<T>)

  /** A run of calls. */
  function StageAll<T>(queue: seq<T>, inputs: seq<seq<T>>, n: nat, capacity: nat): Blocks<T>
    requires n <= capacity
    decreases |inputs|
  {
    if inputs == [] then Blocks([], queue)
    else
      var first := Stage(queue, inputs[0], n, capacity);
      var all := StageAll(first.queue, inputs[1..], n, capacity);
      if first.block.Some? then all.(blocks := [first.block.value] + all.blocks) else all
  }

  /** A stream cut into consecutive blocks of n items. */
  function Cut<T>(stream: seq<T>, n: nat): Blocks<T>
    requires n > 0
    decreases |stream|
  {
    if |stream| < n then Blocks([], stream)
    else
      var rest := Cut(stream[n..], n);
      rest.(blocks := [stream[..n]] + rest.blocks)
  }

  function Joined<T>(inputs: seq<seq<T>>): seq<T> {
    if inputs == [] then [] else inputs[0] + Joined(inputs[1..])
  }

  /** Cutting loses and reorders nothing, and leaves less than a block over. */
  lemma {:induction false} CutFaithful<T>(stream: seq<T>, n: nat)
    requires n > 0
    ensures var cut := Cut(stream, n);
            && Joined(cut.blocks) + cut.rest == stream
            && (forall block <- cut.blocks :: |block| == n)
            && |cut.rest| < n
    decreases |stream|
  {
    hide Joined;
    if |stream| < n {
      assert Joined<T>([]) == [] by { JoinedNone<T>(); }
    } else {
      CutFaithful(stream[n..], n);
      var rest := Cut(stream[n..], n);
      JoinedFirst(stream[..n], rest.blocks);
      Regrouped(stream, n, Joined(rest.blocks), rest.rest);
    }
  }

  lemma JoinedNone<T>()
    ensures Joined<T>([]) == []
  {
  }

  lemma JoinedFirst<T>(first: seq<T>, others: seq<seq<T>>)
    ensures Joined([first] + others) == first + Joined(others)
  {
    assert ([first] + others)[1..] == others;
  }

  lemma Regrouped<T>(stream: seq<T>, n: nat, joined: seq<T>, rest: seq<T>)
    requires n <= |stream| && joined + rest == stream[n..]
    ensures stream[..n] + joined + rest == stream
  {
    assert stream[..n] + joined + rest == stream[..n] + (joined + rest);
  }

  /** With calls of at most one block each and room for two, nothing is lost: the blocks are the
      consecutive slices of the input, however it was divided into calls. */
  lemma {:induction false} StagingLossless<T>(queue: seq<T>, inputs: seq<seq<T>>, n: nat, capacity: nat)
    requires 0 < n && 2 * n <= capacity && |queue| < n
    requires forall input <- inputs :: |input| <= n
    ensures StageAll(queue, inputs, n, capacity) == Cut(queue + Joined(inputs), n)
    decreases |inputs|
  {
    hide Stage;
    if inputs == [] {
      assert queue + [] == queue;
    } else {
      var input, tail := inputs[0], Joined(inputs[1..]);
      assert input in inputs;
      assert queue + Joined(inputs) == queue + input + tail;
      StagingLossless(Stage(queue, input, n, capacity).queue, inputs[1..], n, capacity) by {
        OneCall(queue, input, n, capacity);
      }
      OneCall(queue, input, n, capacity);
      if |queue + input| >= n {
        CutFirst(queue + input, tail, n);
      }
    }
  }

  /** A call that finds less than a block and brings no more than one. */
  lemma OneCall<T>(queue: seq<T>, input: seq<T>, n: nat, capacity: nat)
    requires 0 < n && 2 * n <= capacity && |queue| < n && |input| <= n
    ensures var all := queue + input;
            Stage(queue, input, n, capacity) ==
            if |all| < n then Staged(all, None) else Staged(all[n..], Some(all[..n]))
  {
    if input == [] {
      assert queue + input == queue;
    }
  }

  lemma CutFirst<T>(s: seq<T>, tail: seq<T>, n: nat)
    requires 0 < n <= |s|
    ensures Cut(s + tail, n) ==
            var rest := Cut(s[n..] + tail, n); rest.(blocks := [s[..n]] + rest.blocks)
  {
    assert (s + tail)[..n] == s[..n] && (s + tail)[n..] == s[n..] + tail;
  }

  lemma FragmentationIrrelevant<T>(queue: seq<T>, a: seq<seq<T>>, b: seq<seq<T>>, n: nat, capacity: nat)
    requires 0 < n && 2 * n <= capacity && |queue| < n
    requires (forall input <- a :: |input| <= n) && (forall input <- b :: |input| <= n)
    requires Joined(a) == Joined(b)
    ensures StageAll(queue, a, n, capacity) == StageAll(queue, b, n, capacity)
  {
    StagingLossless(queue, a, n, capacity);
    StagingLossless(queue, b, n, capacity);
  }

  // ---------------------------------------------------------------------------
  // Pairs stay together
  // ---------------------------------------------------------------------------

  /** I and Q, or left and right, one after the other. */
  function Interleave<T>(pairs: seq<(T, T)>): (s: seq<T>)
    ensures |s| == 2 * |pairs|
  {
    if pairs == [] then [] else [pairs[0].0, pairs[0].1] + Interleave(pairs[1..])
  }

  lemma {:induction false} InterleaveConcat<T>(a: seq<(T, T)>, b: seq<(T, T)>)
    ensures Interleave(a + b) == Interleave(a) + Interleave(b)
  {
    if a == [] {
      assert a + b == b;
    } else {
      assert (a + b)[1..] == a[1..] + b;
      InterleaveConcat(a[1..], b);
    }
  }

  lemma InterleaveSplit<T>(pairs: seq<(T, T)>, k: nat)
    requires k <= |pairs|
    ensures Interleave(pairs)[..2 * k] == Interleave(pairs[..k])
    ensures Interleave(pairs)[2 * k..] == Interleave(pairs[k..])
  {
    hide Interleave;
    var a, b := pairs[..k], pairs[k..];
    InterleaveConcat(a, b);
    assert a + b == pairs;
    CutAt(Interleave(pairs), Interleave(a), Interleave(b));
  }

  lemma CutAt<T>(s: seq<T>, a: seq<T>, b: seq<T>)
    requires s == a + b
    ensures |a| <= |s| && s[..|a|] == a && s[|a|..] == b
  {
  }

  /** A queue of even capacity that is fed whole pairs keeps the newest whole pairs: its head is
      always the first half of one. */
  lemma PairsKept<T>(queue: seq<(T, T)>, input: seq<(T, T)>, n: nat)
    ensures Newest(Interleave(queue) + Interleave(input), 2 * n) == Interleave(Newest(queue + input, n))
  {
    hide Interleave;
    var all := queue + input;
    InterleaveConcat(queue, input);
    if |all| > n {
      InterleaveSplit(all, |all| - n);
    }
  }

  /** Each of the calls, item by item. */
  function AllInterleaved<T>(inputs: seq<seq<(T, T)>>): (r: seq<seq<T>>)
    ensures |r| == |inputs|
    ensures forall i :: 0 <= i < |r| ==> r[i] == Interleave(inputs[i])
  {
    seq(|inputs|, i requires 0 <= i < |inputs| => Interleave(inputs[i]))
  }

  lemma StagePairs<T>(queue: seq<(T, T)>, input: seq<(T, T)>, n: nat, capacity: nat)
    requires n <= capacity
    ensures var s := Stage(queue, input, n, capacity);
            Stage(Interleave(queue), Interleave(input), 2 * n, 2 * capacity) ==
            Staged(Interleave(s.queue), if s.block.None? then None else Some(Interleave(s.block.value)))
  {
    hide Interleave, Newest;
    assert input == [] <==> Interleave(input) == [];
    if input != [] {
      PairsKept(queue, input, capacity);
      var next := Newest(queue + input, capacity);
      if |next| >= n {
        InterleaveSplit(next, n);
      }
    }
  }

  /** Staging of whole pairs, in calls of any size and with whatever has to be dropped, is staging
      pair by pair: the blocks handed over are whole pairs, and so is what stays in the ring. */
  lemma {:induction false} StagingKeepsPairs<T>(queue: seq<(T, T)>, inputs: seq<seq<(T, T)>>, n: nat, capacity: nat)
    requires n <= capacity
    ensures var all := StageAll(queue, inputs, n, capacity);
            StageAll(Interleave(queue), AllInterleaved(inputs), 2 * n, 2 * capacity) ==
            Blocks(AllInterleaved(all.blocks), Interleave(all.rest))
    decreases |inputs|
  {
    hide Interleave, Stage;
    if inputs != [] {
      var first := Stage(queue, inputs[0], n, capacity);
      StagePairs(queue, inputs[0], n, capacity);
      StagingKeepsPairs(first.queue, inputs[1..], n, capacity);
      assert AllInterleaved(inputs)[1..] == AllInterleaved(inputs[1..]);
      if first.block.Some? {
        var others := StageAll(first.queue, inputs[1..], n, capacity).blocks;
        assert AllInterleaved([first.block.value] + others) ==
               [Interleave(first.block.value)] + AllInterleaved(others);
      }
    }
  }
}
