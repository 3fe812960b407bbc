/** A bounded queue of numbered lines that any number of clients read at their own pace. */
module Broadcast {
  import opened Seqs

  datatype Entry<T> = Entry(number: nat, line: T)

  /** What the server keeps: the entries queued and the number the next one gets. */
  datatype Queue<T> = Queue(entries: seq<Entry>, nextNumber: nat)

  /** Queue a line; a full queue first loses its oldest entry. */
  function Enqueue<T>(q: Queue<T>, line: T, capacity: nat): Queue<T> {
    var kept := if |q.entries| >= capacity && |q.entries| > 0 then q.entries[1..] else q.entries;
    Queue(kept + [Entry(q.nextNumber, line)], q.nextNumber + 1)
  }

  function EnqueueAll<T>(q: Queue<T>, lines: seq<T>, capacity: nat): Queue<T> {
    if lines == [] then q
    else Enqueue(EnqueueAll(q, lines[..|lines| - 1], capacity), lines[|lines| - 1], capacity)
  }

  /** Where a client that joins now starts to read. */
  function JoinCursor<T>(q: Queue<T>): nat {
    if q.entries == [] then 0 else q.entries[|q.entries| - 1].number
  }

  /** The entries a client with this cursor is given. */
  function Unread<T>(entries: seq<Entry<T>>, cursor: nat): seq<Entry<T>> {
    if entries == [] then []
    else if entries[0].number > cursor then [entries[0]] + Unread(entries[1..], entries[0].number)
    else Unread(entries[1..], cursor)
  }

  // ---------------------------------------------------------------------------
  // The queue holds the newest lines
  // ---------------------------------------------------------------------------

  /** Every line ever queued, numbered from 1. */
  function Numbered<T>(log: seq<T>): (s: seq<Entry<T>>)
    ensures |s| == |log|
    ensures forall i :: 0 <= i < |s| ==> s[i] == Entry(i + 1, log[i])
  {
    seq(|log|, i requires 0 <= i < |log| => Entry(i + 1, log[i]))
  }

  /** The queue holds the newest lines of the log. */
  ghost predicate Holds<T>(q: Queue<T>, log: seq<T>, capacity: nat) {
    && q.nextNumber == |log| + 1
    && q.entries == Newest(Numbered(log), capacity)
  }

  lemma EnqueueHolds<T>(q: Queue<T>, log: seq<T>, line: T, capacity: nat)
    requires capacity > 0 && Holds(q, log, capacity)
    ensures Holds(Enqueue(q, line, capacity), log + [line], capacity)
  {
    assert Numbered(log + [line]) == Numbered(log) + [Entry(|log| + 1, line)];
  }

  lemma {:induction false} AllHeld<T>(log: seq<T>, capacity: nat)
    requires capacity > 0
    ensures Holds(EnqueueAll(Queue([], 1), log, capacity), log, capacity)
  {
    hide Enqueue, Holds;
    if log == [] {
      EmptyHolds<T>(capacity);
    } else {
      AllHeld(log[..|log| - 1], capacity);
      var q := EnqueueAll(Queue([], 1), log[..|log| - 1], capacity);
      EnqueueHolds(q, log[..|log| - 1], log[|log| - 1], capacity);
      assert log[..|log| - 1] + [log[|log| - 1]] == log;
    }
  }

  /** Whatever is queued: the queue never exceeds its capacity, numbers follow one another without
      a gap, and the newest lines are held with the numbers they were queued under. */
  lemma QueueKeepsNewest<T>(log: seq<T>, capacity: nat)
    requires capacity > 0
    ensures var q := EnqueueAll(Queue([], 1), log, capacity);
            && Holds(q, log, capacity)
            && |q.entries| <= capacity
            && forall i, j :: 0 <= i <= j < |q.entries| ==>
                 q.entries[j].number == q.entries[i].number + (j - i)
  {
    AllHeld(log, capacity);
  }

  // ---------------------------------------------------------------------------
  // One poll
  // ---------------------------------------------------------------------------

  /** The lines a poll gives a client that has read up to its cursor: those after the cursor, but
      no older than what the queue still holds. */
  function Fresh<T>(log: seq<T>, cursor: nat, capacity: nat): seq<Entry<T>>
    requires cursor <= |log|
  {
    Newest(Numbered(log)[cursor..], capacity)
  }

  lemma {:induction false} UnreadOfConsecutive<T>(s: seq<Entry<T>>, first: nat, cursor: nat)
    requires forall i :: 0 <= i < |s| ==> s[i].number == first + i
    ensures Unread(s, cursor) ==
            if cursor < first then s else if cursor - first < |s| then s[cursor - first + 1..] else []
    decreases |s|
  {
    if s != [] {
      var next := if first > cursor then first else cursor;
      UnreadOfConsecutive(s[1..], first + 1, next);
      if first > cursor {
        assert s == [s[0]] + s[1..];
      }
    }
  }

  lemma PollGivesFresh<T>(q: Queue<T>, log: seq<T>, cursor: nat, capacity: nat)
    requires capacity > 0 && Holds(q, log, capacity) && cursor <= |log|
    ensures Unread(q.entries, cursor) == Fresh(log, cursor, capacity)
    ensures JoinCursor(q) == |log|
  {
    var dropped := |log| - |q.entries|;
    UnreadOfConsecutive(q.entries, dropped + 1, cursor);
    if cursor <= dropped {
      assert q.entries == Fresh(log, cursor, capacity);
    } else {
      assert q.entries[cursor - dropped..] == Fresh(log, cursor, capacity);
    }
  }

  lemma {:induction false} NothingUnread<T>(s: seq<Entry<T>>, cursor: nat)
    requires forall i :: 0 <= i < |s| ==> s[i].number <= cursor
    ensures Unread(s, cursor) == []
  {
    if s != [] {
      NothingUnread(s[1..], cursor);
    }
  }

  lemma {:induction false} UnreadOneMore<T>(s: seq<Entry<T>>, e: Entry<T>, cursor: nat)
    ensures var before := Unread(s, cursor);
            Unread(s + [e], cursor) ==
            if e.number > CursorAfter(cursor, before) then before + [e] else before
  {
    if s != [] {
      assert (s + [e])[1..] == s[1..] + [e];
      UnreadOneMore(s[1..], e, if s[0].number > cursor then s[0].number else cursor);
    }
  }

  /** Walk through the queue once, taking what is newer than anything taken before. */
  method ReadUnread<T>(q: Queue<T>, cursor: nat) returns (given: seq<Entry<T>>, newCursor: nat)
    requires forall i, j :: 0 <= i < j < |q.entries| ==> q.entries[i].number < q.entries[j].number
    ensures given == Unread(q.entries, cursor)
    ensures newCursor == CursorAfter(cursor, given)
  {
    given, newCursor := [], cursor;
    if q.entries == [] || q.entries[|q.entries| - 1].number <= cursor {
      NothingUnread(q.entries, cursor);
      return;
    }
    for i := 0 to |q.entries|
      invariant given == Unread(q.entries[..i], cursor)
      invariant newCursor == CursorAfter(cursor, given)
    {
      UnreadOneMore(q.entries[..i], q.entries[i], cursor);
      assert q.entries[..i + 1] == q.entries[..i] + [q.entries[i]];
      if q.entries[i].number > newCursor {
        given, newCursor := given + [q.entries[i]], q.entries[i].number;
      }
    }
    assert q.entries[..|q.entries|] == q.entries;
  }

  /** One poll of one queue. */
  method PollQueue<T>(q: Queue<T>, ghost log: seq<T>, cursor: nat, ghost capacity: nat)
    returns (given: seq<Entry<T>>, newCursor: nat)
    requires capacity > 0 && Holds(q, log, capacity) && cursor <= |log|
    ensures given == Fresh(log, cursor, capacity) && newCursor == |log|
  {
    hide Fresh, Unread;
    PollGivesFresh(q, log, cursor, capacity);
    FreshOrdered(log, cursor, capacity);
    given, newCursor := ReadUnread(q, cursor);
    if given == [] {
      NothingFresh(log, cursor, capacity);
    }
  }

  lemma NothingFresh<T>(log: seq<T>, cursor: nat, capacity: nat)
    requires capacity > 0 && cursor <= |log| && Fresh(log, cursor, capacity) == []
    ensures cursor == |log|
  {
  }

  // ---------------------------------------------------------------------------
  // Runs
  // ---------------------------------------------------------------------------

  datatype Event<T> = Queued(line: T) | Joined(client: nat) | Polled(client: nat)

  /** A client: the number it has read up to, where it joined, and all it was given. */
  datatype Client<T> = Client(cursor: nat, joined: nat, received: seq<Entry<T>>)

  datatype Server<T> = Server(queue: Queue<T>, clients: map<nat, Client<T>>)

  /** A client's cursor once it has been given these entries. */
  function CursorAfter<T>(cursor: nat, given: seq<Entry<T>>): nat {
    if given == [] then cursor else given[|given| - 1].number
  }

  function Poll<T>(c: Client<T>, entries: seq<Entry<T>>): Client<T> {
    var unread := Unread(entries, c.cursor);
    c.(cursor := CursorAfter(c.cursor, unread), received := c.received + unread)
  }

  function After<T>(s: Server<T>, e: Event<T>, capacity: nat): Server<T> {
    match e
    case Queued(line) => s.(queue := Enqueue(s.queue, line, capacity))
    case Joined(id) => s.(clients := s.clients[id := Client(JoinCursor(s.queue), JoinCursor(s.queue), [])])
    case Polled(id) =>
      if id in s.clients then s.(clients := s.clients[id := Poll(s.clients[id], s.queue.entries)]) else s
  }

  function Run<T>(events: seq<Event<T>>, capacity: nat): Server<T> {
    if events == [] then Server(Queue([], 1), map[])
    else After(Run(events[..|events| - 1], capacity), events[|events| - 1], capacity)
  }

  /** All lines queued in a run. */
  function Log<T>(events: seq<Event<T>>): seq<T> {
    if events == [] then []
    else Log(events[..|events| - 1]) + match events[|events| - 1] case Queued(line) => [line] case _ => []
  }

  /** How many lines a client lost in a run since it last joined: at each of its polls, those beyond
      the capacity that were queued since the poll before. */
  datatype Tally = Tally(waiting: nat, lost: nat)

  function TallyOf<T>(events: seq<Event<T>>, id: nat, capacity: nat): Tally {
    if events == [] then Tally(0, 0)
    else
      var t := TallyOf(events[..|events| - 1], id, capacity);
      match events[|events| - 1]
      case Queued(_) => t.(waiting := t.waiting + 1)
      case Joined(other) => if other == id then Tally(0, 0) else t
      case Polled(other) =>
        if other == id then AfterPoll(t, capacity) else t
  }

  function AfterPoll(t: Tally, capacity: nat): Tally {
    Tally(0, t.lost + if t.waiting > capacity then t.waiting - capacity else 0)
  }

  /** Entries of the log numbered after `low` and up to `high`, in strictly increasing order. */
  ghost predicate Ordered<T>(s: seq<Entry<T>>, low: nat, high: nat, log: seq<T>) {
    && low <= high <= |log|
    && (forall i :: 0 <= i < |s| ==> low < s[i].number <= high && s[i].line == log[s[i].number - 1])
    && (forall i, j :: 0 <= i < j < |s| ==> s[i].number < s[j].number)
  }

  lemma OrderedAppend<T>(s: seq<Entry<T>>, t: seq<Entry<T>>, low: nat, mid: nat, high: nat, log: seq<T>)
    requires Ordered(s, low, mid, log) && Ordered(t, mid, high, log)
    ensures Ordered(s + t, low, high, log)
  {
  }

  lemma OrderedLonger<T>(s: seq<Entry<T>>, low: nat, high: nat, log: seq<T>, line: T)
    requires Ordered(s, low, high, log)
    ensures Ordered(s, low, high, log + [line])
  {
  }

  /** As many entries as there are numbers: each number is there. */
  lemma OrderedAll<T>(s: seq<Entry<T>>, low: nat, high: nat, log: seq<T>)
    requires Ordered(s, low, high, log) && |s| == high - low
    ensures s == Numbered(log)[low..high]
  {
    forall i | 0 <= i < |s| ensures s[i].number == low + 1 + i {
      NumberAtLeast(s, low, high, log, i);
      NumberAtMost(s, low, high, log, i);
    }
  }

  lemma {:induction false} NumberAtLeast<T>(s: seq<Entry<T>>, low: nat, high: nat, log: seq<T>, i: nat)
    requires Ordered(s, low, high, log) && i < |s|
    ensures s[i].number >= low + 1 + i
  {
    if i > 0 {
      NumberAtLeast(s, low, high, log, i - 1);
    }
  }

  lemma {:induction false} NumberAtMost<T>(s: seq<Entry<T>>, low: nat, high: nat, log: seq<T>, i: nat)
    requires Ordered(s, low, high, log) && i < |s|
    ensures s[i].number <= high - (|s| - 1 - i)
    decreases |s| - i
  {
    if i + 1 < |s| {
      NumberAtMost(s, low, high, log, i + 1);
    }
  }

  lemma FreshOrdered<T>(log: seq<T>, cursor: nat, capacity: nat)
    requires cursor <= |log|
    ensures var given := Fresh(log, cursor, capacity);
            && Ordered(given, cursor, |log|, log)
            && |given| == (if |log| - cursor > capacity then capacity else |log| - cursor)
            && (given != [] ==> given[|given| - 1].number == |log|)
  {
    var given := Fresh(log, cursor, capacity);
    forall i | 0 <= i < |given| ensures given[i] == Entry(|log| - |given| + i + 1, log[|log| - |given| + i]) {
      assert given[i] == Numbered(log)[|log| - |given| + i];
    }
  }

  /** The state of one client after a run, against the lines queued. */
  ghost predicate Follows<T>(c: Client<T>, log: seq<T>, t: Tally) {
    && Ordered(c.received, c.joined, c.cursor, log)
    && t.waiting == |log| - c.cursor
    && |c.received| + t.lost == c.cursor - c.joined
  }

  lemma PollFollows<T>(c: Client<T>, q: Queue<T>, log: seq<T>, t: Tally, capacity: nat)
    requires capacity > 0 && Holds(q, log, capacity) && Follows(c, log, t)
    ensures Follows(Poll(c, q.entries), log, AfterPoll(t, capacity))
  {
    hide Fresh, Unread, Ordered, Holds;
    assert c.cursor <= |log|;
    PollGivesFresh(q, log, c.cursor, capacity);
    FreshOrdered(log, c.cursor, capacity);
    OrderedAppend(c.received, Fresh(log, c.cursor, capacity), c.joined, c.cursor, |log|, log);
  }

  /** Under any interleaving of queued lines, joins and polls of any clients: the queue holds the
      newest lines, and each client has received lines of the log in strictly increasing order,
      none twice, and all of those between where it joined and its cursor but the ones its tally
      counts as lost. */
  lemma {:induction false} ClientsFollow<T>(events: seq<Event<T>>, capacity: nat)
    requires capacity > 0
    ensures var s := Run(events, capacity);
            && Holds(s.queue, Log(events), capacity)
            && forall id <- s.clients ::
                 Follows(s.clients[id], Log(events), TallyOf(events, id, capacity))
  {
    hide Ordered, Holds, Enqueue, JoinCursor, Poll;
    if events == [] {
      assert Holds<T>(Queue([], 1), [], capacity) by { EmptyHolds<T>(capacity); }
    } else {
      var before := events[..|events| - 1];
      ClientsFollow(before, capacity);
      var s, log := Run(before, capacity), Log(before);
      match events[|events| - 1] {
        case Queued(line) =>
          EnqueueHolds(s.queue, log, line, capacity);
          assert Log(events) == log + [line];
          forall id <- s.clients ensures Follows(s.clients[id], Log(events), TallyOf(events, id, capacity)) {
            var c := s.clients[id];
            OrderedLonger(c.received, c.joined, c.cursor, log, line);
          }
        case Joined(id) =>
          assert Log(events) == log;
          JoinsFresh(s.queue, log, capacity);
        case Polled(id) =>
          assert Log(events) == log;
          if id in s.clients {
            PollFollows(s.clients[id], s.queue, log, TallyOf(before, id, capacity), capacity);
          }
      }
    }
  }

  lemma EmptyHolds<T>(capacity: nat)
    ensures Holds<T>(Queue([], 1), [], capacity)
  {
  }

  lemma JoinsFresh<T>(q: Queue<T>, log: seq<T>, capacity: nat)
    requires capacity > 0 && Holds(q, log, capacity)
    ensures Follows(Client(JoinCursor(q), JoinCursor(q), []), log, Tally(0, 0))
  {
    PollGivesFresh(q, log, 0, capacity);
  }

  /** At most `capacity` lines were queued before each poll of the client, counting from its poll
      before that, or from where it last joined. */
  ghost predicate KeepsUp<T>(events: seq<Event<T>>, id: nat, capacity: nat) {
    events != [] ==>
      var before := events[..|events| - 1];
      match events[|events| - 1]
      case Queued(_) => KeepsUp(before, id, capacity)
      case Joined(other) => other == id || KeepsUp(before, id, capacity)
      case Polled(other) =>
        KeepsUp(before, id, capacity) && (other == id ==> TallyOf(before, id, capacity).waiting <= capacity)
  }

  lemma {:induction false} KeepsUpLosesNone<T>(events: seq<Event<T>>, id: nat, capacity: nat)
    ensures TallyOf(events, id, capacity).lost == 0 <==> KeepsUp(events, id, capacity)
  {
    if events != [] {
      KeepsUpLosesNone(events[..|events| - 1], id, capacity);
    }
  }

  /** A client has received every line between where it joined and its last poll, in order, each
      once, exactly if no more than `capacity` lines were ever queued between two of its polls;
      after a poll that is every line queued since it joined. */
  lemma NoneMissed<T>(events: seq<Event<T>>, id: nat, capacity: nat)
    requires capacity > 0 && id in Run(events, capacity).clients
    ensures var c := Run(events, capacity).clients[id];
            && c.joined <= c.cursor <= |Log(events)|
            && (c.received == Numbered(Log(events))[c.joined..c.cursor] <==> KeepsUp(events, id, capacity))
            && (events[|events| - 1] == Polled(id) ==> c.cursor == |Log(events)|)
  {
    ClientsFollow(events, capacity);
    KeepsUpLosesNone(events, id, capacity);
    var c := Run(events, capacity).clients[id];
    if KeepsUp(events, id, capacity) {
      OrderedAll(c.received, c.joined, c.cursor, Log(events));
    }
  }
}
