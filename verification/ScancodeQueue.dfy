/**
 The ring buffer between the IRQ1 handler and the idle loop (src/interrupts.rs): 16
 scancodes, the oldest dropped when a new one finds the buffer full.
 */
module ScancodeQueue {
  import opened Common

  const CAPACITY: nat := 16

  function Pushed(q: seq<Byte>, b: Byte): seq<Byte> {
    LastN(CAPACITY, q + [b])
  }

  // ------------------------------------------------------------ whole histories

  /** A push or a pop, in the order they happen. */
  datatype Event = Push(scancode: Byte) | Pop

  /**
   A queue with its history: what was produced, and for every scancode that has left the
   queue whether it was consumed (true) or dropped (false), in the order of leaving.
   */
  datatype History = History(queue: seq<Byte>, produced: seq<Byte>, fates: seq<bool>)

  const NoHistory := History([], [], [])

  function Happen(h: History, e: Event): History {
    match e
    case Push(b) =>
      var fates := if |h.queue| == CAPACITY then h.fates + [false] else h.fates;
      History(Pushed(h.queue, b), h.produced + [b], fates)
    case Pop =>
      if h.queue == [] then h else History(h.queue[1..], h.produced, h.fates + [true])
  }

  function HappenAll(h: History, events: seq<Event>): History
    decreases events
  {
    if events == [] then h else HappenAll(Happen(h, events[0]), events[1..])
  }

  /** The elements of `s` whose fate is `fate`, in order. */
  function Select(s: seq<Byte>, fates: seq<bool>, fate: bool): seq<Byte>
    requires |s| == |fates|
  {
    if s == [] then []
    else if Last(fates) == fate then Select(Front(s), Front(fates), fate) + [Last(s)]
    else Select(Front(s), Front(fates), fate)
  }

  /** Every scancode produced has left the queue, in order of arrival, or is still queued. */
  ghost predicate Accounted(h: History) {
    && |h.queue| <= CAPACITY
    && |h.fates| + |h.queue| == |h.produced|
    && h.queue == h.produced[|h.fates|..]
  }

  function Consumed(h: History): seq<Byte>
    requires |h.fates| <= |h.produced|
  {
    Select(h.produced[..|h.fates|], h.fates, true)
  }

  function Dropped(h: History): seq<Byte>
    requires |h.fates| <= |h.produced|
  {
    Select(h.produced[..|h.fates|], h.fates, false)
  }

  lemma {:induction false} SelectSplits(s: seq<Byte>, fates: seq<bool>)
    requires |s| == |fates|
    ensures |Select(s, fates, true)| + |Select(s, fates, false)| == |s|
  {
    if s != [] {
      SelectSplits(Front(s), Front(fates));
    }
  }

  /** If nothing was dropped, everything that left was consumed. */
  lemma {:induction false} NoneDropped(s: seq<Byte>, fates: seq<bool>)
    requires |s| == |fates| && Select(s, fates, false) == []
    ensures Select(s, fates, true) == s
  {
    if s != [] {
      NoneDropped(Front(s), Front(fates));
      assert s == Front(s) + [Last(s)];
    }
  }

  /** The positions `at`, in increasing order, pick `a` out of `b`. */
  ghost predicate PickedAt(a: seq<Byte>, b: seq<Byte>, at: seq<nat>) {
    && |at| == |a|
    && (forall i :: 0 <= i < |at| ==> at[i] < |b| && b[at[i]] == a[i])
    && forall i, j :: 0 <= i < j < |at| ==> at[i] < at[j]
  }

  /** `a` is `b` with some elements left out, order kept. */
  ghost predicate Subsequence(a: seq<Byte>, b: seq<Byte>) {
    exists at :: PickedAt(a, b, at)
  }

  lemma PickedLater(a: seq<Byte>, b: seq<Byte>, at: seq<nat>)
    requires b != [] && PickedAt(a, Front(b), at)
    ensures PickedAt(a, b, at)
    ensures PickedAt(a + [Last(b)], b, at + [|b| - 1])
  {
  }

  lemma {:induction false} SelectPicks(s: seq<Byte>, fates: seq<bool>, fate: bool) returns (at: seq<nat>)
    requires |s| == |fates|
    ensures PickedAt(Select(s, fates, fate), s, at)
  {
    if s == [] {
      at := [];
    } else {
      at := SelectPicks(Front(s), Front(fates), fate);
      PickedLater(Select(Front(s), Front(fates), fate), s, at);
      if Last(fates) == fate {
        at := at + [|s| - 1];
      }
    }
  }

  lemma HappenKeepsAccount(h: History, e: Event)
    requires Accounted(h)
    ensures Accounted(Happen(h, e))
  {
    match e {
      case Push(b) =>
        var all := h.produced + [b];
        assert h.queue + [b] == all[|h.fates|..];
      case Pop =>
        if h.queue != [] {
          assert h.queue[1..] == h.produced[|h.fates| + 1..];
        }
    }
  }

  /** What one event adds to the scancodes consumed and dropped. */
  lemma OnlyTheOldestLeaves(h: History, e: Event)
    requires Accounted(h)
    ensures var r := Happen(h, e);
            && Accounted(r)
            && Consumed(r) == Consumed(h) + (if e.Pop? && h.queue != [] then [h.queue[0]] else [])
            && Dropped(r) == Dropped(h) + (if e.Push? && |h.queue| == CAPACITY then [h.queue[0]] else [])
  {
    HappenKeepsAccount(h, e);
    var r := Happen(h, e);
    var n := |h.fates|;
    if |r.fates| == n {
      assert r.produced[..n] == h.produced[..n];
    } else {
      assert r.produced[..n + 1] == h.produced[..n] + [h.queue[0]];
      assert Front(r.produced[..n + 1]) == h.produced[..n];
      assert Front(r.fates) == h.fates;
    }
  }

  lemma {:induction false} RunKeepsAccount(h: History, events: seq<Event>)
    requires Accounted(h)
    ensures Accounted(HappenAll(h, events))
    decreases events
  {
    if events != [] {
      HappenKeepsAccount(h, events[0]);
      RunKeepsAccount(Happen(h, events[0]), events[1..]);
    }
  }

  /**
   For every interleaving of pushes and pops: the queue is a suffix of what was produced
   and holds at most 16; produced = consumed + dropped + queued; and the consumed
   scancodes come out in the order they came in.
   */
  lemma QueueNeverReorders(events: seq<Event>)
    ensures var h := HappenAll(NoHistory, events);
            && Accounted(h)
            && |h.produced| == |Consumed(h)| + |Dropped(h)| + |h.queue|
            && Subsequence(Consumed(h), h.produced)
  {
    RunKeepsAccount(NoHistory, events);
    var h := HappenAll(NoHistory, events);
    var n := |h.fates|;
    SelectSplits(h.produced[..n], h.fates);
    var at := SelectPicks(h.produced[..n], h.fates, true);
    assert PickedAt(Consumed(h), h.produced, at);
  }

  // ------------------------------------------------------------- the ring

  class Ring {
    const buffer: array<Byte>
    var head: nat
    var tail: nat
    var len: nat

    ghost predicate Valid()
      reads this
    {
      && buffer.Length == CAPACITY
      && head < CAPACITY && len <= CAPACITY
      && tail == (head + len) % CAPACITY
    }

    /** Where the `i`-th oldest scancode stands. */
    function Slot(i: nat): (k: nat)
      reads this
      ensures k < CAPACITY
    {
      (head + i) % CAPACITY
    }

    ghost function Contents(): (q: seq<Byte>)
      requires Valid()
      reads this, buffer
      ensures |q| == len
    {
      seq(len, i requires 0 <= i < len reads this, buffer => buffer[Slot(i)])
    }

    constructor ()
      ensures Valid() && fresh(buffer) && Contents() == []
    {
      buffer := new Byte[CAPACITY](_ => 0);
      head, tail, len := 0, 0, 0;
    }

    /** Storing at `tail` touches no slot in use. */
    lemma TailIsFree(i: nat)
      requires Valid() && i < len < CAPACITY
      ensures Slot(i) != tail
    {
    }

    method Store(scancode: Byte)
      requires Valid() && len < CAPACITY
      modifies this, buffer
      ensures Valid() && Contents() == old(Contents()) + [scancode]
    {
      ghost var before := Contents();
      forall i: nat | i < len
        ensures Slot(i) != tail
      {
        TailIsFree(i);
      }
      buffer[tail] := scancode;
      assert Contents() == before;
      tail := (tail + 1) % CAPACITY;
      len := len + 1;
    }

    /** Moves `head` past the oldest scancode. */
    method Advance()
      requires Valid() && len > 0
      modifies this
      ensures Valid() && Contents() == old(Contents())[1..]
    {
      head := (head + 1) % CAPACITY;
      len := len - 1;
      assert forall i: nat :: i < len ==> Slot(i) == old(Slot(i + 1));
    }

    method Push(scancode: Byte)
      requires Valid()
      modifies this, buffer
      ensures Valid() && Contents() == Pushed(old(Contents()), scancode)
    {
      ghost var before := Contents();
      if len == CAPACITY {
        Advance();
      }
      Store(scancode);
      assert Contents() == Pushed(before, scancode);
    }

    method Pop() returns (scancode: Option<Byte>)
      requires Valid()
      modifies this
      ensures Valid()
      ensures old(Contents()) == [] ==> scancode == None && Contents() == []
      ensures old(Contents()) != [] ==> scancode == Some(old(Contents())[0]) && Contents() == old(Contents())[1..]
    {
      if len == 0 {
        return None;
      }
      assert Slot(0) == head;
      scancode := Some(buffer[head]);
      Advance();
    }
  }
}
