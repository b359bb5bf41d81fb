/** The pending ring as a queue: what one handler call and one drain do to it when they do not
    overlap. */
module PendingRing {
  import opened Words
  import opened Ring

  datatype View = View(slots: seq<Slot>, write: nat, read: nat)

  predicate Shaped(v: View) {
    |v.slots| == MAX_PENDING && v.write < INDEX_SPAN && v.read < INDEX_SPAN
  }

  /** A handler records one access.  Nothing stops it from overwriting. */
  function Recorded(v: View, e: Event): (r: View)
    requires Shaped(v)
    ensures Shaped(r)
  {
    v.(slots := v.slots[v.write % MAX_PENDING := Slot(true, e)], write := (v.write + 1) % INDEX_SPAN)
  }

  /** Distance from `read` forward to `goal` in wrapped indices. */
  function Distance(read: nat, goal: nat): nat {
    (goal - read) % INDEX_SPAN
  }

  lemma DistanceShrinks(read: nat, goal: nat)
    requires read < INDEX_SPAN && goal < INDEX_SPAN && read != goal
    ensures Distance((read + 1) % INDEX_SPAN, goal) < Distance(read, goal)
  {
  }

  /** Taking the slot at the read index. */
  function Taken(v: View): (r: View)
    requires Shaped(v)
    ensures Shaped(r)
  {
    var q := v.read % MAX_PENDING;
    v.(slots := v.slots[q := v.slots[q].(ready := false)], read := (v.read + 1) % INDEX_SPAN)
  }

  /** A drain up to `goal`: the events handed over and the ring it leaves. */
  function Drained(v: View, goal: nat): (r: (seq<Event>, View))
    requires Shaped(v) && goal < INDEX_SPAN
    ensures Shaped(r.1)
    decreases Distance(v.read, goal)
  {
    if v.read == goal || !v.slots[v.read % MAX_PENDING].ready then ([], v)
    else
      DistanceShrinks(v.read, goal);
      var (events, after) := Drained(Taken(v), goal);
      ([v.slots[v.read % MAX_PENDING].fields] + events, after)
  }

  /** The ring holds exactly the events `q`, oldest first, from the read index on. */
  ghost predicate Queue(v: View, q: seq<Event>) {
    && Shaped(v) && |q| <= MAX_PENDING
    && v.write == (v.read + |q|) % INDEX_SPAN
    && forall i :: 0 <= i < MAX_PENDING ==> QueueSlot(v, q, i)
  }

  ghost predicate QueueSlot(v: View, q: seq<Event>, i: nat)
    requires Shaped(v)
  {
    var slot := v.slots[(v.read + i) % MAX_PENDING];
    if i < |q| then slot == Slot(true, q[i]) else !slot.ready
  }

  lemma SlotsApart(a: nat, i: nat, j: nat)
    requires i < MAX_PENDING && j < MAX_PENDING && i != j
    ensures (a + i) % MAX_PENDING != (a + j) % MAX_PENDING
  {
  }

  lemma ShiftedSlot(read: nat, i: nat)
    ensures ((read + 1) % INDEX_SPAN + i) % MAX_PENDING == (read + (i + 1)) % MAX_PENDING
  {
    WrappedSlot(read + 1);
  }

  lemma RecordedQueue(v: View, q: seq<Event>, e: Event)
    requires Queue(v, q) && |q| < MAX_PENDING
    ensures Queue(Recorded(v, e), q + [e])
  {
    var r := Recorded(v, e);
    WrappedSlot(v.read + |q|);
    WrappedNext(v.read + |q|);
    forall i | 0 <= i < MAX_PENDING ensures QueueSlot(r, q + [e], i) {
      assert QueueSlot(v, q, i);
      if i != |q| {
        SlotsApart(v.read, i, |q|);
      }
    }
  }

  lemma TakenSlot(v: View, q: seq<Event>, i: nat)
    requires Queue(v, q) && q != [] && i < MAX_PENDING
    ensures QueueSlot(Taken(v), q[1..], i)
  {
    hide Queue;
    ShiftedSlot(v.read, i);
    SlotOfQueue(v, q, 0);
    if i + 1 < MAX_PENDING {
      SlotOfQueue(v, q, i + 1);
      SlotsApart(v.read, i + 1, 0);
    } else {
      WrapsOnce(v.read);
      assert (Taken(v).read + i) % MAX_PENDING == v.read % MAX_PENDING;
    }
  }

  lemma SlotOfQueue(v: View, q: seq<Event>, i: nat)
    requires Queue(v, q) && i < MAX_PENDING
    ensures Shaped(v) && |q| <= MAX_PENDING && QueueSlot(v, q, i)
  {
  }

  lemma TakenQueue(v: View, q: seq<Event>)
    requires Queue(v, q) && q != []
    ensures v.read != v.write
    ensures v.slots[v.read % MAX_PENDING] == Slot(true, q[0])
    ensures Queue(Taken(v), q[1..])
  {
    assert QueueSlot(v, q, 0);
    WrappedEqual(v.read, v.read + |q|);
    WrappedSum(v.read + 1, |q| - 1);
    forall i | 0 <= i < MAX_PENDING ensures QueueSlot(Taken(v), q[1..], i) {
      TakenSlot(v, q, i);
    }
    assert v.slots[v.read % MAX_PENDING] == Slot(true, q[0]);
    hide QueueSlot;
    assert Taken(v).write == (Taken(v).read + |q[1..]|) % INDEX_SPAN;
  }

  lemma WrappedSum(a: nat, b: nat)
    ensures (a % INDEX_SPAN + b) % INDEX_SPAN == (a + b) % INDEX_SPAN
  {
  }

  /** A drain empties the queue in order. */
  lemma {:induction false} DrainedQueue(v: View, q: seq<Event>)
    requires Queue(v, q)
    ensures Drained(v, v.write).0 == q
    ensures Queue(Drained(v, v.write).1, [])
    decreases |q|
  {
    if q == [] {
    } else {
      TakenQueue(v, q);
      DrainedQueue(Taken(v), q[1..]);
    }
  }

  // ---- Overflow ------------------------------------------------------------------------------------

  function RecordedAll(v: View, events: seq<Event>): (r: View)
    requires Shaped(v)
    ensures Shaped(r)
    decreases |events|
  {
    if events == [] then v else RecordedAll(Recorded(v, events[0]), events[1..])
  }

  lemma {:induction false} RecordedAllQueue(v: View, q: seq<Event>, events: seq<Event>)
    requires Queue(v, q) && |q| + |events| <= MAX_PENDING
    ensures Queue(RecordedAll(v, events), q + events)
    decreases |events|
  {
    if events == [] {
      assert q + events == q;
    } else {
      RecordedQueue(v, q, events[0]);
      RecordedAllQueue(Recorded(v, events[0]), q + [events[0]], events[1..]);
      assert q + [events[0]] + events[1..] == q + events;
    }
  }

  /** The write index counts in 32 bits and goes on counting when the ring is full. */
  lemma {:induction false} IndexAfter(v: View, events: seq<Event>)
    requires Shaped(v)
    ensures RecordedAll(v, events).write == (v.write + |events|) % 0x1_0000_0000
    decreases |events|
  {
    if events != [] {
      IndexAfter(Recorded(v, events[0]), events[1..]);
    }
  }

  function ReadyCount(slots: seq<Slot>): (n: nat)
    ensures n <= |slots|
  {
    if slots == [] then 0 else (if slots[0].ready then 1 else 0) + ReadyCount(slots[1..])
  }

  lemma {:induction false} ReadyCountCleared(slots: seq<Slot>, q: nat)
    requires q < |slots| && slots[q].ready
    ensures ReadyCount(slots[q := slots[q].(ready := false)]) == ReadyCount(slots) - 1
    decreases |slots|
  {
    var cleared := slots[q := slots[q].(ready := false)];
    if q > 0 {
      ReadyCountCleared(slots[1..], q - 1);
      assert cleared[1..] == slots[1..][q - 1 := slots[1..][q - 1].(ready := false)];
    } else {
      assert cleared[1..] == slots[1..];
    }
  }

  /** One drain hands over no more events than there are ready slots. */
  lemma {:induction false} DrainedCount(v: View, goal: nat)
    requires Shaped(v) && goal < INDEX_SPAN
    ensures |Drained(v, goal).0| <= ReadyCount(v.slots)
    decreases Distance(v.read, goal)
  {
    if v.read != goal && v.slots[v.read % MAX_PENDING].ready {
      DistanceShrinks(v.read, goal);
      DrainedCount(Taken(v), goal);
      ReadyCountCleared(v.slots, v.read % MAX_PENDING);
    }
  }

  /** A burst of accesses between two drains arrives complete and in order exactly when it fits the
      ring; the ring has no check that would make it otherwise. */
  lemma BurstDelivered(v: View, events: seq<Event>)
    requires Queue(v, [])
    ensures Drained(RecordedAll(v, events), RecordedAll(v, events).write).0 == events <==> |events| <= 256
  {
    var r := RecordedAll(v, events);
    if |events| <= MAX_PENDING {
      RecordedAllQueue(v, [], events);
      assert [] + events == events;
      DrainedQueue(r, events);
    } else {
      DrainedCount(r, r.write);
    }
  }
}
