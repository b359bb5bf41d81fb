/** The pending ring under every interleaving of signal handlers and one drain.

    Handlers reserve a slot with one atomic increment, fill its fields one by one and publish it;
    the drain checks, reads field by field, hands the event over, clears the slot and advances.
    `reserved`, `delivered`, `cleared` and the unwrapped indices are history: the steps never
    consult them. */
module Ring {
  import opened Words

  const MAX_PENDING: nat := 256
  const INDEX_SPAN: nat := 0x1_0000_0000
  const FIELDS: nat := 5

  /** A recorded access: monitor id, fault address, page base, range index, access code. */
  type Event = e: seq<int> | |e| == 5 witness [0, 0, 0, 0, 0]

  datatype Slot = Slot(ready: bool, fields: Event)

  /** A handler between its reservation and its publication; `done` fields are written. */
  datatype Producer = Producer(slot: nat, event: Event, done: nat, ticket: nat)

  /** Where the drain is.  `read` and `write` are its local copies of the two indices, `goal` the
      unwrapped value of `write`. */
  datatype Consumer =
    | Resting
    | Loading(read: nat)
    | Checking(read: nat, write: nat, goal: nat)
    | Reading(read: nat, write: nat, goal: nat, got: seq<int>)
    | Clearing(read: nat, write: nat, goal: nat)
    | Advancing(read: nat, write: nat, goal: nat)

  datatype Ring = Ring(
    slots: seq<Slot>,
    writeIdx: nat,
    readIdx: nat,
    producers: map<nat, Producer>,
    consumer: Consumer,
    reserved: seq<Event>,
    delivered: seq<Event>,
    cleared: nat
  )

  datatype Action =
    | Reserve(thread: nat, event: Event)
    | Fill(thread: nat)
    | Publish(thread: nat)
    | Begin
    | Load
    | Check
    | ReadField
    | Deliver
    | Clear
    | Advance

  function Start(first: nat): Ring
    requires first < INDEX_SPAN
  {
    Ring(seq(MAX_PENDING, _ => Slot(false, [0, 0, 0, 0, 0])), first, first, map[], Resting, [], [], 0)
  }

  /** One atomic step; None if the action is not enabled. */
  function Step(s: Ring, a: Action): Option<Ring>
    requires |s.slots| == MAX_PENDING
  {
    match a
    case Reserve(t, e) =>
      if t in s.producers then None
      else
        Some(s.(producers := s.producers[t := Producer(s.writeIdx % MAX_PENDING, e, 0, |s.reserved|)],
                writeIdx := (s.writeIdx + 1) % INDEX_SPAN,
                reserved := s.reserved + [e]))
    case Fill(t) =>
      if t !in s.producers || s.producers[t].done >= FIELDS || s.producers[t].slot >= MAX_PENDING then None
      else
        var p := s.producers[t];
        var slot := s.slots[p.slot];
        Some(s.(slots := s.slots[p.slot := slot.(fields := slot.fields[p.done := p.event[p.done]])],
                producers := s.producers[t := p.(done := p.done + 1)]))
    case Publish(t) =>
      if t !in s.producers || s.producers[t].done < FIELDS || s.producers[t].slot >= MAX_PENDING then None
      else
        var p := s.producers[t];
        Some(s.(slots := s.slots[p.slot := s.slots[p.slot].(ready := true)], producers := s.producers - {t}))
    case Begin =>
      if s.consumer.Resting? then Some(s.(consumer := Loading(s.readIdx))) else None
    case Load =>
      if s.consumer.Loading? then Some(s.(consumer := Checking(s.consumer.read, s.writeIdx, |s.reserved|))) else None
    case Check =>
      if !s.consumer.Checking? then None
      else
        var Checking(read, write, goal) := s.consumer;
        if read == write || !s.slots[read % MAX_PENDING].ready then Some(s.(consumer := Resting))
        else Some(s.(consumer := Reading(read, write, goal, [])))
    case ReadField =>
      if !s.consumer.Reading? || |s.consumer.got| >= FIELDS then None
      else
        var k := |s.consumer.got|;
        Some(s.(consumer := s.consumer.(got := s.consumer.got + [s.slots[s.consumer.read % MAX_PENDING].fields[k]])))
    case Deliver =>
      if !s.consumer.Reading? || |s.consumer.got| != FIELDS then None
      else
        var Reading(read, write, goal, got) := s.consumer;
        Some(s.(consumer := Clearing(read, write, goal), delivered := s.delivered + [got]))
    case Clear =>
      if !s.consumer.Clearing? then None
      else
        var Clearing(read, write, goal) := s.consumer;
        var q := read % MAX_PENDING;
        Some(s.(slots := s.slots[q := s.slots[q].(ready := false)],
                consumer := Advancing(read, write, goal), cleared := s.cleared + 1))
    case Advance =>
      if !s.consumer.Advancing? then None
      else
        var Advancing(read, write, goal) := s.consumer;
        var next := (read + 1) % INDEX_SPAN;
        Some(s.(consumer := Checking(next, write, goal), readIdx := next))
  }

  /** At most 256 reserved events are unconsumed. */
  predicate Bounded(s: Ring) {
    |s.reserved| <= s.cleared + MAX_PENDING
  }

  // ---- The invariant -------------------------------------------------------------------------------

  /** The one ticket in [cleared, cleared + 256) that uses slot `q`. */
  function TicketOf(first: nat, cleared: nat, q: nat): nat {
    cleared + (q - (first + cleared)) % MAX_PENDING
  }

  ghost predicate Held(s: Ring, t: nat, ticket: nat) {
    t in s.producers && s.producers[t].ticket == ticket
  }

  ghost predicate SlotOk(first: nat, s: Ring, q: nat)
    requires |s.slots| == MAX_PENDING && q < MAX_PENDING
  {
    var k := TicketOf(first, s.cleared, q);
    if k < |s.reserved| then
      if s.slots[q].ready then s.slots[q].fields == s.reserved[k] else exists t :: Held(s, t, k)
    else !s.slots[q].ready
  }

  ghost predicate ProducerOk(first: nat, s: Ring, t: nat)
    requires |s.slots| == MAX_PENDING && t in s.producers
  {
    var p := s.producers[t];
    && s.cleared <= p.ticket < |s.reserved|
    && p.slot == (first + p.ticket) % MAX_PENDING
    && p.event == s.reserved[p.ticket]
    && p.done <= FIELDS
    && !s.slots[p.slot].ready
    && s.slots[p.slot].fields[..p.done] == p.event[..p.done]
  }

  ghost predicate ConsumerOk(first: nat, s: Ring)
    requires |s.slots| == MAX_PENDING
  {
    var c := s.consumer;
    var head := (first + s.cleared) % INDEX_SPAN;
    match c
    case Resting => s.readIdx == head && |s.delivered| == s.cleared
    case Loading(read) => s.readIdx == read == head && |s.delivered| == s.cleared
    case Checking(read, write, goal) =>
      && s.readIdx == read == head && |s.delivered| == s.cleared
      && write == (first + goal) % INDEX_SPAN && s.cleared <= goal <= |s.reserved|
    case Reading(read, write, goal, got) =>
      && s.readIdx == read == head && |s.delivered| == s.cleared
      && write == (first + goal) % INDEX_SPAN && s.cleared < goal <= |s.reserved|
      && s.slots[read % MAX_PENDING].ready
      && |got| <= FIELDS && got == s.reserved[s.cleared][..|got|]
    case Clearing(read, write, goal) =>
      && s.readIdx == read == head && |s.delivered| == s.cleared + 1
      && write == (first + goal) % INDEX_SPAN && s.cleared < goal <= |s.reserved|
      && s.slots[read % MAX_PENDING].ready
    case Advancing(read, write, goal) =>
      && s.cleared > 0 && s.readIdx == read == (first + s.cleared - 1) % INDEX_SPAN && |s.delivered| == s.cleared
      && write == (first + goal) % INDEX_SPAN && s.cleared <= goal <= |s.reserved|
  }

  ghost predicate SlotsOk(first: nat, s: Ring)
    requires |s.slots| == MAX_PENDING
  {
    forall q :: 0 <= q < MAX_PENDING ==> SlotOk(first, s, q)
  }

  ghost predicate ProducersOk(first: nat, s: Ring)
    requires |s.slots| == MAX_PENDING
  {
    && (forall t :: t in s.producers ==> ProducerOk(first, s, t))
    && (forall t, u :: t in s.producers && u in s.producers && t != u ==>
        s.producers[t].ticket != s.producers[u].ticket)
  }

  ghost predicate Inv(first: nat, s: Ring) {
    && |s.slots| == MAX_PENDING
    && s.writeIdx == (first + |s.reserved|) % INDEX_SPAN
    && s.cleared <= |s.reserved| && Bounded(s)
    && SlotsOk(first, s)
    && ProducersOk(first, s)
    && ConsumerOk(first, s)
    && |s.delivered| <= |s.reserved|
    && s.delivered == s.reserved[..|s.delivered|]
  }

  // ---- Index arithmetic ------------------------------------------------------------------------------

  /** 256 divides 2^32, so a wrapped index still names the right slot. */
  lemma WrappedSlot(n: nat)
    ensures n % INDEX_SPAN % MAX_PENDING == n % MAX_PENDING
  {
    var k := n / INDEX_SPAN;
    assert n == INDEX_SPAN * k + n % INDEX_SPAN;
    assert n == MAX_PENDING * (0x100_0000 * k) + n % INDEX_SPAN;
  }

  lemma TicketSlot(first: nat, cleared: nat, k: nat)
    requires cleared <= k < cleared + MAX_PENDING
    ensures TicketOf(first, cleared, (first + k) % MAX_PENDING) == k
  {
  }

  lemma SlotTicket(first: nat, cleared: nat, q: nat)
    requires q < MAX_PENDING
    ensures cleared <= TicketOf(first, cleared, q) < cleared + MAX_PENDING
    ensures (first + TicketOf(first, cleared, q)) % MAX_PENDING == q
  {
  }

  lemma NextTicket(first: nat, cleared: nat, q: nat)
    requires q < MAX_PENDING
    ensures TicketOf(first, cleared + 1, q) ==
              if q == (first + cleared) % MAX_PENDING then cleared + MAX_PENDING else TicketOf(first, cleared, q)
  {
    hide TicketOf;
    var ticket := TicketOf(first, cleared, q);
    SlotTicket(first, cleared, q);
    if ticket == cleared {
      WrapsOnce(first + cleared);
      TicketSlot(first, cleared + 1, cleared + MAX_PENDING);
    } else {
      TicketSlot(first, cleared + 1, ticket);
      TicketSlot(first, cleared, cleared);
    }
  }

  lemma WrapsOnce(n: nat)
    ensures (n + MAX_PENDING) % MAX_PENDING == n % MAX_PENDING
  {
  }

  lemma WrappedNext(n: nat)
    ensures (n % INDEX_SPAN + 1) % INDEX_SPAN == (n + 1) % INDEX_SPAN
  {
  }

  /** Indices that differ by at most 256 are equal only if their wrapped values are. */
  lemma WrappedEqual(a: nat, b: nat)
    requires a <= b <= a + MAX_PENDING
    ensures a % INDEX_SPAN == b % INDEX_SPAN <==> a == b
  {
  }

  // ---- Every step keeps the invariant -------------------------------------------------------------------

  /** Handlers never disturb the drain: a ready slot stays as it is. */
  lemma ConsumerUndisturbed(first: nat, s: Ring, s': Ring)
    requires |s.slots| == |s'.slots| == MAX_PENDING
    requires ConsumerOk(first, s)
    requires s'.consumer == s.consumer && s'.readIdx == s.readIdx && s'.delivered == s.delivered &&
              s'.cleared == s.cleared
    requires s.reserved <= s'.reserved
    requires forall q :: 0 <= q < MAX_PENDING && s.slots[q].ready ==> s'.slots[q].ready
    ensures ConsumerOk(first, s')
  {
  }

  lemma ReserveSlots(first: nat, s: Ring, t: nat, e: Event, s': Ring)
    requires Inv(first, s) && Step(s, Reserve(t, e)) == Some(s') && Bounded(s')
    ensures SlotsOk(first, s')
    ensures s'.producers[t].slot == (first + |s.reserved|) % MAX_PENDING
    ensures !s.slots[s'.producers[t].slot].ready
  {
    hide ConsumerOk, ProducersOk;
    var n := |s.reserved|;
    WrappedSlot(first + n);
    TicketSlot(first, s.cleared, n);
    assert SlotOk(first, s, (first + n) % MAX_PENDING);
    assert Held(s', t, n);
    forall r | 0 <= r < MAX_PENDING ensures SlotOk(first, s', r) {
      assert SlotOk(first, s, r);
      var k := TicketOf(first, s.cleared, r);
      if k < n && !s.slots[r].ready {
        var u :| Held(s, u, k);
        assert Held(s', u, k);
      }
    }
  }

  lemma ReserveStep(s: Ring, t: nat, e: Event, s': Ring)
    requires |s.slots| == MAX_PENDING && Step(s, Reserve(t, e)) == Some(s')
    ensures t !in s.producers &&
              s'.producers == s.producers[t := Producer(s.writeIdx % MAX_PENDING, e, 0, |s.reserved|)]
    ensures s'.reserved == s.reserved + [e] && s'.slots == s.slots && s'.cleared == s.cleared
  {
  }

  lemma ProducerKept(first: nat, s: Ring, s': Ring, u: nat)
    requires |s.slots| == MAX_PENDING && s'.slots == s.slots && s'.cleared == s.cleared && s.reserved <= s'.reserved
    requires u in s.producers && u in s'.producers && s'.producers[u] == s.producers[u]
    requires ProducerOk(first, s, u)
    ensures ProducerOk(first, s', u) && s.producers[u].ticket < |s.reserved|
  {
  }

  lemma ProducerAdded(first: nat, s: Ring, t: nat, e: Event, s': Ring)
    requires Inv(first, s) && Step(s, Reserve(t, e)) == Some(s') && Bounded(s')
    ensures t in s'.producers && ProducerOk(first, s', t) && s'.producers[t].ticket == |s.reserved|
  {
    ReserveSlots(first, s, t, e, s');
    hide SlotsOk, ConsumerOk, ProducersOk;
    WrappedSlot(first + |s.reserved|);
  }

  lemma ReserveProducers(first: nat, s: Ring, t: nat, e: Event, s': Ring)
    requires Inv(first, s) && Step(s, Reserve(t, e)) == Some(s') && Bounded(s')
    ensures ProducersOk(first, s')
  {
    ReserveStep(s, t, e, s');
    ProducerAdded(first, s, t, e, s');
    hide SlotsOk, ConsumerOk, Step, ProducerOk;
    forall u | u in s'.producers ensures ProducerOk(first, s', u) &&
        (u != t ==> s'.producers[u].ticket < |s.reserved|) {
      if u != t {
        ProducerKept(first, s, s', u);
      }
    }
  }

  lemma ReserveKeeps(first: nat, s: Ring, t: nat, e: Event, s': Ring)
    requires Inv(first, s) && Step(s, Reserve(t, e)) == Some(s') && Bounded(s')
    ensures Inv(first, s')
  {
    ReserveSlots(first, s, t, e, s');
    ReserveProducers(first, s, t, e, s');
    ConsumerUndisturbed(first, s, s');
    hide SlotsOk, ConsumerOk, ProducersOk;
    WrappedNext(first + |s.reserved|);
  }

  /** Two handlers in flight never share a slot. */
  lemma OtherSlot(first: nat, s: Ring, t: nat, u: nat)
    requires Inv(first, s) && t in s.producers && u in s.producers && t != u
    ensures s.producers[t].slot != s.producers[u].slot
  {
    hide SlotsOk, ConsumerOk;
    assert ProducerOk(first, s, t) && ProducerOk(first, s, u);
    TicketSlot(first, s.cleared, s.producers[t].ticket);
    TicketSlot(first, s.cleared, s.producers[u].ticket);
  }

  lemma FillSlots(first: nat, s: Ring, t: nat, s': Ring)
    requires Inv(first, s) && Step(s, Fill(t)) == Some(s')
    ensures SlotsOk(first, s')
  {
    hide ConsumerOk;
    assert ProducerOk(first, s, t);
    forall r | 0 <= r < MAX_PENDING ensures SlotOk(first, s', r) {
      assert SlotOk(first, s, r);
      var k := TicketOf(first, s.cleared, r);
      if k < |s.reserved| && !s.slots[r].ready {
        var u :| Held(s, u, k);
        assert Held(s', u, k);
      }
    }
  }

  lemma FillProducers(first: nat, s: Ring, t: nat, s': Ring)
    requires Inv(first, s) && Step(s, Fill(t)) == Some(s')
    ensures ProducersOk(first, s')
  {
    hide SlotsOk, ConsumerOk;
    var p := s.producers[t];
    assert ProducerOk(first, s, t);
    forall u | u in s'.producers ensures ProducerOk(first, s', u) {
      assert ProducerOk(first, s, u);
      if u != t {
        OtherSlot(first, s, t, u);
      } else {
        var fields := s'.slots[p.slot].fields;
        assert fields[..p.done + 1] == s.slots[p.slot].fields[..p.done] + [p.event[p.done]];
        assert p.event[..p.done + 1] == p.event[..p.done] + [p.event[p.done]];
      }
    }
  }

  lemma FillKeeps(first: nat, s: Ring, t: nat, s': Ring)
    requires Inv(first, s) && Step(s, Fill(t)) == Some(s')
    ensures Inv(first, s')
  {
    FillSlots(first, s, t, s');
    FillProducers(first, s, t, s');
    ConsumerUndisturbed(first, s, s');
    hide SlotsOk, ConsumerOk, ProducersOk;
  }

  lemma PublishSlots(first: nat, s: Ring, t: nat, s': Ring)
    requires Inv(first, s) && Step(s, Publish(t)) == Some(s')
    ensures SlotsOk(first, s')
  {
    hide ConsumerOk;
    var p := s.producers[t];
    assert ProducerOk(first, s, t);
    TicketSlot(first, s.cleared, p.ticket);
    assert s.slots[p.slot].fields[..FIELDS] == s.slots[p.slot].fields;
    assert p.event[..FIELDS] == p.event;
    forall r | 0 <= r < MAX_PENDING ensures SlotOk(first, s', r) {
      assert SlotOk(first, s, r);
      var k := TicketOf(first, s.cleared, r);
      if r != p.slot && k < |s.reserved| && !s.slots[r].ready {
        var u :| Held(s, u, k);
        SlotTicket(first, s.cleared, r);
        assert u != t;
        assert Held(s', u, k);
      }
    }
  }

  lemma PublishKeeps(first: nat, s: Ring, t: nat, s': Ring)
    requires Inv(first, s) && Step(s, Publish(t)) == Some(s')
    ensures Inv(first, s')
  {
    PublishSlots(first, s, t, s');
    ConsumerUndisturbed(first, s, s');
    PublishProducers(first, s, t, s');
    hide SlotsOk, ConsumerOk, ProducersOk;
  }

  lemma PublishProducers(first: nat, s: Ring, t: nat, s': Ring)
    requires Inv(first, s) && Step(s, Publish(t)) == Some(s')
    ensures ProducersOk(first, s')
  {
    hide SlotsOk, ConsumerOk;
    forall u | u in s'.producers ensures ProducerOk(first, s', u) {
      assert ProducerOk(first, s, u);
      OtherSlot(first, s, t, u);
    }
  }

  /** The drain's steps that leave the slots alone. */
  lemma ConsumerKeeps(first: nat, s: Ring, s': Ring)
    requires Inv(first, s)
    requires s'.slots == s.slots && s'.producers == s.producers && s'.writeIdx == s.writeIdx
    requires s'.reserved == s.reserved && s'.cleared == s.cleared
    requires ConsumerOk(first, s') && |s'.delivered| <= |s.reserved| && s'.delivered == s.reserved[..|s'.delivered|]
    ensures Inv(first, s')
  {
    forall q | 0 <= q < MAX_PENDING ensures SlotOk(first, s', q) {
      assert SlotOk(first, s, q);
      var k := TicketOf(first, s.cleared, q);
      if k < |s.reserved| && !s.slots[q].ready {
        var u :| Held(s, u, k);
        assert Held(s', u, k);
      }
    }
    forall t | t in s'.producers ensures ProducerOk(first, s', t) {
      assert ProducerOk(first, s, t);
    }
  }

  /** A slot the drain finds ready at its read index holds the oldest undelivered event, whole. */
  lemma HeadSlot(first: nat, s: Ring)
    requires Inv(first, s) && s.cleared < |s.reserved|
    ensures var q := (first + s.cleared) % INDEX_SPAN % MAX_PENDING;
            s.slots[q].ready ==> s.slots[q].fields == s.reserved[s.cleared]
  {
    WrappedSlot(first + s.cleared);
    TicketSlot(first, s.cleared, s.cleared);
    assert SlotOk(first, s, (first + s.cleared) % MAX_PENDING);
  }

  lemma DrainKeeps(first: nat, s: Ring, a: Action, s': Ring)
    requires Inv(first, s) && Step(s, a) == Some(s')
    requires a.Begin? || a.Load? || a.Check? || a.ReadField? || a.Deliver? || a.Advance?
    ensures Inv(first, s')
  {
    hide SlotsOk, ProducersOk;
    match a
    case Check => CheckKeeps(first, s, s');
    case ReadField => ReadFieldKeeps(first, s, s');
    case Deliver => DeliverKeeps(first, s, s');
    case Advance =>
      WrappedNext(first + s.cleared - 1);
      ConsumerKeeps(first, s, s');
    case _ =>
      ConsumerKeeps(first, s, s');
  }

  lemma CheckKeeps(first: nat, s: Ring, s': Ring)
    requires Inv(first, s) && Step(s, Check) == Some(s')
    ensures Inv(first, s')
  {
    hide SlotsOk, ProducersOk;
    WrappedEqual(first + s.cleared, first + s.consumer.goal);
    ConsumerKeeps(first, s, s');
  }

  lemma ReadFieldKeeps(first: nat, s: Ring, s': Ring)
    requires Inv(first, s) && Step(s, ReadField) == Some(s')
    ensures Inv(first, s')
  {
    hide SlotsOk, ProducersOk;
    HeadSlot(first, s);
    var got := s.consumer.got;
    assert s.reserved[s.cleared][..|got| + 1] == s.reserved[s.cleared][..|got|] + [s.reserved[s.cleared][|got|]];
    ConsumerKeeps(first, s, s');
  }

  lemma DeliverKeeps(first: nat, s: Ring, s': Ring)
    requires Inv(first, s) && Step(s, Deliver) == Some(s')
    ensures Inv(first, s')
  {
    hide SlotsOk, ProducersOk;
    assert s.consumer.got == s.reserved[s.cleared][..FIELDS] == s.reserved[s.cleared];
    assert s.reserved[..s.cleared + 1] == s.reserved[..s.cleared] + [s.reserved[s.cleared]];
    ConsumerKeeps(first, s, s');
  }

  lemma ClearKeeps(first: nat, s: Ring, s': Ring)
    requires Inv(first, s) && Step(s, Clear) == Some(s')
    ensures Inv(first, s')
  {
    hide TicketOf;
    TicketSlot(first, s.cleared, s.cleared);
    var read := s.consumer.read;
    WrappedSlot(first + s.cleared);
    var head := read % MAX_PENDING;
    forall q | 0 <= q < MAX_PENDING ensures SlotOk(first, s', q) {
      assert SlotOk(first, s, q);
      NextTicket(first, s.cleared, q);
      var k := TicketOf(first, s.cleared, q);
      if q != head && k < |s.reserved| && !s.slots[q].ready {
        var u :| Held(s, u, k);
        assert Held(s', u, k);
      }
    }
    forall t | t in s'.producers ensures ProducerOk(first, s', t) {
      assert ProducerOk(first, s, t);
    }
  }

  lemma StepKeeps(first: nat, s: Ring, a: Action, s': Ring)
    requires Inv(first, s) && Step(s, a) == Some(s') && Bounded(s')
    ensures Inv(first, s')
  {
    match a
    case Reserve(t, e) => ReserveKeeps(first, s, t, e, s');
    case Fill(t) => FillKeeps(first, s, t, s');
    case Publish(t) => PublishKeeps(first, s, t, s');
    case Clear => ClearKeeps(first, s, s');
    case _ => DrainKeeps(first, s, a, s');
  }

  // ---- Whole runs ---------------------------------------------------------------------------------------

  /** The states a schedule goes through, while its actions are enabled. */
  function Run(s: Ring, schedule: seq<Action>): Option<Ring>
    decreases |schedule|
  {
    if schedule == [] then Some(s)
    else if |s.slots| != MAX_PENDING then None
    else match Step(s, schedule[0])
      case Some(t) => Run(t, schedule[1..])
      case None => None
  }

  /** Nowhere along the schedule are more than 256 reserved events unconsumed. */
  predicate StaysBounded(s: Ring, schedule: seq<Action>)
    decreases |schedule|
  {
    Bounded(s) && (schedule == [] || |s.slots| != MAX_PENDING ||
      match Step(s, schedule[0])
      case Some(t) => StaysBounded(t, schedule[1..])
      case None => true)
  }

  lemma {:induction false} RunKeeps(first: nat, s: Ring, schedule: seq<Action>)
    requires Inv(first, s) && StaysBounded(s, schedule) && Run(s, schedule).Some?
    ensures Inv(first, Run(s, schedule).value)
    decreases |schedule|
  {
    hide Step, SlotOk, ProducerOk, ConsumerOk;
    if schedule != [] {
      var t := Step(s, schedule[0]).value;
      StepKeeps(first, s, schedule[0], t);
      RunKeeps(first, t, schedule[1..]);
    }
  }

  lemma StartOk(first: nat)
    requires first < INDEX_SPAN
    ensures Inv(first, Start(first))
  {
    forall q | 0 <= q < MAX_PENDING ensures SlotOk(first, Start(first), q) {
      SlotTicket(first, 0, q);
    }
  }

  /** Whatever the interleaving, and wherever the 32-bit indices start or wrap: the events handed
      over are the events reserved, whole, each once, in reservation order. */
  lemma DeliveredInOrder(first: nat, schedule: seq<Action>)
    requires first < INDEX_SPAN
    requires StaysBounded(Start(first), schedule) && Run(Start(first), schedule).Some?
    ensures var s := Run(Start(first), schedule).value;
            |s.delivered| <= |s.reserved| && s.delivered == s.reserved[..|s.delivered|]
  {
    StartOk(first);
    RunKeeps(first, Start(first), schedule);
  }

  /** Nothing is lost: an event not yet consumed is in its slot, whole and ready, or its handler is
      still at work on it. */
  lemma NothingLost(first: nat, s: Ring, k: nat)
    requires Inv(first, s) && s.cleared <= k < |s.reserved|
    ensures var slot := s.slots[(first + k) % MAX_PENDING];
            if slot.ready then slot.fields == s.reserved[k] else exists t :: Held(s, t, k)
  {
    TicketSlot(first, s.cleared, k);
    assert SlotOk(first, s, (first + k) % MAX_PENDING);
  }
}
