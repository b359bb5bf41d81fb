/** From the atomic steps of the ring to whole calls: a handler that is not interrupted records its
    event, a drain empties the queue, and an interrupted drain still hands over everything that was
    complete when it began. */
module RingRuns {
  import opened Words
  import opened Ring
  import opened PendingRing

  function ViewOf(s: Ring): View {
    View(s.slots, s.writeIdx, s.readIdx)
  }

  predicate InShape(s: Ring) {
    |s.slots| == MAX_PENDING && s.writeIdx < INDEX_SPAN && s.readIdx < INDEX_SPAN
  }

  lemma {:induction false} RunConcat(s: Ring, xs: seq<Action>, ys: seq<Action>)
    requires Run(s, xs).Some?
    ensures Run(s, xs + ys) == Run(Run(s, xs).value, ys)
    decreases |xs|
  {
    hide Step;
    if xs == [] {
      assert xs + ys == ys;
    } else {
      assert (xs + ys)[0] == xs[0] && (xs + ys)[1..] == xs[1..] + ys;
      RunConcat(Step(s, xs[0]).value, xs[1..], ys);
    }
  }

  lemma RunOne(s: Ring, a: Action, t: Ring)
    requires |s.slots| == MAX_PENDING && Step(s, a) == Some(t)
    ensures Run(s, [a]) == Some(t)
  {
    hide Step;
    assert Run(t, []) == Some(t);
  }

  function Times(n: nat, a: Action): (r: seq<Action>)
    ensures |r| == n
  {
    if n == 0 then [] else Times(n - 1, a) + [a]
  }

  // ---- One handler call ---------------------------------------------------------------------------------

  function Recording(t: nat, e: Event): seq<Action> {
    [Reserve(t, e)] + (Times(FIELDS, Fill(t)) + [Publish(t)])
  }

  /** The fields are written one by one. */
  lemma {:induction false} FieldsFilled(s: Ring, t: nat, n: nat)
    requires |s.slots| == MAX_PENDING && t in s.producers && s.producers[t].slot < MAX_PENDING
    requires s.producers[t].done == 0 && n <= FIELDS
    ensures var p, slot := s.producers[t], s.slots[s.producers[t].slot];
            var fields: Event := p.event[..n] + slot.fields[n..];
            Run(s, Times(n, Fill(t))) == Some(s.(slots := s.slots[p.slot := Slot(slot.ready, fields)],
                                                 producers := s.producers[t := p.(done := n)]))
  {
    var p, slot := s.producers[t], s.slots[s.producers[t].slot];
    if n == 0 {
      assert p.event[..0] + slot.fields[0..] == slot.fields;
      assert s.slots[p.slot := slot] == s.slots && s.producers[t := p] == s.producers;
    } else {
      FieldsFilled(s, t, n - 1);
      var mid := Run(s, Times(n - 1, Fill(t))).value;
      var was: Event := p.event[..n - 1] + slot.fields[n - 1..];
      var now: Event := p.event[..n] + slot.fields[n..];
      assert now == was[n - 1 := p.event[n - 1]];
      FieldWritten(s, t, n - 1, was, now);
      hide Step;
      var end := s.(slots := s.slots[p.slot := Slot(slot.ready, now)], producers := s.producers[t := p.(done := n)]);
      RunOne(mid, Fill(t), end);
      RunConcat(s, Times(n - 1, Fill(t)), [Fill(t)]);
    }
  }

  lemma FieldWritten(s: Ring, t: nat, n: nat, was: Event, now: Event)
    requires |s.slots| == MAX_PENDING && t in s.producers && s.producers[t].slot < MAX_PENDING && n < FIELDS
    requires now == was[n := s.producers[t].event[n]]
    ensures var p, ready := s.producers[t], s.slots[s.producers[t].slot].ready;
            Step(s.(slots := s.slots[p.slot := Slot(ready, was)], producers := s.producers[t := p.(done := n)]),
                 Fill(t)) ==
              Some(s.(slots := s.slots[p.slot := Slot(ready, now)], producers := s.producers[t := p.(done := n + 1)]))
  {
    var p, ready := s.producers[t], s.slots[s.producers[t].slot].ready;
    assert s.slots[p.slot := Slot(ready, was)][p.slot := Slot(ready, now)] == s.slots[p.slot := Slot(ready, now)];
    assert s.producers[t := p.(done := n)][t := p.(done := n + 1)] == s.producers[t := p.(done := n + 1)];
  }

  lemma Reserved(s: Ring, t: nat, e: Event)
    requires InShape(s) && t !in s.producers
    ensures Run(s, [Reserve(t, e)]) ==
              Some(s.(producers := s.producers[t := Producer(s.writeIdx % MAX_PENDING, e, 0, |s.reserved|)],
                      writeIdx := (s.writeIdx + 1) % INDEX_SPAN, reserved := s.reserved + [e]))
  {
    RunOne(s, Reserve(t, e), Step(s, Reserve(t, e)).value);
  }

  lemma Published(s: Ring, t: nat, p: Producer)
    requires |s.slots| == MAX_PENDING && t !in s.producers && p.slot < MAX_PENDING && p.done == FIELDS
    ensures Run(s.(producers := s.producers[t := p]), [Publish(t)]) ==
              Some(s.(slots := s.slots[p.slot := Slot(true, s.slots[p.slot].fields)]))
  {
    var before := s.(producers := s.producers[t := p]);
    assert before.producers - {t} == s.producers;
    RunOne(before, Publish(t), s.(slots := s.slots[p.slot := Slot(true, s.slots[p.slot].fields)]));
  }

  /** A handler that runs without interruption does to the ring what recording an access is. */
  lemma CallRecords(s: Ring, t: nat, e: Event)
    requires InShape(s) && t !in s.producers
    ensures Run(s, Recording(t, e)).Some?
    ensures var r := Run(s, Recording(t, e)).value;
            && ViewOf(r) == Recorded(ViewOf(s), e)
            && r == s.(slots := r.slots, writeIdx := r.writeIdx, reserved := s.reserved + [e])
  {
    hide Step, Run, Times;
    var q := s.writeIdx % MAX_PENDING;
    Reserved(s, t, e);
    var s1 := Run(s, [Reserve(t, e)]).value;
    FieldsFilled(s1, t, FIELDS);
    assert e[..FIELDS] + s.slots[q].fields[FIELDS..] == e;
    var s2 := s.(slots := s.slots[q := Slot(s.slots[q].ready, e)], writeIdx := s1.writeIdx, reserved := s1.reserved);
    var p := s1.producers[t].(done := FIELDS);
    assert s1.producers[t := p] == s.producers[t := p];
    Published(s2, t, p);
    assert s2.slots[q := Slot(true, e)] == s.slots[q := Slot(true, e)];
    RunConcat(s1, Times(FIELDS, Fill(t)), [Publish(t)]);
    RunConcat(s, [Reserve(t, e)], Times(FIELDS, Fill(t)) + [Publish(t)]);
  }

  // ---- One drain ----------------------------------------------------------------------------------------

  const TURN: seq<Action> := [Check] + (Times(FIELDS, ReadField) + [Deliver, Clear, Advance])

  /** What a drain without interruption does, up to `goal`. */
  function Turns(v: View, goal: nat): seq<Action>
    requires Shaped(v) && goal < INDEX_SPAN
    decreases Distance(v.read, goal)
  {
    if v.read == goal || !v.slots[v.read % MAX_PENDING].ready then [Check]
    else
      DistanceShrinks(v.read, goal);
      TURN + Turns(Taken(v), goal)
  }

  lemma {:induction false} FieldsRead(s: Ring, n: nat)
    requires |s.slots| == MAX_PENDING && s.consumer.Reading? && s.consumer.got == [] && n <= FIELDS
    ensures var fields := s.slots[s.consumer.read % MAX_PENDING].fields;
            Run(s, Times(n, ReadField)) ==
              Some(s.(consumer := Reading(s.consumer.read, s.consumer.write, s.consumer.goal, fields[..n])))
  {
    var Reading(read, write, goal, _) := s.consumer;
    var fields := s.slots[read % MAX_PENDING].fields;
    if n == 0 {
      assert fields[..0] == [];
    } else {
      FieldsRead(s, n - 1);
      var mid := Run(s, Times(n - 1, ReadField)).value;
      assert fields[..n] == fields[..n - 1] + [fields[n - 1]];
      RunOne(mid, ReadField, s.(consumer := Reading(read, write, goal, fields[..n])));
      RunConcat(s, Times(n - 1, ReadField), [ReadField]);
    }
  }

  /** The end of a turn: hand over, clear, advance. */
  lemma TurnEnds(s: Ring)
    requires InShape(s) && s.consumer.Reading? && |s.consumer.got| == FIELDS
    ensures var Reading(read, write, goal, got) := s.consumer;
            var q, next := read % MAX_PENDING, (read + 1) % INDEX_SPAN;
            Run(s, [Deliver, Clear, Advance]) ==
              Some(s.(slots := s.slots[q := s.slots[q].(ready := false)], readIdx := next,
                      consumer := Checking(next, write, goal), delivered := s.delivered + [got],
                      cleared := s.cleared + 1))
  {
    var s3 := Step(s, Deliver).value;
    var s4 := Step(s3, Clear).value;
    var s5 := Step(s4, Advance).value;
    RunOne(s4, Advance, s5);
    RunOne(s3, Clear, s4);
    RunOne(s, Deliver, s3);
    hide Step, Run;
    RunConcat(s3, [Clear], [Advance]);
    assert [Clear] + [Advance] == [Clear, Advance];
    RunConcat(s, [Deliver], [Clear, Advance]);
    assert [Deliver] + [Clear, Advance] == [Deliver, Clear, Advance];
  }

  lemma TurnBegins(s: Ring)
    requires InShape(s) && s.consumer.Checking? && s.consumer.read != s.consumer.write
    requires s.slots[s.consumer.read % MAX_PENDING].ready
    ensures Run(s, [Check]) == Some(s.(consumer := Reading(s.consumer.read, s.consumer.write, s.consumer.goal, [])))
  {
    RunOne(s, Check, s.(consumer := Reading(s.consumer.read, s.consumer.write, s.consumer.goal, [])));
  }

  /** One turn of the drain takes the slot at the read index and hands its event over. */
  lemma TurnTakes(s: Ring)
    requires InShape(s) && s.consumer.Checking? && s.consumer.read == s.readIdx != s.consumer.write
    requires s.slots[s.readIdx % MAX_PENDING].ready
    ensures var r := s.(slots := Taken(ViewOf(s)).slots, readIdx := Taken(ViewOf(s)).read,
                        consumer := Checking(Taken(ViewOf(s)).read, s.consumer.write, s.consumer.goal),
                        delivered := s.delivered + [s.slots[s.readIdx % MAX_PENDING].fields], cleared := s.cleared + 1);
            Run(s, TURN) == Some(r) && ViewOf(r) == Taken(ViewOf(s))
  {
    hide Step, Run, Times;
    var Checking(read, write, goal) := s.consumer;
    var fields := s.slots[read % MAX_PENDING].fields;
    TurnBegins(s);
    var s1 := s.(consumer := Reading(read, write, goal, []));
    FieldsRead(s1, FIELDS);
    assert fields[..FIELDS] == fields;
    TurnEnds(s.(consumer := Reading(read, write, goal, fields)));
    RunConcat(s1, Times(FIELDS, ReadField), [Deliver, Clear, Advance]);
    RunConcat(s, [Check], Times(FIELDS, ReadField) + [Deliver, Clear, Advance]);
  }

  lemma DrainRests(s: Ring)
    requires InShape(s) && s.consumer.Checking?
    requires s.consumer.read == s.consumer.write || !s.slots[s.consumer.read % MAX_PENDING].ready
    ensures Run(s, [Check]) == Some(s.(consumer := Resting)) && s.delivered + [] == s.delivered
  {
    RunOne(s, Check, s.(consumer := Resting));
  }

  /** What has been handed over and cleared when the ring is `after`. */
  function Having(s: Ring, events: seq<Event>, after: View): Ring {
    s.(slots := after.slots, readIdx := after.read, consumer := Resting,
       delivered := s.delivered + events, cleared := s.cleared + |events|)
  }

  lemma OneTurn(v: View, goal: nat)
    requires Shaped(v) && goal < INDEX_SPAN
    ensures v.read != goal ==> Distance(Taken(v).read, goal) < Distance(v.read, goal)
    ensures if v.read == goal || !v.slots[v.read % MAX_PENDING].ready
            then Drained(v, goal) == ([], v) && Turns(v, goal) == [Check]
            else
              && Drained(v, goal) ==
                ([v.slots[v.read % MAX_PENDING].fields] + Drained(Taken(v), goal).0, Drained(Taken(v), goal).1)
              && Turns(v, goal) == TURN + Turns(Taken(v), goal)
  {
    if v.read != goal {
      DistanceShrinks(v.read, goal);
    }
  }

  lemma {:induction false} TurnsDrain(s: Ring)
    requires InShape(s) && s.consumer.Checking? && s.consumer.read == s.readIdx && s.consumer.write < INDEX_SPAN
    ensures var (events, after) := Drained(ViewOf(s), s.consumer.write);
            Run(s, Turns(ViewOf(s), s.consumer.write)) == Some(Having(s, events, after))
    decreases Distance(s.readIdx, s.consumer.write)
  {
    hide Step, Run, Taken, Drained, Turns, TURN;
    var v, goal := ViewOf(s), s.consumer.write;
    var slot := s.slots[s.readIdx % MAX_PENDING];
    OneTurn(v, goal);
    if s.readIdx == goal || !slot.ready {
      DrainRests(s);
    } else {
      TurnTakes(s);
      var r := s.(slots := Taken(v).slots, readIdx := Taken(v).read,
                  consumer := Checking(Taken(v).read, goal, s.consumer.goal),
                  delivered := s.delivered + [slot.fields], cleared := s.cleared + 1);
      TurnsDrain(r);
      var rest := Drained(Taken(v), goal);
      assert s.delivered + [slot.fields] + rest.0 == s.delivered + ([slot.fields] + rest.0);
      RunConcat(s, TURN, Turns(Taken(v), goal));
    }
  }

  lemma DrainLoads(s: Ring)
    requires |s.slots| == MAX_PENDING && s.consumer.Resting?
    ensures Run(s, [Begin, Load]) == Some(s.(consumer := Checking(s.readIdx, s.writeIdx, |s.reserved|)))
  {
    var s1 := s.(consumer := Loading(s.readIdx));
    RunOne(s1, Load, s.(consumer := Checking(s.readIdx, s.writeIdx, |s.reserved|)));
    RunOne(s, Begin, s1);
    hide Step, Run;
    RunConcat(s, [Begin], [Load]);
    assert [Begin] + [Load] == [Begin, Load];
  }

  /** A drain that runs without interruption hands over what `Drained` says and leaves that ring. */
  lemma CallDrains(s: Ring)
    requires InShape(s) && s.consumer.Resting?
    ensures var (events, after) := Drained(ViewOf(s), s.writeIdx);
            Run(s, [Begin, Load] + Turns(ViewOf(s), s.writeIdx)) == Some(Having(s, events, after))
  {
    hide Step, Run, Drained, Turns;
    DrainLoads(s);
    TurnsDrain(s.(consumer := Checking(s.readIdx, s.writeIdx, |s.reserved|)));
    RunConcat(s, [Begin, Load], Turns(ViewOf(s), s.writeIdx));
  }

  // ---- Nothing stays behind --------------------------------------------------------------------------------

  /** With no handler and no drain in flight the ring is the queue of the events not yet delivered. */
  lemma QuietIsQueue(first: nat, s: Ring)
    requires Inv(first, s) && first < INDEX_SPAN && s.producers == map[] && s.consumer.Resting?
    ensures Queue(ViewOf(s), s.reserved[s.cleared..])
  {
    var v, q := ViewOf(s), s.reserved[s.cleared..];
    WrappedSum(first + s.cleared, |q|);
    WrappedSlot(first + s.cleared);
    forall i | 0 <= i < MAX_PENDING ensures QueueSlot(v, q, i) {
      WrappedSlotSum(first + s.cleared, i);
      TicketSlot(first, s.cleared, s.cleared + i);
      assert SlotOk(first, s, (first + (s.cleared + i)) % MAX_PENDING);
    }
  }

  lemma WrappedSlotSum(a: nat, i: nat)
    ensures (a % INDEX_SPAN + i) % MAX_PENDING == (a + i) % MAX_PENDING
  {
    WrappedSlot(a);
    var k := a % INDEX_SPAN / MAX_PENDING;
    var l := a / MAX_PENDING;
    assert a % INDEX_SPAN == MAX_PENDING * k + a % MAX_PENDING;
    assert a == MAX_PENDING * l + a % MAX_PENDING;
    SlotSum(a % MAX_PENDING, i, k);
    SlotSum(a % MAX_PENDING, i, l);
  }

  lemma SlotSum(r: nat, i: nat, k: nat)
    ensures (MAX_PENDING * k + r + i) % MAX_PENDING == (r + i) % MAX_PENDING
  {
  }

  /** A drain with no handler in flight delivers everything. */
  lemma QuietDrainDelivers(first: nat, s: Ring)
    requires Inv(first, s) && first < INDEX_SPAN && s.producers == map[] && s.consumer.Resting?
    ensures InShape(s)
    ensures Run(s, [Begin, Load] + Turns(ViewOf(s), s.writeIdx)).Some?
    ensures Run(s, [Begin, Load] + Turns(ViewOf(s), s.writeIdx)).value.delivered == s.reserved
  {
    QuietIsQueue(first, s);
    CallDrains(s);
    DrainedQueue(ViewOf(s), s.reserved[s.cleared..]);
    assert s.reserved[..s.cleared] + s.reserved[s.cleared..] == s.reserved;
  }

  // ---- The same under any interleaving ------------------------------------------------------------------------

  /** Every event with a ticket below `goal` is published. */
  ghost predicate Complete(s: Ring, goal: nat) {
    forall t :: t in s.producers ==> s.producers[t].ticket >= goal
  }

  /** The drain that loaded the write index when `goal` events were reserved is at work, or it has
      delivered them. */
  ghost predicate Draining(s: Ring, goal: nat) {
    match s.consumer
    case Resting => |s.delivered| >= goal
    case Loading(_) => false
    case Checking(_, _, g) => g == goal
    case Reading(_, _, g, _) => g == goal
    case Clearing(_, _, g) => g == goal
    case Advancing(_, _, g) => g == goal
  }

  lemma DrainGoes(first: nat, s: Ring, a: Action, s': Ring, goal: nat)
    requires Inv(first, s) && Step(s, a) == Some(s') && !a.Begin?
    requires Complete(s, goal) && goal <= |s.reserved| && Draining(s, goal)
    ensures Complete(s', goal) && Draining(s', goal) && s.reserved <= s'.reserved
  {
    hide SlotOk;
    match a
    case Check => HeadComplete(first, s, goal);
    case _ =>
  }

  /** The slot at the read index is ready, or the drain is through. */
  lemma HeadComplete(first: nat, s: Ring, goal: nat)
    requires Inv(first, s) && Complete(s, goal)
    requires s.consumer.Checking? && s.consumer.goal == goal
    ensures s.consumer.read != s.consumer.write ==> s.slots[s.consumer.read % MAX_PENDING].ready
    ensures s.consumer.read == s.consumer.write ==> s.cleared == goal
  {
    WrappedEqual(first + s.cleared, first + goal);
    if s.cleared < goal {
      WrappedSlot(first + s.cleared);
      NothingLost(first, s, s.cleared);
    }
  }

  /** Handlers may come and go while the drain is at work: when it rests, everything that was reserved
      and published when it loaded the write index has been delivered. */
  lemma {:induction false} DrainDelivers(first: nat, s: Ring, schedule: seq<Action>, goal: nat)
    requires Inv(first, s) && StaysBounded(s, schedule) && Run(s, schedule).Some?
    requires forall a <- schedule :: !a.Begin?
    requires Complete(s, goal) && goal <= |s.reserved| && Draining(s, goal)
    ensures var r := Run(s, schedule).value;
            && s.reserved <= r.reserved
            && (r.consumer.Resting? ==> |r.delivered| >= goal && r.delivered[..goal] == s.reserved[..goal])
    decreases |schedule|
  {
    hide Step, SlotsOk, ProducersOk, ConsumerOk, Draining, Complete;
    if schedule == [] {
      DrainedAll(s, goal);
    } else {
      var t := Step(s, schedule[0]).value;
      assert schedule[0] in schedule;
      StepKeeps(first, s, schedule[0], t);
      DrainGoes(first, s, schedule[0], t, goal);
      DrainDelivers(first, t, schedule[1..], goal);
    }
  }

  lemma DrainedAll(s: Ring, goal: nat)
    requires Draining(s, goal)
    ensures s.consumer.Resting? ==> |s.delivered| >= goal
  {
  }
}
