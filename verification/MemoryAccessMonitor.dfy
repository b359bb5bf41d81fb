/** One-shot page monitors: page protections, the fault handler, the pending ring and its drain
    (native_memory_access_monitor.cc, POSIX side). */
module MemoryAccessMonitor {
  import opened Words
  import opened Pages
  import opened Ring
  import opened PendingRing
  import opened Watches
  import opened ExceptionHandler
  import opened Process

  datatype AccessType = Read | Write | Execute | UnknownAccess

  function AccessCode(t: AccessType): int {
    match t
    case Read => 1
    case Write => 2
    case Execute => 3
    case UnknownAccess => 0
  }

  /** accessCodeToString: the name that goes with a code. */
  function AccessCodeToString(code: int): string {
    match code
    case 1 => "read"
    case 2 => "write"
    case 3 => "execute"
    case _ => "unknown"
  }

  /** A call of a monitor's onAccess callback; addresses are numbers here, hexadecimal text there. */
  datatype OnAccess = OnAccess(monitor: int, faultAddress: int, pageBase: int, accessType: string, rangeIndex: int)

  /** What the drain makes of a recorded access. */
  function CallOf(event: Event): OnAccess {
    OnAccess(event[0], event[1], event[2], AccessCodeToString(event[4]), event[3])
  }

  function CallsOf(events: seq<Event>): (calls: seq<OnAccess>)
    ensures |calls| == |events|
    ensures forall i :: 0 <= i < |events| ==> calls[i] == CallOf(events[i])
  {
    seq(|events|, i requires 0 <= i < |events| => CallOf(events[i]))
  }

  lemma CallsOfConcat(xs: seq<Event>, ys: seq<Event>)
    ensures CallsOf(xs + ys) == CallsOf(xs) + CallsOf(ys)
  {
    hide CallOf;
  }

  /** Each access comes out under its own name, with fault address, page and range where they belong. */
  lemma AccessReported(e: MonitorEntry, i: nat, faultAddr: Word, access: AccessType)
    requires i < |e.ranges|
    ensures CallOf(EventOf(e, i, faultAddr, AccessCode(access))) ==
              OnAccess(e.id, faultAddr, e.ranges[i].pageBase,
                match access
                case Read => "read"
                case Write => "write"
                case Execute => "execute"
                case UnknownAccess => "unknown",
                e.ranges[i].rangeIndex)
  {
  }

  /** The range `enable` watches for the i-th address and size. */
  function RangeFor(addr: Word, size: int, i: nat, pageSize: Word): WatchedRange
    requires pageSize > 0
  {
    WatchedRange(Wrap(PageBase(addr, pageSize)), Wrap(TotalSize(addr, Wrap(size), pageSize)), ReadWrite, i, false)
  }

  function RangesFor(addresses: seq<Word>, sizes: seq<int>, pageSize: Word): (ranges: seq<WatchedRange>)
    requires |addresses| == |sizes| && pageSize > 0
    ensures |ranges| == |addresses|
  {
    seq(|addresses|, i requires 0 <= i < |addresses| => RangeFor(addresses[i], sizes[i], i, pageSize))
  }

  lemma {:induction false} BlockedOneMore(m: Protections, ranges: seq<WatchedRange>, r: WatchedRange)
    ensures Blocked(m, ranges + [r]) == Protect(Blocked(m, ranges), r.pageBase, r.pageSize, NoAccess)
    decreases |ranges|
  {
    if ranges == [] {
      assert ranges + [r] == [r];
      assert [r][1..] == [];
    } else {
      assert (ranges + [r])[1..] == ranges[1..] + [r];
      BlockedOneMore(Protect(m, ranges[0].pageBase, ranges[0].pageSize, NoAccess), ranges[1..], r);
    }
  }

  /** The events whose monitor is still there. */
  function OfLive(events: seq<Event>, monitors: map<nat, MonitorEntry>): seq<Event> {
    if events == [] then []
    else (if events[0][0] in monitors then [events[0]] else []) + OfLive(events[1..], monitors)
  }

  lemma {:induction false} AllLive(events: seq<Event>, monitors: map<nat, MonitorEntry>)
    requires forall e <- events :: e[0] in monitors
    ensures OfLive(events, monitors) == events
  {
    if events != [] {
      AllLive(events[1..], monitors);
    }
  }

  /** `enable` takes a reference and registers the fault handler for both signals. */
  function Guarding(r: Registered): Registered {
    With(With(Stepped(r, RefEnable), AccessViolation, PageFault), BusError, PageFault)
  }

  function IdsOf(e: MonitorEntry): set<nat> {
    {e.segvHandlerId, e.busHandlerId}
  }

  /** The registrations of some monitors are gone, and so are their references. */
  function Let(r: Registered, ids: set<nat>, references: int): Registered {
    r.(handlers := WithoutIds(r.handlers, ids), life := r.life.(refCount := r.life.refCount - references))
  }

  lemma LetOneMore(r: Registered, ids: set<nat>, references: int, e: MonitorEntry)
    ensures Stepped(Minus(Minus(Let(r, ids, references), e.segvHandlerId), e.busHandlerId), RefDisable)
            == Let(r, ids + IdsOf(e), references + 1)
    ensures Let(r, {}, 0) == r
  {
    WithoutOneMore(r.handlers, ids, e.segvHandlerId);
    WithoutOneMore(r.handlers, ids + {e.segvHandlerId}, e.busHandlerId);
    assert ids + {e.segvHandlerId} + {e.busHandlerId} == ids + IdsOf(e);
  }

  ghost function HandlerIds(monitors: map<nat, MonitorEntry>, among: set<nat>): set<nat> {
    set id, h | id in monitors && id in among && h in IdsOf(monitors[id]) :: h
  }

  lemma MoreIds(monitors: map<nat, MonitorEntry>, among: set<nat>, id: nat)
    requires id in monitors
    ensures HandlerIds(monitors, among + {id}) == HandlerIds(monitors, among) + IdsOf(monitors[id])
  {
    forall h | h in HandlerIds(monitors, among) + IdsOf(monitors[id]) ensures h in HandlerIds(monitors, among + {id}) {
      if h in IdsOf(monitors[id]) {
        assert id in among + {id};
      } else {
        var i :| i in monitors && i in among && h in IdsOf(monitors[i]);
        assert i in among + {id};
      }
    }
  }

  /** The fault handler's test, on an unfired range. */
  predicate ClaimsAt(monitors: map<nat, MonitorEntry>, id: nat, i: int, faultAddr: Word) {
    && id in monitors && 0 <= i < |monitors[id].ranges|
    && !monitors[id].ranges[i].fired &&
      Claims(monitors[id].ranges[i].pageBase, monitors[id].ranges[i].pageSize, faultAddr)
  }

  /** As soon as a monitor is enabled, a fault on any requested byte is claimed, unless the range
      reaches the last page of the address space. */
  lemma RequestedFaultClaimed(monitors: map<nat, MonitorEntry>, id: nat, addresses: seq<Word>, sizes: seq<int>,
                              pageSize: Word,
                              i: nat, faultAddr: Word)
    requires PageSize(pageSize) && pageSize > 0 && |addresses| == |sizes| && i < |addresses|
    requires id in monitors && monitors[id].ranges == RangesFor(addresses, sizes, pageSize)
    requires 0 < sizes[i] < 0x8000_0000 && addresses[i] + sizes[i] <= WORD_SPAN
    requires addresses[i] <= faultAddr < addresses[i] + sizes[i]
    ensures ClaimsAt(monitors, id, i, faultAddr) <==> addresses[i] + sizes[i] <= WORD_SPAN - pageSize
  {
    hide PageBase, TotalSize;
    RequestedByteClaimed(addresses[i], sizes[i], pageSize, faultAddr);
  }

  class MemoryAccessMonitors {
    const handler: NativeExceptionHandler
    const pageSize: Word
    var prot: Protections
    var monitors: map<nat, MonitorEntry>
    var nextMonId: nat
    const entries: array<Slot>
    var writeIdx: nat
    var readIdx: nat
    /** The onAccess calls made so far. */
    var delivered: seq<OnAccess>
    /** The protections of the program's pages without the engine. */
    ghost const base: Protections
    /** Every access recorded so far, and those still in the ring. */
    ghost var recorded: seq<Event>
    ghost var pending: seq<Event>
    /** The accesses behind the calls made. */
    ghost var handed: seq<Event>

    ghost predicate Valid()
      reads this, entries
    {
      && PageSize(pageSize) && pageSize > 0
      && entries.Length == MAX_PENDING && writeIdx < INDEX_SPAN && readIdx < INDEX_SPAN
      && Logged(monitors, nextMonId, recorded)
      && delivered == CallsOf(handed)
    }

    function Pending(): (v: View)
      requires entries.Length == MAX_PENDING && writeIdx < INDEX_SPAN && readIdx < INDEX_SPAN
      reads this, entries
      ensures Shaped(v)
    {
      View(entries[..], writeIdx, readIdx)
    }

    /** Exactly the unfired ranges are inaccessible. */
    ghost predicate Protected()
      reads this
    {
      Exact(base, prot, monitors)
    }

    /** The ring has not overflowed: everything recorded has been handed to its monitor or waits for
        it in the ring, in order. */
    ghost predicate Delivering()
      requires Valid()
      reads this, entries
    {
      && Queue(Pending(), pending)
      && recorded == handed + pending
      && forall event <- pending :: event[0] in monitors
    }

    constructor (handler: NativeExceptionHandler, pageSize: Word, prot: Protections)
      requires PageSize(pageSize)
      ensures Valid() && nextMonId == 1 && Protected() && Delivering() && monitors == map[] && delivered == [] &&
                recorded == [] && pending == []
      ensures this.handler == handler && this.pageSize == pageSize && this.prot == prot && base == prot
      ensures fresh(entries)
    {
      PageDivides(pageSize);
      this.handler, this.pageSize, this.prot, base := handler, pageSize, prot, prot;
      monitors, nextMonId := map[], 1;
      entries := new Slot[MAX_PENDING](_ => Slot(false, [0, 0, 0, 0, 0]));
      writeIdx, readIdx, delivered := 0, 0, [];
      recorded, pending, handed := [], [], [];
    }

    /** A claimed range fires: it is marked, its protection comes back, the access is recorded. */
    method Fire(id: nat, i: nat, faultAddr: Word, access: AccessType)
      requires Valid() && id in monitors && i < |monitors[id].ranges| && !monitors[id].ranges[i].fired
      modifies this`monitors, this`prot, this`writeIdx, this`recorded, this`pending, entries
      ensures Valid()
      ensures var e := old(monitors)[id];
              && monitors == old(monitors)[id := Fired(e, i)]
              && prot == Protect(old(prot), e.ranges[i].pageBase, e.ranges[i].pageSize, e.ranges[i].originalProt)
              && Pending() == Recorded(old(Pending()), EventOf(e, i, faultAddr, AccessCode(access)))
              && recorded == old(recorded) + [EventOf(e, i, faultAddr, AccessCode(access))]
              && pending == old(pending) + [EventOf(e, i, faultAddr, AccessCode(access))]
      ensures old(Protected()) ==> Protected()
      ensures old(Delivering()) && old(|pending|) < MAX_PENDING ==> Delivering()
    {
      hide Logged, Exact, Queue;
      var e := monitors[id];
      var range := e.ranges[i];
      ghost var event := EventOf(e, i, faultAddr, AccessCode(access));
      FireLogs(monitors, nextMonId, recorded, id, i, faultAddr, AccessCode(access));
      if Protected() {
        FireKeeps(base, prot, monitors, id, i);
      }
      EntryNumbered(monitors, nextMonId, recorded, id);
      if Delivering() && |pending| < MAX_PENDING {
        RecordedQueue(Pending(), pending, event);
        assert recorded + [event] == handed + (pending + [event]);
      }
      monitors := monitors[id := Fired(e, i)];
      prot := Protect(prot, range.pageBase, range.pageSize, range.originalProt);
      var idx := writeIdx % MAX_PENDING;
      writeIdx := (writeIdx + 1) % INDEX_SPAN;
      entries[idx] := Slot(true, [e.id, faultAddr, range.pageBase, range.rangeIndex, AccessCode(access)]);
      recorded, pending := recorded + [event], pending + [event];
      assert Pending() == Recorded(old(Pending()), event);
    }

    /** monitorSegvHandler: the first unfired range around the fault, in whatever order the hash map
        lists the monitors. */
    method OnFault(faultAddr: Word, access: AccessType) returns (handled: bool, ghost id: nat, ghost i: nat)
      requires Valid()
      modifies this`monitors, this`prot, this`writeIdx, this`recorded, this`pending, entries
      ensures Valid()
      ensures handled <==> exists jd, j :: ClaimsAt(old(monitors), jd, j, faultAddr)
      ensures !handled ==> unchanged(this) && unchanged(entries)
      ensures handled ==>
                && ClaimsAt(old(monitors), id, i, faultAddr)
                && var e := old(monitors)[id];
                && monitors == old(monitors)[id := Fired(e, i)]
                && prot == Protect(old(prot), e.ranges[i].pageBase, e.ranges[i].pageSize, e.ranges[i].originalProt)
                && Pending() == Recorded(old(Pending()), EventOf(e, i, faultAddr, AccessCode(access)))
                && recorded == old(recorded) + [EventOf(e, i, faultAddr, AccessCode(access))]
                && pending == old(pending) + [EventOf(e, i, faultAddr, AccessCode(access))]
                && CallOf(EventOf(e, i, faultAddr, AccessCode(access))) ==
                     OnAccess(id, faultAddr, e.ranges[i].pageBase,
                         match access
                         case Read => "read"
                         case Write => "write"
                         case Execute => "execute"
                         case UnknownAccess => "unknown",
                         i)
      ensures old(Protected()) ==> Protected()
      ensures old(Delivering()) && old(|pending|) < MAX_PENDING ==> Delivering()
    {
      hide Logged, Exact, Queue, Fired, Claims, EventOf, CallOf, AccessCode;
      id, i := 0, 0;
      var todo := monitors.Keys;
      while todo != {}
        invariant todo <= monitors.Keys && unchanged(this) && unchanged(entries)
        invariant forall jd, j :: ClaimsAt(monitors, jd, j, faultAddr) ==> jd in todo
        decreases |todo|
      {
        var monitor :| monitor in todo;
        for k := 0 to |monitors[monitor].ranges|
          invariant unchanged(this) && unchanged(entries)
          invariant forall j :: ClaimsAt(monitors, monitor, j, faultAddr) ==> k <= j
        {
          var range := monitors[monitor].ranges[k];
          if !range.fired && Claims(range.pageBase, range.pageSize, faultAddr) {
            assert ClaimsAt(old(monitors), monitor, k, faultAddr);
            EntryNumbered(monitors, nextMonId, recorded, monitor);
            AccessReported(monitors[monitor], k, faultAddr, access);
            Fire(monitor, k, faultAddr, access);
            return true, monitor, k;
          }
        }
        todo := todo - {monitor};
      }
      return false, 0, 0;
    }

    /** drainPending: hand over what was there when the drain began.  Afterwards nothing recorded is
        left undelivered. */
    method DrainPending() returns (count: nat)
      requires Valid()
      modifies this`readIdx, this`delivered, this`handed, this`pending, entries
      ensures Valid()
      ensures Pending() == old(Drained(Pending(), writeIdx)).1
      ensures count == |old(Drained(Pending(), writeIdx)).0|
      ensures delivered == old(delivered) + CallsOf(OfLive(old(Drained(Pending(), writeIdx)).0, monitors))
      ensures old(Delivering()) ==>
                && Delivering() && pending == [] && count == old(|pending|)
                && delivered == old(delivered) + CallsOf(old(pending)) == CallsOf(recorded)
    {
      hide Logged, Queue, Drained, Underway, OfLive, AccessCodeToString;
      ghost var start := Pending();
      ghost var done: seq<Event> := [];
      count := 0;
      var read := readIdx;
      var write := writeIdx;
      DrainBegins(start, write, monitors);
      while read != write
        invariant Valid() && readIdx == read && writeIdx == write
        invariant Underway(start, write, done, Pending())
        invariant handed == old(handed) + OfLive(done, monitors) && count == |done|
        decreases Distance(read, write)
      {
        var idx := read % MAX_PENDING;
        DrainGoesOn(start, write, done, Pending());
        if !entries[idx].ready {
          break;
        }
        var event := entries[idx].fields;
        DistanceShrinks(read, write);
        OfLiveOneMore(done, event, monitors);
        if event[0] in monitors {
          CallsOfConcat(handed, [event]);
          delivered := delivered + [OnAccess(event[0], event[1], event[2], AccessCodeToString(event[4]), event[3])];
          handed := handed + [event];
        }
        ghost var before := Pending();
        entries[idx] := entries[idx].(ready := false);
        read := (read + 1) % INDEX_SPAN;
        readIdx := read;
        assert Pending() == Taken(before);
        done := done + [event];
        count := count + 1;
      }
      DrainEnds(start, write, done, Pending());
      CallsOfConcat(old(handed), OfLive(done, monitors));
      if old(Delivering()) {
        DrainedQueue(start, old(pending));
        AllLive(old(pending), monitors);
        pending := [];
      }
    }

    /** Round every range out to pages and take all permissions from it. */
    method BlockRanges(addresses: seq<Word>, sizes: seq<int>) returns (ranges: seq<WatchedRange>)
      requires |addresses| == |sizes| && pageSize > 0
      modifies this`prot
      ensures ranges == RangesFor(addresses, sizes, pageSize) && prot == Blocked(old(prot), ranges)
    {
      hide RangeFor;
      ranges := [];
      for i := 0 to |addresses|
        invariant ranges == RangesFor(addresses, sizes, pageSize)[..i]
        invariant prot == Blocked(old(prot), ranges)
      {
        BlockedOneMore(old(prot), ranges, RangeFor(addresses[i], sizes[i], i, pageSize));
        var range := RangeFor(addresses[i], sizes[i], i, pageSize);
        ranges := ranges + [range];
        prot := Protect(prot, range.pageBase, range.pageSize, NoAccess);
      }
    }

    method Enable(addresses: seq<Word>, sizes: seq<int>) returns (r: Result<nat>)
      requires Valid()
      modifies this`prot, this`monitors, this`nextMonId, handler
      ensures Valid()
      ensures r.Ok? <==> |addresses| == |sizes|
      ensures r.Error? ==> unchanged(this) && handler.View() == old(handler.View())
      ensures r.Ok? ==>
                var ranges := RangesFor(addresses, sizes, pageSize);
                && r.value == old(nextMonId) && nextMonId == r.value + 1 && r.value !in old(monitors)
                && monitors ==
                  old(monitors)[r.value := MonitorEntry(r.value, ranges, old(handler.nextId), old(handler.nextId) + 1)]
                && prot == Blocked(old(prot), ranges)
                && handler.View() == Guarding(old(handler.View()))
                && (old(Protected()) ==> (Protected() <==> Free(base, old(monitors), ranges)))
      ensures recorded == old(recorded) && pending == old(pending)
      ensures old(Delivering()) ==> Delivering()
    {
      hide Logged, Exact, Free, Queue, RangesFor, Blocked;
      if |addresses| != |sizes| {
        return Error("addresses and sizes arrays must have the same length");
      }
      handler.DoRefEnable();
      var id := nextMonId;
      nextMonId := nextMonId + 1;
      var ranges := BlockRanges(addresses, sizes);
      var segv := handler.RegisterHandler(AccessViolation, PageFault);
      var bus := handler.RegisterHandler(BusError, PageFault);
      var monitor := MonitorEntry(id, ranges, segv, bus);
      RangesNumbered(monitor, addresses, sizes, pageSize);
      EnableLogs(monitors, id, recorded, monitor);
      IdIsNew(monitors, id, recorded);
      if old(Protected()) && Free(base, monitors, ranges) {
        EnableKeeps(base, old(prot), monitors, monitor);
      }
      if Exact(base, prot, monitors[id := monitor]) {
        EnableNeedsFree(base, prot, monitors, monitor);
      }
      monitors := monitors[id := monitor];
      return Ok(id);
    }

    /** Unfired ranges get their protection back, both handlers and the reference go. */
    method RestoreEntry(monitor: MonitorEntry)
      modifies this`prot, handler
      ensures prot == Restored(old(prot), monitor.ranges)
      ensures handler.View() ==
                Stepped(Minus(Minus(old(handler.View()), monitor.segvHandlerId), monitor.busHandlerId), RefDisable)
    {
      for i := 0 to |monitor.ranges|
        invariant Restored(old(prot), monitor.ranges) == Restored(prot, monitor.ranges[i..])
        invariant handler.View() == old(handler.View())
      {
        var range := monitor.ranges[i];
        assert monitor.ranges[i..][1..] == monitor.ranges[i + 1..];
        if !range.fired {
          prot := Protect(prot, range.pageBase, range.pageSize, range.originalProt);
        }
      }
      handler.UnregisterHandler(monitor.segvHandlerId);
      handler.UnregisterHandler(monitor.busHandlerId);
      handler.DoRefDisable();
    }

    /** The drain comes first, so no event of the monitor is lost. */
    method Disable(id: nat)
      requires Valid()
      modifies this`prot, this`monitors, this`readIdx, this`delivered, this`handed, this`pending, entries, handler
      ensures Valid()
      ensures id !in old(monitors) ==>
                monitors == old(monitors) && prot == old(prot) && handler.View() == old(handler.View())
      ensures id in old(monitors) ==>
                var e := old(monitors)[id];
                && monitors == old(monitors) - {id}
                && prot == Restored(old(prot), e.ranges)
                && handler.View() ==
                  Stepped(Minus(Minus(old(handler.View()), e.segvHandlerId), e.busHandlerId), RefDisable)
      ensures old(Protected()) ==> Protected()
      ensures old(Delivering()) ==> Delivering() && pending == [] && delivered == CallsOf(recorded)
    {
      hide Logged, Exact, Queue, Drained, Restored, Stepped, Minus;
      var _ := DrainPending();
      if id !in monitors {
        return;
      }
      if Protected() {
        DisableKeeps(base, prot, monitors, id);
      }
      LoggedWithout(monitors, nextMonId, recorded, id);
      RestoreEntry(monitors[id]);
      monitors := monitors - {id};
    }

    /** Every monitor's ranges restored, in whatever order the hash map lists the monitors. */
    method RestoreAll()
      requires Valid()
      modifies this`prot, handler
      ensures handler.View() == Let(old(handler.View()), HandlerIds(monitors, monitors.Keys), |monitors|)
      ensures old(Protected()) ==> forall x: int :: prot(x) == base(x)
    {
      hide Logged, Exact, Restored, HandlerIds, Let, Stepped, Minus, IdsOf, Without;
      var todo := monitors.Keys;
      ghost var gone: set<nat> := {};
      LetOneMore(handler.View(), {}, 0, MonitorEntry(0, [], 0, 0));
      NoIds(monitors);
      while todo != {}
        invariant todo + gone == monitors.Keys && todo !! gone
        invariant old(Protected()) ==> Exact(base, prot, Without(monitors, gone))
        invariant handler.View() == Let(old(handler.View()), HandlerIds(monitors, gone), |gone|)
        decreases |todo|
      {
        var id :| id in todo;
        if old(Protected()) {
          OneMoreGone(base, prot, monitors, gone, id);
        }
        MoreIds(monitors, gone, id);
        LetOneMore(old(handler.View()), HandlerIds(monitors, gone), |gone|, monitors[id]);
        RestoreEntry(monitors[id]);
        todo := todo - {id};
        gone := gone + {id};
      }
      assert gone == monitors.Keys;
      if old(Protected()) {
        AllGone(base, prot, monitors);
      }
    }

    method DisableAll()
      requires Valid()
      modifies this`prot, this`monitors, this`readIdx, this`delivered, this`handed, this`pending, entries, handler
      ensures Valid() && monitors == map[]
      ensures handler.View() == Let(old(handler.View()), HandlerIds(old(monitors), old(monitors.Keys)), |old(monitors)|)
      ensures old(Protected()) ==> forall x: int :: prot(x) == base(x)
      ensures old(Delivering()) ==> Delivering() && pending == [] && delivered == CallsOf(recorded)
    {
      hide Logged, Exact, Queue, Drained, HandlerIds, Let;
      var _ := DrainPending();
      RestoreAll();
      NoneLogged(monitors, nextMonId, recorded);
      monitors := map[];
    }
  }

  lemma RangesNumbered(e: MonitorEntry, addresses: seq<Word>, sizes: seq<int>, pageSize: Word)
    requires |addresses| == |sizes| && pageSize > 0 && e.ranges == RangesFor(addresses, sizes, pageSize)
    ensures Numbered(e.id, e) && forall r <- e.ranges :: !r.fired
  {
  }

  /** `x` is on a page of the i-th request. */
  ghost predicate Asked(addresses: seq<Word>, sizes: seq<int>, pageSize: Word, i: int, x: int)
    requires |addresses| == |sizes| && pageSize > 0
  {
    0 <= i < |addresses| && OnPages(addresses[i], sizes[i], pageSize, x)
  }

  lemma AskedIsWatched(addresses: seq<Word>, sizes: seq<int>, pageSize: Word, i: int, x: int)
    requires PageSize(pageSize) && pageSize > 0 && |addresses| == |sizes|
    requires 0 <= i < |addresses| ==> 0 < sizes[i] < 0x8000_0000 && addresses[i] + sizes[i] <= WORD_SPAN
    ensures WatchesAt(RangesFor(addresses, sizes, pageSize), i, x) <==> Asked(addresses, sizes, pageSize, i, x)
  {
    hide PageBase, TotalSize, OnPages;
    if 0 <= i < |addresses| {
      RoundedToPages(addresses[i], sizes[i], pageSize, x);
      RequestedByteClaimed(addresses[i], sizes[i], pageSize, addresses[i]);
    }
  }

  /** The condition of `enable`, page by page: every page asked for is read-write and not watched, and no
      page is asked for twice. */
  lemma FreeIff(base: Protections, monitors: map<nat, MonitorEntry>, addresses: seq<Word>, sizes: seq<int>,
                pageSize: Word)
    requires PageSize(pageSize) && pageSize > 0 && |addresses| == |sizes|
    requires forall i :: 0 <= i < |addresses| ==> 0 < sizes[i] < 0x8000_0000 && addresses[i] + sizes[i] <= WORD_SPAN
    ensures Free(base, monitors, RangesFor(addresses, sizes, pageSize)) <==>
              && (forall i, x: int :: Asked(addresses, sizes, pageSize, i, x) ==>
                  base(x) == ReadWrite && !Watched(monitors, x))
              && (forall i, j, x: int ::
                    Asked(addresses, sizes, pageSize, i, x) && Asked(addresses, sizes, pageSize, j, x) ==> i == j)
  {
    hide Asked, WatchesAt, Watched;
    var ranges := RangesFor(addresses, sizes, pageSize);
    forall i, x: int ensures WatchesAt(ranges, i, x) <==> Asked(addresses, sizes, pageSize, i, x) {
      AskedIsWatched(addresses, sizes, pageSize, i, x);
    }
    forall i, x: int | Asked(addresses, sizes, pageSize, i, x) ensures Watching(ranges, x) {
      assert WatchesAt(ranges, i, x);
    }
  }

  lemma IdIsNew(monitors: map<nat, MonitorEntry>, next: nat, recorded: seq<Event>)
    requires Logged(monitors, next, recorded)
    ensures next !in monitors
  {
  }

  lemma LoggedWithout(monitors: map<nat, MonitorEntry>, next: nat, recorded: seq<Event>, id: nat)
    requires Logged(monitors, next, recorded)
    ensures Logged(monitors - {id}, next, recorded)
  {
  }

  lemma NoneLogged(monitors: map<nat, MonitorEntry>, next: nat, recorded: seq<Event>)
    requires Logged(monitors, next, recorded)
    ensures Logged(map[], next, recorded)
  {
  }

  lemma NoIds(monitors: map<nat, MonitorEntry>)
    ensures HandlerIds(monitors, {}) == {} && Without(monitors, {}) == monitors
  {
  }

  lemma OneMoreGone(base: Protections, prot: Protections, monitors: map<nat, MonitorEntry>, gone: set<nat>, id: nat)
    requires Exact(base, prot, Without(monitors, gone)) && id in monitors && id !in gone
    ensures Exact(base, Restored(prot, monitors[id].ranges), Without(monitors, gone + {id}))
  {
    hide Exact, Restored;
    assert Without(monitors, gone)[id] == monitors[id];
    DisableKeeps(base, prot, Without(monitors, gone), id);
    assert Without(monitors, gone) - {id} == Without(monitors, gone + {id});
  }

  lemma AllGone(base: Protections, prot: Protections, monitors: map<nat, MonitorEntry>)
    requires Exact(base, prot, Without(monitors, monitors.Keys))
    ensures forall x: int :: prot(x) == base(x)
  {
    assert Without(monitors, monitors.Keys) == map[];
    NothingWatched(base, prot);
  }

  // ---- The drain loop ---------------------------------------------------------------------------------

  /** What is still to come, after `done`, from the ring as it is now. */
  predicate Underway(start: View, goal: nat, done: seq<Event>, now: View) {
    && Shaped(start) && Shaped(now) && goal < INDEX_SPAN
    && Drained(start, goal) == (done + Drained(now, goal).0, Drained(now, goal).1)
  }

  lemma DrainBegins(start: View, goal: nat, monitors: map<nat, MonitorEntry>)
    requires Shaped(start) && goal < INDEX_SPAN
    ensures Underway(start, goal, [], start) && OfLive([], monitors) == []
  {
    assert [] + Drained(start, goal).0 == Drained(start, goal).0;
  }

  lemma DrainGoesOn(start: View, goal: nat, done: seq<Event>, now: View)
    requires Underway(start, goal, done, now) && now.read != goal
    ensures var slot := now.slots[now.read % MAX_PENDING];
            slot.ready ==> Underway(start, goal, done + [slot.fields], Taken(now))
  {
    var slot := now.slots[now.read % MAX_PENDING];
    if slot.ready {
      var rest := Drained(Taken(now), goal).0;
      assert done + ([slot.fields] + rest) == done + [slot.fields] + rest;
    }
  }

  lemma DrainEnds(start: View, goal: nat, done: seq<Event>, now: View)
    requires Underway(start, goal, done, now)
    requires now.read == goal || !now.slots[now.read % MAX_PENDING].ready
    ensures Drained(start, goal) == (done, now)
  {
    assert done + [] == done;
  }

  lemma EntryNumbered(monitors: map<nat, MonitorEntry>, next: nat, recorded: seq<Event>, id: nat)
    requires Logged(monitors, next, recorded) && id in monitors
    ensures monitors[id].id == id && forall i :: 0 <= i < |monitors[id].ranges| ==>
              monitors[id].ranges[i].rangeIndex == i
  {
    assert Numbered(id, monitors[id]);
  }

  lemma {:induction false} OfLiveOneMore(events: seq<Event>, event: Event, monitors: map<nat, MonitorEntry>)
    ensures OfLive(events + [event], monitors) ==
              OfLive(events, monitors) + if event[0] in monitors then [event] else []
  {
    if events != [] {
      OfLiveOneMore(events[1..], event, monitors);
      assert (events + [event])[1..] == events[1..] + [event];
    }
  }
}
