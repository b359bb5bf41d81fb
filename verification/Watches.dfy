/** Watched ranges as values: what the protections of the pages are, and which accesses have been
    recorded for whom. */
module Watches {
  import opened Words
  import opened Pages
  import opened Ring

  datatype Protection = NoAccess | ReadWrite | OtherAccess(flags: int)

  type Protections = int -> Protection

  function Protect(m: Protections, base: int, size: nat, prot: Protection): Protections {
    (x: int) => if base <= x < base + size then prot else m(x)
  }

  datatype WatchedRange = WatchedRange(pageBase: Word, pageSize: Word, originalProt: Protection, rangeIndex: int,
                                       fired: bool)

  datatype MonitorEntry = MonitorEntry(id: nat, ranges: seq<WatchedRange>, segvHandlerId: nat, busHandlerId: nat)

  predicate InRange(r: WatchedRange, x: int) {
    r.pageBase <= x < r.pageBase + r.pageSize
  }

  /** The entry after its range `i` has fired. */
  function Fired(e: MonitorEntry, i: nat): (e': MonitorEntry)
    requires i < |e.ranges|
    ensures e' == MonitorEntry(e.id, e'.ranges, e.segvHandlerId, e.busHandlerId) && |e'.ranges| == |e.ranges|
    ensures forall j :: 0 <= j < |e.ranges| ==>
              e'.ranges[j] == WatchedRange(e.ranges[j].pageBase, e.ranges[j].pageSize, e.ranges[j].originalProt,
                                           e.ranges[j].rangeIndex, j == i || e.ranges[j].fired)
  {
    e.(ranges := e.ranges[i := e.ranges[i].(fired := true)])
  }

  /** PROT_NONE on every range, in order. */
  function Blocked(m: Protections, ranges: seq<WatchedRange>): Protections
    decreases |ranges|
  {
    if ranges == [] then m else Blocked(Protect(m, ranges[0].pageBase, ranges[0].pageSize, NoAccess), ranges[1..])
  }

  /** The saved protection back on every range that has not fired, in order. */
  function Restored(m: Protections, ranges: seq<WatchedRange>): Protections
    decreases |ranges|
  {
    if ranges == [] then m
    else
      var r := ranges[0];
      Restored(if r.fired then m else Protect(m, r.pageBase, r.pageSize, r.originalProt), ranges[1..])
  }

  // ---- Protections --------------------------------------------------------------------------------

  predicate WatchesAt(ranges: seq<WatchedRange>, i: int, x: int) {
    0 <= i < |ranges| && !ranges[i].fired && InRange(ranges[i], x)
  }

  ghost predicate Watching(ranges: seq<WatchedRange>, x: int) {
    exists i :: WatchesAt(ranges, i, x)
  }

  ghost predicate WatchedBy(monitors: map<nat, MonitorEntry>, id: nat, x: int) {
    id in monitors && Watching(monitors[id].ranges, x)
  }

  ghost predicate Watched(monitors: map<nat, MonitorEntry>, x: int) {
    exists id :: WatchedBy(monitors, id, x)
  }

  /** No byte is watched twice by one monitor, and all its ranges were read-write before. */
  ghost predicate RangesApart(ranges: seq<WatchedRange>) {
    && (forall i, j, x :: WatchesAt(ranges, i, x) && WatchesAt(ranges, j, x) ==> i == j)
    && (forall r <- ranges :: r.originalProt == ReadWrite)
  }

  /** Exactly the unfired ranges are inaccessible; everything else has its original protection. */
  ghost predicate Exact(base: Protections, m: Protections, monitors: map<nat, MonitorEntry>) {
    && (forall id <- monitors :: RangesApart(monitors[id].ranges))
    && (forall i, j, x: int :: WatchedBy(monitors, i, x) && WatchedBy(monitors, j, x) ==> i == j)
    && (forall x: int :: ExactAt(base, m, monitors, x))
  }

  ghost predicate ExactAt(base: Protections, m: Protections, monitors: map<nat, MonitorEntry>, x: int) {
    if Watched(monitors, x) then m(x) == NoAccess && base(x) == ReadWrite else m(x) == base(x)
  }

  lemma {:induction false} BlockedAt(m: Protections, ranges: seq<WatchedRange>, x: int)
    ensures Blocked(m, ranges)(x) == if exists i :: 0 <= i < |ranges| && InRange(ranges[i], x) then NoAccess else m(x)
    decreases |ranges|
  {
    if ranges != [] {
      var m' := Protect(m, ranges[0].pageBase, ranges[0].pageSize, NoAccess);
      BlockedAt(m', ranges[1..], x);
      if i :| 0 <= i < |ranges| && InRange(ranges[i], x) {
        if i > 0 {
          assert ranges[1..][i - 1] == ranges[i];
        }
      }
      if j :| 0 <= j < |ranges[1..]| && InRange(ranges[1..][j], x) {
        assert ranges[j + 1] == ranges[1..][j];
      }
    }
  }

  lemma {:induction false} RestoredAt(m: Protections, ranges: seq<WatchedRange>, x: int)
    requires forall r <- ranges :: r.originalProt == ReadWrite
    ensures Restored(m, ranges)(x) == if Watching(ranges, x) then ReadWrite else m(x)
    decreases |ranges|
  {
    if ranges != [] {
      var r := ranges[0];
      var m' := if r.fired then m else Protect(m, r.pageBase, r.pageSize, r.originalProt);
      RestoredAt(m', ranges[1..], x);
      if Watching(ranges, x) {
        var i :| WatchesAt(ranges, i, x);
        assert i > 0 ==> WatchesAt(ranges[1..], i - 1, x);
      }
      if Watching(ranges[1..], x) {
        var j :| WatchesAt(ranges[1..], j, x);
        assert WatchesAt(ranges, j + 1, x);
      }
      assert WatchesAt(ranges, 0, x) <==> !r.fired && InRange(r, x);
    }
  }

  /** Removing a monitor gives back exactly what it still watched. */
  lemma DisableKeeps(base: Protections, m: Protections, monitors: map<nat, MonitorEntry>, id: nat)
    requires Exact(base, m, monitors) && id in monitors
    ensures Exact(base, Restored(m, monitors[id].ranges), monitors - {id})
  {
    hide Restored, Watching, RangesApart;
    var rest := monitors - {id};
    assert forall i, x :: WatchedBy(rest, i, x) <==> i != id && WatchedBy(monitors, i, x);
    forall x: int ensures ExactAt(base, Restored(m, monitors[id].ranges), rest, x) {
      assert ExactAt(base, m, monitors, x);
      assert forall r <- monitors[id].ranges :: r.originalProt == ReadWrite by {
        AllReadWrite(monitors[id].ranges);
      }
      RestoredAt(m, monitors[id].ranges, x);
      if Watched(monitors, x) {
        var j :| WatchedBy(monitors, j, x);
        assert j != id ==> WatchedBy(rest, j, x);
      }
      assert WatchedBy(monitors, id, x) <==> Watching(monitors[id].ranges, x);
    }
  }

  lemma AllReadWrite(ranges: seq<WatchedRange>)
    requires RangesApart(ranges)
    ensures forall r <- ranges :: r.originalProt == ReadWrite
  {
  }

  /** A new monitor on ranges that are apart, read-write and not watched yet. */
  ghost predicate Free(base: Protections, monitors: map<nat, MonitorEntry>, ranges: seq<WatchedRange>) {
    && RangesApart(ranges) && (forall r <- ranges :: !r.fired)
    && forall x: int :: Watching(ranges, x) ==> base(x) == ReadWrite && !Watched(monitors, x)
  }

  lemma EnableKeeps(base: Protections, m: Protections, monitors: map<nat, MonitorEntry>, e: MonitorEntry)
    requires Exact(base, m, monitors) && e.id !in monitors && Free(base, monitors, e.ranges)
    ensures Exact(base, Blocked(m, e.ranges), monitors[e.id := e])
  {
    hide Blocked, RangesApart;
    var monitors' := monitors[e.id := e];
    forall i, x: int ensures WatchedBy(monitors', i, x) <==>
        WatchedBy(monitors, i, x) || (i == e.id && Watching(e.ranges, x)) {
    }
    forall i, j, x: int | WatchedBy(monitors', i, x) && WatchedBy(monitors', j, x) ensures i == j {
      assert Watched(monitors, x) || (i == e.id && j == e.id);
    }
    forall x: int ensures ExactAt(base, Blocked(m, e.ranges), monitors', x) {
      assert ExactAt(base, m, monitors, x);
      BlockedAt(m, e.ranges, x);
      assert Watching(e.ranges, x) <==> exists i :: 0 <= i < |e.ranges| && InRange(e.ranges[i], x) by {
        assert forall i :: WatchesAt(e.ranges, i, x) <==> 0 <= i < |e.ranges| && InRange(e.ranges[i], x);
      }
      if Watched(monitors', x) {
        var j :| WatchedBy(monitors', j, x);
      }
      assert Watching(e.ranges, x) ==> WatchedBy(monitors', e.id, x);
      if Watched(monitors, x) {
        var j :| WatchedBy(monitors, j, x);
        assert WatchedBy(monitors', j, x);
      }
    }
  }

  /** On other ranges the protections are not exact: they must be apart, read-write and not watched. */
  lemma EnableNeedsFree(base: Protections, m: Protections, monitors: map<nat, MonitorEntry>, e: MonitorEntry)
    requires e.id !in monitors && forall r <- e.ranges :: !r.fired
    requires Exact(base, m, monitors[e.id := e])
    ensures Free(base, monitors, e.ranges)
  {
    hide RangesApart;
    var monitors' := monitors[e.id := e];
    assert RangesApart(monitors'[e.id].ranges);
    forall x: int | Watching(e.ranges, x) ensures base(x) == ReadWrite && !Watched(monitors, x) {
      assert WatchedBy(monitors', e.id, x) && ExactAt(base, m, monitors', x);
      forall id ensures !WatchedBy(monitors, id, x) {
        assert WatchedBy(monitors, id, x) ==> WatchedBy(monitors', id, x);
      }
    }
  }

  /** A fault on an unfired range: its protection comes back, once and for all. */
  lemma FireKeeps(base: Protections, m: Protections, monitors: map<nat, MonitorEntry>, id: nat, i: nat)
    requires Exact(base, m, monitors) && id in monitors
    requires i < |monitors[id].ranges| && !monitors[id].ranges[i].fired
    ensures var r := monitors[id].ranges[i];
            Exact(base, Protect(m, r.pageBase, r.pageSize, r.originalProt), monitors[id := Fired(monitors[id], i)])
  {
    var r, e' := monitors[id].ranges[i], Fired(monitors[id], i);
    var m', monitors' := Protect(m, r.pageBase, r.pageSize, r.originalProt), monitors[id := e'];
    assert r in monitors[id].ranges && r.originalProt == ReadWrite;
    FiredWatches(monitors[id], i);
    hide RangesApart, Fired, WatchesAt;
    forall j, x: int ensures WatchedBy(monitors', j, x) <==> WatchedBy(monitors, j, x) && !(j == id && InRange(r, x)) {
    }
    forall x: int ensures ExactAt(base, m', monitors', x) {
      assert ExactAt(base, m, monitors, x);
      if InRange(r, x) {
        assert WatchedBy(monitors, id, x) by {
          UnfiredWatches(monitors[id].ranges, i, x);
        }
        assert !Watched(monitors', x);
      } else if Watched(monitors, x) {
        var j :| WatchedBy(monitors, j, x);
        assert WatchedBy(monitors', j, x);
      }
    }
  }

  lemma UnfiredWatches(ranges: seq<WatchedRange>, i: nat, x: int)
    requires i < |ranges| && !ranges[i].fired && InRange(ranges[i], x)
    ensures Watching(ranges, x)
  {
    assert WatchesAt(ranges, i, x);
  }

  lemma FiredWatches(e: MonitorEntry, i: nat)
    requires i < |e.ranges| && !e.ranges[i].fired && RangesApart(e.ranges)
    ensures RangesApart(Fired(e, i).ranges)
    ensures forall x: int :: Watching(Fired(e, i).ranges, x) <==> Watching(e.ranges, x) && !InRange(e.ranges[i], x)
  {
    var e' := Fired(e, i);
    forall j, x: int ensures WatchesAt(e'.ranges, j, x) <==> WatchesAt(e.ranges, j, x) && j != i {
    }
    forall x: int ensures Watching(e'.ranges, x) <==> Watching(e.ranges, x) && !InRange(e.ranges[i], x) {
      if Watching(e.ranges, x) {
        var j :| WatchesAt(e.ranges, j, x);
        assert InRange(e.ranges[i], x) ==> WatchesAt(e.ranges, i, x);
        assert j != i ==> WatchesAt(e'.ranges, j, x);
      }
    }
  }

  lemma NothingWatched(base: Protections, m: Protections)
    requires Exact(base, m, map[])
    ensures forall x: int :: m(x) == base(x)
  {
    forall x: int ensures m(x) == base(x) {
      assert ExactAt(base, m, map[], x);
    }
  }

  // ---- Recorded accesses ---------------------------------------------------------------------------

  function EventOf(e: MonitorEntry, i: nat, faultAddr: Word, accessCode: int): Event
    requires i < |e.ranges|
  {
    [e.id, faultAddr, e.ranges[i].pageBase, e.ranges[i].rangeIndex, accessCode]
  }

  predicate IsFor(event: Event, id: nat, i: int) {
    event[0] == id && event[3] == i
  }

  ghost predicate RecordedFor(recorded: seq<Event>, id: nat, i: int) {
    exists k :: 0 <= k < |recorded| && IsFor(recorded[k], id, i)
  }

  /** Every range has at most one event in its monitor's whole life, and it has one exactly when it
      has fired.  Ids are never used again. */
  ghost predicate Logged(monitors: map<nat, MonitorEntry>, next: nat, recorded: seq<Event>) {
    && (forall id <- monitors :: id < next && Numbered(id, monitors[id]))
    && (forall event <- recorded :: 0 <= event[0] < next)
    && (forall j, k ::
          (0 <= j < |recorded| && 0 <= k < |recorded|
           && recorded[j][0] == recorded[k][0] && recorded[j][3] == recorded[k][3]) ==> j == k)
    && (forall id, i :: id in monitors && 0 <= i < |monitors[id].ranges| ==>
          (monitors[id].ranges[i].fired <==> RecordedFor(recorded, id, i)))
  }

  ghost predicate Numbered(id: nat, e: MonitorEntry) {
    e.id == id && forall i :: 0 <= i < |e.ranges| ==> e.ranges[i].rangeIndex == i
  }

  lemma FireLogs(monitors: map<nat, MonitorEntry>, next: nat, recorded: seq<Event>, id: nat, i: nat, faultAddr: Word,
                 accessCode: int)
    requires Logged(monitors, next, recorded) && id in monitors
    requires i < |monitors[id].ranges| && !monitors[id].ranges[i].fired
    ensures Logged(monitors[id := Fired(monitors[id], i)], next,
                   recorded + [EventOf(monitors[id], i, faultAddr, accessCode)])
  {
    var event := EventOf(monitors[id], i, faultAddr, accessCode);
    var recorded', monitors' := recorded + [event], monitors[id := Fired(monitors[id], i)];
    assert Numbered(id, monitors[id]) && event[3] == i;
    assert !RecordedFor(recorded, id, i);
    forall k | 0 <= k < |recorded| ensures !IsFor(recorded[k], id, i) {
    }
    forall jd, j | jd in monitors' && 0 <= j < |monitors'[jd].ranges|
      ensures monitors'[jd].ranges[j].fired <==> RecordedFor(recorded', jd, j)
    {
      if RecordedFor(recorded, jd, j) {
        var k :| 0 <= k < |recorded| && IsFor(recorded[k], jd, j);
        assert IsFor(recorded'[k], jd, j);
      }
      if jd == id && j == i {
        assert IsFor(recorded'[|recorded|], id, i);
      }
    }
  }

  lemma EnableLogs(monitors: map<nat, MonitorEntry>, next: nat, recorded: seq<Event>, e: MonitorEntry)
    requires Logged(monitors, next, recorded)
    requires Numbered(next, e) && forall r <- e.ranges :: !r.fired
    ensures Logged(monitors[next := e], next + 1, recorded)
  {
    forall i | 0 <= i < |e.ranges| ensures !e.ranges[i].fired && !RecordedFor(recorded, next, i) {
      assert e.ranges[i] in e.ranges;
    }
  }
}
