/** Who owns which registration at the global exception handler, and who holds a reference. */
module Owners {
  import opened Words
  import opened ExceptionHandler
  import opened Watches
  import opened MemoryAccessMonitor
  import SoftwareBreakpoint
  import HardwareBreakpoint

  /** The breakpoint handlers' ids while they are installed, and the live monitors. */
  datatype Owners = Owners(software: Option<nat>, hardware: Option<nat>, monitors: map<nat, MonitorEntry>)

  // ---- Registrations --------------------------------------------------------------------------------

  /** Registrations other than the SingleStep ones, which nobody can take back. */
  function Active(handlers: seq<HandlerEntry>): set<HandlerEntry> {
    set h | h in handlers && !h.kind.SingleStep?
  }

  predicate WellNumbered(r: Registered) {
    && (forall h <- r.handlers :: h.id < r.nextId && (h.kind.SingleStep? ==> h.callback.HardwareTrap?))
    && (forall h, k :: h in r.handlers && k in r.handlers && h.id == k.id ==> h == k)
  }

  lemma Enters(r: Registered, kind: ExceptionType, callback: Callback)
    requires WellNumbered(r) && (kind.SingleStep? ==> callback.HardwareTrap?)
    ensures WellNumbered(With(r, kind, callback))
    ensures Active(With(r, kind, callback).handlers)
            == Active(r.handlers) + if kind.SingleStep? then {} else {HandlerEntry(r.nextId, kind, callback)}
    ensures With(r, kind, callback).life == r.life && With(r, kind, callback).nextId == r.nextId + 1
  {
  }

  lemma Leaves(r: Registered, h: HandlerEntry)
    requires WellNumbered(r) && h in Active(r.handlers)
    ensures WellNumbered(Minus(r, h.id))
    ensures Active(Minus(r, h.id).handlers) == Active(r.handlers) - {h}
    ensures Minus(r, h.id).life == r.life
  {
    WithoutIdMembers(r.handlers, h.id);
  }

  /** Taking or dropping a reference changes no registration. */
  lemma Referenced(r: Registered)
    ensures WellNumbered(Stepped(r, RefEnable)) <==> WellNumbered(r)
    ensures Stepped(r, RefEnable).handlers == r.handlers && Stepped(r, RefEnable).nextId == r.nextId
    ensures Stepped(r, RefEnable).life.refCount == r.life.refCount + 1
    ensures WellNumbered(Stepped(r, RefDisable)) <==> WellNumbered(r)
    ensures Stepped(r, RefDisable).handlers == r.handlers
    ensures Stepped(r, RefDisable).life.refCount == r.life.refCount - 1
  {
  }

  // ---- Owners -----------------------------------------------------------------------------------------

  function SoftwareClaim(id: Option<nat>): set<HandlerEntry> {
    if id.Some? then {HandlerEntry(id.value, Breakpoint, BreakpointTrap)} else {}
  }

  function HardwareClaim(id: Option<nat>): set<HandlerEntry> {
    if id.Some? then {HandlerEntry(id.value, Breakpoint, HardwareTrap)} else {}
  }

  function MonitorClaim(e: MonitorEntry): set<HandlerEntry> {
    {HandlerEntry(e.segvHandlerId, AccessViolation, PageFault), HandlerEntry(e.busHandlerId, BusError, PageFault)}
  }

  ghost function MonitorClaims(monitors: map<nat, MonitorEntry>): set<HandlerEntry> {
    set m, h | m in monitors && h in MonitorClaim(monitors[m]) :: h
  }

  ghost predicate MonitorsApart(monitors: map<nat, MonitorEntry>) {
    forall m, n :: m in monitors && n in monitors && m != n ==> MonitorClaim(monitors[m]) !! MonitorClaim(monitors[n])
  }

  ghost function ClaimsOf(o: Owners): set<HandlerEntry> {
    SoftwareClaim(o.software) + HardwareClaim(o.hardware) + MonitorClaims(o.monitors)
  }

  function References(o: Owners): nat {
    |o.monitors| + (if o.software.Some? then 1 else 0) + (if o.hardware.Some? then 1 else 0)
  }

  lemma MonitorKinds(monitors: map<nat, MonitorEntry>)
    ensures forall h <- MonitorClaims(monitors) :: h.kind == AccessViolation || h.kind == BusError
  {
    forall h | h in MonitorClaims(monitors) ensures h.kind == AccessViolation || h.kind == BusError {
      var m :| m in monitors && h in MonitorClaim(monitors[m]);
    }
  }

  /** The active registrations are exactly those the owners have made, no two monitors share one,
      and the reference count counts the owners. */
  ghost predicate Balanced(r: Registered, o: Owners) {
    && WellNumbered(r)
    && Active(r.handlers) == ClaimsOf(o)
    && MonitorsApart(o.monitors)
    && r.life.refCount == References(o)
  }

  // ---- What each owner adds to the claims and the references --------------------------------------------

  lemma SoftwareAdded(o: Owners, id: nat)
    requires o.software.None?
    ensures var o' := o.(software := Some(id));
            ClaimsOf(o') == ClaimsOf(o) + {HandlerEntry(id, Breakpoint, BreakpointTrap)} &&
                References(o') == References(o) + 1
  {
    hide MonitorClaims;
  }

  lemma SoftwareTaken(o: Owners)
    requires o.software.Some?
    ensures var o', h := o.(software := None), HandlerEntry(o.software.value, Breakpoint, BreakpointTrap);
            h in ClaimsOf(o) && ClaimsOf(o') == ClaimsOf(o) - {h} && References(o') == References(o) - 1
  {
    hide MonitorClaims;
    MonitorKinds(o.monitors);
  }

  lemma HardwareAdded(o: Owners, id: nat)
    requires o.hardware.None?
    ensures var o' := o.(hardware := Some(id));
            ClaimsOf(o') == ClaimsOf(o) + {HandlerEntry(id, Breakpoint, HardwareTrap)} &&
                References(o') == References(o) + 1
  {
    hide MonitorClaims;
  }

  lemma HardwareTaken(o: Owners)
    requires o.hardware.Some?
    ensures var o', h := o.(hardware := None), HandlerEntry(o.hardware.value, Breakpoint, HardwareTrap);
            h in ClaimsOf(o) && ClaimsOf(o') == ClaimsOf(o) - {h} && References(o') == References(o) - 1
  {
    hide MonitorClaims;
    MonitorKinds(o.monitors);
  }

  lemma OwnerMonitorAdded(o: Owners, id: nat, e: MonitorEntry, next: nat)
    requires MonitorsApart(o.monitors) && id !in o.monitors
    requires e.segvHandlerId == next && e.busHandlerId == next + 1
    requires forall h <- MonitorClaims(o.monitors) :: h.id < next
    ensures var o' := o.(monitors := o.monitors[id := e]);
            && ClaimsOf(o') == ClaimsOf(o) + MonitorClaim(e) && References(o') == References(o) + 1
            && MonitorsApart(o'.monitors)
  {
    hide MonitorClaims, MonitorsApart, MonitorClaim;
    MonitorAdded(o.monitors, id, e, next);
    assert o.monitors[id := e].Keys == o.monitors.Keys + {id};
  }

  lemma OwnerMonitorTaken(o: Owners, id: nat)
    requires MonitorsApart(o.monitors) && id in o.monitors
    ensures var o' := o.(monitors := o.monitors - {id});
            && ClaimsOf(o') == ClaimsOf(o) - MonitorClaim(o.monitors[id]) && References(o') == References(o) - 1
            && MonitorsApart(o'.monitors) && MonitorClaim(o.monitors[id]) <= ClaimsOf(o)
  {
    hide MonitorClaims, MonitorsApart;
    MonitorRemoved(o.monitors, id);
    assert (o.monitors - {id}).Keys == o.monitors.Keys - {id};
  }

  // ---- Every owner's comings and goings keep the balance ---------------------------------------------

  lemma SoftwareListens(r: Registered, o: Owners)
    requires Balanced(r, o) && o.software.None?
    ensures Balanced(SoftwareBreakpoint.Listening(r), o.(software := Some(r.nextId)))
  {
    hide WellNumbered, Active, MonitorsApart, ClaimsOf, References, With, Stepped;
    Referenced(r);
    Enters(Stepped(r, RefEnable), Breakpoint, BreakpointTrap);
    SoftwareAdded(o, r.nextId);
  }

  lemma SoftwareLeaves(r: Registered, o: Owners)
    requires Balanced(r, o) && o.software.Some?
    ensures Balanced(SoftwareBreakpoint.Deaf(r, o.software.value), o.(software := None))
  {
    hide WellNumbered, Active, MonitorsApart, ClaimsOf, References, Minus, Stepped;
    var h := HandlerEntry(o.software.value, Breakpoint, BreakpointTrap);
    SoftwareTaken(o);
    Leaves(r, h);
    Referenced(Minus(r, h.id));
  }

  lemma HardwareListens(r: Registered, o: Owners)
    requires Balanced(r, o) && o.hardware.None?
    ensures Balanced(HardwareBreakpoint.Listening(r), o.(hardware := Some(r.nextId)))
  {
    hide WellNumbered, Active, MonitorsApart, ClaimsOf, References, With, Stepped;
    var r1 := Stepped(r, RefEnable);
    Referenced(r);
    Enters(r1, Breakpoint, HardwareTrap);
    Enters(With(r1, Breakpoint, HardwareTrap), SingleStep, HardwareTrap);
    HardwareAdded(o, r.nextId);
  }

  lemma HardwareLeaves(r: Registered, o: Owners)
    requires Balanced(r, o) && o.hardware.Some?
    ensures Balanced(HardwareBreakpoint.Deaf(r, o.hardware.value), o.(hardware := None))
  {
    hide WellNumbered, Active, MonitorsApart, ClaimsOf, References, Minus, Stepped;
    var h := HandlerEntry(o.hardware.value, Breakpoint, HardwareTrap);
    HardwareTaken(o);
    Leaves(r, h);
    Referenced(Minus(r, h.id));
  }

  lemma GuardEnters(r: Registered, e: MonitorEntry)
    requires WellNumbered(r) && e.segvHandlerId == r.nextId && e.busHandlerId == r.nextId + 1
    ensures WellNumbered(Guarding(r))
    ensures Active(Guarding(r).handlers) == Active(r.handlers) + MonitorClaim(e)
    ensures Guarding(r).life.refCount == r.life.refCount + 1
  {
    hide WellNumbered, Active, MonitorClaim, With, Stepped;
    var r1 := Stepped(r, RefEnable);
    Referenced(r);
    Enters(r1, AccessViolation, PageFault);
    Enters(With(r1, AccessViolation, PageFault), BusError, PageFault);
    BothClaims(e);
  }

  lemma BothClaims(e: MonitorEntry)
    ensures MonitorClaim(e) ==
              {HandlerEntry(e.segvHandlerId, AccessViolation, PageFault)} +
                  {HandlerEntry(e.busHandlerId, BusError, PageFault)}
  {
  }

  lemma MonitorEnters(r: Registered, o: Owners, id: nat, ranges: seq<WatchedRange>)
    requires Balanced(r, o) && id !in o.monitors
    ensures Balanced(Guarding(r), o.(monitors := o.monitors[id := MonitorEntry(id, ranges, r.nextId, r.nextId + 1)]))
  {
    ClaimsAreOld(r, o);
    hide WellNumbered, Active, MonitorClaims, MonitorsApart, MonitorClaim, ClaimsOf, References, Guarding;
    var e := MonitorEntry(id, ranges, r.nextId, r.nextId + 1);
    GuardEnters(r, e);
    OwnerMonitorAdded(o, id, e, r.nextId);
  }

  lemma ClaimsAreOld(r: Registered, o: Owners)
    requires Balanced(r, o)
    ensures forall h <- MonitorClaims(o.monitors) :: h.id < r.nextId
  {
    assert forall h <- ClaimsOf(o) :: h in Active(r.handlers);
  }

  lemma MonitorAdded(monitors: map<nat, MonitorEntry>, id: nat, e: MonitorEntry, next: nat)
    requires MonitorsApart(monitors) && id !in monitors
    requires e.segvHandlerId == next && e.busHandlerId == next + 1
    requires forall h <- MonitorClaims(monitors) :: h.id < next
    ensures MonitorsApart(monitors[id := e])
    ensures MonitorClaims(monitors[id := e]) == MonitorClaims(monitors) + MonitorClaim(e)
  {
    var monitors' := monitors[id := e];
    forall m, h | m in monitors && h in MonitorClaim(monitors[m]) ensures h.id < next && h in MonitorClaims(monitors') {
      assert h in MonitorClaims(monitors);
      assert monitors'[m] == monitors[m];
    }
    assert MonitorClaim(monitors'[id]) <= MonitorClaims(monitors');
  }

  lemma MonitorRemoved(monitors: map<nat, MonitorEntry>, id: nat)
    requires MonitorsApart(monitors) && id in monitors
    ensures MonitorsApart(monitors - {id})
    ensures MonitorClaims(monitors - {id}) == MonitorClaims(monitors) - MonitorClaim(monitors[id])
    ensures MonitorClaim(monitors[id]) <= MonitorClaims(monitors)
  {
    hide MonitorClaim;
    var rest := monitors - {id};
    forall h | h in MonitorClaims(monitors) - MonitorClaim(monitors[id]) ensures h in MonitorClaims(rest) {
      var m :| m in monitors && h in MonitorClaim(monitors[m]);
      assert m in rest && rest[m] == monitors[m];
    }
  }

  lemma MonitorLeaves(r: Registered, o: Owners, id: nat)
    requires Balanced(r, o) && id in o.monitors
    ensures var e := o.monitors[id];
            Balanced(Stepped(Minus(Minus(r, e.segvHandlerId), e.busHandlerId), RefDisable),
                     o.(monitors := o.monitors - {id}))
  {
    hide WellNumbered, Active, MonitorsApart, ClaimsOf, References, Minus, Stepped;
    var e := o.monitors[id];
    var segv := HandlerEntry(e.segvHandlerId, AccessViolation, PageFault);
    var bus := HandlerEntry(e.busHandlerId, BusError, PageFault);
    OwnerMonitorTaken(o, id);
    Leaves(r, segv);
    Leaves(Minus(r, segv.id), bus);
    Referenced(Minus(Minus(r, segv.id), bus.id));
    assert ClaimsOf(o) - MonitorClaim(e) == ClaimsOf(o) - {segv} - {bus};
  }

  lemma MonitorFires(r: Registered, o: Owners, id: nat, i: nat)
    requires Balanced(r, o) && id in o.monitors && i < |o.monitors[id].ranges|
    ensures Balanced(r, o.(monitors := o.monitors[id := Fired(o.monitors[id], i)]))
  {
    hide WellNumbered, Active;
    var monitors' := o.monitors[id := Fired(o.monitors[id], i)];
    assert monitors'.Keys == o.monitors.Keys;
    SameClaims(o.monitors, monitors');
  }

  lemma SameClaims(monitors: map<nat, MonitorEntry>, monitors': map<nat, MonitorEntry>)
    requires monitors.Keys == monitors'.Keys
    requires forall m <- monitors :: MonitorClaim(monitors'[m]) == MonitorClaim(monitors[m])
    ensures MonitorClaims(monitors') == MonitorClaims(monitors)
    ensures MonitorsApart(monitors') <==> MonitorsApart(monitors)
  {
    hide MonitorClaim;
    forall h ensures h in MonitorClaims(monitors') <==> h in MonitorClaims(monitors) {
      if h in MonitorClaims(monitors') {
        var m :| m in monitors' && h in MonitorClaim(monitors'[m]);
        assert h in MonitorClaim(monitors[m]);
      }
      if h in MonitorClaims(monitors) {
        var m :| m in monitors && h in MonitorClaim(monitors[m]);
        assert h in MonitorClaim(monitors'[m]);
      }
    }
  }

  lemma AllMonitorsLeave(r: Registered, o: Owners)
    requires Balanced(r, o)
    ensures Balanced(Let(r, HandlerIds(o.monitors, o.monitors.Keys), |o.monitors|), o.(monitors := map[]))
  {
    hide MonitorsApart, HandlerIds, MonitorClaims, ClaimsOf, References, Active, WellNumbered;
    OwnerMonitorsGone(o);
    AllLeave(r, o);
    LetNumbered(r, HandlerIds(o.monitors, o.monitors.Keys), |o.monitors|);
  }

  lemma OwnerMonitorsGone(o: Owners)
    ensures var o' := o.(monitors := map[]);
            && ClaimsOf(o') == ClaimsOf(o) - MonitorClaims(o.monitors) && References(o') == References(o) - |o.monitors|
            && MonitorsApart(o'.monitors)
  {
    hide MonitorClaims, MonitorsApart;
    NoMonitors();
    MonitorKinds(o.monitors);
  }

  lemma AllLeave(r: Registered, o: Owners)
    requires Balanced(r, o)
    ensures Active(Let(r, HandlerIds(o.monitors, o.monitors.Keys), |o.monitors|).handlers) ==
              Active(r.handlers) - MonitorClaims(o.monitors)
  {
    hide MonitorsApart, WithoutIds, HandlerIds, MonitorClaims, Balanced;
    var ids := HandlerIds(o.monitors, o.monitors.Keys);
    var r' := Let(r, ids, |o.monitors|);
    WithoutIdsMembers(r.handlers, ids);
    forall h ensures h in Active(r'.handlers) <==> h in Active(r.handlers) && h !in MonitorClaims(o.monitors) {
      if h in Active(r.handlers) {
        IdsAreClaims(r, o, h);
      }
    }
  }

  lemma LetNumbered(r: Registered, ids: set<nat>, references: int)
    requires WellNumbered(r)
    ensures WellNumbered(Let(r, ids, references))
  {
    WithoutIdsMembers(r.handlers, ids);
  }

  /** A registration has one of the monitors' ids exactly when a monitor made it. */
  lemma IdsAreClaims(r: Registered, o: Owners, h: HandlerEntry)
    requires Balanced(r, o) && h in r.handlers
    ensures h.id in HandlerIds(o.monitors, o.monitors.Keys) <==> h in MonitorClaims(o.monitors)
  {
    hide MonitorsApart;
    if h in MonitorClaims(o.monitors) {
      var m :| m in o.monitors && h in MonitorClaim(o.monitors[m]);
      assert m in o.monitors.Keys && h.id in IdsOf(o.monitors[m]);
    }
    if h.id in HandlerIds(o.monitors, o.monitors.Keys) {
      var m :| m in o.monitors && h.id in IdsOf(o.monitors[m]);
      var k :| k in MonitorClaim(o.monitors[m]) && k.id == h.id;
      assert k in MonitorClaims(o.monitors) && k in ClaimsOf(o);
    }
  }

  lemma NoMonitors()
    ensures MonitorsApart(map[]) && MonitorClaims(map[]) == {}
  {
  }

  /** Nobody left: no reference, and only SingleStep registrations. */
  lemma NobodyLeft(r: Registered)
    requires Balanced(r, Owners(None, None, map[]))
    ensures r.life.refCount == 0
    ensures forall h <- r.handlers :: h.kind == SingleStep && h.callback == HardwareTrap
  {
    NoMonitors();
    forall h | h in r.handlers ensures h.kind == SingleStep {
      assert h !in Active(r.handlers);
    }
  }

  // ---- Who hears a signal ---------------------------------------------------------------------------------

  /** While there is a breakpoint or a monitor, its handler is in the list. */
  lemma Heard(r: Registered, o: Owners)
    requires Balanced(r, o)
    ensures o.software.Some? ==> HandlerEntry(o.software.value, Breakpoint, BreakpointTrap) in r.handlers
    ensures o.hardware.Some? ==> HandlerEntry(o.hardware.value, Breakpoint, HardwareTrap) in r.handlers
    ensures forall m <- o.monitors ::
              HandlerEntry(o.monitors[m].segvHandlerId, AccessViolation, PageFault) in r.handlers
    ensures forall m <- o.monitors :: HandlerEntry(o.monitors[m].busHandlerId, BusError, PageFault) in r.handlers
  {
    hide WellNumbered;
    forall m | m in o.monitors ensures MonitorClaim(o.monitors[m]) <= ClaimsOf(o) {
      forall h | h in MonitorClaim(o.monitors[m]) ensures h in ClaimsOf(o) {
        assert h in MonitorClaims(o.monitors);
      }
    }
    assert forall h <- ClaimsOf(o) :: h in Active(r.handlers);
  }

  lemma ClaimKinds(o: Owners)
    ensures forall h <- ClaimsOf(o) ::
              && (h.kind.Breakpoint? ==> h.callback.BreakpointTrap? || h.callback.HardwareTrap?)
              && (h.kind.AccessViolation? || h.kind.BusError? ==> h.callback.PageFault?)
  {
    forall h | h in MonitorClaims(o.monitors) ensures !h.kind.Breakpoint? && h.callback.PageFault? {
      var m :| m in o.monitors && h in MonitorClaim(o.monitors[m]);
    }
  }

  /** And nobody else's handler is there for the same signal. */
  lemma OnlyOwnersHear(r: Registered, o: Owners, h: HandlerEntry)
    requires Balanced(r, o) && h in r.handlers
    ensures h.kind.Breakpoint? ==> h.callback.BreakpointTrap? || h.callback.HardwareTrap?
    ensures h.kind.AccessViolation? || h.kind.BusError? ==> h.callback.PageFault?
  {
    hide WellNumbered, MonitorsApart, References;
    if !h.kind.SingleStep? {
      assert h in Active(r.handlers) && h in ClaimsOf(o);
      ClaimKinds(o);
    }
  }
}
