/** Where an allocation lands: the device and unit searches, with their registrations taken
    back on the way, refine "the first feasible unit among those in use, else the first
    feasible one among the idle". */
module Placement {
  import opened Tables
  import opened CuModel
  import opened DeviceModel
  import opened SystemModel

  /** Unit c of device d can serve the request, and the given pass looks at it. */
  predicate Candidate(s: SysState, d: nat, c: nat, affinity: bool, req: Request) {
    && d < |s.devs| && c < |s.devs[d].cus|
    && Usable(s.devs[d], req)
    && Acceptable(s.devs[d].cus[c], affinity, req)
  }

  predicate Before(d: nat, c: nat, d': nat, c': nat) {
    d < d' || (d == d' && c < c')
  }

  /** Same device up to the client table and exclusive mode. */
  predicate SameUnits(dev: DevState, dev': DevState) {
    dev'.cus == dev.cus && dev'.isLoaded == dev.isLoaded && dev'.uuid == dev.uuid && dev'.drift == dev.drift
  }

  ghost predicate SameCus(s: SysState, s': SysState) {
    && |s.devs| == |s'.devs|
    && s.serviceId == s'.serviceId && s.poolId == s'.poolId
    && forall d :: 0 <= d < |s.devs| ==> SameUnits(s.devs[d], s'.devs[d])
  }

  ghost predicate SameUsable(s: SysState, s': SysState, req: Request)
    requires |s.devs| == |s'.devs|
  {
    forall d :: 0 <= d < |s.devs| ==> (Usable(s.devs[d], req) <==> Usable(s'.devs[d], req))
  }

  /** s' is s with the request's channel r added, and nothing else changed in any unit. */
  ghost predicate GrantedAt(s: SysState, s': SysState, r: Res, req: Request) {
    && r.devId < |s.devs| && r.cuId < |s.devs[r.devId].cus|
    && var cu := s.devs[r.devId].cus[r.cuId];
    && Matches(cu, req) && Feasible(cu, req) && Usable(s.devs[r.devId], req)
    && r == GrantedRes(s, r.devId, cu, r.cuId, req)
    && SameCus(SetDev(s, r.devId, SetCu(s.devs[r.devId], r.cuId, PutChannel(cu, req, NextId(s.serviceId)))), s')
    && SameUsable(s, s', req)
  }

  /** No unit on device d or later is a candidate of the pass. */
  ghost predicate NoneFrom(s: SysState, d: nat, affinity: bool, req: Request) {
    forall e: nat, c: nat :: d <= e ==> !Candidate(s, e, c, affinity, req)
  }

  /** r sits on a candidate of the pass, and no candidate from device d on comes before it. */
  ghost predicate LeastFrom(s: SysState, d: nat, r: Res, affinity: bool, req: Request) {
    && Candidate(s, r.devId, r.cuId, affinity, req)
    && forall e: nat, c: nat :: d <= e && Before(e, c, r.devId, r.cuId) ==> !Candidate(s, e, c, affinity, req)
  }

  ghost predicate PassOutcome(s: SysState, d: nat, affinity: bool, req: Request, s': SysState, r: Option<Res>) {
    if r.Some? then GrantedAt(s, s', r.value, req) && LeastFrom(s, d, r.value, affinity, req)
    else SameCus(s, s') && SameUsable(s, s', req) && NoneFrom(s, d, affinity, req)
  }

  ghost predicate NoneOn(s: SysState, d: nat, affinity: bool, req: Request) {
    forall c: nat :: !Candidate(s, d, c, affinity, req)
  }

  ghost predicate VisitOutcome(s: SysState, d: nat, affinity: bool, req: Request, s': SysState, r: Option<Res>) {
    if r.Some? then
      && r.value.devId == d && GrantedAt(s, s', r.value, req)
      && Candidate(s, d, r.value.cuId, affinity, req)
      && forall c: nat :: c < r.value.cuId ==> !Candidate(s, d, c, affinity, req)
    else SameCus(s, s') && SameUsable(s, s', req) && NoneOn(s, d, affinity, req)
  }

  lemma VisitSpec(s: SysState, d: nat, affinity: bool, req: Request)
    requires Inv(s) && d < |s.devs| && s.devs[d].isLoaded && req.clientId != 0
    ensures VisitOutcome(s, d, affinity, req, Visit(s, d, affinity, req).0, Visit(s, d, affinity, req).1)
  {
    hide Feasible, PutChannel, Register, Unregister, GrantedAt, Grant, SameUsable;
    if Visit(s, d, affinity, req).1.None? {
      VisitNone(s, d, affinity, req);
    } else {
      SameAfterRegister(s.devs[d], req);
      var dev := Register(s.devs[d], req).value;
      VisitGrants(s, d, dev, AcceptFrom(dev.cus, 0, affinity, req), req);
    }
  }

  /** Counting a client, and taking the count back, touch no unit. */
  lemma SameAfterRegister(dev: DevState, req: Request)
    ensures var r := Register(dev, req);
            r.Some? ==> SameUnits(dev, r.value) && SameUnits(dev, Unregister(r.value, req.clientId))
  {
  }

  lemma VisitGrants(s: SysState, d: nat, dev: DevState, c: nat, req: Request)
    requires d < |s.devs| && Register(s.devs[d], req) == Some(dev) && SameUnits(s.devs[d], dev)
    requires Usable(s.devs[d], req) && c < |dev.cus| && Matches(dev.cus[c], req) && Feasible(dev.cus[c], req)
    ensures GrantedAt(s, Grant(s, d, dev, c, req), GrantedRes(s, d, dev.cus[c], c, req), req)
  {
    hide Register, Usable, Matches, Feasible, PutChannel;
    RegisterKeepsUsable(s.devs[d], req);
  }

  lemma VisitNone(s: SysState, d: nat, affinity: bool, req: Request)
    requires Inv(s) && d < |s.devs| && s.devs[d].isLoaded && req.clientId != 0
    requires Visit(s, d, affinity, req).1.None?
    ensures var s' := Visit(s, d, affinity, req).0; SameCus(s, s') && SameUsable(s, s', req)
    ensures NoneOn(s, d, affinity, req)
  {
    assert DevInv(s.devs[d]);
    if Register(s.devs[d], req).Some? {
      UndoKeepsUsable(s.devs[d], req);
    }
  }

  lemma SameCandidates(s: SysState, s1: SysState, affinity: bool, req: Request)
    requires SameCus(s, s1) && SameUsable(s, s1, req)
    ensures forall e: nat, c: nat :: Candidate(s, e, c, affinity, req) <==> Candidate(s1, e, c, affinity, req)
  {
  }

  /** Device k has no candidate and the pass goes on from the state its visit left. */
  lemma StepOver(s: SysState, k: nat, s1: SysState, affinity: bool, req: Request, s': SysState, r: Option<Res>)
    requires VisitOutcome(s, k, affinity, req, s1, None) && PassOutcome(s1, k + 1, affinity, req, s', r)
    ensures PassOutcome(s, k, affinity, req, s', r)
  {
    SameCandidates(s, s1, affinity, req);
    forall c: nat ensures !Candidate(s, k, c, affinity, req) { assert NoneOn(s, k, affinity, req); }
  }

  /** A pass over s1 has the same outcome for s, when s1 differs in client tables only. */
  lemma PassFromSame(s: SysState, s1: SysState, d: nat, affinity: bool, req: Request, s': SysState, r: Option<Res>)
    requires SameCus(s, s1) && SameUsable(s, s1, req) && PassOutcome(s1, d, affinity, req, s', r)
    ensures PassOutcome(s, d, affinity, req, s', r)
  {
    SameCandidates(s, s1, affinity, req);
  }

  lemma {:induction false} ScanSpec(s: SysState, d: nat, affinity: bool, req: Request)
    requires Inv(s) && d <= |s.devs| && req.clientId != 0
    ensures PassOutcome(s, d, affinity, req, ScanDevs(s, d, affinity, req).0, ScanDevs(s, d, affinity, req).1)
    decreases |s.devs| - d
  {
    hide Visit, VisitOutcome, PassOutcome, NoneOn, NoneFrom, DevInv;
    var k := NextOpen(s.devs, d, req.clientId);
    NoneBeforeNextOpen(s, d, affinity, req);
    if k < |s.devs| {
      VisitSpec(s, k, affinity, req);
      VisitKeepsInv(s, k, affinity, req);
      var (s1, r1) := Visit(s, k, affinity, req);
      if r1.None? {
        ScanSpec(s1, k + 1, affinity, req);
        StepOver(s, k, s1, affinity, req, ScanDevs(s1, k + 1, affinity, req).0, ScanDevs(s1, k + 1, affinity, req).1);
      }
      Widen(s, d, k, affinity, req, ScanDevs(s, d, affinity, req).0, ScanDevs(s, d, affinity, req).1);
    } else {
      PassEnds(s, d, affinity, req);
    }
  }

  lemma PassEnds(s: SysState, d: nat, affinity: bool, req: Request)
    requires NoneFrom(s, d, affinity, req)
    ensures PassOutcome(s, d, affinity, req, s, None)
  {
  }

  lemma NoneBeforeNextOpen(s: SysState, d: nat, affinity: bool, req: Request)
    requires d <= |s.devs|
    ensures forall e: nat :: d <= e < NextOpen(s.devs, d, req.clientId) ==> NoneOn(s, e, affinity, req)
    ensures NextOpen(s.devs, d, req.clientId) == |s.devs| ==> NoneFrom(s, d, affinity, req)
  {
    forall e: nat | d <= e < NextOpen(s.devs, d, req.clientId) ensures NoneOn(s, e, affinity, req) {
      assert !Open(s.devs[e], req.clientId);
    }
    if NextOpen(s.devs, d, req.clientId) == |s.devs| {
      forall e: nat, c: nat | d <= e ensures !Candidate(s, e, c, affinity, req) {
        assert e < |s.devs| ==> NoneOn(s, e, affinity, req);
      }
    }
  }

  /** Devices before k have no candidate: the outcome from k on is the one from d on. */
  lemma Widen(s: SysState, d: nat, k: nat, affinity: bool, req: Request, s': SysState, r: Option<Res>)
    requires d <= k
    requires PassOutcome(s, k, affinity, req, s', r) || (r.Some? && VisitOutcome(s, k, affinity, req, s', r))
    requires forall e: nat :: d <= e < k ==> NoneOn(s, e, affinity, req)
    ensures PassOutcome(s, d, affinity, req, s', r)
  {
    forall e: nat, c: nat | d <= e && (r.Some? ==> Before(e, c, r.value.devId, r.value.cuId))
      ensures !Candidate(s, e, c, affinity, req)
    {
      if e < k { assert NoneOn(s, e, affinity, req); }
    }
  }

  /** What one allocation from any device comes to: the least unit in use that can serve the
      request, or, only when there is none, the least idle one; nothing but its channel is
      added to any unit. It fails exactly when no unit at all can serve the request. */
  ghost predicate AllocOutcome(s: SysState, req: Request, s': SysState, r: Outcome<Res>) {
    match r
    case Err(e) =>
      && e == NO_KERNEL && SameCus(s, s') && SameUsable(s, s', req)
      && NoneFrom(s, 0, true, req) && NoneFrom(s, 0, false, req)
    case Ok(res) =>
      && GrantedAt(s, s', res, req)
      && (LeastFrom(s, 0, res, true, req) || (NoneFrom(s, 0, true, req) && LeastFrom(s, 0, res, false, req)))
  }

  lemma AllocCuRefines(s: SysState, req: Request)
    requires Inv(s) && req.clientId != 0 && HasName(req.names)
    ensures AllocOutcome(s, req, AllocCu(s, req, false).0, AllocCu(s, req, false).1)
  {
    ScanSpec(s, 0, true, req);
    var (s1, r1) := ScanDevs(s, 0, true, req);
    if r1.None? {
      ScanKeepsInv(s, 0, true, req);
      ScanSpec(s1, 0, false, req);
      var (s2, r2) := ScanDevs(s1, 0, false, req);
      PassFromSame(s, s1, 0, false, req, s2, r2);
    }
  }

  /** Whether the service id advances is all that `update` decides. */
  lemma AllocCuUpdate(s: SysState, req: Request)
    requires Inv(s) && req.clientId != 0
    ensures var (s0, r0) := AllocCu(s, req, false);
            AllocCu(s, req, true) == (if r0.Ok? then Advance(s0, true) else s0, r0)
    ensures AllocCu(s, req, false).0.serviceId == s.serviceId
    ensures AllocCu(s, req, false).0.poolId == s.poolId
  {
    if HasName(req.names) { AllocCuRefines(s, req); }
  }

  // ---------------------------------------------------------------------------------
  // What a failed allocation leaves behind
  // ---------------------------------------------------------------------------------

  /** Registering the request turns a shared device that its client, and nobody else, uses
      into an exclusive one; taking the registration back does not undo that. */
  predicate Turns(dev: DevState, req: Request) {
    Usable(dev, req) && req.devExcl && !dev.isExcl && FindProc(dev.procs, req.clientId) < |dev.procs|
  }

  /** The device as its only client's own. */
  function Turned(dev: DevState, client: nat): DevState {
    dev.(isExcl := true, procs := EmptyTable()[0 := Proc(client, RefOf(dev.procs, client))])
  }

  /** What a request that was counted on the device and got nothing there leaves of it. */
  function LeftBy(dev: DevState, req: Request): DevState {
    if Turns(dev, req) then Turned(dev, req.clientId) else dev
  }

  lemma UndoTurns(dev: DevState, req: Request)
    requires DevInv(dev) && Usable(dev, req) && req.clientId != 0
    ensures Unregister(Register(dev, req).value, req.clientId) == LeftBy(dev, req)
  {
    UndoRegister(dev, req);
    if Turns(dev, req) {
      var k := FindProc(dev.procs, req.clientId);
      assert GoodProc(dev, k, 0);
      assert Register(dev, req).value.procs[0].ref == dev.procs[k].ref + 1;
    }
  }

  /** On one device: a failing request leaves it as it was, unless it just turned a shared
      device its client already uses into an exclusive one. */
  lemma FailedPlaceRestores(s: SysState, d: nat, req: Request)
    requires Inv(s) && d < |s.devs| && s.devs[d].isLoaded && req.clientId != 0
    requires TryPlace(s, d, req).1.Err?
    ensures TryPlace(s, d, req).0 == s <==> !Turns(s.devs[d], req)
  {
    if Register(s.devs[d], req).Some? {
      assert DevInv(s.devs[d]);
      UndoTurns(s.devs[d], req);
      var dev := Unregister(Register(s.devs[d], req).value, req.clientId);
      assert SetDev(s, d, dev).devs[d] == dev;
      if dev == s.devs[d] { assert s.devs[d := dev] == s.devs; }
    }
  }

  /** Among the devices from d on, exactly those that the request turns have changed. */
  ghost predicate SweptFrom(s: SysState, d: nat, req: Request, s': SysState) {
    && |s'.devs| == |s.devs| && s'.serviceId == s.serviceId && s'.poolId == s.poolId
    && forall e {:trigger s'.devs[e]} :: 0 <= e < |s.devs| ==>
         if e >= d && Turns(s.devs[e], req) then s'.devs[e].isExcl else s'.devs[e] == s.devs[e]
  }

  lemma FailedVisit(s: SysState, d: nat, affinity: bool, req: Request)
    requires Inv(s) && d < |s.devs| && s.devs[d].isLoaded && req.clientId != 0
    requires Visit(s, d, affinity, req).1.None?
    ensures var s1 := Visit(s, d, affinity, req).0;
            && s1 == SetDev(s, d, s1.devs[d])
            && (if Turns(s.devs[d], req) then s1.devs[d].isExcl else s1.devs[d] == s.devs[d])
  {
    assert DevInv(s.devs[d]);
    if Register(s.devs[d], req).Some? {
      UndoTurns(s.devs[d], req);
    } else {
      assert s.devs[d := s.devs[d]] == s.devs;
    }
  }

  lemma {:induction false} FailedScan(s: SysState, d: nat, affinity: bool, req: Request)
    requires Inv(s) && d <= |s.devs| && req.clientId != 0
    requires ScanDevs(s, d, affinity, req).1.None?
    ensures SweptFrom(s, d, req, ScanDevs(s, d, affinity, req).0)
    decreases |s.devs| - d
  {
    hide Visit, Turns, Inv;
    var k := NextOpen(s.devs, d, req.clientId);
    ClosedStay(s, d, req);
    if k < |s.devs| {
      FailedVisit(s, k, affinity, req);
      VisitKeepsInv(s, k, affinity, req);
      FailedScan(Visit(s, k, affinity, req).0, k + 1, affinity, req);
    }
  }

  lemma ClosedStay(s: SysState, d: nat, req: Request)
    requires d <= |s.devs|
    ensures forall e :: d <= e < NextOpen(s.devs, d, req.clientId) ==> !Turns(s.devs[e], req)
  {
  }

  /** A failing request makes every device that it turns exclusive; no exclusive device becomes
      shared, and with nothing to turn nothing changes. */
  lemma FailedAllocTurns(s: SysState, req: Request)
    requires Inv(s) && req.clientId != 0 && HasName(req.names)
    requires AllocCu(s, req, false).1.Err?
    ensures var s' := AllocCu(s, req, false).0;
            && |s'.devs| == |s.devs|
            && (forall d {:trigger s'.devs[d]} :: 0 <= d < |s.devs| && (Turns(s.devs[d], req) || s.devs[d].isExcl) ==>
               s'.devs[d].isExcl)
            && ((forall d :: 0 <= d < |s.devs| ==> !Turns(s.devs[d], req)) ==> s' == s)
  {
    ScanKeepsInv(s, 0, true, req);
    FailedScan(s, 0, true, req);
    var s1 := ScanDevs(s, 0, true, req).0;
    FailedScan(s1, 0, false, req);
    var s2 := ScanDevs(s1, 0, false, req).0;
    forall d | 0 <= d < |s.devs| && (Turns(s.devs[d], req) || s.devs[d].isExcl) ensures s2.devs[d].isExcl {
      assert s1.devs[d].isExcl;
    }
    if forall d :: 0 <= d < |s.devs| ==> !Turns(s.devs[d], req) { assert s2.devs == s.devs; }
  }

  /** On all devices: a failing request leaves the whole database as it was if and only if no
      loaded shared device is used by its client alone while it asks for exclusive use. */
  lemma FailedAllocRestores(s: SysState, req: Request)
    requires Inv(s) && req.clientId != 0 && HasName(req.names)
    requires AllocCu(s, req, false).1.Err?
    ensures AllocCu(s, req, false).0 == s <==> forall d :: 0 <= d < |s.devs| ==> !Turns(s.devs[d], req)
  {
    FailedAllocTurns(s, req);
    var s' := AllocCu(s, req, false).0;
    if d :| 0 <= d < |s.devs| && Turns(s.devs[d], req) { assert s'.devs[d].isExcl; }
  }

  /** What `Turns` means: the device is loaded and shared, and the client asking for exclusive
      use is the only one it lists. */
  lemma TurnsIff(dev: DevState, req: Request)
    requires DevInv(dev) && req.clientId != 0
    ensures Turns(dev, req) <==>
              req.devExcl && dev.isLoaded && !dev.isExcl && FindProc(dev.procs, req.clientId) < |dev.procs|
              && !OthersPresent(dev.procs, req.clientId)
  {
    UsableIff(dev, req);
  }
}
