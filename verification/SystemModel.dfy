/** The whole database: allocating one compute unit from any device or from a given one,
    releasing it, and the invariant every step keeps. */
module SystemModel {
  import opened Tables
  import opened CuModel
  import opened DeviceModel

  // ---------------------------------------------------------------------------------
  // Invariant
  // ---------------------------------------------------------------------------------

  ghost predicate Inv(s: SysState) {
    && |s.devs| <= MAX_DEVICES
    && (forall d {:trigger DevInv(s.devs[d])} :: 0 <= d < |s.devs| ==> DevInv(s.devs[d]))
  }

  /** No table holds a service id beyond `sid` or a pool id beyond `pid`. */
  ghost predicate IdsUpTo(cu: CuState, sid: nat, pid: nat) {
    && (forall i :: 0 <= i < |cu.channels| ==> cu.channels[i].serviceId <= sid && cu.channels[i].poolId <= pid)
    && (forall i :: 0 <= i < |cu.reserves| ==> cu.reserves[i].poolId <= pid)
  }

  ghost predicate AllIdsUpTo(s: SysState, sid: nat, pid: nat) {
    forall d, c :: 0 <= d < |s.devs| && 0 <= c < |s.devs[d].cus| ==> IdsUpTo(s.devs[d].cus[c], sid, pid)
  }

  /** Between requests the next service id and the next pool id occur nowhere. */
  ghost predicate IdsFresh(s: SysState) {
    AllIdsUpTo(s, s.serviceId, s.poolId)
  }

  // ---------------------------------------------------------------------------------
  // Choosing a compute unit
  // ---------------------------------------------------------------------------------

  /** The affinity pass looks at units that already have a client, the second pass at the others. */
  predicate Acceptable(cu: CuState, affinity: bool, req: Request) {
    (affinity <==> |cu.clients| > 0) && Matches(cu, req) && Feasible(cu, req)
  }

  /** First unit at or after i that the pass accepts; |cus| when there is none. */
  function AcceptFrom(cus: seq<CuState>, i: nat, affinity: bool, req: Request): (k: nat)
    requires i <= |cus|
    ensures i <= k <= |cus|
    ensures k < |cus| ==> Acceptable(cus[k], affinity, req)
    ensures forall j :: i <= j < k ==> !Acceptable(cus[j], affinity, req)
    decreases |cus| - i
  {
    if i == |cus| || Acceptable(cus[i], affinity, req) then i else AcceptFrom(cus, i + 1, affinity, req)
  }

  /** Both passes on one device. */
  function PickCu(cus: seq<CuState>, req: Request): (k: nat)
    ensures k <= |cus|
    ensures k < |cus| ==> Matches(cus[k], req) && Feasible(cus[k], req)
  {
    var k := AcceptFrom(cus, 0, true, req);
    if k < |cus| then k else AcceptFrom(cus, 0, false, req)
  }

  // ---------------------------------------------------------------------------------
  // Allocation
  // ---------------------------------------------------------------------------------

  function SetDev(s: SysState, d: nat, dev: DevState): SysState
    requires d < |s.devs|
  {
    s.(devs := s.devs[d := dev])
  }

  function ResAt(d: nat, c: nat, ch: Channel): Res {
    Res(d, c, ch.channelId, ch.serviceId, ch.clientId, ch.poolId, ch.load)
  }

  function ChannelOf(r: Res): Channel {
    Channel(r.chanId, r.serviceId, r.poolId, r.clientId, r.load)
  }

  function GrantedRes(s: SysState, d: nat, cu: CuState, c: nat, req: Request): Res
    requires req.load > 0
  {
    ResAt(d, c, Granted(req, FirstFree(cu.channels), NextId(s.serviceId)))
  }

  /** Gives the request a channel of unit c on device d, whose client table is already `dev`'s. */
  function Grant(s: SysState, d: nat, dev: DevState, c: nat, req: Request): SysState
    requires d < |s.devs| && c < |dev.cus| && Feasible(dev.cus[c], req)
  {
    SetDev(s, d, SetCu(dev, c, PutChannel(dev.cus[c], req, NextId(s.serviceId))))
  }

  /** Allocates from device d if it takes the client and has a unit for it; else undoes the
      registration. */
  function TryPlace(s: SysState, d: nat, req: Request): (r: (SysState, Outcome<Res>))
    requires d < |s.devs|
    ensures |r.0.devs| == |s.devs| && r.0.devs[d].isLoaded == s.devs[d].isLoaded
    ensures r.0.serviceId == s.serviceId && r.0.poolId == s.poolId
  {
    match Register(s.devs[d], req)
    case None => (s, Err(NO_DEV))
    case Some(dev) =>
      if !HasName(req.names) then (SetDev(s, d, Unregister(dev, req.clientId)), Err(INVALID))
      else
        var c := PickCu(dev.cus, req);
        if c < |dev.cus| then (Grant(s, d, dev, c, req), Ok(GrantedRes(s, d, dev.cus[c], c, req)))
        else (SetDev(s, d, Unregister(dev, req.clientId)), Err(NO_KERNEL))
  }

  /** Loaded, and not held exclusively by another client. */
  predicate Open(dev: DevState, client: nat)
  {
    dev.isLoaded && (dev.isExcl ==> dev.procs[0].clientId == client)
  }

  /** The lowest open device at or after d; |devs| when there is none. */
  function NextOpen(devs: seq<DevState>, d: nat, client: nat): (k: nat)
    requires d <= |devs|
    ensures d <= k <= |devs|
    ensures k < |devs| ==> Open(devs[k], client)
    ensures forall j :: d <= j < k ==> !Open(devs[j], client)
    decreases |devs| - d
  {
    if d == |devs| || Open(devs[d], client) then d else NextOpen(devs, d + 1, client)
  }

  /** One device of a pass. A device that takes the client but has no unit for the pass is
      unregistered again. */
  function Visit(s: SysState, d: nat, affinity: bool, req: Request): (r: (SysState, Option<Res>))
    requires d < |s.devs|
    ensures |r.0.devs| == |s.devs|
  {
    match Register(s.devs[d], req)
    case None => (s, None)
    case Some(dev) =>
      var c := AcceptFrom(dev.cus, 0, affinity, req);
      if c < |dev.cus| then (Grant(s, d, dev, c, req), Some(GrantedRes(s, d, dev.cus[c], c, req)))
      else (SetDev(s, d, Unregister(dev, req.clientId)), None)
  }

  /** One pass over the open devices from d on. */
  function ScanDevs(s: SysState, d: nat, affinity: bool, req: Request): (r: (SysState, Option<Res>))
    requires d <= |s.devs|
    ensures |r.0.devs| == |s.devs|
    decreases |s.devs| - d
  {
    var k := NextOpen(s.devs, d, req.clientId);
    if k == |s.devs| then (s, None)
    else
      var (s1, r1) := Visit(s, k, affinity, req);
      if r1.Some? then (s1, r1) else ScanDevs(s1, k + 1, affinity, req)
  }

  function Advance(s: SysState, update: bool): SysState {
    if update then s.(serviceId := NextId(s.serviceId)) else s
  }

  /** Allocates one unit from any device: units in use first, then idle ones. */
  function AllocCu(s: SysState, req: Request, update: bool): (SysState, Outcome<Res>)
  {
    if !HasName(req.names) then (s, Err(INVALID))
    else
      var (s1, r1) := ScanDevs(s, 0, true, req);
      if r1.Some? then (Advance(s1, update), Ok(r1.value))
      else
        var (s2, r2) := ScanDevs(s1, 0, false, req);
        if r2.Some? then (Advance(s2, update), Ok(r2.value)) else (s2, Err(NO_KERNEL))
  }

  /** Allocates one unit from the named device. */
  function AllocCuFromDev(s: SysState, d: int, req: Request, update: bool): (SysState, Outcome<Res>)
  {
    if d < 0 || d >= |s.devs| || !HasName(req.names) then (s, Err(INVALID))
    else if !Open(s.devs[d], req.clientId) then (s, Err(NO_DEV))
    else
      var (s1, r) := TryPlace(s, d, req);
      if r.Ok? then (Advance(s1, update), r) else (s1, r)
  }

  // ---------------------------------------------------------------------------------
  // Release
  // ---------------------------------------------------------------------------------

  /** Whether the resource names a channel that is live exactly as described. */
  predicate Holds(s: SysState, r: Res) {
    && r.devId < |s.devs|
    && r.cuId < |s.devs[r.devId].cus|
    && r.chanId < |s.devs[r.devId].cus[r.cuId].channels|
    && var ch := s.devs[r.devId].cus[r.cuId].channels[r.chanId];
    && ch.serviceId == r.serviceId && ch.poolId == r.poolId && ch.clientId == r.clientId
  }

  function ClearAndUnregister(s: SysState, r: Res): SysState
    requires Holds(s, r)
  {
    var dev := s.devs[r.devId];
    SetDev(s, r.devId,
           Unregister(SetCu(dev, r.cuId, ClearChannel(dev.cus[r.cuId], r.chanId)), r.clientId))
  }

  function ReleaseCu(s: SysState, r: Res): (t: (SysState, Status))
    ensures |t.0.devs| == |s.devs| && t.0.serviceId == s.serviceId && t.0.poolId == s.poolId
  {
    if r.devId > |s.devs| || r.cuId > MAX_KERNELS || r.chanId > MAX_CHANNELS then (s, INVALID)
    else if !Holds(s, r) then (s, ERROR)
    else (ClearAndUnregister(s, r), SUCCESS)
  }

  // ---------------------------------------------------------------------------------
  // What one grant or one release keeps
  // ---------------------------------------------------------------------------------

  lemma GrantKeepsInv(s: SysState, d: nat, c: nat, req: Request)
    requires Inv(s) && d < |s.devs| && Usable(s.devs[d], req) && req.clientId != 0
    requires c < |s.devs[d].cus| && Feasible(s.devs[d].cus[c], req)
    ensures Inv(Grant(s, d, Register(s.devs[d], req).value, c, req))
  {
    assert DevInv(s.devs[d]);
    RegisterRefs(s.devs[d], req);
    PutOnDevice(Register(s.devs[d], req).value, c, req, NextId(s.serviceId));
  }

  lemma ClearKeepsSysInv(s: SysState, r: Res)
    requires Inv(s) && Holds(s, r) && r.clientId != 0
    ensures Inv(ClearAndUnregister(s, r))
  {
    var dev := s.devs[r.devId];
    assert DevInv(dev);
    assert CuInv(dev.cus[r.cuId]);
    assert GoodChannel(dev.cus[r.cuId].channels[r.chanId], r.chanId);
    ClearOnDevice(dev, r.cuId, r.chanId);
    UnregisterRefs(SetCu(dev, r.cuId, ClearChannel(dev.cus[r.cuId], r.chanId)), r.clientId);
  }

  lemma UndoKeepsInv(s: SysState, d: nat, req: Request)
    requires Inv(s) && d < |s.devs| && Usable(s.devs[d], req) && req.clientId != 0
    ensures Inv(SetDev(s, d, Unregister(Register(s.devs[d], req).value, req.clientId)))
  {
    assert DevInv(s.devs[d]);
    UndoRegister(s.devs[d], req);
  }

  lemma TryPlaceKeepsInv(s: SysState, d: nat, req: Request)
    requires Inv(s) && d < |s.devs| && s.devs[d].isLoaded && req.clientId != 0
    ensures Inv(TryPlace(s, d, req).0)
  {
    match Register(s.devs[d], req)
    case None =>
    case Some(dev) =>
      var c := PickCu(dev.cus, req);
      if HasName(req.names) && c < |dev.cus| {
        GrantKeepsInv(s, d, c, req);
      } else {
        UndoKeepsInv(s, d, req);
      }
  }

  lemma VisitKeepsInv(s: SysState, d: nat, affinity: bool, req: Request)
    requires Inv(s) && d < |s.devs| && s.devs[d].isLoaded && req.clientId != 0
    ensures Inv(Visit(s, d, affinity, req).0)
  {
    match Register(s.devs[d], req)
    case None =>
    case Some(dev) =>
      var c := AcceptFrom(dev.cus, 0, affinity, req);
      if c < |dev.cus| { GrantKeepsInv(s, d, c, req); } else { UndoKeepsInv(s, d, req); }
  }

  lemma {:induction false} ScanKeepsInv(s: SysState, d: nat, affinity: bool, req: Request)
    requires Inv(s) && d <= |s.devs| && req.clientId != 0
    ensures Inv(ScanDevs(s, d, affinity, req).0)
    decreases |s.devs| - d
  {
    var k := NextOpen(s.devs, d, req.clientId);
    if k < |s.devs| {
      VisitKeepsInv(s, k, affinity, req);
      var (s1, r1) := Visit(s, k, affinity, req);
      if r1.None? { ScanKeepsInv(s1, k + 1, affinity, req); }
    }
  }

  lemma AllocCuKeepsInv(s: SysState, req: Request, update: bool)
    requires Inv(s) && req.clientId != 0
    ensures Inv(AllocCu(s, req, update).0)
  {
    ScanKeepsInv(s, 0, true, req);
    ScanKeepsInv(ScanDevs(s, 0, true, req).0, 0, false, req);
  }

  lemma AllocCuFromDevKeepsInv(s: SysState, d: int, req: Request, update: bool)
    requires Inv(s) && req.clientId != 0
    ensures Inv(AllocCuFromDev(s, d, req, update).0)
  {
    if 0 <= d < |s.devs| && s.devs[d].isLoaded { TryPlaceKeepsInv(s, d, req); }
  }

  lemma ReleaseKeepsInv(s: SysState, r: Res)
    requires Inv(s) && r.clientId != 0
    ensures Inv(ReleaseCu(s, r).0)
  {
    if Holds(s, r) { ClearKeepsSysInv(s, r); }
  }

  lemma AdvanceKeepsInv(s: SysState)
    requires Inv(s)
    ensures Inv(Advance(s, true))
  {
    forall d | 0 <= d < |s.devs| ensures DevInv(Advance(s, true).devs[d]) { assert DevInv(s.devs[d]); }
  }
}
