/** Which unit an allocation takes, when it is refused, and what exactly is left of every device
    either way: stated on the tables alone, and without any of the searches. A request goes to a
    unit in use rather than to an idle one, and to the lowest among equals. */
module ChoiceModel {
  import opened Tables
  import opened CuModel
  import opened DeviceModel
  import opened SystemModel
  import opened Placement

  // ---------------------------------------------------------------------------------
  // Who can serve
  // ---------------------------------------------------------------------------------

  /** The unit has every name that is asked for, load left in the pool, and a free channel. */
  ghost predicate CanServe(cu: CuState, req: Request) {
    && (req.names.kernel != "" ==> cu.names.kernel == req.names.kernel)
    && (req.names.alias != "" ==> cu.names.alias == req.names.alias)
    && (req.names.cu != "" ==> cu.names.cu == req.names.cu)
    && req.load > 0
    && (if req.poolId == 0 then Used(cu) + req.load <= MAX_LOAD
        else exists i :: 0 <= i < |cu.reserves| && cu.reserves[i].poolId == req.poolId
                         && Total(LoadInPool(req.poolId), cu.channels) + req.load <= cu.reserves[i].load)
    && exists k :: 0 <= k < |cu.channels| && cu.channels[k].load == 0
  }

  lemma CanServeIff(cu: CuState, req: Request)
    requires CuInv(cu)
    ensures CanServe(cu, req) <==> Matches(cu, req) && Feasible(cu, req)
  {
    var f := FindSlot(cu.reserves, req.poolId);
    forall i | 0 <= i < |cu.reserves| && cu.reserves[i].poolId == req.poolId ensures i == f {
      assert PoolIds(cu.reserves)[i] == PoolIds(cu.reserves)[f];
    }
  }

  predicate InUse(cu: CuState) {
    cu.clients != []
  }

  /** Unit c comes before unit j: in use before idle, then by index. */
  predicate Sooner(cus: seq<CuState>, c: nat, j: nat)
    requires c < |cus| && j < |cus|
  {
    if InUse(cus[c]) then !InUse(cus[j]) || c < j else !InUse(cus[j]) && c < j
  }

  /** Unit c is the one of the device to serve the request. */
  ghost predicate UnitFor(dev: DevState, c: nat, req: Request) {
    && HasName(req.names) && Usable(dev, req)
    && c < |dev.cus| && CanServe(dev.cus[c], req)
    && forall j :: 0 <= j < |dev.cus| && j != c && CanServe(dev.cus[j], req) ==> Sooner(dev.cus, c, j)
  }

  /** The device has nothing for the request. */
  ghost predicate Refuses(dev: DevState, req: Request) {
    !HasName(req.names) || !Usable(dev, req) || forall c :: 0 <= c < |dev.cus| ==> !CanServe(dev.cus[c], req)
  }

  /** The device with the client counted and the unit's lowest free channel given away. */
  ghost function Served(dev: DevState, c: nat, req: Request, id: nat): DevState
    requires UnitFor(dev, c, req) && DevInv(dev)
  {
    CanServeIff(dev.cus[c], req);
    SetCu(Register(dev, req).value, c, PutChannel(dev.cus[c], req, id))
  }

  ghost function ServedRes(d: nat, dev: DevState, c: nat, req: Request, id: nat): Res
    requires UnitFor(dev, c, req)
  {
    ResAt(d, c, Granted(req, FirstFree(dev.cus[c].channels), id))
  }

  lemma UnitForUnique(dev: DevState, c: nat, j: nat, req: Request)
    requires UnitFor(dev, c, req) && UnitFor(dev, j, req)
    ensures c == j
  {
  }

  // ---------------------------------------------------------------------------------
  // One device
  // ---------------------------------------------------------------------------------

  lemma PickIsUnit(dev: DevState, req: Request)
    requires DevInv(dev) && HasName(req.names) && Usable(dev, req)
    ensures var c := PickCu(dev.cus, req);
            if c < |dev.cus| then UnitFor(dev, c, req) else Refuses(dev, req)
  {
    hide Feasible, Matches, CanServe;
    forall j | 0 <= j < |dev.cus|
      ensures CanServe(dev.cus[j], req) <==> Acceptable(dev.cus[j], InUse(dev.cus[j]), req)
    {
      assert CuInv(dev.cus[j]);
      CanServeIff(dev.cus[j], req);
    }
  }

  /** An attempt on one device. */
  ghost predicate DevLands(s: SysState, d: nat, req: Request, s': SysState, r: Outcome<Res>)
    requires Inv(s) && d < |s.devs|
  {
    assert DevInv(s.devs[d]);
    match r
    case Ok(res) =>
      && UnitFor(s.devs[d], res.cuId, req)
      && res == ServedRes(d, s.devs[d], res.cuId, req, NextId(s.serviceId))
      && s' == SetDev(s, d, Served(s.devs[d], res.cuId, req, NextId(s.serviceId)))
    case Err(e) =>
      && Refuses(s.devs[d], req)
      && s' == SetDev(s, d, LeftBy(s.devs[d], req))
      && e == if !Usable(s.devs[d], req) then NO_DEV else if !HasName(req.names) then INVALID else NO_KERNEL
  }

  lemma TryPlaceLands(s: SysState, d: nat, req: Request)
    requires Inv(s) && d < |s.devs| && s.devs[d].isLoaded && req.clientId != 0
    ensures DevLands(s, d, req, TryPlace(s, d, req).0, TryPlace(s, d, req).1)
  {
    hide Register, Unregister, PutChannel, CanServe, PickCu;
    assert DevInv(s.devs[d]);
    SameAfterRegister(s.devs[d], req);
    if Usable(s.devs[d], req) {
      UndoTurns(s.devs[d], req);
      if HasName(req.names) { PickIsUnit(s.devs[d], req); }
    } else {
      assert s.devs[d := s.devs[d]] == s.devs;
    }
  }

  lemma DevLandsUnique(s: SysState, d: nat, req: Request, s1: SysState, r1: Outcome<Res>, s2: SysState,
      r2: Outcome<Res>)
    requires Inv(s) && d < |s.devs| && DevLands(s, d, req, s1, r1) && DevLands(s, d, req, s2, r2)
    ensures s1 == s2 && r1 == r2
  {
    hide CanServe, PutChannel, Register;
    if r1.Ok? && r2.Ok? { UnitForUnique(s.devs[d], r1.value.cuId, r2.value.cuId, req); }
  }

  /** A request for device d: refused for an index out of range or want of a name, or as the
      device's own tables tell. */
  ghost predicate NamedLands(s: SysState, d: int, req: Request, s': SysState, r: Outcome<Res>)
    requires Inv(s)
  {
    if 0 <= d < |s.devs| && HasName(req.names) then DevLands(s, d, req, s', r) else r == Err(INVALID) && s' == s
  }

  /** Allocation from a named device takes the lowest unit in use that can serve the request, or
      if there is none the lowest idle one; it is refused exactly when the device does not take
      the client or no unit can serve, and nothing else changes. */
  lemma AllocCuFromDevLands(s: SysState, d: int, req: Request, s': SysState, r: Outcome<Res>)
    requires Inv(s) && req.clientId != 0
    ensures AllocCuFromDev(s, d, req, false) == (s', r) <==> NamedLands(s, d, req, s', r)
    ensures NamedLands(s, d, req, s', r) ==>
              AllocCuFromDev(s, d, req, true) == (if r.Ok? then Advance(s', true) else s', r)
  {
    hide DevLands, TryPlace, Usable;
    var (s1, r1) := AllocCuFromDev(s, d, req, false);
    if 0 <= d < |s.devs| && HasName(req.names) {
      if Open(s.devs[d], req.clientId) { TryPlaceLands(s, d, req); } else { ClosedLands(s, d, req); }
      if DevLands(s, d, req, s', r) { DevLandsUnique(s, d, req, s', r, s1, r1); }
    }
  }

  lemma ClosedLands(s: SysState, d: nat, req: Request)
    requires Inv(s) && d < |s.devs| && !Open(s.devs[d], req.clientId)
    ensures DevLands(s, d, req, s, Err(NO_DEV))
  {
    assert s.devs[d := s.devs[d]] == s.devs;
  }

  // ---------------------------------------------------------------------------------
  // Any device
  // ---------------------------------------------------------------------------------

  ghost predicate Server(s: SysState, d: nat, c: nat, req: Request) {
    && d < |s.devs| && c < |s.devs[d].cus|
    && Usable(s.devs[d], req) && CanServe(s.devs[d].cus[c], req)
  }

  /** Unit (d, c) comes before unit (e, j): in use before idle, then by device, then by index. */
  predicate Ahead(s: SysState, d: nat, c: nat, e: nat, j: nat)
    requires d < |s.devs| && c < |s.devs[d].cus| && e < |s.devs| && j < |s.devs[e].cus|
  {
    if InUse(s.devs[d].cus[c]) then !InUse(s.devs[e].cus[j]) || Before(d, c, e, j)
    else !InUse(s.devs[e].cus[j]) && Before(d, c, e, j)
  }

  ghost predicate FirstServer(s: SysState, d: nat, c: nat, req: Request) {
    && Server(s, d, c, req)
    && forall e: nat, j: nat {:trigger Server(s, e, j, req)} :: Server(s, e, j, req) && !(e == d && j == c) ==>
         Ahead(s, d, c, e, j)
  }

  ghost predicate NoServer(s: SysState, req: Request) {
    forall e: nat, j: nat :: !Server(s, e, j, req)
  }

  /** The devices from lo up to hi were tried in vain. */
  function Swept(s: SysState, lo: nat, hi: nat, req: Request): (s': SysState)
    ensures |s'.devs| == |s.devs| && s'.serviceId == s.serviceId && s'.poolId == s.poolId
    ensures forall e :: 0 <= e < |s.devs| ==>
              s'.devs[e] == if lo <= e < hi then LeftBy(s.devs[e], req) else s.devs[e]
  {
    s.(devs := seq(|s.devs|, e requires 0 <= e < |s.devs| =>
                 if lo <= e < hi then LeftBy(s.devs[e], req) else s.devs[e]))
  }

  lemma ServerUnit(s: SysState, d: nat, c: nat, req: Request)
    requires FirstServer(s, d, c, req) && HasName(req.names)
    ensures UnitFor(s.devs[d], c, req)
  {
    forall j | 0 <= j < |s.devs[d].cus| && j != c && CanServe(s.devs[d].cus[j], req)
      ensures Sooner(s.devs[d].cus, c, j)
    {
      assert Server(s, d, j, req);
    }
  }

  /** An allocation from any device. All devices were tried in vain if it fails, or if it comes
      to an idle unit; those before the unit's, if the unit is in use. */
  ghost predicate Lands(s: SysState, req: Request, s': SysState, r: Outcome<Res>)
    requires Inv(s)
  {
    if !HasName(req.names) then r == Err(INVALID) && s' == s
    else
      match r
      case Ok(res) =>
        && FirstServer(s, res.devId, res.cuId, req)
        && var dev := s.devs[res.devId];
        && assert DevInv(dev); ServerUnit(s, res.devId, res.cuId, req);
        && res == ServedRes(res.devId, dev, res.cuId, req, NextId(s.serviceId))
        && s' == SetDev(Swept(s, 0, if InUse(dev.cus[res.cuId]) then res.devId else |s.devs|, req),
                        res.devId, Served(dev, res.cuId, req, NextId(s.serviceId)))
      case Err(e) =>
        e == NO_KERNEL && NoServer(s, req) && s' == Swept(s, 0, |s.devs|, req)
  }

  lemma LandsUnique(s: SysState, req: Request, s1: SysState, r1: Outcome<Res>, s2: SysState, r2: Outcome<Res>)
    requires Inv(s) && Lands(s, req, s1, r1) && Lands(s, req, s2, r2)
    ensures s1 == s2 && r1 == r2
  {
    hide CanServe, PutChannel, Register, Swept, Served, ServedRes;
  }

  // The two passes

  lemma CandidateIff(s: SysState, d: nat, c: nat, affinity: bool, req: Request)
    requires Inv(s)
    ensures Candidate(s, d, c, affinity, req) <==>
              Server(s, d, c, req) && (affinity <==> InUse(s.devs[d].cus[c]))
  {
    if d < |s.devs| && c < |s.devs[d].cus| {
      assert DevInv(s.devs[d]);
      assert CuInv(s.devs[d].cus[c]);
      CanServeIff(s.devs[d].cus[c], req);
    }
  }

  /** The unit that both passes find is the first of all. */
  lemma FoundIsFirst(s: SysState, req: Request, s': SysState, r: Outcome<Res>)
    requires Inv(s) && AllocOutcome(s, req, s', r)
    ensures match r
            case Ok(res) =>
              FirstServer(s, res.devId, res.cuId, req)
              && (LeastFrom(s, 0, res, true, req) <==> InUse(s.devs[res.devId].cus[res.cuId]))
            case Err(_) => NoServer(s, req)
  {
    hide CanServe, Matches, Feasible, Usable;
    forall d: nat, c: nat, affinity: bool
      ensures Candidate(s, d, c, affinity, req) <==>
                Server(s, d, c, req) && (affinity <==> InUse(s.devs[d].cus[c]))
    {
      CandidateIff(s, d, c, affinity, req);
    }
    if r.Err? {
      forall e: nat, j: nat ensures !Server(s, e, j, req) {
        assert !Candidate(s, e, j, true, req) && !Candidate(s, e, j, false, req);
      }
    } else {
      var d, c := r.value.devId, r.value.cuId;
      forall e: nat, j: nat | Server(s, e, j, req) && !(e == d && j == c) ensures Ahead(s, d, c, e, j) {
        assert Candidate(s, e, j, InUse(s.devs[e].cus[j]), req);
      }
    }
  }

  /** What a pass over the devices from d on comes to. */
  ghost predicate PassSweeps(s: SysState, d: nat, req: Request, s': SysState, r: Option<Res>) {
    match r
    case None => s' == Swept(s, d, |s.devs|, req)
    case Some(res) =>
      && d <= res.devId < |s.devs| && Usable(s.devs[res.devId], req)
      && var dev := Register(s.devs[res.devId], req).value;
      && res.cuId < |dev.cus| && Feasible(dev.cus[res.cuId], req)
      && s' == Grant(Swept(s, d, res.devId, req), res.devId, dev, res.cuId, req)
      && res == GrantedRes(s, res.devId, dev.cus[res.cuId], res.cuId, req)
  }

  lemma VisitSweeps(s: SysState, k: nat, affinity: bool, req: Request)
    requires Inv(s) && k < |s.devs| && s.devs[k].isLoaded && req.clientId != 0
    ensures var (s1, r1) := Visit(s, k, affinity, req);
            if r1.None? then s1 == Swept(s, k, k + 1, req) else r1.value.devId == k && PassSweeps(s, k, req, s1, r1)
  {
    hide Feasible, PutChannel, Turns, LeftBy, Register, Unregister;
    assert DevInv(s.devs[k]);
    if Usable(s.devs[k], req) { UndoTurns(s.devs[k], req); } else { NotTurned(s.devs[k], req); }
    assert Swept(s, k, k, req).devs == s.devs;
    assert Swept(s, k, k + 1, req).devs == s.devs[k := LeftBy(s.devs[k], req)];
    assert s.devs[k := s.devs[k]] == s.devs;
  }

  lemma NotTurned(dev: DevState, req: Request)
    ensures !Usable(dev, req) || !Turns(dev, req) ==> LeftBy(dev, req) == dev
  {
  }

  /** Closed devices up to k, then k in vain, then the rest. */
  lemma SweptOn(s: SysState, d: nat, k: nat, n: nat, req: Request)
    requires d <= k < |s.devs| && k + 1 <= n && forall e :: d <= e < k ==> !Turns(s.devs[e], req)
    ensures Swept(Swept(s, k, k + 1, req), k + 1, n, req) == Swept(s, d, n, req)
    ensures Swept(s, k, k, req) == Swept(s, d, k, req)
  {
    hide Turns, LeftBy;
    forall e | d <= e < k ensures LeftBy(s.devs[e], req) == s.devs[e] { NotTurned(s.devs[e], req); }
    assert Swept(Swept(s, k, k + 1, req), k + 1, n, req).devs == Swept(s, d, n, req).devs;
    assert Swept(s, k, k, req).devs == Swept(s, d, k, req).devs;
  }

  lemma {:induction false} ScanSweeps(s: SysState, d: nat, affinity: bool, req: Request)
    requires Inv(s) && d <= |s.devs| && req.clientId != 0
    ensures PassSweeps(s, d, req, ScanDevs(s, d, affinity, req).0, ScanDevs(s, d, affinity, req).1)
    decreases |s.devs| - d
  {
    hide Visit, Turns, PassSweeps, Swept, Inv;
    var k := NextOpen(s.devs, d, req.clientId);
    ClosedStay(s, d, req);
    if k < |s.devs| {
      VisitSweeps(s, k, affinity, req);
      VisitKeepsInv(s, k, affinity, req);
      var (s1, r1) := Visit(s, k, affinity, req);
      if r1.None? {
        ScanSweeps(s1, k + 1, affinity, req);
        SweepsOn(s, d, k, req, ScanDevs(s1, k + 1, affinity, req).0, ScanDevs(s1, k + 1, affinity, req).1);
      } else {
        SweepsFrom(s, d, k, req, s1, r1);
      }
    } else {
      NothingSwept(s, d, req);
    }
  }

  lemma SweepsOn(s: SysState, d: nat, k: nat, req: Request, s': SysState, r: Option<Res>)
    requires d <= k < |s.devs| && forall e :: d <= e < k ==> !Turns(s.devs[e], req)
    requires PassSweeps(Swept(s, k, k + 1, req), k + 1, req, s', r)
    ensures PassSweeps(s, d, req, s', r)
  {
    hide Feasible, PutChannel, Turns, LeftBy, Register, Usable;
    SweptOn(s, d, k, if r.Some? then r.value.devId else |s.devs|, req);
  }

  lemma SweepsFrom(s: SysState, d: nat, k: nat, req: Request, s': SysState, r: Option<Res>)
    requires d <= k < |s.devs| && forall e :: d <= e < k ==> !Turns(s.devs[e], req)
    requires r.Some? && r.value.devId == k && PassSweeps(s, k, req, s', r)
    ensures PassSweeps(s, d, req, s', r)
  {
    hide Feasible, PutChannel, Turns, LeftBy, Register, Usable;
    SweptOn(s, d, k, k + 1, req);
  }

  lemma NothingSwept(s: SysState, d: nat, req: Request)
    requires forall e :: d <= e < |s.devs| ==> !Turns(s.devs[e], req)
    ensures Swept(s, d, |s.devs|, req) == s && PassSweeps(s, d, req, s, None)
  {
    assert Swept(s, d, |s.devs|, req).devs == s.devs;
  }

  /** A second pass turns nothing that the first has not turned. */
  lemma SweptAgain(s: SysState, hi: nat, req: Request)
    ensures Swept(Swept(s, 0, |s.devs|, req), 0, hi, req) == Swept(s, 0, |s.devs|, req)
  {
    assert Swept(Swept(s, 0, |s.devs|, req), 0, hi, req).devs == Swept(s, 0, |s.devs|, req).devs;
  }

  /** Counting the client on a device that was tried in vain is counting it on the device. */
  lemma RegisterLeft(dev: DevState, req: Request)
    requires Usable(dev, req) && req.clientId != 0
    ensures Register(LeftBy(dev, req), req) == Register(dev, req)
  {
    if Turns(dev, req) {
      var c := req.clientId;
      assert EmptyTable()[0 := Proc(c, RefOf(dev.procs, c) + 1)]
          == EmptyTable()[0 := Proc(c, RefOf(dev.procs, c))][0 := Proc(c, RefOf(dev.procs, c) + 1)];
    }
  }

  /** The second pass, from a database that the first has swept, as seen from the start. */
  lemma SecondPass(s: SysState, req: Request, s': SysState, r: Option<Res>)
    requires Inv(s) && req.clientId != 0 && PassSweeps(Swept(s, 0, |s.devs|, req), 0, req, s', r)
    ensures match r
            case None => s' == Swept(s, 0, |s.devs|, req)
            case Some(res) =>
              && res.devId < |s.devs| && Usable(s.devs[res.devId], req)
              && var dev := Register(s.devs[res.devId], req).value;
              && res.cuId < |dev.cus| && Feasible(dev.cus[res.cuId], req)
              && s' == Grant(Swept(s, 0, |s.devs|, req), res.devId, dev, res.cuId, req)
              && res == GrantedRes(s, res.devId, dev.cus[res.cuId], res.cuId, req)
  {
    hide Feasible, PutChannel, Register, Turns, LeftBy;
    match r
    case None => SweptAgain(s, |s.devs|, req);
    case Some(res) =>
      SweptAgain(s, res.devId, req);
      SweptUsable(s.devs[res.devId], req);
  }

  lemma SweptUsable(dev: DevState, req: Request)
    requires Usable(LeftBy(dev, req), req) && req.clientId != 0
    ensures Usable(dev, req) && Register(LeftBy(dev, req), req) == Register(dev, req)
  {
    if Turns(dev, req) { RegisterLeft(dev, req); }
  }

  /** An allocation from any device takes the first of all units that can serve the request, in
      use before idle, then by device and index, and fails exactly when there is none; what it
      leaves of every device is fixed as well. */
  lemma AllocCuLands(s: SysState, req: Request, s': SysState, r: Outcome<Res>)
    requires Inv(s) && req.clientId != 0
    ensures AllocCu(s, req, false) == (s', r) <==> Lands(s, req, s', r)
    ensures Lands(s, req, s', r) ==> AllocCu(s, req, true) == (if r.Ok? then Advance(s', true) else s', r)
  {
    hide Lands, AllocCu;
    AllocLands(s, req);
    AllocCuUpdate(s, req);
    var (s1, r1) := AllocCu(s, req, false);
    if Lands(s, req, s', r) { LandsUnique(s, req, s', r, s1, r1); }
  }

  lemma GrantIsServed(s: SysState, s0: SysState, d: nat, c: nat, req: Request)
    requires d < |s.devs| == |s0.devs| && s0.serviceId == s.serviceId && DevInv(s.devs[d])
    requires UnitFor(s.devs[d], c, req)
    ensures var dev := Register(s.devs[d], req).value;
            && c < |dev.cus| && dev.cus[c] == s.devs[d].cus[c] && Feasible(dev.cus[c], req)
            && Grant(s0, d, dev, c, req) == SetDev(s0, d, Served(s.devs[d], c, req, NextId(s.serviceId)))
            && GrantedRes(s, d, dev.cus[c], c, req) == ServedRes(d, s.devs[d], c, req, NextId(s.serviceId))
  {
    hide Register, Unregister, PutChannel;
    SameAfterRegister(s.devs[d], req);
    CanServeIff(s.devs[d].cus[c], req);
  }

  lemma AllocLands(s: SysState, req: Request)
    requires Inv(s) && req.clientId != 0
    ensures Lands(s, req, AllocCu(s, req, false).0, AllocCu(s, req, false).1)
  {
    hide PutChannel, Register, Feasible, Swept, CanServe, ScanDevs, AllocOutcome;
    if HasName(req.names) {
      var (s', r) := AllocCu(s, req, false);
      AllocCuRefines(s, req);
      FoundIsFirst(s, req, s', r);
      if r.Ok? {
        var d := r.value.devId;
        assert DevInv(s.devs[d]);
        ServerUnit(s, d, r.value.cuId, req);
        GrantIsServed(s, Swept(s, 0, if InUse(s.devs[d].cus[r.value.cuId]) then d else |s.devs|, req),
                      d, r.value.cuId, req);
      }
      ScanSweeps(s, 0, true, req);
      ScanSpec(s, 0, true, req);
      var (s1, r1) := ScanDevs(s, 0, true, req);
      if r1.None? {
        ScanKeepsInv(s, 0, true, req);
        ScanSweeps(s1, 0, false, req);
        SecondPass(s, req, ScanDevs(s1, 0, false, req).0, ScanDevs(s1, 0, false, req).1);
      }
    }
  }
}
