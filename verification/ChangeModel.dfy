/** What allocating and releasing can do to the tables at all: units, slots and load counters
    stay, and a channel stays, is freed, or is given out anew under the next service id, from
    the default pool or from a pool reserved on its unit. */
module ChangeModel {
  import opened Tables
  import opened CuModel
  import opened DeviceModel
  import opened SystemModel
  import opened Placement
  import opened Rollback
  import opened ListModel
  import opened ListV2Model
  import opened PolicyModel
  import opened QueryModel

  /** `pools` are the pools that the operation may allocate from. */
  predicate ChannelChanged(x: Channel, y: Channel, reserves: seq<Slot>, id: nat, pools: set<nat>) {
    || y == x
    || y == FreeChannel(y.channelId)
    || (y.serviceId == id && y.poolId in pools && (y.poolId == 0 || y.poolId in Pools(reserves)))
  }

  ghost predicate CuChanged(x: CuState, y: CuState, id: nat, pools: set<nat>) {
    && y.names == x.names && y.reserves == x.reserves && |y.channels| == |x.channels|
    && forall k {:trigger ChannelChanged(x.channels[k], y.channels[k], x.reserves, id, pools)} ::
       0 <= k < |x.channels| ==>
         ChannelChanged(x.channels[k], y.channels[k], x.reserves, id, pools)
  }

  ghost predicate DevChanged(x: DevState, y: DevState, id: nat, pools: set<nat>) {
    && y.isLoaded == x.isLoaded && y.uuid == x.uuid && y.drift == x.drift && |y.cus| == |x.cus|
    && forall c {:trigger CuChanged(x.cus[c], y.cus[c], id, pools)} :: 0 <= c < |x.cus| ==>
         CuChanged(x.cus[c], y.cus[c], id, pools)
  }

  ghost predicate Changed(s: SysState, s': SysState, pools: set<nat>) {
    && |s'.devs| == |s.devs| && s'.serviceId == s.serviceId && s'.poolId == s.poolId
    && forall d {:trigger DevChanged(s.devs[d], s'.devs[d], NextId(s.serviceId), pools)} :: 0 <= d < |s.devs| ==>
         DevChanged(s.devs[d], s'.devs[d], NextId(s.serviceId), pools)
  }

  /** What a whole operation comes to: either it used up the next service id, or it gave out
      nothing. */
  ghost predicate ChangedAndAdvanced(s: SysState, s': SysState, pools: set<nat>) {
    if s'.serviceId == s.serviceId then Changed(s, s', {})
    else s'.serviceId == NextId(s.serviceId) && Changed(s, s'.(serviceId := s.serviceId), pools)
  }

  // ---------------------------------------------------------------------------------
  // Composing changes
  // ---------------------------------------------------------------------------------

  lemma ChangedUnit(x: CuState, id: nat, pools: set<nat>)
    ensures CuChanged(x, x, id, pools)
  {
  }

  lemma Unchanged(s: SysState, pools: set<nat>)
    ensures Changed(s, s, pools)
  {
    forall d | 0 <= d < |s.devs| ensures DevChanged(s.devs[d], s.devs[d], NextId(s.serviceId), pools) {
      forall c | 0 <= c < |s.devs[d].cus|
        ensures CuChanged(s.devs[d].cus[c], s.devs[d].cus[c], NextId(s.serviceId), pools) {
        ChangedUnit(s.devs[d].cus[c], NextId(s.serviceId), pools);
      }
    }
  }

  lemma CuChangedTwice(x: CuState, y: CuState, z: CuState, id: nat, ps: set<nat>, qs: set<nat>)
    requires CuChanged(x, y, id, ps) && CuChanged(y, z, id, qs)
    ensures CuChanged(x, z, id, ps + qs)
  {
    forall k | 0 <= k < |x.channels| ensures ChannelChanged(x.channels[k], z.channels[k], x.reserves, id, ps + qs) {
      assert ChannelChanged(x.channels[k], y.channels[k], x.reserves, id, ps);
      assert ChannelChanged(y.channels[k], z.channels[k], y.reserves, id, qs);
    }
  }

  lemma ChangedTwice(s: SysState, s1: SysState, s2: SysState, ps: set<nat>, qs: set<nat>)
    requires Changed(s, s1, ps) && Changed(s1, s2, qs)
    ensures Changed(s, s2, ps + qs)
  {
    var id := NextId(s.serviceId);
    forall d | 0 <= d < |s.devs| ensures DevChanged(s.devs[d], s2.devs[d], id, ps + qs) {
      assert DevChanged(s.devs[d], s1.devs[d], id, ps) && DevChanged(s1.devs[d], s2.devs[d], id, qs);
      forall c | 0 <= c < |s.devs[d].cus| ensures CuChanged(s.devs[d].cus[c], s2.devs[d].cus[c], id, ps + qs) {
        assert CuChanged(s.devs[d].cus[c], s1.devs[d].cus[c], id, ps) &&
          CuChanged(s1.devs[d].cus[c], s2.devs[d].cus[c], id, qs);
        CuChangedTwice(s.devs[d].cus[c], s1.devs[d].cus[c], s2.devs[d].cus[c], id, ps, qs);
      }
    }
  }

  /** With the same pools both times, no more pools are needed. */
  lemma ChangedAgain(s: SysState, s1: SysState, s2: SysState, ps: set<nat>)
    requires Changed(s, s1, ps) && Changed(s1, s2, ps)
    ensures Changed(s, s2, ps)
  {
    ChangedTwice(s, s1, s2, ps, ps);
    assert ps + ps == ps;
  }

  lemma ChangedByMore(s: SysState, s': SysState, ps: set<nat>, qs: set<nat>)
    requires Changed(s, s', ps) && ps <= qs
    ensures Changed(s, s', qs)
  {
    Unchanged(s', qs);
    ChangedTwice(s, s', s', ps, qs);
    assert ps + qs == qs;
  }

  // ---------------------------------------------------------------------------------
  // The primitive changes
  // ---------------------------------------------------------------------------------

  /** One device changes in one unit at most. */
  lemma OneUnitChanged(s: SysState, d: nat, dev: DevState, c: nat, pools: set<nat>)
    requires d < |s.devs| && |dev.cus| == |s.devs[d].cus|
    requires dev.isLoaded == s.devs[d].isLoaded && dev.uuid == s.devs[d].uuid && dev.drift == s.devs[d].drift
    requires forall e :: 0 <= e < |dev.cus| && e != c ==> dev.cus[e] == s.devs[d].cus[e]
    requires c < |dev.cus| ==> CuChanged(s.devs[d].cus[c], dev.cus[c], NextId(s.serviceId), pools)
    ensures Changed(s, SetDev(s, d, dev), pools)
  {
    var id := NextId(s.serviceId);
    forall e | 0 <= e < |s.devs| ensures DevChanged(s.devs[e], SetDev(s, d, dev).devs[e], id, pools) {
      forall i | 0 <= i < |s.devs[e].cus|
        ensures CuChanged(s.devs[e].cus[i], SetDev(s, d, dev).devs[e].cus[i], id, pools) {
        if e != d || i != c { ChangedUnit(s.devs[e].cus[i], id, pools); }
      }
    }
  }

  lemma PutChanges(cu: CuState, req: Request, id: nat)
    requires Feasible(cu, req)
    ensures CuChanged(cu, PutChannel(cu, req, id), id, {req.poolId})
  {
    var k := FindSlot(cu.reserves, req.poolId);
  }

  lemma GrantChanges(s: SysState, d: nat, dev: DevState, c: nat, req: Request)
    requires d < |s.devs| && dev.cus == s.devs[d].cus && c < |dev.cus| && Feasible(dev.cus[c], req)
    requires dev.isLoaded == s.devs[d].isLoaded && dev.uuid == s.devs[d].uuid && dev.drift == s.devs[d].drift
    ensures Changed(s, Grant(s, d, dev, c, req), {req.poolId})
  {
    PutChanges(dev.cus[c], req, NextId(s.serviceId));
    OneUnitChanged(s, d, SetCu(dev, c, PutChannel(dev.cus[c], req, NextId(s.serviceId))), c, {req.poolId});
  }

  lemma TableChanges(s: SysState, d: nat, dev: DevState, pools: set<nat>)
    requires d < |s.devs| && dev.cus == s.devs[d].cus
    requires dev.isLoaded == s.devs[d].isLoaded && dev.uuid == s.devs[d].uuid && dev.drift == s.devs[d].drift
    ensures Changed(s, SetDev(s, d, dev), pools)
  {
    OneUnitChanged(s, d, dev, |dev.cus|, pools);
  }

  lemma ReleaseChanges(s: SysState, r: Res, pools: set<nat>)
    ensures Changed(s, ReleaseCu(s, r).0, pools)
  {
    if Holds(s, r) {
      var cu := s.devs[r.devId].cus[r.cuId];
      assert CuChanged(cu, ClearChannel(cu, r.chanId), NextId(s.serviceId), pools);
      Unchanged(s, pools);
      OneUnitChanged(s, r.devId, ClearAndUnregister(s, r).devs[r.devId], r.cuId, pools);
    } else {
      Unchanged(s, pools);
    }
  }

  lemma {:induction false} ReleaseAllChanges(s: SysState, rs: seq<Res>, pools: set<nat>)
    ensures Changed(s, ReleaseAll(s, rs).0, pools)
    decreases |rs|
  {
    Unchanged(s, pools);
    if rs != [] {
      ReleaseChanges(s, rs[0], pools);
      var (s1, status) := ReleaseCu(s, rs[0]);
      ReleaseAllChanges(s1, rs[1..], pools);
      ChangedAgain(s, s1, ReleaseAll(s1, rs[1..]).0, pools);
    }
  }

  lemma {:induction false} ReleaseEachChanges(s: SysState, rs: seq<Res>, pools: set<nat>)
    ensures Changed(s, ReleaseEach(s, rs), pools)
    decreases |rs|
  {
    Unchanged(s, pools);
    if rs != [] {
      ReleaseChanges(s, rs[0], pools);
      ReleaseEachChanges(ReleaseCu(s, rs[0]).0, rs[1..], pools);
      ChangedAgain(s, ReleaseCu(s, rs[0]).0, ReleaseEach(s, rs), pools);
    }
  }

  // ---------------------------------------------------------------------------------
  // Single allocations
  // ---------------------------------------------------------------------------------

  lemma TryPlaceChanges(s: SysState, d: nat, req: Request)
    requires d < |s.devs|
    ensures Changed(s, TryPlace(s, d, req).0, {req.poolId})
  {
    match Register(s.devs[d], req)
    case None => Unchanged(s, {req.poolId});
    case Some(dev) =>
      var c := PickCu(dev.cus, req);
      if HasName(req.names) && c < |dev.cus| {
        GrantChanges(s, d, dev, c, req);
      } else {
        TableChanges(s, d, Unregister(dev, req.clientId), {req.poolId});
      }
  }

  lemma VisitChanges(s: SysState, d: nat, affinity: bool, req: Request)
    requires d < |s.devs|
    ensures Changed(s, Visit(s, d, affinity, req).0, {req.poolId})
  {
    match Register(s.devs[d], req)
    case None => Unchanged(s, {req.poolId});
    case Some(dev) =>
      var c := AcceptFrom(dev.cus, 0, affinity, req);
      if c < |dev.cus| {
        GrantChanges(s, d, dev, c, req);
      } else {
        TableChanges(s, d, Unregister(dev, req.clientId), {req.poolId});
      }
  }

  lemma {:induction false} ScanChanges(s: SysState, d: nat, affinity: bool, req: Request)
    requires d <= |s.devs|
    ensures Changed(s, ScanDevs(s, d, affinity, req).0, {req.poolId})
    decreases |s.devs| - d
  {
    hide Visit, Changed;
    var k := NextOpen(s.devs, d, req.clientId);
    if k == |s.devs| {
      Unchanged(s, {req.poolId});
    } else {
      VisitChanges(s, k, affinity, req);
      var (s1, r1) := Visit(s, k, affinity, req);
      if r1.None? {
        ScanChanges(s1, k + 1, affinity, req);
        ChangedAgain(s, s1, ScanDevs(s1, k + 1, affinity, req).0, {req.poolId});
      }
    }
  }

  lemma AllocCuChanges(s: SysState, req: Request)
    ensures Changed(s, AllocCu(s, req, false).0, {req.poolId})
  {
    Unchanged(s, {req.poolId});
    if HasName(req.names) {
      ScanChanges(s, 0, true, req);
      var (s1, r1) := ScanDevs(s, 0, true, req);
      if r1.None? {
        ScanChanges(s1, 0, false, req);
        ChangedAgain(s, s1, ScanDevs(s1, 0, false, req).0, {req.poolId});
      }
    }
  }

  lemma AllocCuFromDevChanges(s: SysState, d: int, req: Request)
    ensures Changed(s, AllocCuFromDev(s, d, req, false).0, {req.poolId})
  {
    Unchanged(s, {req.poolId});
    if 0 <= d < |s.devs| { TryPlaceChanges(s, d, req); }
  }

  lemma PlaceByLoadChanges(s: SysState, d: nat, pol: Policy, req: Request)
    requires d < |s.devs|
    ensures Changed(s, PlaceByLoad(s, d, pol, req).0, {req.poolId})
  {
    match Register(s.devs[d], req)
    case None => Unchanged(s, {req.poolId});
    case Some(dev) =>
      match PolicyPick(dev.cus, pol, req)
      case None => TableChanges(s, d, Unregister(dev, req.clientId), {req.poolId});
      case Some(c) =>
        if Feasible(dev.cus[c], req) {
          GrantChanges(s, d, dev, c, req);
        } else {
          TableChanges(s, d, dev, {req.poolId});
        }
  }

  // ---------------------------------------------------------------------------------
  // Lists
  // ---------------------------------------------------------------------------------

  ghost predicate FromPools(reqs: seq<Request>, pools: set<nat>) {
    forall i {:trigger reqs[i]} :: 0 <= i < |reqs| ==> reqs[i].poolId in pools
  }

  lemma {:induction false} PlaceListChanges(s: SysState, d: nat, reqs: seq<Request>, acc: seq<Res>, pools: set<nat>)
    requires d < |s.devs| && |acc| <= |reqs| && FromPools(reqs, pools)
    ensures Changed(s, PlaceList(s, d, reqs, acc).0, pools)
    decreases |reqs| - |acc|
  {
    if |acc| == |reqs| {
      Unchanged(s, pools);
    } else {
      TryPlaceChanges(s, d, reqs[|acc|]);
      var (s1, r) := TryPlace(s, d, reqs[|acc|]);
      ChangedByMore(s, s1, {reqs[|acc|].poolId}, pools);
      if r.Err? {
        ReleaseAllChanges(s1, acc, pools);
        ChangedAgain(s, s1, ReleaseAll(s1, acc).0, pools);
      } else {
        PlaceListChanges(s1, d, reqs, acc + [r.value], pools);
        ChangedAgain(s, s1, PlaceList(s1, d, reqs, acc + [r.value]).0, pools);
      }
    }
  }

  lemma {:induction false} SameDeviceChanges(s: SysState, d: nat, reqs: seq<Request>, used: seq<nat>, pools: set<nat>)
    requires d <= |s.devs| && reqs != [] && FromPools(reqs, pools)
    ensures Changed(s, SameDevice(s, d, reqs, used).0, pools)
    decreases |s.devs| - d
  {
    var k := NextOpen(s.devs, d, reqs[0].clientId);
    if k == |s.devs| {
      Unchanged(s, pools);
    } else if k in used {
      SameDeviceChanges(s, k + 1, reqs, used, pools);
    } else {
      PlaceListChanges(s, k, reqs, [], pools);
      var (s1, r) := PlaceList(s, k, reqs, []);
      if r.Err? {
        SameDeviceChanges(s1, k + 1, reqs, used, pools);
        ChangedAgain(s, s1, SameDevice(s1, k + 1, reqs, used).0, pools);
      }
    }
  }

  lemma {:induction false} AnyDeviceChanges(s: SysState, reqs: seq<Request>, acc: seq<Res>, pools: set<nat>)
    requires |acc| <= |reqs| && FromPools(reqs, pools)
    ensures Changed(s, AnyDevice(s, reqs, acc).0, pools)
    decreases |reqs| - |acc|
  {
    if |acc| == |reqs| {
      Unchanged(s, pools);
    } else {
      AllocCuChanges(s, reqs[|acc|]);
      var (s1, r) := AllocCu(s, reqs[|acc|], false);
      ChangedByMore(s, s1, {reqs[|acc|].poolId}, pools);
      if r.Err? {
        ReleaseAllChanges(s1, acc, pools);
        ChangedAgain(s, s1, ReleaseAll(s1, acc).0, pools);
      } else {
        AnyDeviceChanges(s1, reqs, acc + [r.value], pools);
        ChangedAgain(s, s1, AnyDevice(s1, reqs, acc + [r.value]).0, pools);
      }
    }
  }

  // ---------------------------------------------------------------------------------
  // Version 2 lists
  // ---------------------------------------------------------------------------------

  ghost predicate FromPoolsV2(reqs: seq<RequestV2>, pools: set<nat>) {
    forall i {:trigger reqs[i]} :: 0 <= i < |reqs| ==> reqs[i].req.poolId in pools
  }

  lemma StepV2Changes(p: Progress, reqs: seq<RequestV2>, i: nat, pools: set<nat>)
    requires |p.results| == |reqs| && i < |reqs| && p.results[i].None? && FromPoolsV2(reqs, pools)
    ensures Changed(p.s, StepV2(p, reqs, i).0.s, pools)
  {
    var req := ToV1(reqs[i]);
    match ConstraintOf(reqs[i])
    case AnyDev =>
      AllocCuChanges(p.s, req);
      ChangedByMore(p.s, AllocCu(p.s, req, false).0, {req.poolId}, pools);
    case Hardware(d) =>
      AllocCuFromDevChanges(p.s, d, req);
      ChangedByMore(p.s, AllocCuFromDev(p.s, d, req, false).0, {req.poolId}, pools);
    case Virtual(v) =>
      var g := Group(reqs, p.results, i, v);
      assert i in g;
      SameDeviceChanges(p.s, 0, AllToV1(reqs, g), p.used, pools);
    case BadConstraint => Unchanged(p.s, pools);
  }

  lemma {:induction false} RunV2Changes(p: Progress, reqs: seq<RequestV2>, i: nat, pools: set<nat>)
    requires |p.results| == |reqs| && i <= |reqs| && FromPoolsV2(reqs, pools)
    ensures Changed(p.s, RunV2(p, reqs, i).0.s, pools)
    decreases |reqs| - i
  {
    if i == |reqs| {
      Unchanged(p.s, pools);
    } else if p.results[i].Some? {
      RunV2Changes(p, reqs, i + 1, pools);
    } else {
      StepV2Changes(p, reqs, i, pools);
      var (p1, status) := StepV2(p, reqs, i);
      if status == SUCCESS {
        RunV2Changes(p1, reqs, i + 1, pools);
        ChangedAgain(p.s, p1.s, RunV2(p1, reqs, i + 1).0.s, pools);
      }
    }
  }

  // ---------------------------------------------------------------------------------
  // Whole operations
  // ---------------------------------------------------------------------------------

  /** An operation that leaves nothing under the next id has given out nothing. */
  lemma Retracted(s: SysState, s': SysState, pools: set<nat>)
    requires Changed(s, s', pools) && CarriedBy(s', NextId(s.serviceId), {})
    ensures Changed(s, s', {})
  {
    var id := NextId(s.serviceId);
    forall d | 0 <= d < |s.devs| ensures DevChanged(s.devs[d], s'.devs[d], id, {}) {
      assert DevChanged(s.devs[d], s'.devs[d], id, pools);
      forall c | 0 <= c < |s.devs[d].cus| ensures CuChanged(s.devs[d].cus[c], s'.devs[d].cus[c], id, {}) {
        var x, y := s.devs[d].cus[c], s'.devs[d].cus[c];
        assert CuChanged(x, y, id, pools);
        forall k | 0 <= k < |x.channels| ensures ChannelChanged(x.channels[k], y.channels[k], x.reserves, id, {}) {
          assert ChannelChanged(x.channels[k], y.channels[k], x.reserves, id, pools);
          var r := Res(d, c, k, id, y.channels[k].clientId, y.channels[k].poolId, y.channels[k].load);
          assert r !in {};
          assert !Carries(s', r, id, "", "");
        }
      }
    }
  }

  lemma Settled(s: SysState, s1: SysState, pools: set<nat>, ok: bool)
    requires Changed(s, s1, pools) && (!ok ==> CarriedBy(s1, NextId(s.serviceId), {}))
    ensures ChangedAndAdvanced(s, if ok then Advance(s1, true) else s1, pools)
  {
    if ok {
      assert Advance(s1, true).(serviceId := s.serviceId) == s1;
    } else {
      Retracted(s, s1, pools);
    }
  }

  lemma NothingCarried(s: SysState)
    requires Tagged(s, {}, [])
    ensures CarriedBy(s, NextId(s.serviceId), {})
  {
    assert {} + Items([]) == {};
  }

  /** What every whole operation here needs: valid tables and a service id to give out. */
  ghost predicate Ready(s: SysState) {
    Inv(s) && IdsFresh(s) && s.serviceId < MAX_ID
  }

  lemma AllocCuStep(s: SysState, req: Request)
    requires Ready(s) && req.clientId != 0
    ensures ChangedAndAdvanced(s, AllocCu(s, req, true).0, {req.poolId})
  {
    NothingTagged(s);
    AllocTags(s, {}, [], req);
    AllocCuChanges(s, req);
    AllocCuUpdate(s, req);
    var (s1, r) := AllocCu(s, req, false);
    if r.Err? { NothingCarried(s1); }
    Settled(s, s1, {req.poolId}, r.Ok?);
  }

  lemma AllocCuFromDevStep(s: SysState, d: int, req: Request)
    requires Ready(s) && req.clientId != 0
    ensures ChangedAndAdvanced(s, AllocCuFromDev(s, d, req, true).0, {req.poolId})
  {
    NothingTagged(s);
    NothingCarried(s);
    AllocCuFromDevChanges(s, d, req);
    var (s1, r) := AllocCuFromDev(s, d, req, false);
    if 0 <= d < |s.devs| && Open(s.devs[d], req.clientId) {
      PlaceTags(s, d, {}, [], req);
      if r.Err? && HasName(req.names) { NothingCarried(s1); }
    }
    Settled(s, s1, {req.poolId}, r.Ok?);
  }

  lemma ByLoadFails(s: SysState, d: int, pol: Policy, req: Request)
    ensures var (s1, r) := AllocCuFromDevByLoad(s, d, pol, req, false);
            r.Err? ==> SameCus(s, s1) && s1.serviceId == s.serviceId
  {
    hide Feasible, PutChannel, Register, Unregister, PolicyPick;
    if 0 <= d < |s.devs| { SameAfterRegister(s.devs[d], req); }
  }

  lemma ByLoadStep(s: SysState, d: int, pol: Policy, req: Request)
    requires Ready(s) && req.clientId != 0
    ensures ChangedAndAdvanced(s, AllocCuFromDevByLoad(s, d, pol, req, true).0, {req.poolId})
  {
    hide PlaceByLoad, Inv, DevInv, CuInv, Changed, SameCus;
    NextIdIsNew(s);
    Unchanged(s, {req.poolId});
    var (s1, r) := AllocCuFromDevByLoad(s, d, pol, req, false);
    if 0 <= d < |s.devs| {
      PlaceByLoadChanges(s, d, pol, req);
      ByLoadFails(s, d, pol, req);
      if r.Err? { CarriedSame(s, s1, NextId(s.serviceId), {}); }
    }
    Settled(s, s1, {req.poolId}, r.Ok?);
  }

  lemma AllocCuListStep(s: SysState, reqs: seq<Request>, sameDevice: bool, pools: set<nat>)
    requires Ready(s) && HaveClients(reqs) && FromPools(reqs, pools)
    ensures ChangedAndAdvanced(s, AllocCuList(s, reqs, sameDevice).0, pools)
  {
    NothingTagged(s);
    NothingCarried(s);
    Unchanged(s, pools);
    if 0 < |reqs| <= MAX_LIST {
      if sameDevice {
        SameDeviceTags(s, 0, reqs, [], {});
        SameDeviceChanges(s, 0, reqs, [], pools);
      } else {
        AnyDeviceTags(s, reqs, {}, []);
        AnyDeviceChanges(s, reqs, [], pools);
      }
      var (s1, r) := if sameDevice then SameDevice(s, 0, reqs, []) else AnyDevice(s, reqs, []);
      if r.Err? { NothingCarried(s1); }
      Settled(s, s1, pools, r.Ok?);
    } else {
      Settled(s, s, pools, false);
    }
  }

  lemma AllocCuListV2Step(s: SysState, reqs: seq<RequestV2>, pools: set<nat>)
    requires Ready(s) && HaveClientsV2(reqs) && FromPoolsV2(reqs, pools)
    ensures ChangedAndAdvanced(s, AllocCuListV2(s, reqs).0, pools)
  {
    NothingTagged(s);
    NothingCarried(s);
    Unchanged(s, pools);
    if 0 < |reqs| <= MAX_LIST_V2 {
      var start := Progress(s, NoResults(|reqs|), 0, []);
      assert ItemsOf(start.results) == {};
      RunTags(start, reqs, 0);
      RunV2Changes(start, reqs, 0, pools);
      var (p, status) := RunV2(start, reqs, 0);
      if status == SUCCESS {
        Settled(s, p.s, pools, true);
      } else {
        GivenUp(p);
        ReleaseEachChanges(p.s, Allocated(p.results), pools);
        ChangedAgain(s, p.s, ReleaseEach(p.s, Allocated(p.results)), pools);
        Settled(s, ReleaseEach(p.s, Allocated(p.results)), pools, false);
      }
    } else {
      Settled(s, s, pools, false);
    }
  }

  lemma GivenUp(p: Progress)
    requires TaggedV2(p)
    ensures CarriedBy(ReleaseEach(p.s, Allocated(p.results)), NextId(p.s.serviceId), {})
  {
    AllocatedFacts(p.results);
    AllocatedItems(p.results);
    var items, rs := ItemsOf(p.results), Allocated(p.results);
    assert items + Items([]) == items;
    CarriedReleased(p.s, rs, NextId(p.s.serviceId), items);
    AllIsEach(p.s, rs);
    assert items - Items(rs) == {};
  }

  lemma ReleaseStep(s: SysState, rs: seq<Res>)
    ensures ChangedAndAdvanced(s, ReleaseAll(s, rs).0, {})
  {
    ReleaseAllChanges(s, rs, {});
  }
}
