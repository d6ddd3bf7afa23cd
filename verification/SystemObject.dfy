/** The daemon's database, updated in place: its devices and its two id counters. Each request
    is one method (all run under the daemon's lock), with its search loops and its rollbacks
    as they are in the daemon; each keeps every counter right and has exactly the effect of
    the operation of the same name on the tables. */
module SystemObject {
  import opened Tables
  import opened CuModel
  import opened DeviceModel
  import opened SystemModel
  import opened Placement
  import opened Rollback
  import opened ListModel
  import opened ListV2Model
  import opened QueryModel
  import opened ProbeModel
  import opened RecycleModel
  import opened PoolModel
  import opened PoolTransaction
  import opened RelinquishModel
  import opened LoadModel
  import opened PolicyModel
  import opened DeviceObject

  ghost function DevicesFootprint(devs: seq<Device>): set<object> {
    set i, o | 0 <= i < |devs| && o in devs[i].Footprint() :: o
  }

  class System {
    const devList: seq<Device>
    var allocServiceId: nat
    var reservePoolId: nat

    ghost function Footprint(): set<object> {
      {this} + DevicesFootprint(devList)
    }

    ghost predicate Shape() {
      && |devList| <= MAX_DEVICES
      && this !in DevicesFootprint(devList)
      && (forall i :: 0 <= i < |devList| ==> devList[i].Shape())
      && forall i, j :: 0 <= i < j < |devList| ==> devList[i].Footprint() !! devList[j].Footprint()
    }

    ghost function Devs(): seq<DevState>
      reads DevicesFootprint(devList)
    {
      seq(|devList|, i requires 0 <= i < |devList| reads DevicesFootprint(devList) => devList[i].View())
    }

    lemma DevViews()
      ensures |Devs()| == |devList| && forall i :: 0 <= i < |devList| ==> Devs()[i] == devList[i].View()
    {
    }

    ghost function View(): SysState
      reads Footprint()
    {
      SysState(Devs(), allocServiceId, reservePoolId)
    }

    ghost predicate DevsWf()
      reads DevicesFootprint(devList)
    {
      forall i :: 0 <= i < |devList| ==> devList[i].Wf()
    }

    /** The counters are right, and the tables meet the database invariant. */
    ghost predicate Valid()
      reads Footprint()
    {
      Shape() && DevsWf() && Inv(View())
    }

    constructor (numDevice: nat)
      requires numDevice <= MAX_DEVICES
      ensures Valid() && fresh(Footprint())
      ensures View() == SysState(seq(numDevice, i => DevState(false, false, 0, [], EmptyTable(), 0)), 0, 0)
    {
      hide Device.Wf, Device.View, Inv, EmptyTable;
      var devs := NewDevices(numDevice);
      devList := devs;
      allocServiceId, reservePoolId := 0, 0;
      new;
      DevViews();
      EmptyInv(View());
    }

    static method NewDevices(numDevice: nat) returns (devs: seq<Device>)
      ensures |devs| == numDevice
      ensures forall i :: 0 <= i < |devs| ==> devs[i].Shape() && devs[i].Wf() && fresh(devs[i].Footprint())
      ensures forall i :: 0 <= i < |devs| ==> devs[i].View() == DevState(false, false, 0, [], EmptyTable(), 0)
      ensures forall i, j :: 0 <= i < j < |devs| ==> devs[i].Footprint() !! devs[j].Footprint()
    {
      hide Device.Wf, Device.View, EmptyTable;
      devs := [];
      while |devs| < numDevice
        invariant |devs| <= numDevice
        invariant forall i :: 0 <= i < |devs| ==> devs[i].Shape() && devs[i].Wf() && fresh(devs[i].Footprint())
        invariant forall i :: 0 <= i < |devs| ==> devs[i].View() == DevState(false, false, 0, [], EmptyTable(), 0)
        invariant forall i, j :: 0 <= i < j < |devs| ==> devs[i].Footprint() !! devs[j].Footprint()
      {
        var dev := new Device();
        devs := devs + [dev];
      }
    }

    // -------------------------------------------------------------------------------
    // Ids
    // -------------------------------------------------------------------------------

    function GetNextAllocServiceId(): (id: nat)
      reads this`allocServiceId
      ensures id == NextId(allocServiceId) && id != 0
    {
      if allocServiceId == MAX_ID then 1 else allocServiceId + 1
    }

    function GetNextReservePoolId(): (id: nat)
      reads this`reservePoolId
      ensures id == NextId(reservePoolId) && id != 0
    {
      if reservePoolId == MAX_ID then 1 else reservePoolId + 1
    }

    /** A device's objects are among the system's. */
    lemma InFootprint(d: nat)
      requires d < |devList|
      ensures devList[d] in devList[d].Footprint() && devList[d].clientProcs in devList[d].Footprint()
      ensures UnitsFootprint(devList[d].cuList) <= devList[d].Footprint()
      ensures devList[d].Footprint() <= DevicesFootprint(devList)
      ensures forall i, o :: 0 <= i < |devList| && o in devList[i].Footprint() ==> allocated(o)
    {
    }

    method UpdateAllocServiceId()
      requires Valid()
      modifies this`allocServiceId
      ensures Valid() && View() == Advance(old(View()), true)
    {
      hide Device.Wf, Device.View;
      AdvanceKeepsInv(View());
      allocServiceId := GetNextAllocServiceId();
    }

    // -------------------------------------------------------------------------------
    // Allocating one unit
    // -------------------------------------------------------------------------------

    /** The lowest device at or after d that is open to the client. */
    method GetNextFreeDevForClient(d: nat, client: nat) returns (k: nat)
      requires Valid() && d <= |devList|
      ensures Valid() && View() == old(View())
      ensures d <= k <= |devList| == |View().devs|
      ensures k == NextOpen(View().devs, d, client)
      ensures k < |devList| ==> devList[k].isLoaded && View().devs[k].isLoaded
    {
      hide Device.Wf, Inv;
      DevViews();
      k := d;
      while k < |devList|
        invariant d <= k <= |devList|
        invariant NextOpen(View().devs, k, client) == NextOpen(View().devs, d, client)
      {
        assert devList[k].Shape();
        if devList[k].isLoaded && (!devList[k].isExcl || devList[k].clientProcs[0].clientId == client) { return; }
        k := k + 1;
      }
    }

    /** One pass's turn on device d. */
    method VisitOn(d: nat, affinity: bool, req: Request) returns (r: Option<Res>)
      requires Valid() && d < |devList| && devList[d].isLoaded && req.clientId != 0
      modifies DevicesFootprint(devList)
      ensures Valid() && (View(), r) == SystemModel.Visit(old(View()), d, affinity, req)
    {
      hide Device.Wf, Device.View, Device.Footprint, UnitsFootprint, DevicesFootprint, Inv, DevInv, Register,
        Unregister, AcceptFrom, PutChannel;
      ghost var s := View();
      DevViews();
      DeviceInv(s, d);
      devList[d].Visible();
      VisitKeepsInv(s, d, affinity, req);
      var id := GetNextAllocServiceId();
      InFootprint(d);
      var found, c, chanId := devList[d].Visit(affinity, req, id);
      r := if found then Some(Res(d, c, chanId, id, req.clientId, req.poolId, req.load)) else None;
      DevViews();
      assert Devs() == s.devs[d := devList[d].View()];
      assert DevsWf();
      assert View() == SetDev(s, d, devList[d].View());
      assert View() == SystemModel.Visit(s, d, affinity, req).0;
      assert r == SystemModel.Visit(s, d, affinity, req).1;
    }

    /** Goes on to the next open device, and lets it have its turn. */
    method ScanNext(d: nat, affinity: bool, req: Request) returns (next: nat, r: Option<Res>)
      requires Valid() && d < |devList| && req.clientId != 0
      modifies DevicesFootprint(devList)
      ensures Valid() && d < next <= |devList| == |View().devs| == |old(View()).devs|
      ensures ScanDevs(old(View()), d, affinity, req) == if r.Some? then (View(), r)
        else ScanDevs(View(), next, affinity, req)
    {
      hide Valid, Devs, SystemModel.Visit, NextOpen, ScanDevs;
      ghost var s := View();
      DevViews();
      ScanStep(s, d, affinity, req);
      ScanEnd(s, affinity, req);
      next := GetNextFreeDevForClient(d, req.clientId);
      if next == |devList| { return next, None; }
      r := VisitOn(next, affinity, req);
      next := next + 1;
      DevViews();
    }

    /** One pass over all devices. */
    method ScanAll(affinity: bool, req: Request) returns (r: Option<Res>)
      requires Valid() && req.clientId != 0
      modifies DevicesFootprint(devList)
      ensures Valid() && (View(), r) == ScanDevs(old(View()), 0, affinity, req)
    {
      hide Valid, Devs, ScanDevs;
      ghost var s := View();
      DevViews();
      var d := 0;
      r := None;
      while r.None? && d < |devList|
        invariant Valid() && d <= |devList| == |View().devs|
        invariant ScanDevs(s, 0, affinity, req) == if r.Some? then (View(), r) else ScanDevs(View(), d, affinity, req)
      {
        d, r := ScanNext(d, affinity, req);
      }
      ScanEnd(View(), affinity, req);
    }

    method AllocCu(req: Request, update: bool) returns (r: Outcome<Res>)
      requires Valid() && req.clientId != 0
      modifies Footprint()
      ensures Valid() && (View(), r) == SystemModel.AllocCu(old(View()), req, update)
    {
      hide Device.Wf, Device.View, Inv, ScanDevs;
      if !HasName(req.names) { return Err(INVALID); }
      var found := ScanAll(true, req);
      if found.None? { found := ScanAll(false, req); }
      if found.None? { return Err(NO_KERNEL); }
      if update { UpdateAllocServiceId(); }
      r := Ok(found.value);
    }

    /** Allocates from device d if it takes the client and has a unit for it. */
    method PlaceOn(d: nat, req: Request) returns (r: Outcome<Res>)
      requires Valid() && d < |devList| && devList[d].isLoaded && req.clientId != 0
      modifies DevicesFootprint(devList)
      ensures Valid() && (View(), r) == TryPlace(old(View()), d, req)
      ensures devList[d].isLoaded
    {
      hide Device.Wf, Device.View, Device.Footprint, UnitsFootprint, DevicesFootprint, Inv, DevInv, Register,
        Unregister, PickCu, PutChannel;
      ghost var s := View();
      DevViews();
      DeviceInv(s, d);
      devList[d].Visible();
      TryPlaceKeepsInv(s, d, req);
      var id := GetNextAllocServiceId();
      InFootprint(d);
      var status, c, chanId := devList[d].Place(req, id);
      r := if status == SUCCESS then Ok(Res(d, c, chanId, id, req.clientId, req.poolId, req.load)) else Err(status);
      DevViews();
      assert Devs() == s.devs[d := devList[d].View()];
      assert DevsWf();
      assert View() == SetDev(s, d, devList[d].View());
      assert View() == TryPlace(s, d, req).0;
      assert r == TryPlace(s, d, req).1;
    }

    method AllocCuFromDev(d: int, req: Request, update: bool) returns (r: Outcome<Res>)
      requires Valid() && req.clientId != 0
      modifies Footprint()
      ensures Valid() && (View(), r) == SystemModel.AllocCuFromDev(old(View()), d, req, update)
    {
      hide Device.Wf, Inv, TryPlace;
      DevViews();
      if d < 0 || d >= |devList| || !HasName(req.names) { return Err(INVALID); }
      assert devList[d].Shape();
      if !devList[d].isLoaded || (devList[d].isExcl && devList[d].clientProcs[0].clientId != req.clientId) {
        return Err(NO_DEV);
      }
      r := PlaceOn(d, req);
      if r.Ok? && update { UpdateAllocServiceId(); }
    }

    // -------------------------------------------------------------------------------
    // Releasing
    // -------------------------------------------------------------------------------

    method ReleaseOn(r: Res) returns (found: bool)
      requires Valid() && r.devId < |devList| && devList[r.devId].isLoaded && r.cuId < devList[r.devId].numCu &&
        r.clientId != 0
      modifies DevicesFootprint(devList)
      ensures Valid() && (found <==> Holds(old(View()), r))
      ensures View() == if found then ClearAndUnregister(old(View()), r) else old(View())
    {
      hide Device.Wf, Device.View, Device.Footprint, UnitsFootprint, DevicesFootprint, Inv, DevInv, Unregister,
        ClearChannel, CuInv;
      ghost var s := View();
      var d := r.devId;
      DevViews();
      DeviceInv(s, d);
      ReleasableAt(s, r);
      devList[d].Visible();
      InFootprint(d);
      found := devList[d].ReleaseOn(r.cuId, r);
      assert found <==> Holds(s, r);
      DevViews();
      assert Devs() == s.devs[d := devList[d].View()];
      assert DevsWf();
      assert View() == SetDev(s, d, devList[d].View());
      if !found { assert s.devs[d := s.devs[d]] == s.devs; }
    }

    method ReleaseCu(r: Res) returns (status: Status)
      requires Valid() && r.clientId != 0
      modifies DevicesFootprint(devList)
      ensures Valid() && (View(), status) == SystemModel.ReleaseCu(old(View()), r)
    {
      hide Device.Wf, Inv, ClearAndUnregister;
      DevViews();
      if r.devId > |devList| || r.cuId > MAX_KERNELS || r.chanId > MAX_CHANNELS { return INVALID; }
      if r.devId == |devList| || !devList[r.devId].isLoaded || r.cuId >= devList[r.devId].numCu {
        NoUnit(r);
        return ERROR;
      }
      var found := ReleaseOn(r);
      status := if found then SUCCESS else ERROR;
    }

    /** Releases from the front; stops at the first that fails. */
    method ReleaseList(rs: seq<Res>) returns (status: Status)
      requires Valid() && OfClients(rs)
      modifies DevicesFootprint(devList)
      ensures Valid() && (View(), status) == ReleaseAll(old(View()), rs)
    {
      hide Device.Wf, Device.View, Inv, SystemModel.ReleaseCu;
      ghost var s := View();
      var i := 0;
      while i < |rs|
        invariant Valid() && i <= |rs|
        invariant ReleaseAll(View(), rs[i..]) == ReleaseAll(s, rs)
      {
        assert rs[i..][0] == rs[i] && rs[i..][1..] == rs[i + 1..];
        status := ReleaseCu(rs[i]);
        if status != SUCCESS { return; }
        i := i + 1;
      }
      status := SUCCESS;
    }

    /** A unit the device does not have holds nothing. */
    lemma NoUnit(r: Res)
      requires Valid()
      requires r.devId < |devList| && devList[r.devId].isLoaded ==> r.cuId >= devList[r.devId].numCu
      ensures !Holds(View(), r)
    {
      DevViews();
      if r.devId < |devList| {
        DeviceInv(View(), r.devId);
        devList[r.devId].Visible();
      }
    }

    // -------------------------------------------------------------------------------
    // Lists
    // -------------------------------------------------------------------------------

    /** Places all requests on device d, or releases what it placed. */
    method PlaceListOn(d: nat, reqs: seq<Request>) returns (r: Outcome<seq<Res>>)
      requires Valid() && d < |devList| && devList[d].isLoaded && HaveClients(reqs)
      modifies DevicesFootprint(devList)
      ensures Valid() && (View(), r) == PlaceList(old(View()), d, reqs, [])
      ensures r.Ok? ==> OfClients(r.value)
    {
      hide Valid, Devs, TryPlace, ReleaseAll;
      ghost var s := View();
      DevViews();
      var acc: seq<Res> := [];
      while |acc| < |reqs|
        invariant Valid() && |acc| <= |reqs| && OfClients(acc) && devList[d].isLoaded && |View().devs| == |devList|
        invariant PlaceList(View(), d, reqs, acc) == PlaceList(s, d, reqs, [])
      {
        ghost var s1 := View();
        PlacedForClient(s1, d, reqs[|acc|]);
        var p := PlaceOn(d, reqs[|acc|]);
        if p.Err? {
          var _ := ReleaseList(acc);
          return Err(p.error);
        }
        acc := acc + [p.value];
      }
      r := Ok(acc);
    }

    /** The next open device that is not used yet; then all requests on it. */
    method SameNext(d: nat, reqs: seq<Request>, used: seq<nat>) returns (next: nat, r: Outcome<seq<Res>>)
      requires Valid() && d < |devList| && HaveClients(reqs) && reqs != []
      modifies DevicesFootprint(devList)
      ensures Valid() && d < next <= |devList| == |View().devs| == |old(View()).devs|
      ensures r.Ok? ==> OfClients(r.value)
      ensures SameDevice(old(View()), d, reqs, used) == if r.Ok? then (View(), r)
        else SameDevice(View(), next, reqs, used)
    {
      hide Valid, Devs, PlaceList, NextOpen, SameDevice;
      ghost var s := View();
      DevViews();
      SameDeviceStep(s, d, reqs, used);
      SameDeviceEnd(s, reqs, used);
      next := GetNextFreeDevForClient(d, reqs[0].clientId);
      r := Err(NO_KERNEL);
      if next == |devList| { return; }
      if next !in used { r := PlaceListOn(next, reqs); }
      next := next + 1;
      DevViews();
    }

    /** All requests on one device that is not in `used`. */
    method AllocSameDevice(reqs: seq<Request>, used: seq<nat>) returns (r: Outcome<seq<Res>>)
      requires Valid() && HaveClients(reqs) && reqs != []
      modifies DevicesFootprint(devList)
      ensures Valid() && (View(), r) == SameDevice(old(View()), 0, reqs, used)
      ensures r.Ok? ==> OfClients(r.value)
    {
      hide Valid, Devs, SameDevice;
      ghost var s := View();
      DevViews();
      var d := 0;
      r := Err(NO_KERNEL);
      while r.Err? && d < |devList|
        invariant Valid() && d <= |devList| == |View().devs|
        invariant r.Ok? ==> OfClients(r.value)
        invariant SameDevice(s, 0, reqs, used) == if r.Ok? then (View(), r) else SameDevice(View(), d, reqs, used)
      {
        d, r := SameNext(d, reqs, used);
      }
      SameDeviceEnd(View(), reqs, used);
      if r.Err? { r := Err(NO_KERNEL); }
    }

    /** Every request on any device, or all released. */
    method AllocAnyDevice(reqs: seq<Request>) returns (r: Outcome<seq<Res>>)
      requires Valid() && HaveClients(reqs)
      modifies Footprint()
      ensures Valid() && (View(), r) == AnyDevice(old(View()), reqs, [])
      ensures r.Ok? ==> OfClients(r.value)
    {
      hide Valid, Devs, SystemModel.AllocCu, ReleaseAll;
      ghost var s := View();
      var acc: seq<Res> := [];
      while |acc| < |reqs|
        invariant Valid() && |acc| <= |reqs| && OfClients(acc)
        invariant AnyDevice(View(), reqs, acc) == AnyDevice(s, reqs, [])
      {
        ValidInv();
        AllocatedForClient(View(), reqs[|acc|]);
        var p := AllocCu(reqs[|acc|], false);
        if p.Err? {
          var _ := ReleaseList(acc);
          return Err(NO_KERNEL);
        }
        acc := acc + [p.value];
      }
      r := Ok(acc);
    }

    method AllocCuList(reqs: seq<Request>, sameDevice: bool) returns (r: Outcome<seq<Res>>)
      requires Valid() && HaveClients(reqs)
      modifies Footprint()
      ensures Valid() && (View(), r) == ListModel.AllocCuList(old(View()), reqs, sameDevice)
      ensures r.Ok? ==> OfClients(r.value)
    {
      hide Valid, Devs, SameDevice, AnyDevice;
      if |reqs| == 0 || |reqs| > MAX_LIST { return Err(INVALID); }
      if sameDevice { r := AllocSameDevice(reqs, []); } else { r := AllocAnyDevice(reqs); }
      if r.Ok? { UpdateAllocServiceId(); }
    }

    // -------------------------------------------------------------------------------
    // Probes
    // -------------------------------------------------------------------------------

    /** Allocates until that fails. */
    method DrainCu(req: Request) returns (rs: seq<Res>)
      requires Valid() && req.clientId != 0
      modifies Footprint()
      ensures Valid() && OfClients(rs) && (View(), rs) == Drain(old(View()), req, [])
    {
      hide Valid, Devs, SystemModel.AllocCu, Drain;
      ghost var s := View();
      ValidInv();
      rs := [];
      while true
        invariant Valid() && Inv(View()) && Inv(s) && OfClients(rs)
        invariant Drain(View(), req, rs) == Drain(s, req, [])
        decreases if HasName(req.names) then Available(View(), req) else 0
      {
        DrainStep(View(), req, rs);
        var r := AllocCu(req, true);
        if r.Err? { return; }
        rs := rs + [r.value];
      }
    }

    /** Releases each, whatever becomes of the others. */
    method ReleaseAllOf(rs: seq<Res>)
      requires Valid() && OfClients(rs)
      modifies DevicesFootprint(devList)
      ensures Valid() && View() == ReleaseEach(old(View()), rs)
    {
      hide Valid, Devs, SystemModel.ReleaseCu;
      ghost var s := View();
      for i := 0 to |rs|
        invariant Valid() && ReleaseEach(View(), rs[i..]) == ReleaseEach(s, rs)
      {
        assert rs[i..][0] == rs[i] && rs[i..][1..] == rs[i + 1..];
        var _ := ReleaseCu(rs[i]);
      }
    }

    /** How many times the request could be granted now. */
    method CheckCuAvailableNum(req: Request) returns (n: nat)
      requires Valid() && req.clientId != 0
      modifies Footprint()
      ensures Valid() && Inv(old(View())) && (View(), n) == ProbeCu(old(View()), req)
    {
      hide Valid, Devs, Drain, ReleaseEach;
      ValidInv();
      var rs := DrainCu(req);
      ReleaseAllOf(rs);
      n := |rs|;
    }

    /** Allocates the list until that fails. */
    method DrainCuList(reqs: seq<Request>, sameDevice: bool) returns (lists: seq<seq<Res>>)
      requires Valid() && HaveClients(reqs)
      modifies Footprint()
      ensures Valid() && (View(), lists) == DrainLists(old(View()), reqs, sameDevice, [])
      ensures forall i :: 0 <= i < |lists| ==> OfClients(lists[i])
    {
      hide Valid, Devs, ListModel.AllocCuList, DrainLists;
      ghost var s := View();
      ValidInv();
      lists := [];
      while true
        invariant Valid() && Inv(View()) && Inv(s)
        invariant forall i :: 0 <= i < |lists| ==> OfClients(lists[i])
        invariant DrainLists(View(), reqs, sameDevice, lists) == DrainLists(s, reqs, sameDevice, [])
        decreases FreeTotal(View())
      {
        DrainListsStep(View(), reqs, sameDevice, lists);
        var r := AllocCuList(reqs, sameDevice);
        if r.Err? { return; }
        lists := lists + [r.value];
      }
    }

    method ReleaseAllLists(lists: seq<seq<Res>>)
      requires Valid() && forall i :: 0 <= i < |lists| ==> OfClients(lists[i])
      modifies DevicesFootprint(devList)
      ensures Valid() && View() == ReleaseLists(old(View()), lists)
    {
      hide Valid, Devs, ReleaseAll;
      ghost var s := View();
      for i := 0 to |lists|
        invariant Valid() && ReleaseLists(View(), lists[i..]) == ReleaseLists(s, lists)
      {
        assert lists[i..][0] == lists[i] && lists[i..][1..] == lists[i + 1..];
        var _ := ReleaseList(lists[i]);
      }
    }

    /** How many times the list could be allocated now. */
    method CheckCuListAvailableNum(reqs: seq<Request>, sameDevice: bool) returns (n: nat)
      requires Valid() && HaveClients(reqs)
      modifies Footprint()
      ensures Valid() && Inv(old(View())) && (View(), n) == ProbeList(old(View()), reqs, sameDevice)
    {
      hide Valid, Devs, DrainLists, ReleaseLists;
      ValidInv();
      var lists := DrainCuList(reqs, sameDevice);
      ReleaseAllLists(lists);
      n := |lists|;
    }

    lemma ValidInv()
      requires Valid()
      ensures Inv(View())
    {
    }

    // -------------------------------------------------------------------------------
    // Relinquishing and recycling
    // -------------------------------------------------------------------------------

    method RelinquishOn(d: nat, p: nat) returns (ok: bool)
      requires Valid() && d < |devList|
      modifies DevicesFootprint(devList)
      ensures Valid() && |View().devs| == |old(View()).devs| == |devList|
      ensures ok == RelinquishUnits(old(View()).devs[d].cus, 0, p).1
      ensures View() == SetDev(old(View()), d,
        old(View()).devs[d].(cus := RelinquishUnits(old(View()).devs[d].cus, 0, p).0))
    {
      hide Device.Wf, Device.View, Device.Footprint, UnitsFootprint, DevicesFootprint, Inv, DevInv, RelinquishUnits;
      ghost var s := View();
      DevViews();
      DeviceInv(s, d);
      RelinquishDevInv(s.devs[d], p);
      InvAt(s, d, s.devs[d].(cus := RelinquishUnits(s.devs[d].cus, 0, p).0));
      DevShapeOf(s.devs[d]);
      InFootprint(d);
      ok := devList[d].RelinquishHere(p);
      DevViews();
      assert Devs() == s.devs[d := devList[d].View()];
      assert DevsWf();
    }

    /** Drops the pool device by device; stops where it is in use. */
    method RelinquishPool(p: nat) returns (status: Status)
      requires Valid()
      modifies DevicesFootprint(devList)
      ensures Valid() && (View(), status) == Relinquish(old(View()), p)
    {
      hide Valid, Devs, RelinquishUnits;
      ghost var s := View();
      DevViews();
      if p == 0 { return INVALID; }
      var d := 0;
      while d < |devList|
        invariant Valid() && d <= |devList| == |View().devs|
        invariant RelinquishFrom(View(), d, p) == RelinquishFrom(s, 0, p)
      {
        var ok := RelinquishOn(d, p);
        if !ok { return ERROR; }
        d := d + 1;
      }
      status := SUCCESS;
    }

    method RecycleOn(d: nat, client: nat) returns (stop: bool)
      requires Valid() && d < |devList| && client != 0
      modifies DevicesFootprint(devList)
      ensures Valid() && |View().devs| == |old(View()).devs| == |devList|
      ensures stop <==> GivesUp(old(View()).devs[d])
      ensures View() == SetDev(old(View()), d, RecycleDev(old(View()).devs[d], client))
    {
      hide Device.Wf, Device.View, Device.Footprint, UnitsFootprint, DevicesFootprint, Inv, DevInv, RecycleDev,
        RecycledDev;
      ghost var s := View();
      DevViews();
      DeviceInv(s, d);
      DeviceRecycled(s.devs[d], client);
      RecycledDevInv(s.devs[d], client);
      InvAt(s, d, RecycleDev(s.devs[d], client));
      InFootprint(d);
      stop := devList[d].RecycleHere(client);
      DevViews();
      assert Devs() == s.devs[d := devList[d].View()];
      assert DevsWf();
    }

    /** Takes back everything the dead client holds. */
    method RecycleResource(client: nat)
      requires Valid() && client != 0
      modifies DevicesFootprint(devList)
      ensures Valid() && View() == Recycle(old(View()), client)
    {
      hide Valid, Devs, RecycleDev;
      ghost var s := View();
      DevViews();
      var d, stop := 0, false;
      while !stop && d < |devList|
        invariant Valid() && d <= |devList| == |View().devs|
        invariant RecycleFrom(s, 0, client) == if stop then View() else RecycleFrom(View(), d, client)
      {
        stop := RecycleOn(d, client);
        d := d + 1;
      }
    }

    // -------------------------------------------------------------------------------
    // Reserving a pool. `a` is the database as it was before the pool: the pool's id is new
    // to it.
    // -------------------------------------------------------------------------------

    method ReserveOn(d: nat, p: nat, req: Request, ghost a: SysState) returns (status: Status)
      requires Valid() && d < |devList| && devList[d].isLoaded && Reserving(a, View(), {p})
      modifies DevicesFootprint(devList)
      ensures Valid() && (View(), status) == ReserveFromDev(old(View()), p, d, req)
      ensures Reserving(a, View(), {p}) && devList[d].isLoaded
    {
      hide Device.Wf, Device.View, Device.Footprint, UnitsFootprint, DevicesFootprint, Inv, DevInv, PickReserve,
        ReserveSlot, PoolsAdded;
      ghost var s := View();
      DevViews();
      DeviceInv(s, d);
      PoolUnclaimed(a, s, d, p);
      ReserveFromDevReserves(a, s, {p}, p, d, req);
      InFootprint(d);
      status := devList[d].ReserveHere(p, req);
      DevViews();
      assert Devs() == s.devs[d := devList[d].View()];
      assert DevsWf();
      assert View() == SetDev(s, d, devList[d].View());
      if status != SUCCESS { assert s.devs[d := s.devs[d]] == s.devs; }
      assert (View(), status) == ReserveFromDev(s, p, d, req);
    }

    /** One pass's turn on device d. */
    method ReserveVisit(d: nat, affinity: bool, p: nat, req: Request, ghost a: SysState) returns (found: bool)
      requires Valid() && d < |devList| && devList[d].isLoaded && Reserving(a, View(), {p})
      modifies DevicesFootprint(devList)
      ensures Valid() && Reserving(a, View(), {p}) && |old(View()).devs| == |devList|
      ensures var c := TakesFrom(old(View()).devs[d].cus, 0, affinity, p, req);
              && (found <==> c < |old(View()).devs[d].cus|)
              && (found ==> req.load > 0)
              && View() == if found then ReserveAt(old(View()), d, c, p, req) else old(View())
    {
      hide Device.Wf, Device.View, Device.Footprint, UnitsFootprint, DevicesFootprint, Inv, DevInv, Takes, ReserveSlot,
        PoolsAdded;
      ghost var s := View();
      DevViews();
      DeviceInv(s, d);
      PoolUnclaimed(a, s, d, p);
      VisitReserves(a, s, d, affinity, p, req);
      InFootprint(d);
      var c := devList[d].ReserveInPass(affinity, p, req);
      found := c < devList[d].numCu;
      DevViews();
      assert Devs() == s.devs[d := devList[d].View()];
      assert DevsWf();
      assert View() == SetDev(s, d, devList[d].View());
      if !found { assert s.devs[d := s.devs[d]] == s.devs; }
    }

    /** Goes on to the next open device, and lets it have its turn. */
    method ReserveNext(d: nat, affinity: bool, p: nat, req: Request, ghost a: SysState) returns (next: nat, found: bool)
      requires Valid() && d < |devList| && Reserving(a, View(), {p})
      modifies DevicesFootprint(devList)
      ensures Valid() && Reserving(a, View(), {p}) && d < next <= |devList| == |View().devs| == |old(View()).devs|
      ensures ReserveTurn(old(View()), d, affinity, p, req, next, found, View())
    {
      hide Valid, Devs, TakesFrom, NextOpen, Takes, Reserving, ReserveAt, ReserveTurn;
      ghost var s := View();
      DevViews();
      found := false;
      next := GetNextFreeDevForClient(d, req.clientId);
      if next < |devList| {
        found := ReserveVisit(next, affinity, p, req, a);
        ReserveTurnAt(s, d, next, affinity, p, req, found, View());
        next := next + 1;
      } else {
        ReserveTurnEnds(s, d, affinity, p, req);
      }
      DevViews();
    }

    /** One pass over all devices. */
    method ReserveScan(affinity: bool, p: nat, req: Request, ghost a: SysState) returns (found: bool)
      requires Valid() && Reserving(a, View(), {p})
      modifies DevicesFootprint(devList)
      ensures Valid() && Reserving(a, View(), {p})
      ensures found ==> ReservedFrom(old(View()), 0, affinity, p, req, View())
      ensures !found ==> View() == old(View()) && FindReserve(old(View()), 0, affinity, p, req).None?
    {
      hide Valid, Devs, FindReserve, Reserving;
      ghost var s := View();
      DevViews();
      var d := 0;
      found := false;
      while !found && d < |devList|
        invariant Valid() && Reserving(a, View(), {p}) && d <= |devList| == |s.devs|
        invariant if found then ReservedFrom(s, 0, affinity, p, req, View())
                  else View() == s && FindReserve(s, d, affinity, p, req) == FindReserve(s, 0, affinity, p, req)
      {
        d, found := ReserveNext(d, affinity, p, req, a);
      }
      FindReserveEnd(s, affinity, p, req);
    }

    method ReserveCu(p: nat, req: Request, ghost a: SysState) returns (status: Status)
      requires Valid() && Reserving(a, View(), {p})
      modifies DevicesFootprint(devList)
      ensures Valid() && (View(), status) == PoolModel.ReserveCu(old(View()), p, req)
      ensures Reserving(a, View(), {p})
    {
      hide Valid, Devs, FindReserve, Reserving;
      if !HasReserveName(req.names) { return INVALID; }
      var found := ReserveScan(true, p, req, a);
      if !found { found := ReserveScan(false, p, req, a); }
      status := if found then SUCCESS else NO_KERNEL;
    }

    method GiveBack(p: nat, ghost a: SysState)
      requires Valid() && Reserving(a, View(), {p})
      modifies DevicesFootprint(devList)
      ensures Valid() && View() == Relinquish(old(View()), p).0 && Reserving(a, View(), {p})
    {
      hide Valid, Devs, Relinquish, Reserving;
      GivenBack(a, View(), {p}, p);
      var _ := RelinquishPool(p);
    }

    method ReserveListOn(d: nat, p: nat, reqs: seq<Request>, ghost a: SysState) returns (status: Status)
      requires Valid() && d < |devList| && devList[d].isLoaded && Reserving(a, View(), {p})
      modifies DevicesFootprint(devList)
      ensures Valid() && |old(View()).devs| == |devList| && (View(), status) == ReserveEach(old(View()), d, p, reqs, 0)
      ensures Reserving(a, View(), {p})
    {
      hide Valid, Devs, ReserveFromDev, Reserving, Relinquish;
      ghost var s := View();
      DevViews();
      var i := 0;
      while i < |reqs|
        invariant Valid() && Reserving(a, View(), {p}) && i <= |reqs| && devList[d].isLoaded &&
          |View().devs| == |devList|
        invariant ReserveEach(View(), d, p, reqs, i) == ReserveEach(s, d, p, reqs, 0)
      {
        ghost var s1 := View();
        status := ReserveOn(d, p, reqs[i], a);
        if status != SUCCESS {
          GiveBack(p, a);
          return;
        }
        i := i + 1;
      }
      status := SUCCESS;
    }

    method ReserveAllAny(p: nat, reqs: seq<Request>, ghost a: SysState) returns (status: Status)
      requires Valid() && Reserving(a, View(), {p})
      modifies DevicesFootprint(devList)
      ensures Valid() && (View(), status) == ReserveAny(old(View()), p, reqs, 0)
      ensures Reserving(a, View(), {p})
    {
      hide Valid, Devs, PoolModel.ReserveCu, Reserving, Relinquish;
      ghost var s := View();
      var i := 0;
      while i < |reqs|
        invariant Valid() && Reserving(a, View(), {p}) && i <= |reqs|
        invariant ReserveAny(View(), p, reqs, i) == ReserveAny(s, p, reqs, 0)
      {
        status := ReserveCu(p, reqs[i], a);
        if status != SUCCESS {
          GiveBack(p, a);
          return;
        }
        i := i + 1;
      }
      status := SUCCESS;
    }

    method ReserveSameNext(d: nat, p: nat, reqs: seq<Request>, last: Status, ghost a: SysState)
        returns (next: nat, status: Status)
      requires Valid() && d < |devList| && reqs != [] && last != SUCCESS && Reserving(a, View(), {p})
      modifies DevicesFootprint(devList)
      ensures Valid() && d < next <= |devList| == |View().devs| == |old(View()).devs| && Reserving(a, View(), {p})
      ensures ReserveSame(old(View()), d, p, reqs, last)
                == if status == SUCCESS then (View(), status) else ReserveSame(View(), next, p, reqs, status)
    {
      hide Valid, Devs, ReserveEach, NextOpen, Reserving, ReserveSame;
      ghost var s := View();
      DevViews();
      ReserveSameStep(s, d, p, reqs, last);
      ReserveSameEnd(s, p, reqs, last);
      status := last;
      next := GetNextFreeDevForClient(d, reqs[0].clientId);
      if next == |devList| { return; }
      status := ReserveListOn(next, p, reqs, a);
      next := next + 1;
      DevViews();
    }

    method ReserveAllSame(p: nat, reqs: seq<Request>, ghost a: SysState) returns (status: Status)
      requires Valid() && reqs != [] && Reserving(a, View(), {p})
      modifies DevicesFootprint(devList)
      ensures Valid() && (View(), status) == ReserveSame(old(View()), 0, p, reqs, ERROR)
      ensures Reserving(a, View(), {p})
    {
      hide Valid, Devs, Reserving, ReserveSame;
      ghost var s := View();
      DevViews();
      var d := 0;
      status := ERROR;
      while status != SUCCESS && d < |devList|
        invariant Valid() && Reserving(a, View(), {p}) && d <= |devList| == |View().devs|
        invariant ReserveSame(s, 0, p, reqs, ERROR)
                    == if status == SUCCESS then (View(), status) else ReserveSame(View(), d, p, reqs, status)
      {
        d, status := ReserveSameNext(d, p, reqs, status, a);
      }
      if status != SUCCESS { ReserveSameEnd(View(), p, reqs, status); }
    }

    method ReserveCuList(p: nat, reqs: seq<Request>, sameDevice: bool, ghost a: SysState) returns (status: Status)
      requires Valid() && Reserving(a, View(), {p})
      modifies DevicesFootprint(devList)
      ensures Valid() && (View(), status) == ReserveList(old(View()), p, reqs, sameDevice)
      ensures Reserving(a, View(), {p})
    {
      hide Valid, Devs, Reserving, ReserveSame, ReserveAny;
      if |reqs| == 0 || |reqs| > MAX_LIST { return INVALID; }
      if sameDevice { status := ReserveAllSame(p, reqs, a); } else { status := ReserveAllAny(p, reqs, a); }
    }

    method ReserveWholeOn(d: nat, p: nat, client: nat)
      requires Valid() && d < |devList| && devList[d].isLoaded && p != 0
      requires var dev := devList[d].View(); !Busy(dev)
      modifies DevicesFootprint(devList)
      ensures Valid() && |old(View()).devs| == |devList|
      ensures View() == SetDev(old(View()), d, WholeDev(old(View()).devs[d], p, client))
    {
      hide Device.Wf, Device.View, Device.Footprint, UnitsFootprint, DevicesFootprint, Inv, DevInv, WholeDev, Busy;
      ghost var s := View();
      DevViews();
      DeviceInv(s, d);
      WholeDevInv(s.devs[d], p, client);
      InvAt(s, d, WholeDev(s.devs[d], p, client));
      InFootprint(d);
      devList[d].ReserveAllUnits(p, client);
      DevViews();
      assert Devs() == s.devs[d := devList[d].View()];
      assert DevsWf();
    }

    method IsDeviceBusy(d: nat) returns (busy: bool)
      requires Valid() && d < |devList|
      ensures Valid() && View() == old(View()) && |View().devs| == |devList|
      ensures busy <==> Busy(View().devs[d])
      ensures busy <==> Busy(devList[d].View())
    {
      hide Device.Wf, Device.View, Device.Footprint, UnitsFootprint, DevicesFootprint, Inv, DevInv, Busy;
      DevViews();
      InFootprint(d);
      busy := devList[d].IsBusy();
      DevViews();
      assert Devs() == old(Devs());
      assert DevsWf();
    }

    /** Reserves the first loaded, idle device with the xclbin as a whole. */
    method ReserveCuOfXclbin(p: nat, uuid: nat, client: nat) returns (status: Status)
      requires Valid()
      modifies DevicesFootprint(devList)
      ensures Valid() && (View(), status) == ReserveXclbin(old(View()), p, uuid, client)
    {
      hide Valid, Devs, Busy, WholeDev;
      if p == 0 { return INVALID; }
      ghost var s := View();
      DevViews();
      var d := 0;
      while d < |devList|
        invariant Valid() && View() == s && d <= |devList| == |s.devs|
        invariant NextIdle(s, d, uuid) == NextIdle(s, 0, uuid)
      {
        DevViews();
        assert devList[d].View().isLoaded == devList[d].isLoaded && devList[d].View().uuid == devList[d].uuid;
        if devList[d].isLoaded && devList[d].uuid == uuid {
          var busy := IsDeviceBusy(d);
          if !busy {
            ReserveWholeOn(d, p, client);
            return SUCCESS;
          }
        }
        d := d + 1;
      }
      status := NO_KERNEL;
    }

    method ReserveDevice(p: nat, d: int, client: nat) returns (status: Status)
      requires Valid()
      modifies DevicesFootprint(devList)
      ensures Valid() && (View(), status) == PoolModel.ReserveDevice(old(View()), p, d, client)
    {
      hide Valid, Devs, Busy, WholeDev;
      if p == 0 || d < 0 || d >= MAX_DEVICES { return INVALID; }
      DevViews();
      if d >= |devList| { return NO_KERNEL; }
      assert devList[d].View().isLoaded == devList[d].isLoaded;
      if !devList[d].isLoaded { return NO_KERNEL; }
      var busy := IsDeviceBusy(d);
      if busy { return NO_KERNEL; }
      ReserveWholeOn(d, p, client);
      status := SUCCESS;
    }

    method ReserveAllXclbins(p: nat, n: nat, uuid: nat, client: nat, ghost a: SysState) returns (status: Status)
      requires Valid() && Reserving(a, View(), {p})
      modifies DevicesFootprint(devList)
      ensures Valid() && (View(), status) == ReserveXclbins(old(View()), p, n, uuid, client)
      ensures Reserving(a, View(), {p})
    {
      hide Valid, Devs, Reserving, ReserveXclbin;
      ghost var s := View();
      var i := n;
      while i > 0
        invariant Valid() && Reserving(a, View(), {p})
        invariant ReserveXclbins(View(), p, i, uuid, client) == ReserveXclbins(s, p, n, uuid, client)
      {
        ReserveXclbinKeeps(a, View(), p, uuid, client);
        status := ReserveCuOfXclbin(p, uuid, client);
        if status != SUCCESS { return; }
        i := i - 1;
      }
      status := SUCCESS;
    }

    method ReserveAllLists(p: nat, n: nat, reqs: seq<Request>, sameDevice: bool, ghost a: SysState)
        returns (status: Status)
      requires Valid() && Reserving(a, View(), {p})
      modifies DevicesFootprint(devList)
      ensures Valid() && (View(), status) == ReserveLists(old(View()), p, n, reqs, sameDevice)
      ensures Reserving(a, View(), {p})
    {
      hide Valid, Devs, Reserving, ReserveList;
      ghost var s := View();
      var i := n;
      while i > 0
        invariant Valid() && Reserving(a, View(), {p})
        invariant ReserveLists(View(), p, i, reqs, sameDevice) == ReserveLists(s, p, n, reqs, sameDevice)
      {
        status := ReserveCuList(p, reqs, sameDevice, a);
        if status != SUCCESS { return; }
        i := i - 1;
      }
      status := SUCCESS;
    }

    /** Whole xclbins, then lists, all under the next pool id; 0 and nothing reserved when
        any of it fails. */
    method ReserveCuPool(q: PoolRequest) returns (p: nat)
      requires Valid() && IdsFresh(View()) && reservePoolId < MAX_ID
      modifies Footprint()
      ensures Valid() && (View(), p) == ReservePool(old(View()), q)
    {
      hide Valid, Devs, Reserving, ReserveLists, ReserveXclbins, Relinquish, IdsFresh;
      if q.listNum < 0 || q.xclbinNum < 0 || |q.reqs| > MAX_LIST { return 0; }
      ghost var a := View();
      ValidInv();
      NextPoolHoldsNothing(a);
      p := GetNextReservePoolId();
      var status := ReserveAllXclbins(p, q.xclbinNum, q.uuid, q.clientId, a);
      if status == SUCCESS { status := ReserveAllLists(p, q.listNum, q.reqs, q.sameDevice, a); }
      if status != SUCCESS {
        GiveBack(p, a);
        return 0;
      }
      SetPoolId(p);
    }

    method SetPoolId(p: nat)
      requires Valid()
      modifies this`reservePoolId
      ensures Valid() && View() == old(View()).(poolId := p)
    {
      hide Device.Wf, Device.View;
      PoolIdInv(View(), p);
      reservePoolId := p;
    }

    // -------------------------------------------------------------------------------
    // Loading and unloading
    // -------------------------------------------------------------------------------

    /** Loads an xclbin on device d. */
    method DeviceLoadXclbin(d: nat, uuid: nat, h: Attempt) returns (status: Status)
      requires Valid() && d < |devList| && PossibleAttempt(h)
      modifies DevicesFootprint(devList)
      ensures Valid() && |old(View()).devs| == |View().devs| == |devList|
      ensures (View().devs[d], status) == LoadDev(old(View()).devs[d], uuid, h)
      ensures View() == SetDev(old(View()), d, LoadDev(old(View()).devs[d], uuid, h).0)
    {
      hide Device.Wf, Device.View, Device.Footprint, UnitsFootprint, DevicesFootprint, Inv, DevInv, LoadDev;
      ghost var s := View();
      DevViews();
      DeviceInv(s, d);
      LoadDevKeeps(s.devs[d], uuid, h);
      InvAt(s, d, LoadDev(s.devs[d], uuid, h).0);
      InFootprint(d);
      status := devList[d].LoadHere(uuid, h);
      DevViews();
      assert Devs() == s.devs[d := devList[d].View()];
      assert DevsWf();
    }

    /** Unloads device d unless it is busy or its lock is not given up. */
    method UnloadDevice(d: nat, unlocks: bool) returns (status: Status)
      requires Valid() && d < |devList|
      modifies DevicesFootprint(devList)
      ensures Valid() && |old(View()).devs| == |View().devs| == |devList|
      ensures (View().devs[d], status) == UnloadDev(old(View()).devs[d], unlocks)
      ensures View() == SetDev(old(View()), d, UnloadDev(old(View()).devs[d], unlocks).0)
    {
      hide Device.Wf, Device.View, Device.Footprint, UnitsFootprint, DevicesFootprint, Inv, DevInv, UnloadDev;
      ghost var s := View();
      DevViews();
      DeviceInv(s, d);
      UnloadDevKeeps(s.devs[d], unlocks);
      InvAt(s, d, UnloadDev(s.devs[d], unlocks).0);
      InFootprint(d);
      status := devList[d].UnloadHere(unlocks);
      DevViews();
      assert Devs() == s.devs[d := devList[d].View()];
      assert DevsWf();
    }

    method UnloadOneDevice(d: int, unlocks: bool) returns (status: Status)
      requires Valid()
      modifies DevicesFootprint(devList)
      ensures Valid() && (View(), status) == Unload(old(View()), d, unlocks)
    {
      hide Valid, Devs, UnloadDev;
      DevViews();
      if d < 0 || d >= |devList| { return INVALID; }
      status := UnloadDevice(d, unlocks);
    }

    /** Whether device d is loaded; the answer is that of the tables. */
    method IsDeviceLoaded(d: nat) returns (loaded: bool)
      requires Valid() && d < |devList|
      ensures Valid() && View() == old(View()) && |View().devs| == |devList| && loaded == View().devs[d].isLoaded
    {
      hide Device.Wf, Inv;
      DevViews();
      loaded := devList[d].isLoaded;
    }

    /** Tries the devices that are not loaded, in order. */
    method LoadFreeDevice(uuid: nat, h: Hardware) returns (r: Option<nat>)
      requires Valid() && PossibleHardware(h)
      modifies DevicesFootprint(devList)
      ensures Valid() && (View(), r) == LoadFree(old(View()), 0, uuid, h)
    {
      hide Valid, Devs, LoadDev;
      ghost var s := View();
      DevViews();
      var d := 0;
      r := None;
      while r.None? && d < |devList|
        invariant Valid() && d <= |devList| == |View().devs|
        invariant LoadFree(s, 0, uuid, h) == if r.Some? then (View(), r) else LoadFree(View(), d, uuid, h)
      {
        var loaded := IsDeviceLoaded(d);
        if !loaded {
          var status := DeviceLoadXclbin(d, uuid, h.first(d));
          if status == SUCCESS { r := Some(d); }
        }
        d := d + 1;
      }
    }

    /** Unloads device d and, if that worked, loads it. */
    method Reload(d: nat, uuid: nat, h: Hardware) returns (status: Status)
      requires Valid() && d < |devList| && PossibleHardware(h)
      modifies DevicesFootprint(devList)
      ensures Valid() && |old(View()).devs| == |View().devs| == |devList|
      ensures var (dev, st) := UnloadDev(old(View()).devs[d], h.unlocks(d));
              var (dev', st') := if st == SUCCESS then LoadDev(dev, uuid, h.again(d)) else (dev, st);
              View() == SetDev(old(View()), d, dev') && status == st'
    {
      hide Valid, Devs, LoadDev, UnloadDev;
      status := UnloadDevice(d, h.unlocks(d));
      if status == SUCCESS { status := DeviceLoadXclbin(d, uuid, h.again(d)); }
    }

    /** Tries the idle devices, in order. */
    method LoadIdleDevice(uuid: nat, h: Hardware) returns (r: Option<nat>)
      requires Valid() && PossibleHardware(h)
      modifies DevicesFootprint(devList)
      ensures Valid() && (View(), r) == LoadIdle(old(View()), 0, uuid, h)
    {
      hide Valid, Devs, LoadDev, UnloadDev, Busy;
      ghost var s := View();
      DevViews();
      var d := 0;
      r := None;
      while r.None? && d < |devList|
        invariant Valid() && d <= |devList| == |View().devs|
        invariant LoadIdle(s, 0, uuid, h) == if r.Some? then (View(), r) else LoadIdle(View(), d, uuid, h)
      {
        var busy := IsDeviceBusy(d);
        if !busy {
          var status := Reload(d, uuid, h);
          if status == SUCCESS { r := Some(d); }
        }
        d := d + 1;
      }
    }

    /** Finds a device for the xclbin: one not loaded, else an idle one. */
    method LoadAnyDevice(uuid: nat, h: Hardware) returns (r: Option<nat>)
      requires Valid() && PossibleHardware(h)
      modifies DevicesFootprint(devList)
      ensures Valid() && (View(), r) == LoadAny(old(View()), uuid, h)
    {
      hide Valid, Devs, LoadFree, LoadIdle;
      r := LoadFreeDevice(uuid, h);
      if r.None? { r := LoadIdleDevice(uuid, h); }
    }

    // -------------------------------------------------------------------------------
    // Version 2 lists
    // -------------------------------------------------------------------------------

    /** What is placed, as a model progress. */
    ghost function Stand(results: Results, num: nat, used: seq<nat>): Progress
      reads Footprint()
    {
      Progress(View(), results, num, used)
    }

    /** Places a group on one device and files its resources. */
    method PlaceGroupOn(group: seq<Request>, g: seq<nat>, results: Results, num: nat, used: seq<nat>)
        returns (status: Status, results': Results, num': nat, used': seq<nat>)
      requires Valid() && HaveClients(group) && OfClientsV2(results)
      requires |group| == |g| > 0 && forall k :: 0 <= k < |g| ==> g[k] < |results|
      modifies Footprint()
      ensures Valid() && |results'| == |results| && OfClientsV2(results')
      ensures (Stand(results', num', used'), status) == GroupOutcome(old(Stand(results, num, used)), g, group)
    {
      hide Valid, Devs, SameDevice, Scatter, AddUsed;
      results', num', used' := results, num, used;
      var r := AllocSameDevice(group, used);
      if r.Err? {
        status := r.error;
      } else {
        results' := ScatterAll(results, g, r.value);
        num', used', status := num + |r.value|, AddUsed(used, r.value[0].devId), SUCCESS;
      }
    }

    /** Places the group of item i. */
    method PlaceVirtual(reqs: seq<RequestV2>, i: nat, v: nat, results: Results, num: nat, used: seq<nat>)
        returns (status: Status, results': Results, num': nat, used': seq<nat>)
      requires Valid() && |results| == |reqs| && i < |reqs| && results[i].None? && HaveClientsV2(reqs) &&
        OfClientsV2(results)
      requires ConstraintOf(reqs[i]) == Virtual(v)
      modifies Footprint()
      ensures Valid() && |results'| == |reqs| && OfClientsV2(results')
      ensures (Stand(results', num', used'), status) == StepV2(old(Stand(results, num, used)), reqs, i)
    {
      hide Valid, Devs, Group, GroupOutcome, StepV2, ConstraintOf;
      VirtualStep(Stand(results, num, used), reqs, i, v);
      var g := GroupOf(reqs, results, i, v);
      GroupClients(reqs, g);
      status, results', num', used' := PlaceGroupOn(AllToV1(reqs, g), g, results, num, used);
    }

    /** Handles item i, with its group if it has a virtual index. */
    method PlaceItem(reqs: seq<RequestV2>, i: nat, results: Results, num: nat, used: seq<nat>)
        returns (status: Status, results': Results, num': nat, used': seq<nat>)
      requires Valid() && |results| == |reqs| && i < |reqs| && results[i].None? && HaveClientsV2(reqs) &&
        OfClientsV2(results)
      modifies Footprint()
      ensures Valid() && |results'| == |reqs| && OfClientsV2(results')
      ensures (Stand(results', num', used'), status) == StepV2(old(Stand(results, num, used)), reqs, i)
    {
      hide Valid, Devs, SystemModel.AllocCu, SystemModel.AllocCuFromDev;
      results', num', used' := results, num, used;
      var k := ConstraintOf(reqs[i]);
      ValidInv();
      if k.BadConstraint? {
        status := INVALID;
      } else if k.Virtual? {
        status, results', num', used' := PlaceVirtual(reqs, i, k.index, results, num, used);
      } else {
        AllocatedForClient(View(), ToV1(reqs[i]));
        if k.Hardware? { FromDevForClient(View(), k.index, ToV1(reqs[i])); }
        var r;
        if k.AnyDev? {
          r := AllocCu(ToV1(reqs[i]), false);
        } else {
          r := AllocCuFromDev(k.index, ToV1(reqs[i]), false);
        }
        if r.Ok? {
          results', num', status := results[i := Some(r.value)], num + 1, SUCCESS;
        } else {
          status := r.error;
        }
      }
    }

    /** Handles the items in order; stops at the first failure. */
    method PlaceItems(reqs: seq<RequestV2>) returns (status: Status, results: Results, num: nat, used: seq<nat>)
      requires Valid() && HaveClientsV2(reqs)
      modifies Footprint()
      ensures Valid() && |results| == |reqs| && OfClientsV2(results)
      ensures (Stand(results, num, used), status) == RunV2(Progress(old(View()), NoResults(|reqs|), 0, []), reqs, 0)
    {
      hide Valid, Devs, StepV2;
      ghost var start := Progress(View(), NoResults(|reqs|), 0, []);
      status, results, num, used := SUCCESS, NoResults(|reqs|), 0, [];
      var i := 0;
      while status == SUCCESS && i < |reqs|
        invariant Valid() && i <= |reqs| == |results| && OfClientsV2(results)
        invariant RunV2(start, reqs, 0) == if status == SUCCESS then RunV2(Stand(results, num, used), reqs, i)
                                           else (Stand(results, num, used), status)
      {
        if results[i].None? { status, results, num, used := PlaceItem(reqs, i, results, num, used); }
        i := i + 1;
      }
    }

    method ReleaseResults(results: Results)
      requires Valid() && OfClientsV2(results)
      modifies DevicesFootprint(devList)
      ensures Valid() && View() == ReleaseEach(old(View()), Allocated(results))
    {
      hide Valid, Devs, SystemModel.ReleaseCu;
      ghost var s := View();
      for i := 0 to |results|
        invariant Valid() && ReleaseEach(View(), Allocated(results[i..])) == ReleaseEach(s, Allocated(results))
      {
        AllocatedHead(results, i);
        if results[i].Some? { var _ := ReleaseCu(results[i].value); }
      }
    }

    method AllocCuListV2(reqs: seq<RequestV2>) returns (r: Outcome<(Results, nat)>)
      requires Valid() && HaveClientsV2(reqs)
      modifies Footprint()
      ensures Valid() && (View(), r) == ListV2Model.AllocCuListV2(old(View()), reqs)
    {
      hide Valid, Devs, RunV2, ReleaseEach;
      if |reqs| == 0 || |reqs| > MAX_LIST_V2 { return Err(INVALID); }
      var status, results, num, used := PlaceItems(reqs);
      if status == SUCCESS {
        UpdateAllocServiceId();
        r := Ok((results, num));
      } else {
        ReleaseResults(results);
        r := Err(status);
      }
    }

    // -------------------------------------------------------------------------------
    // Allocating by load
    // -------------------------------------------------------------------------------

    /** Allocates by policy from device d. If the unit picked has no free channel, the counters
        stay right all the same, but the reference counts do not match any more. */
    method PlaceByLoadOn(d: nat, pol: Policy, req: Request) returns (r: Outcome<Claim>)
      requires Valid() && d < |devList| && devList[d].isLoaded && req.clientId != 0 && req.poolId == 0
      modifies DevicesFootprint(devList)
      ensures Shape() && DevsWf() && (View(), r) == PolicyModel.PlaceByLoad(old(View()), d, pol, req)
      ensures PickHasFree(old(View()), d, pol, req) ==> Valid()
    {
      hide Device.Wf, Device.View, Device.Footprint, UnitsFootprint, DevicesFootprint, Inv, DevInv, Register,
        Unregister, PolicyPick, PutChannel, PickHasFree;
      ghost var s := View();
      DevViews();
      DeviceInv(s, d);
      devList[d].Visible();
      if PickHasFree(s, d, pol, req) { PlaceByLoadKeepsInv(s, d, pol, req); }
      var id := GetNextAllocServiceId();
      InFootprint(d);
      var status, c, chanId := devList[d].PlaceByLoad(pol, req, id);
      if status != SUCCESS {
        r := Err(status);
      } else if chanId.Some? {
        r := Ok(Real(Res(d, c, chanId.value, id, req.clientId, req.poolId, req.load)));
      } else {
        r := Ok(Hollow(d, c));
      }
      DevViews();
      assert Devs() == s.devs[d := devList[d].View()];
      assert DevsWf();
      assert View() == SetDev(s, d, devList[d].View());
      if status == NO_DEV { assert s.devs[d := s.devs[d]] == s.devs; }
      assert View() == PolicyModel.PlaceByLoad(s, d, pol, req).0;
      assert r == PolicyModel.PlaceByLoad(s, d, pol, req).1;
    }

    method AllocCuFromDevByLoad(d: int, pol: Policy, req: Request, update: bool) returns (r: Outcome<Claim>)
      requires Valid() && req.clientId != 0 && req.poolId == 0
      modifies Footprint()
      ensures Shape() && DevsWf() && (View(), r) == PolicyModel.AllocCuFromDevByLoad(old(View()), d, pol, req, update)
      ensures PickHasFree(old(View()), d, pol, req) ==> Valid()
    {
      hide Device.Wf, Inv, PolicyModel.PlaceByLoad, PolicyPick, PickHasFree;
      ghost var s := View();
      DevViews();
      if d < 0 || d >= |devList| || !HasName(req.names) { return Err(INVALID); }
      assert devList[d].Shape();
      if !devList[d].isLoaded || (devList[d].isExcl && devList[d].clientProcs[0].clientId != req.clientId) {
        return Err(NO_DEV);
      }
      if PickHasFree(s, d, pol, req) { ByLoadKeepsInv(s, d, pol, req, update); }
      r := PlaceByLoadOn(d, pol, req);
      if r.Ok? && update { NextServiceId(); }
    }

    method NextServiceId()
      requires Shape() && DevsWf()
      modifies this`allocServiceId
      ensures Shape() && DevsWf() && View() == Advance(old(View()), true)
    {
      hide Device.Wf, Device.View;
      allocServiceId := GetNextAllocServiceId();
    }

    /** Reserves pools until that fails. */
    method DrainCuPools(q: PoolRequest) returns (ps: seq<nat>)
      requires Valid() && PoolProbeable(View()) && !Endless(q)
      modifies Footprint()
      ensures Valid() && PoolProbeable(old(View())) && (View(), ps) == DrainPools(old(View()), q, [])
    {
      hide Valid, Devs, ReservePool, DrainPools, PoolProbeable;
      ghost var s := View();
      ps := [];
      var p := 1;
      while p != 0
        invariant Valid() && (p != 0 ==> PoolProbeable(View()))
        invariant DrainPools(s, q, []) == if p == 0 then (View(), ps) else DrainPools(View(), q, ps)
        decreases p != 0, if p != 0 then SpareTotal(View()) else 0
      {
        DrainPoolsStep(View(), q, ps);
        p := ReserveCuPool(q);
        if p != 0 { ps := ps + [p]; }
      }
    }

    method RelinquishPools(ps: seq<nat>)
      requires Valid()
      modifies DevicesFootprint(devList)
      ensures Valid() && View() == RelinquishAll(old(View()), ps)
    {
      hide Valid, Devs, Relinquish;
      ghost var s := View();
      for i := 0 to |ps|
        invariant Valid() && RelinquishAll(View(), ps[i..]) == RelinquishAll(s, ps)
      {
        assert ps[i..][0] == ps[i] && ps[i..][1..] == ps[i + 1..];
        var _ := RelinquishPool(ps[i]);
      }
    }

    /** How many such pools could be reserved now. */
    method CheckCuPoolAvailableNum(q: PoolRequest) returns (n: nat)
      requires Valid() && PoolProbeable(View()) && !Endless(q)
      modifies Footprint()
      ensures Valid() && PoolProbeable(old(View())) && (View(), n) == ProbePool(old(View()), q)
    {
      hide Valid, Devs, DrainPools, RelinquishAll, PoolProbeable;
      var ps := DrainCuPools(q);
      RelinquishPools(ps);
      n := |ps|;
    }

    // -------------------------------------------------------------------------------
    // Queries
    // -------------------------------------------------------------------------------

    method QueryOn(d: nat, id: nat, kernel: string, alias: string, limit: nat, acc: seq<Res>)
        returns (over: bool, rs: seq<Res>)
      requires Valid() && d < |devList| == |View().devs| && |acc| <= limit
      ensures Valid() && View() == old(View()) && |View().devs| == |devList|
      ensures var found := InUnits(d, View().devs[d].cus, |View().devs[d].cus|, id, kernel, alias);
              && (over <==> |acc| + |found| > limit)
              && (!over ==> rs == acc + found)
    {
      hide Device.Wf, Device.View, Device.Footprint, UnitsFootprint, DevicesFootprint, Inv, InUnits;
      DevViews();
      InFootprint(d);
      over, rs := devList[d].QueryUnits(d, id, kernel, alias, limit, acc);
      DevViews();
      assert Devs() == old(Devs());
      assert DevsWf();
    }

    /** All channels that carry the service id, on units that the names fit. */
    method ResAllocationQuery(id: nat, kernel: string, alias: string, limit: nat) returns (r: Outcome<seq<Res>>)
      requires Valid()
      ensures Valid() && View() == old(View()) && r == Query(View(), id, kernel, alias, limit)
    {
      hide Valid, Devs, InUnits, InDevices;
      if id == 0 { return Err(INVALID); }
      DevViews();
      ghost var devs := View().devs;
      NoDevices(devs, id, kernel, alias);
      var rs: seq<Res> := [];
      var d, over := 0, false;
      while !over && d < |devList|
        invariant Valid() && d <= |devList| == |devs| && View() == old(View()) && devs == View().devs
        invariant if over then |InDevices(devs, |devs|, id, kernel, alias)| > limit
                  else rs == InDevices(devs, d, id, kernel, alias) && |rs| <= limit
      {
        QueryModel.OneMoreDevice(devs, d, id, kernel, alias);
        over, rs := QueryOn(d, id, kernel, alias, limit, rs);
        d := d + 1;
      }
      r := if over then Err(ERROR) else Ok(rs);
    }
  }

  lemma DrainPoolsStep(s: SysState, q: PoolRequest, acc: seq<nat>)
    requires PoolProbeable(s) && !Endless(q)
    ensures IdsFresh(s) && s.poolId < MAX_ID && SpareTotal(s) >= 0
    ensures var (s1, p) := ReservePool(s, q);
            if p == 0 then DrainPools(s, q, acc) == (s1, acc)
            else PoolProbeable(s1) && 0 <= SpareTotal(s1) < SpareTotal(s) &&
                 DrainPools(s, q, acc) == DrainPools(s1, q, acc + [p])
  {
    SpareNonNegative(s);
    PoolUsesSpare(s, q);
  }

  function GroupOutcome(p: Progress, g: seq<nat>, group: seq<Request>): (Progress, Status)
    requires |group| == |g| > 0 && forall k :: 0 <= k < |g| ==> g[k] < |p.results|
  {
    var (s1, r) := SameDevice(p.s, 0, group, p.used);
    if r.Err? then (p.(s := s1), r.error) else (PlaceGroup(p, g, s1, r.value), SUCCESS)
  }

  lemma VirtualStep(p: Progress, reqs: seq<RequestV2>, i: nat, v: nat)
    requires |p.results| == |reqs| && i < |reqs| && p.results[i].None? && ConstraintOf(reqs[i]) == Virtual(v)
    ensures var g := Group(reqs, p.results, i, v);
            g != [] && StepV2(p, reqs, i) == GroupOutcome(p, g, AllToV1(reqs, g))
  {
    assert i in Group(reqs, p.results, i, v);
  }

  lemma GroupClients(reqs: seq<RequestV2>, g: seq<nat>)
    requires HaveClientsV2(reqs) && forall k :: 0 <= k < |g| ==> g[k] < |reqs|
    ensures HaveClients(AllToV1(reqs, g))
  {
  }

  lemma AllocatedHead(results: Results, i: nat)
    requires i < |results|
    ensures Allocated(results[i..]) ==
      (if results[i].Some? then [results[i].value] else []) + Allocated(results[i + 1..])
  {
    assert results[i..][0] == results[i] && results[i..][1..] == results[i + 1..];
  }

  /** Collects the items of one virtual index, from item i on. */
  method GroupOf(reqs: seq<RequestV2>, results: Results, i: nat, v: nat) returns (g: seq<nat>)
    requires |results| == |reqs| && i <= |reqs|
    ensures g == Group(reqs, results, i, v)
  {
    hide ConstraintOf, Group;
    ghost var group := Group(reqs, results, i, v);
    g := [];
    var j := i;
    while j < |reqs|
      invariant i <= j <= |reqs|
      invariant g + Group(reqs, results, j, v) == group
    {
      GroupNext(reqs, results, j, v, g);
      if results[j].None? && ConstraintOf(reqs[j]) == Virtual(v) { g := g + [j]; }
      j := j + 1;
    }
    GroupEnd(reqs, results, v);
  }

  lemma GroupNext(reqs: seq<RequestV2>, results: Results, j: nat, v: nat, g: seq<nat>)
    requires |results| == |reqs| && j < |reqs|
    ensures g + Group(reqs, results, j, v) ==
              if results[j].None? && ConstraintOf(reqs[j]) == Virtual(v) then g + [j] + Group(reqs, results, j + 1, v)
              else g + Group(reqs, results, j + 1, v)
  {
  }

  lemma GroupEnd(reqs: seq<RequestV2>, results: Results, v: nat)
    requires |results| == |reqs|
    ensures Group(reqs, results, |reqs|, v) == []
  {
  }

  /** Files the group's resources under the items' own indices. */
  method ScatterAll(results: Results, g: seq<nat>, rs: seq<Res>) returns (results': Results)
    requires |g| == |rs| && forall k :: 0 <= k < |g| ==> g[k] < |results|
    ensures results' == Scatter(results, g, rs)
    ensures OfClientsV2(results) && OfClients(rs) ==> OfClientsV2(results')
  {
    results' := results;
    for k := 0 to |g|
      invariant |results'| == |results|
      invariant OfClientsV2(results) && OfClients(rs) ==> OfClientsV2(results')
      invariant Scatter(results', g[k..], rs[k..]) == Scatter(results, g, rs)
    {
      assert g[k..][0] == g[k] && g[k..][1..] == g[k + 1..] && rs[k..][0] == rs[k] && rs[k..][1..] == rs[k + 1..];
      results' := results'[g[k] := Some(rs[k])];
    }
  }

  lemma FromDevForClient(s: SysState, d: int, req: Request)
    requires req.clientId != 0
    ensures var r := SystemModel.AllocCuFromDev(s, d, req, false).1; r.Ok? ==> r.value.clientId != 0
  {
  }

  lemma PoolIdInv(s: SysState, p: nat)
    requires Inv(s)
    ensures Inv(s.(poolId := p))
  {
    forall d | 0 <= d < |s.devs| ensures DevInv(s.(poolId := p).devs[d]) { assert DevInv(s.devs[d]); }
  }

  lemma ReserveXclbinKeeps(a: SysState, b: SysState, p: nat, uuid: nat, client: nat)
    requires Reserving(a, b, {p})
    ensures Reserving(a, ReserveXclbin(b, p, uuid, client).0, {p})
  {
    ReserveXclbinReserves(a, b, {p}, p, uuid, client);
  }

  lemma ReserveSameStep(s: SysState, d: nat, p: nat, reqs: seq<Request>, last: Status)
    requires d < |s.devs| && reqs != []
    ensures var k := NextOpen(s.devs, d, reqs[0].clientId);
            ReserveSame(s, d, p, reqs, last) ==
              if k == |s.devs| then (s, last)
              else
                var e := ReserveEach(s, k, p, reqs, 0);
                if e.1 == SUCCESS then e else ReserveSame(e.0, k + 1, p, reqs, e.1)
  {
    hide NextOpen, ReserveEach;
  }

  lemma ReserveSameEnd(s: SysState, p: nat, reqs: seq<Request>, last: Status)
    requires reqs != []
    ensures ReserveSame(s, |s.devs|, p, reqs, last) == (s, last)
  {
  }

  /** s' is s with the load reserved where the search from device d on finds room for it. */
  ghost predicate ReservedFrom(s: SysState, d: nat, affinity: bool, p: nat, req: Request, s': SysState) {
    && d <= |s.devs|
    && var at := FindReserve(s, d, affinity, p, req);
    && at.Some? && s' == ReserveAt(s, at.value.0, at.value.1, p, req)
  }

  /** From device d on, the load was reserved, or the search goes on at device `next`. */
  ghost predicate ReserveTurn(s: SysState, d: nat, affinity: bool, p: nat, req: Request, next: nat, found: bool,
      s': SysState) {
    && d <= |s.devs| && next <= |s.devs|
    && if found then ReservedFrom(s, d, affinity, p, req, s')
       else s' == s && FindReserve(s, d, affinity, p, req) == FindReserve(s, next, affinity, p, req)
  }

  lemma ReserveTurnAt(s: SysState, d: nat, k: nat, affinity: bool, p: nat, req: Request, found: bool, s': SysState)
    requires d <= |s.devs| && k == NextOpen(s.devs, d, req.clientId) < |s.devs|
    requires var c := TakesFrom(s.devs[k].cus, 0, affinity, p, req);
             && (found <==> c < |s.devs[k].cus|) && (found ==> req.load > 0)
             && s' == if found then ReserveAt(s, k, c, p, req) else s
    ensures ReserveTurn(s, d, affinity, p, req, k + 1, found, s')
  {
    hide TakesFrom, NextOpen, Takes, ReserveAt;
  }

  lemma ReserveTurnEnds(s: SysState, d: nat, affinity: bool, p: nat, req: Request)
    requires d <= |s.devs| && NextOpen(s.devs, d, req.clientId) == |s.devs|
    ensures ReserveTurn(s, d, affinity, p, req, |s.devs|, false, s)
  {
  }

  lemma FindReserveEnd(s: SysState, affinity: bool, p: nat, req: Request)
    ensures FindReserve(s, |s.devs|, affinity, p, req).None?
  {
  }

  lemma VisitReserves(a: SysState, s: SysState, d: nat, affinity: bool, p: nat, req: Request)
    requires Reserving(a, s, {p}) && d < |s.devs|
    ensures var c := TakesFrom(s.devs[d].cus, 0, affinity, p, req);
            c < |s.devs[d].cus| ==> req.load > 0 && Reserving(a, ReserveAt(s, d, c, p, req), {p})
  {
    var c := TakesFrom(s.devs[d].cus, 0, affinity, p, req);
    if c < |s.devs[d].cus| { ReserveAtAdds(a, s, {p}, d, c, p, req); }
  }

  lemma PoolUnclaimed(a: SysState, s: SysState, d: nat, p: nat)
    requires Reserving(a, s, {p}) && d < |s.devs|
    ensures Unclaimed(s.devs[d].cus, p) && p != 0 && DevShape(s.devs[d])
  {
    assert DevAdded(a.devs[d], s.devs[d], {p}) && DevInv(s.devs[d]);
    forall c | 0 <= c < |s.devs[d].cus| ensures Total(LoadInPool(p), s.devs[d].cus[c].channels) == 0 {
      assert SlotsAdded(a.devs[d].cus[c], s.devs[d].cus[c], {p});
      FreshHoldsNothing(a.devs[d].cus[c], s.devs[d].cus[c], {p}, p);
    }
  }

  lemma InvAt(s: SysState, d: nat, dev: DevState)
    requires Inv(s) && d < |s.devs| && DevInv(dev)
    ensures Inv(SetDev(s, d, dev))
  {
  }

  lemma DevShapeOf(dev: DevState)
    requires DevInv(dev)
    ensures DevShape(dev)
  {
  }

  lemma DrainStep(s: SysState, req: Request, acc: seq<Res>)
    requires Inv(s) && req.clientId != 0
    ensures var (s1, r) := SystemModel.AllocCu(s, req, true);
            && Inv(s1)
            && (r.Ok? ==>
                  && r.value.clientId != 0
                  && Drain(s, req, acc) == Drain(s1, req, acc + [r.value])
                  && HasName(req.names) && 0 <= Available(s1, req) < Available(s, req))
            && (r.Err? ==> Drain(s, req, acc) == (s1, acc))
  {
    AllocCuKeepsInv(s, req, true);
    AllocatedForClient(s, req);
    AllocCuUpdate(s, req);
    if HasName(req.names) {
      AllocUsesOneAndId(s, req);
      AvailableBounds(SystemModel.AllocCu(s, req, true).0, req);
    }
  }

  lemma DrainListsStep(s: SysState, reqs: seq<Request>, sameDevice: bool, acc: seq<seq<Res>>)
    requires Inv(s) && HaveClients(reqs)
    ensures var (s1, r) := ListModel.AllocCuList(s, reqs, sameDevice);
            && Inv(s1)
            && (r.Ok? ==>
                  && DrainLists(s, reqs, sameDevice, acc) == DrainLists(s1, reqs, sameDevice, acc + [r.value])
                  && 0 <= FreeTotal(s1) < FreeTotal(s))
            && (r.Err? ==> DrainLists(s, reqs, sameDevice, acc) == (s1, acc))
  {
    AllocCuListKeepsInv(s, reqs, sameDevice);
    if ListModel.AllocCuList(s, reqs, sameDevice).1.Ok? { ListUsesFree(s, reqs, sameDevice); }
  }

  lemma AllocatedForClient(s: SysState, req: Request)
    requires Inv(s) && req.clientId != 0
    ensures var r := SystemModel.AllocCu(s, req, false).1; r.Ok? ==> r.value.clientId != 0
  {
    if HasName(req.names) { AllocCuRefines(s, req); }
  }

  lemma PlacedForClient(s: SysState, d: nat, req: Request)
    requires d < |s.devs| && req.clientId != 0
    ensures var r := TryPlace(s, d, req).1; r.Ok? ==> r.value.clientId != 0
  {
  }

  lemma SameDeviceStep(s: SysState, d: nat, reqs: seq<Request>, used: seq<nat>)
    requires d < |s.devs| && reqs != []
    ensures var k := NextOpen(s.devs, d, reqs[0].clientId);
            SameDevice(s, d, reqs, used) ==
              if k == |s.devs| then (s, Err(NO_KERNEL))
              else if k in used then SameDevice(s, k + 1, reqs, used)
              else
                var p := PlaceList(s, k, reqs, []);
                if p.1.Ok? then p else SameDevice(p.0, k + 1, reqs, used)
  {
    hide NextOpen, PlaceList;
  }

  lemma SameDeviceEnd(s: SysState, reqs: seq<Request>, used: seq<nat>)
    requires reqs != []
    ensures SameDevice(s, |s.devs|, reqs, used) == (s, Err(NO_KERNEL))
  {
  }

  /** Releasing what a request describes keeps the invariant. */
  lemma ReleasableAt(s: SysState, r: Res)
    requires Inv(s) && r.clientId != 0 && r.devId < |s.devs|
    ensures DevShape(s.devs[r.devId])
    ensures forall c :: 0 <= c < |s.devs[r.devId].cus| ==> |s.devs[r.devId].cus[c].channels| == MAX_CHANNELS
    ensures Holds(s, r) ==> Inv(ClearAndUnregister(s, r))
  {
    assert DevInv(s.devs[r.devId]);
    forall c | 0 <= c < |s.devs[r.devId].cus| ensures |s.devs[r.devId].cus[c].channels| == MAX_CHANNELS {
      assert CuInv(s.devs[r.devId].cus[c]);
    }
    if Holds(s, r) { ClearKeepsSysInv(s, r); }
  }

  lemma ScanStep(s: SysState, d: nat, affinity: bool, req: Request)
    requires d < |s.devs|
    ensures var k := NextOpen(s.devs, d, req.clientId);
            ScanDevs(s, d, affinity, req) ==
              if k == |s.devs| then (s, None)
              else
                var v := SystemModel.Visit(s, k, affinity, req);
                if v.1.Some? then v else ScanDevs(v.0, k + 1, affinity, req)
  {
  }

  lemma ScanEnd(s: SysState, affinity: bool, req: Request)
    ensures ScanDevs(s, |s.devs|, affinity, req) == (s, None)
  {
  }

  lemma DeviceInv(s: SysState, d: nat)
    requires Inv(s) && d < |s.devs|
    ensures DevInv(s.devs[d])
  {
  }

  lemma EmptyInv(s: SysState)
    requires |s.devs| <= MAX_DEVICES
    requires forall d :: 0 <= d < |s.devs| ==> s.devs[d] == DevState(false, false, 0, [], EmptyTable(), 0)
    ensures Inv(s)
  {
    forall d | 0 <= d < |s.devs| ensures DevInv(s.devs[d]) { }
  }
}
