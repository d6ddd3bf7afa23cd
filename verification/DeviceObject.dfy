/** The daemon's record of one device, updated in place: its compute units, its table of
    clients, and its load counter with the rate derived from it. */
module DeviceObject {
  import opened Tables
  import opened Sums
  import opened CuModel
  import opened DeviceModel
  import opened SystemModel
  import opened PoolModel
  import opened RecycleModel
  import opened LoadModel
  import opened PolicyModel
  import opened QueryModel
  import opened GuaranteeModel
  import opened CuObject

  ghost function UnitsFootprint(cus: seq<Cu>): set<object> {
    set i, o | 0 <= i < |cus| && o in cus[i].Footprint() :: o
  }

  /** Load per thousand of what the units can carry; the division truncates toward zero. */
  function LoadRate(load: int, numCu: nat): int
    requires numCu > 0
  {
    if load >= 0 then load * 1000 / (numCu * MAX_LOAD) else -(-load * 1000 / (numCu * MAX_LOAD))
  }

  /** The rate is the thousandfold load over the capacity of the units, cut off toward zero. */
  predicate PerMille(rate: int, load: int, numCu: nat) {
    var capacity := numCu * MAX_LOAD;
    if load >= 0 then rate * capacity <= load * 1000 < (rate + 1) * capacity
    else (rate - 1) * capacity < load * 1000 <= rate * capacity
  }

  lemma RateIsPerMille(load: int, numCu: nat)
    requires numCu > 0
    ensures PerMille(LoadRate(load, numCu), load, numCu)
  {
    var n, capacity := if load >= 0 then load * 1000 else -load * 1000, numCu * MAX_LOAD;
    var k := n / capacity;
    assert n == k * capacity + n % capacity;
    assert (k + 1) * capacity == k * capacity + capacity;
    assert (-k - 1) * capacity == -(k * capacity) - capacity;
    assert (-k) * capacity == -(k * capacity);
  }

  class Device {
    const cuList: seq<Cu>
    const clientProcs: array<Proc>
    var isLoaded: bool
    var isExcl: bool
    var uuid: nat
    var numCu: nat
    var currentLoad: int
    var loadRate: int

    ghost function Footprint(): set<object> {
      {this, clientProcs} + UnitsFootprint(cuList)
    }

    /** The unit records are separate objects. */
    ghost predicate Shape() {
      && |cuList| == MAX_KERNELS
      && clientProcs.Length == MAX_DEV_CLIENTS
      && (forall i :: 0 <= i < |cuList| ==> cuList[i].Shape())
      && this !in UnitsFootprint(cuList) && clientProcs !in UnitsFootprint(cuList)
      && forall i, j :: 0 <= i < j < |cuList| ==> cuList[i].Footprint() !! cuList[j].Footprint()
    }

    ghost function Units(): (cus: seq<CuState>)
      reads this`numCu, UnitsFootprint(cuList)
    {
      if numCu <= |cuList|
      then seq(numCu, i requires 0 <= i < |cuList| reads UnitsFootprint(cuList) => cuList[i].View())
      else []
    }

    lemma UnitViews()
      requires numCu <= |cuList|
      ensures |Units()| == numCu && forall i :: 0 <= i < numCu ==> Units()[i] == cuList[i].View()
    {
    }

    lemma UnitInside(c: nat)
      requires c < |cuList|
      ensures cuList[c].Footprint() <= UnitsFootprint(cuList)
    {
    }

    lemma Visible()
      requires Wf()
      ensures |View().cus| == numCu <= |cuList| && View().isLoaded == isLoaded
    {
    }

    /** The device without its units. */
    ghost function Table(): DevState
      reads this, clientProcs
    {
      DevState(isLoaded, isExcl, uuid, [],
               if clientProcs.Length == MAX_DEV_CLIENTS then clientProcs[..] else EmptyTable(), 0)
    }

    ghost function View(): DevState
      reads Footprint()
    {
      Table().(cus := Units(), drift := currentLoad - CusTotal(UsedLoad, Units()))
    }

    ghost predicate UnitsWf()
      reads this`numCu, UnitsFootprint(cuList)
    {
      numCu <= |cuList| && forall i :: 0 <= i < numCu ==> cuList[i].Wf()
    }

    ghost predicate Wf()
      reads Footprint()
    {
      && Shape() && UnitsWf()
      && (if isLoaded then numCu > 0 && loadRate == LoadRate(currentLoad, numCu) else numCu == 0)
    }

    constructor ()
      ensures Shape() && Wf() && fresh(Footprint())
      ensures View() == DevState(false, false, 0, [], EmptyTable(), 0)
    {
      var cus := NewUnits();
      cuList := cus;
      clientProcs := new Proc[MAX_DEV_CLIENTS](i => Proc(0, 0));
      isLoaded, isExcl, uuid, numCu, currentLoad, loadRate := false, false, 0, 0, 0, 0;
      new;
      assert clientProcs[..] == EmptyTable();
    }

    static method NewUnits() returns (cus: seq<Cu>)
      ensures |cus| == MAX_KERNELS
      ensures forall i :: 0 <= i < |cus| ==> cus[i].Shape() && fresh(cus[i].Footprint())
      ensures forall i, j :: 0 <= i < j < |cus| ==> cus[i].Footprint() !! cus[j].Footprint()
    {
      cus := [];
      while |cus| < MAX_KERNELS
        invariant |cus| <= MAX_KERNELS
        invariant forall i :: 0 <= i < |cus| ==> cus[i].Shape() && fresh(cus[i].Footprint())
        invariant forall i, j :: 0 <= i < j < |cus| ==> cus[i].Footprint() !! cus[j].Footprint()
      {
        var cu := new Cu();
        cus := cus + [cu];
      }
    }

    method UpdateDeviceLoad(loadChange: int)
      requires Shape() && numCu > 0
      modifies this`currentLoad, this`loadRate
      ensures currentLoad == old(currentLoad) + loadChange && loadRate == LoadRate(currentLoad, numCu)
      ensures PerMille(loadRate, currentLoad, numCu)
    {
      RateIsPerMille(currentLoad + loadChange, numCu);
      currentLoad := currentLoad + loadChange;
      loadRate := LoadRate(currentLoad, numCu);
    }

    method SetDeviceLoad(load: int)
      requires Shape() && numCu > 0
      modifies this`currentLoad, this`loadRate
      ensures currentLoad == load && loadRate == LoadRate(currentLoad, numCu)
      ensures PerMille(loadRate, currentLoad, numCu)
    {
      RateIsPerMille(load, numCu);
      currentLoad := load;
      loadRate := LoadRate(currentLoad, numCu);
    }

    // -------------------------------------------------------------------------------
    // The client table
    // -------------------------------------------------------------------------------

    /** Position of the client's first entry (of id 0: the first empty one), or -1. */
    method FindClient(c: nat) returns (k: int)
      requires Shape()
      ensures k == (var j := FindProc(clientProcs[..], c); if j < MAX_DEV_CLIENTS then j else -1)
    {
      k := 0;
      while k < MAX_DEV_CLIENTS
        invariant 0 <= k <= MAX_DEV_CLIENTS
        invariant forall j :: 0 <= j < k ==> clientProcs[j].clientId != c
      {
        if clientProcs[k].clientId == c { return; }
        k := k + 1;
      }
      k := -1;
    }

    /** Whether another client uses the device, and else this client's count. */
    method OnlyClientRef(c: nat) returns (others: bool, ref: int)
      requires Shape() && DistinctProcs(clientProcs[..]) && c != 0
      ensures others <==> OthersPresent(clientProcs[..], c)
      ensures !others ==> ref == RefOf(clientProcs[..], c)
    {
      others, ref := false, 0;
      ghost var at := FindProc(clientProcs[..], c);
      var k := 0;
      while k < MAX_DEV_CLIENTS
        invariant 0 <= k <= MAX_DEV_CLIENTS
        invariant forall j :: 0 <= j < k ==> clientProcs[j].clientId == 0 || clientProcs[j].clientId == c
        invariant ref == if at < k then clientProcs[at].ref else 0
      {
        if clientProcs[k].clientId != 0 && clientProcs[k].clientId != c { return true, 0; }
        if clientProcs[k].clientId == c {
          Found(clientProcs[..], k);
          ref := clientProcs[k].ref;
        }
        k := k + 1;
      }
    }

    method ClearTable()
      requires Shape()
      modifies clientProcs
      ensures clientProcs[..] == EmptyTable()
    {
      for k := 0 to MAX_DEV_CLIENTS
        invariant forall j :: 0 <= j < k ==> clientProcs[j] == Proc(0, 0)
      {
        clientProcs[k] := Proc(0, 0);
      }
    }

    /** Registers the client in the table, or refuses. */
    method AllocClient(req: Request) returns (ok: bool)
      requires Shape() && req.clientId != 0
      requires DistinctProcs(clientProcs[..])
      modifies this`isExcl, clientProcs
      ensures ok <==> Register(old(Table()), req).Some?
      ensures Table() == if ok then Register(old(Table()), req).value else old(Table())
    {
      var c := req.clientId;
      if isExcl {
        if clientProcs[0].clientId == c {
          clientProcs[0] := clientProcs[0].(ref := clientProcs[0].ref + 1);
          return true;
        }
        return false;
      }
      if req.devExcl {
        var others, ref := OnlyClientRef(c);
        if others { return false; }
        isExcl := true;
        ClearTable();
        clientProcs[0] := Proc(c, ref + 1);
        return true;
      }
      var k := FindClient(c);
      if k >= 0 {
        clientProcs[k] := clientProcs[k].(ref := clientProcs[k].ref + 1);
        return true;
      }
      k := FindClient(0);
      if k >= 0 {
        clientProcs[k] := Proc(c, 1);
        return true;
      }
      return false;
    }

    /** Takes one use of the client out of the table. */
    method ReleaseClient(c: nat)
      requires Shape() && c != 0
      modifies this`isExcl, clientProcs
      ensures Table() == Unregister(old(Table()), c)
    {
      if !isLoaded { return; }
      if isExcl {
        if clientProcs[0].clientId != c { return; }
        clientProcs[0] := clientProcs[0].(ref := clientProcs[0].ref - 1);
        if clientProcs[0].ref == 0 {
          isExcl := false;
          clientProcs[0] := clientProcs[0].(clientId := 0);
        }
      } else {
        var k := FindClient(c);
        if k < 0 { return; }
        clientProcs[k] := clientProcs[k].(ref := clientProcs[k].ref - 1);
        if clientProcs[k].ref == 0 {
          clientProcs[k] := clientProcs[k].(clientId := 0);
        }
      }
    }

    method Enter(req: Request) returns (ok: bool)
      requires Wf() && DevInv(View()) && req.clientId != 0
      modifies this`isExcl, clientProcs
      ensures Wf() && (ok <==> Register(old(View()), req).Some?)
      ensures View() == if ok then Register(old(View()), req).value else old(View())
    {
      hide Register, DevInv, LoadRate, CusTotal, Cu.Wf, Cu.View;
      ghost var d := View();
      NoDuplicates(d);
      ok := AllocClient(req);
      TableSteps(d, req, 0);
    }

    method Leave(c: nat)
      requires Wf() && c != 0
      modifies this`isExcl, clientProcs
      ensures Wf() && View() == Unregister(old(View()), c)
    {
      hide Unregister, LoadRate, CusTotal, Cu.Wf, Cu.View;
      ghost var d := View();
      ReleaseClient(c);
      TableSteps(d, Request(Names("", "", ""), false, 0, c, 0), c);
    }

    // -------------------------------------------------------------------------------
    // Allocating and releasing channels
    // -------------------------------------------------------------------------------

    /** Tries unit c; the load counter is not yet touched. */
    method TryUnit(c: nat, req: Request, id: nat) returns (status: Status, chanId: nat)
      requires Shape() && UnitsWf() && c < numCu && CuInv(cuList[c].View()) && req.clientId != 0 && id != 0
      modifies cuList[c].Footprint()
      ensures UnitsWf() && Units() == old(Units())[c := cuList[c].View()]
      ensures status == SUCCESS <==> Feasible(old(cuList[c].View()), req)
      ensures cuList[c].View() == if status == SUCCESS then PutChannel(old(cuList[c].View()), req, id)
        else old(cuList[c].View())
      ensures status == SUCCESS ==> chanId == FirstFree(old(cuList[c].View()).channels)
    {
      hide CuInv, Feasible, PutChannel, Cu.Wf, Cu.View;
      UnitViews();
      ghost var us := Units();
      status, chanId := cuList[c].AllocChanClient(req, id);
      UnitViews();
      assert Units() == us[c := cuList[c].View()];
    }

    /** Tries unit c; on success books the load on the device. */
    method AllocOnUnit(c: nat, req: Request, id: nat) returns (status: Status, chanId: nat)
      requires Wf() && isLoaded && c < numCu && CuInv(cuList[c].View()) && req.clientId != 0 && id != 0
      modifies this`currentLoad, this`loadRate, cuList[c].Footprint()
      ensures Wf() && isLoaded
      ensures status == SUCCESS <==> Feasible(old(cuList[c].View()), req)
      ensures View() == if status == SUCCESS then SetCu(old(View()), c, PutChannel(old(cuList[c].View()), req, id))
        else old(View())
      ensures status == SUCCESS ==> chanId == FirstFree(old(cuList[c].View()).channels)
    {
      hide CuInv, Feasible, PutChannel, Used, LoadRate, CusTotal, Cu.Wf, Cu.View;
      UnitViews();
      ghost var d, cu := View(), cuList[c].View();
      status, chanId := TryUnit(c, req, id);
      if status == SUCCESS { PutKeepsInv(cu, req, id); }
      if status == SUCCESS && req.poolId == 0 {
        Book(c, req.load, d.cus);
      } else {
        assert d.cus[c := cu] == d.cus;
        CusUpdate(UsedLoad, d.cus, c, Units()[c]);
      }
    }

    predicate MatchesUnit(c: nat, req: Request)
      requires c < |cuList|
      reads cuList[c]
    {
      && (req.names.kernel == "" || req.names.kernel == cuList[c].names.kernel)
      && (req.names.alias == "" || req.names.alias == cuList[c].names.alias)
      && (req.names.cu == "" || req.names.cu == cuList[c].names.cu)
    }

    /** Unit c's turn in a pass. */
    method Consider(c: nat, affinity: bool, req: Request, id: nat) returns (status: Status, chanId: nat)
      requires Wf() && isLoaded && c < numCu && CuInv(cuList[c].View()) && req.clientId != 0 && id != 0
      modifies this`currentLoad, this`loadRate, cuList[c].Footprint()
      ensures Wf() && isLoaded && |old(View()).cus| == numCu
      ensures status == SUCCESS <==> Acceptable(old(View()).cus[c], affinity, req)
      ensures View() == if status == SUCCESS then SetCu(old(View()), c, PutChannel(old(View()).cus[c], req, id))
        else old(View())
      ensures status == SUCCESS ==> chanId == FirstFree(old(View()).cus[c].channels)
    {
      hide CuInv, Feasible, PutChannel, Used, LoadRate, CusTotal;
      UnitViews();
      if (affinity && cuList[c].numClient == 0) || (!affinity && cuList[c].numClient > 0) { return NO_KERNEL, 0; }
      if !MatchesUnit(c, req) { return NO_KERNEL, 0; }
      status, chanId := AllocOnUnit(c, req, id);
    }

    /** One pass over the units: the first that the pass looks at, that matches and that can
        serve the request gives it a channel. */
    method AllocInPass(affinity: bool, req: Request, id: nat) returns (c: nat, chanId: nat)
      requires Wf() && isLoaded && DevShape(View()) && req.clientId != 0 && id != 0
      modifies this`currentLoad, this`loadRate, UnitsFootprint(cuList)
      ensures Wf() && isLoaded && numCu == old(numCu) == |old(View()).cus|
      ensures c == AcceptFrom(old(View()).cus, 0, affinity, req)
      ensures View() == if c < numCu then SetCu(old(View()), c, PutChannel(old(View()).cus[c], req, id))
        else old(View())
      ensures c < numCu ==> chanId == FirstFree(old(View()).cus[c].channels)
    {
      hide CuInv, PutChannel, LoadRate, CusTotal, Feasible, Acceptable;
      UnitViews();
      ghost var d := View();
      c, chanId := 0, 0;
      while c < numCu
        invariant Wf() && isLoaded && View() == d && c <= numCu == old(numCu) == |d.cus|
        invariant AcceptFrom(d.cus, c, affinity, req) == AcceptFrom(d.cus, 0, affinity, req)
      {
        UnitViews();
        assert CuInv(d.cus[c]);
        var status;
        status, chanId := Consider(c, affinity, req, id);
        if status == SUCCESS { return; }
        c := c + 1;
      }
    }

    /** Both passes on this device. */
    method AllocInBoth(req: Request, id: nat) returns (c: nat, chanId: nat)
      requires Wf() && isLoaded && DevShape(View()) && req.clientId != 0 && id != 0
      modifies this`currentLoad, this`loadRate, UnitsFootprint(cuList)
      ensures Wf() && isLoaded && numCu == old(numCu) == |old(View()).cus|
      ensures c == PickCu(old(View()).cus, req)
      ensures View() == if c < numCu then SetCu(old(View()), c, PutChannel(old(View()).cus[c], req, id))
        else old(View())
      ensures c < numCu ==> chanId == FirstFree(old(View()).cus[c].channels)
    {
      hide CuInv, PutChannel, DevShape, AcceptFrom;
      c, chanId := AllocInPass(true, req, id);
      if c == numCu { c, chanId := AllocInPass(false, req, id); }
    }

    /** One pass on behalf of the request: the client is counted, and uncounted again when no
        unit serves it. */
    method Visit(affinity: bool, req: Request, id: nat) returns (found: bool, c: nat, chanId: nat)
      requires Wf() && isLoaded && DevInv(View()) && req.clientId != 0 && id != 0
      modifies Footprint()
      ensures Wf() && isLoaded
      ensures var r := Register(old(View()), req);
              if r.None? then !found && View() == old(View())
              else
                && c == AcceptFrom(r.value.cus, 0, affinity, req)
                && (found <==> c < |r.value.cus|)
                && View() == (if found then SetCu(r.value, c, PutChannel(r.value.cus[c], req, id))
                              else Unregister(r.value, req.clientId))
                && (found ==> chanId == FirstFree(r.value.cus[c].channels))
    {
      hide CuInv, PutChannel, CusTotal, LoadRate, AcceptFrom, Register, Unregister, RefsMatch;
      ghost var d := View();
      found, c, chanId := false, 0, 0;
      var ok := Enter(req);
      if !ok { return; }
      RegisterKeeps(d, req);
      c, chanId := AllocInPass(affinity, req, id);
      found := c < numCu;
      if !found { Leave(req.clientId); }
    }

    /** Both passes on behalf of the request. */
    method Place(req: Request, id: nat) returns (status: Status, c: nat, chanId: nat)
      requires Wf() && isLoaded && DevInv(View()) && req.clientId != 0 && id != 0
      modifies Footprint()
      ensures Wf() && isLoaded
      ensures var r := Register(old(View()), req);
              if r.None? then status == NO_DEV && View() == old(View())
              else if !HasName(req.names) then status == INVALID && View() == Unregister(r.value, req.clientId)
              else
                && c == PickCu(r.value.cus, req)
                && status == (if c < |r.value.cus| then SUCCESS else NO_KERNEL)
                && View() == (if c < |r.value.cus| then SetCu(r.value, c, PutChannel(r.value.cus[c], req, id))
                              else Unregister(r.value, req.clientId))
                && (c < |r.value.cus| ==> chanId == FirstFree(r.value.cus[c].channels))
    {
      hide CuInv, PutChannel, CusTotal, LoadRate, PickCu, Register, Unregister, RefsMatch;
      ghost var d := View();
      c, chanId := 0, 0;
      var ok := Enter(req);
      if !ok { return NO_DEV, 0, 0; }
      RegisterKeeps(d, req);
      if !HasName(req.names) {
        Leave(req.clientId);
        return INVALID, 0, 0;
      }
      c, chanId := AllocInBoth(req, id);
      status := if c < numCu then SUCCESS else NO_KERNEL;
      if c == numCu { Leave(req.clientId); }
    }

    /** Releases the described channel of unit c, and the client's use of the device with it. */
    method ReleaseOn(c: nat, r: Res) returns (found: bool)
      requires Wf() && isLoaded && DevShape(View()) && c < numCu && r.clientId != 0
      modifies Footprint()
      ensures Wf() && isLoaded && |old(View()).cus| == numCu
      ensures found <==>
        r.chanId < MAX_CHANNELS && Described(old(View()).cus[c].channels[r.chanId], r.serviceId, r.poolId, r.clientId)
      ensures View() == if found
        then Unregister(SetCu(old(View()), c, ClearChannel(old(View()).cus[c], r.chanId)), r.clientId)
                        else old(View())
    {
      hide CuInv, ClearChannel, Used, CusTotal, LoadRate, Unregister, Cu.Wf, Cu.View;
      UnitViews();
      ghost var d, cu := View(), cuList[c].View();
      assert CuInv(d.cus[c]);
      found := ClearOn(c, r);
      if found {
        Leave(r.clientId);
      } else {
        assert d.cus[c := cu] == d.cus;
      }
    }

    /** Books the change of unit c's used load; `us` are the units as they were before. */
    method Book(c: nat, delta: int, ghost us: seq<CuState>)
      requires Shape() && UnitsWf() && isLoaded && c < numCu == |us|
      requires Units() == us[c := cuList[c].View()] && delta == Used(cuList[c].View()) - Used(us[c])
      modifies this`currentLoad, this`loadRate
      ensures Wf() && isLoaded
      ensures View() == old(Table()).(cus := old(Units()), drift := old(currentLoad) - CusTotal(UsedLoad, us))
    {
      hide Used, CusTotal, LoadRate, Cu.Wf, Cu.View;
      UpdateDeviceLoad(delta);
      CusUpdate(UsedLoad, us, c, cuList[c].View());
    }

    method ClearUnit(c: nat, r: Res) returns (found: bool, delta: int)
      requires Shape() && UnitsWf() && c < numCu && CuInv(cuList[c].View()) && r.clientId != 0
      modifies cuList[c].Footprint()
      ensures UnitsWf() && Units() == old(Units())[c := cuList[c].View()]
      ensures found <==>
        r.chanId < MAX_CHANNELS &&
        Described(old(cuList[c].View()).channels[r.chanId], r.serviceId, r.poolId, r.clientId)
      ensures cuList[c].View() == if found then ClearChannel(old(cuList[c].View()), r.chanId) else old(cuList[c].View())
      ensures delta == Used(cuList[c].View()) - Used(old(cuList[c].View()))
    {
      hide CuInv, ClearChannel, Used, Cu.Wf, Cu.View;
      UnitViews();
      ghost var us := Units();
      found, delta := cuList[c].ReleaseChannel(r.serviceId, r.poolId, r.clientId, r.chanId);
      UnitViews();
      assert Units() == us[c := cuList[c].View()];
    }

    method ClearOn(c: nat, r: Res) returns (found: bool)
      requires Wf() && isLoaded && c < numCu && CuInv(cuList[c].View()) && r.clientId != 0
      modifies this`currentLoad, this`loadRate, cuList[c].Footprint()
      ensures Wf() && isLoaded
      ensures found <==>
        r.chanId < MAX_CHANNELS &&
        Described(old(cuList[c].View()).channels[r.chanId], r.serviceId, r.poolId, r.clientId)
      ensures |old(View()).cus| == numCu
      ensures View() == SetCu(old(View()), c, if found then ClearChannel(old(cuList[c].View()), r.chanId)
        else old(cuList[c].View()))
    {
      hide CuInv, ClearChannel, Used, CusTotal, LoadRate, Cu.Wf, Cu.View;
      UnitViews();
      ghost var us := Units();
      var delta;
      found, delta := ClearUnit(c, r);
      Book(c, delta, us);
    }

    // -------------------------------------------------------------------------------
    // Reserving and relinquishing
    // -------------------------------------------------------------------------------

    method ReserveOnUnit(c: nat, p: nat, req: Request) returns (status: Status)
      requires Shape() && UnitsWf() && c < numCu && CuInv(cuList[c].View()) && p != 0
      requires Total(LoadInPool(p), cuList[c].View().channels) == 0
      modifies cuList[c].Footprint()
      ensures UnitsWf() && Units() == old(Units())[c := cuList[c].View()]
      ensures status == SUCCESS <==> Reservable(old(cuList[c].View()), p, req.load)
      ensures cuList[c].View() == if status == SUCCESS
        then ReserveSlot(old(cuList[c].View()), p, req.load, req.clientId)
                                  else old(cuList[c].View())
    {
      hide CuInv, ReserveSlot, Used, Cu.Wf, Cu.View;
      UnitViews();
      ghost var us := Units();
      status := cuList[c].ReserveLoad(p, req.load, req.clientId);
      UnitViews();
      assert Units() == us[c := cuList[c].View()];
    }

    predicate MatchesUnitReserve(c: nat, req: Request)
      requires c < |cuList|
      reads cuList[c]
    {
      && (req.names.kernel == "" || req.names.kernel == cuList[c].names.kernel)
      && (req.names.alias == "" || req.names.alias == cuList[c].names.alias)
    }

    /** Unit c's turn in a reservation pass. */
    method ConsiderReserve(c: nat, affinity: bool, p: nat, req: Request) returns (status: Status)
      requires Wf() && isLoaded && c < numCu && CuInv(cuList[c].View()) && p != 0
      requires Total(LoadInPool(p), cuList[c].View().channels) == 0
      modifies this`currentLoad, this`loadRate, cuList[c].Footprint()
      ensures Wf() && isLoaded && |old(View()).cus| == numCu
      ensures status == SUCCESS <==> Takes(old(View()).cus[c], affinity, p, req)
      ensures View() == if status == SUCCESS
        then SetCu(old(View()), c, ReserveSlot(old(View()).cus[c], p, req.load, req.clientId))
                        else old(View())
    {
      hide CuInv, Reservable, ReserveSlot, Used, CusTotal, LoadRate, Cu.Wf;
      UnitViews();
      ghost var us, cu := Units(), cuList[c].View();
      if (affinity && cuList[c].numClient == 0) || (!affinity && cuList[c].numClient > 0) {
        UnitCounters(c);
        return NO_KERNEL;
      }
      UnitCounters(c);
      if !MatchesUnitReserve(c, req) { return NO_KERNEL; }
      status := ReserveOnUnit(c, p, req);
      if status == SUCCESS {
        assert Reservable(cu, p, req.load);
        ReserveBooked(cu, p, req);
        Book(c, req.load, us);
      } else {
        assert us[c := cu] == us;
      }
    }

    /** One reservation pass over the units. */
    method ReserveInPass(affinity: bool, p: nat, req: Request) returns (c: nat)
      requires Wf() && isLoaded && DevShape(View()) && p != 0 && Unclaimed(View().cus, p)
      modifies this`currentLoad, this`loadRate, UnitsFootprint(cuList)
      ensures Wf() && isLoaded && numCu == old(numCu) == |old(View()).cus|
      ensures c == TakesFrom(old(View()).cus, 0, affinity, p, req)
      ensures View() == if c < numCu
        then SetCu(old(View()), c, ReserveSlot(old(View()).cus[c], p, req.load, req.clientId))
                        else old(View())
    {
      hide CuInv, ReserveSlot, LoadRate, CusTotal, Takes;
      UnitViews();
      ghost var d := View();
      c := 0;
      while c < numCu
        invariant Wf() && isLoaded && View() == d && c <= numCu == old(numCu) == |d.cus|
        invariant TakesFrom(d.cus, c, affinity, p, req) == TakesFrom(d.cus, 0, affinity, p, req)
      {
        UnitViews();
        assert CuInv(d.cus[c]);
        var status := ConsiderReserve(c, affinity, p, req);
        if status == SUCCESS { return; }
        c := c + 1;
      }
    }

    /** Both passes on this device. */
    method ReserveInBoth(p: nat, req: Request) returns (c: nat)
      requires Wf() && isLoaded && DevShape(View()) && p != 0 && Unclaimed(View().cus, p)
      modifies this`currentLoad, this`loadRate, UnitsFootprint(cuList)
      ensures Wf() && isLoaded && numCu == old(numCu) == |old(View()).cus|
      ensures c == PickReserve(old(View()).cus, p, req)
      ensures View() == if c < numCu
        then SetCu(old(View()), c, ReserveSlot(old(View()).cus[c], p, req.load, req.clientId))
                        else old(View())
    {
      hide CuInv, ReserveSlot, DevShape, TakesFrom, Unclaimed, Reservable;
      c := ReserveInPass(true, p, req);
      if c == numCu { c := ReserveInPass(false, p, req); }
    }

    /** Reserves on this device. */
    method ReserveHere(p: nat, req: Request) returns (status: Status)
      requires Wf() && isLoaded && DevShape(View()) && p != 0 && Unclaimed(View().cus, p)
      modifies this`currentLoad, this`loadRate, UnitsFootprint(cuList)
      ensures Wf() && isLoaded && (View(), status) == ReservedHere(old(View()), p, req)
    {
      hide CuInv, ReserveSlot, DevShape, PickReserve, Unclaimed, Reservable, HasReserveName;
      if !HasReserveName(req.names) { return INVALID; }
      var c := ReserveInBoth(p, req);
      status := if c < numCu then SUCCESS else NO_KERNEL;
    }

    method RelinquishUnit(c: nat, p: nat) returns (ok: bool, delta: int)
      requires Shape() && UnitsWf() && c < numCu && CuInv(cuList[c].View())
      modifies cuList[c].Footprint()
      ensures UnitsWf() && Units() == old(Units())[c := cuList[c].View()]
      ensures ok <==> !PoolInUse(old(cuList[c].View()), p)
      ensures cuList[c].View() == if ok then DropPool(old(cuList[c].View()), p) else old(cuList[c].View())
      ensures delta == Used(cuList[c].View()) - Used(old(cuList[c].View()))
    {
      hide CuInv, DropPool, PoolInUse, Used, Cu.Wf, Cu.View;
      UnitViews();
      ghost var us := Units();
      ok, delta := cuList[c].RelinquishSlot(p);
      UnitViews();
      assert Units() == us[c := cuList[c].View()];
    }

    method RelinquishOn(c: nat, p: nat) returns (ok: bool)
      requires Wf() && isLoaded && DevShape(View()) && c < numCu
      modifies this`currentLoad, this`loadRate, cuList[c].Footprint()
      ensures Wf() && isLoaded && |old(View()).cus| == numCu
      ensures ok <==> !PoolInUse(old(View()).cus[c], p)
      ensures View() == if ok then SetCu(old(View()), c, DropPool(old(View()).cus[c], p)) else old(View())
    {
      hide CuInv, DropPool, PoolInUse, Used, CusTotal, LoadRate, Cu.Wf, Cu.View;
      UnitViews();
      ghost var us := Units();
      assert CuInv(us[c]);
      var delta;
      ok, delta := RelinquishUnit(c, p);
      if !ok { assert us[c := us[c]] == us; }
      Book(c, delta, us);
    }

    /** Drops the pool unit by unit; stops at the first unit where it is in use. */
    method RelinquishEach(p: nat) returns (ok: bool)
      requires Wf() && isLoaded && DevShape(View())
      modifies this`currentLoad, this`loadRate, UnitsFootprint(cuList)
      ensures Wf() && isLoaded
      ensures ok == RelinquishUnits(old(View()).cus, 0, p).1
      ensures View() == old(View()).(cus := RelinquishUnits(old(View()).cus, 0, p).0)
    {
      hide CuInv, DropPool, PoolInUse, CusTotal, LoadRate, DevShape, Wf, View;
      ghost var d := View();
      var c := 0;
      Visible();
      while c < numCu
        invariant Wf() && isLoaded && c <= numCu == |View().cus| && DevShape(View())
        invariant View() == d.(cus := View().cus)
        invariant RelinquishUnits(View().cus, c, p) == RelinquishUnits(d.cus, 0, p)
      {
        Visible();
        UnitDropped(View(), c, p);
        ok := RelinquishOn(c, p);
        if !ok { return; }
        c := c + 1;
      }
      ok := true;
    }

    method RelinquishHere(p: nat) returns (ok: bool)
      requires Wf() && DevShape(View())
      modifies this`currentLoad, this`loadRate, UnitsFootprint(cuList)
      ensures Wf()
      ensures ok == RelinquishUnits(old(View()).cus, 0, p).1
      ensures View() == old(View()).(cus := RelinquishUnits(old(View()).cus, 0, p).0)
    {
      if isLoaded {
        ok := RelinquishEach(p);
      } else {
        ok := true;
      }
    }

    /** Whether some unit has load in use. */
    method IsBusy() returns (busy: bool)
      requires Wf()
      ensures busy <==> Busy(View())
    {
      hide Used, Cu.Wf, CusTotal;
      UnitViews();
      ghost var cus := View().cus;
      var c := 0;
      while c < numCu
        invariant c <= numCu == |cus|
        invariant forall j :: 0 <= j < c ==> Used(cus[j]) == 0
      {
        UnitCounters(c);
        assert cus[c] == cuList[c].View();
        if cuList[c].totalUsed != 0 { return true; }
        c := c + 1;
      }
      busy := false;
    }

    // -------------------------------------------------------------------------------
    // Whole devices
    // -------------------------------------------------------------------------------

    /** Reserves every unit of the idle device as a whole, and sets the load counter. */
    method ReserveAllUnits(p: nat, client: nat)
      requires Wf() && isLoaded && DevInv(View()) && !Busy(View()) && p != 0
      modifies this`currentLoad, this`loadRate, UnitsFootprint(cuList)
      ensures Wf() && isLoaded && View() == WholeDev(old(View()), p, client)
    {
      hide CuInv, ReserveWhole, CusTotal, LoadRate, Used, Cu.Wf, Cu.View, Mixed;
      ghost var d := View();
      AllIdle(d);
      UnitViews();
      ghost var done := WholeUnits(d.cus, p, client);
      MixedEnds(done, d.cus);
      var c := 0;
      while c < numCu
        invariant UnitsWf() && c <= numCu == |d.cus|
        invariant Units() == Mixed(done, d.cus, c)
      {
        UnitViews();
        MixedStep(done, d.cus, c);
        WholeOn(c, p, client);
        c := c + 1;
      }
      FinishLoad(numCu * MAX_LOAD);
    }

    /** Sets the load counter, whatever it was. */
    method FinishLoad(load: int)
      requires Shape() && UnitsWf() && isLoaded && numCu > 0
      modifies this`currentLoad, this`loadRate
      ensures Wf() && isLoaded
      ensures View() == old(Table()).(cus := old(Units()), drift := load - CusTotal(UsedLoad, old(Units())))
    {
      hide CusTotal, LoadRate, Cu.Wf, Cu.View;
      SetDeviceLoad(load);
    }

    method Activate(id: nat)
      requires Shape() && UnitsWf() && numCu > 0
      modifies this`currentLoad, this`loadRate, this`isLoaded, this`uuid
      ensures Wf()
      ensures View() == old(Table()).(isLoaded := true, uuid := id, cus := old(Units()),
        drift := 0 - CusTotal(UsedLoad, old(Units())))
    {
      hide CusTotal, LoadRate, Cu.Wf, Cu.View;
      SetDeviceLoad(0);
      isLoaded, uuid := true, id;
    }

    method WholeOn(c: nat, p: nat, client: nat)
      requires Shape() && UnitsWf() && c < numCu && p != 0
      requires CuInv(cuList[c].View()) && IdleCu(cuList[c].View())
      modifies cuList[c].Footprint()
      ensures UnitsWf() && Units() == old(Units())[c := ReserveWhole(old(cuList[c].View()), p, client)]
    {
      hide CuInv, ReserveWhole, Used, Cu.Wf, Cu.View;
      UnitViews();
      ghost var us := Units();
      cuList[c].ReserveWholeUnit(p, client);
      UnitViews();
      assert Units() == us[c := cuList[c].View()];
    }

    /** The units of an xclbin appear, one after another, with nothing in use. */
    method Install(id: nat, units: seq<Names>)
      requires Wf() && !isLoaded && 1 <= |units| <= MAX_KERNELS
      modifies this, UnitsFootprint(cuList)
      ensures Wf() && View() == Installed(old(View()), id, units)
    {
      hide Cu.Wf, Cu.View, CusTotal, LoadRate, FreshCu, FreshUnits;
      ghost var t := Table();
      numCu := 0;
      NoFreshUnits(units);
      while numCu < |units|
        invariant Shape() && UnitsWf() && numCu <= |units|
        invariant Units() == FreshUnits(units[..numCu])
        invariant Table() == t
      {
        FreshNext(units, numCu);
        InstallNext(units[numCu]);
      }
      assert units[..numCu] == units;
      FreshUnused(units);
      Activate(id);
    }

    method InstallNext(names: Names)
      requires Shape() && UnitsWf() && numCu < MAX_KERNELS
      modifies this`numCu, UnitsFootprint(cuList)
      ensures UnitsWf() && numCu == old(numCu) + 1 && Units() == old(Units()) + [FreshCu(names)]
    {
      hide Cu.Wf, Cu.View, FreshCu;
      UnitViews();
      ghost var us := Units();
      cuList[numCu].Init(names);
      numCu := numCu + 1;
      UnitViews();
      assert Units() == us + [FreshCu(names)];
    }

    /** Clears everything but the load counter. */
    method Flush()
      requires Wf()
      modifies this, clientProcs, UnitsFootprint(cuList)
      ensures Wf() && View() == Flushed(old(View())) && currentLoad == old(currentLoad)
    {
      hide Cu.Wf, Cu.View, FreshCu;
      ghost var d, load := View(), currentLoad;
      assert load == d.drift + CusTotal(UsedLoad, d.cus);
      isLoaded, isExcl, uuid, numCu := false, false, 0, 0;
      ClearTable();
      ghost var t := Table();
      assert t == Flushed(d).(drift := 0);
      var i := 0;
      while i < MAX_KERNELS
        invariant Shape() && i <= MAX_KERNELS
        invariant Table() == t && numCu == 0 && currentLoad == load
      {
        cuList[i].Init(Names("", "", ""));
        i := i + 1;
      }
      assert CusTotal(UsedLoad, Units()) == 0;
    }

    /** What is left of an attempt to load that failed. */
    method FailLoad(counterReset: bool)
      requires Wf() && !isLoaded
      modifies this, clientProcs, UnitsFootprint(cuList)
      ensures Wf() && View() == if counterReset then Flushed(old(View()).(drift := 0, cus := []))
        else Flushed(old(View()))
    {
      hide Cu.Wf, Cu.View, LoadRate;
      UnitViews();
      if counterReset { currentLoad := 0; }
      Flush();
    }

    /** Loads an xclbin, as far as the hardware goes along. */
    method LoadHere(id: nat, h: Attempt) returns (status: Status)
      requires Wf() && DevInv(View()) && PossibleAttempt(h)
      modifies this, clientProcs, UnitsFootprint(cuList)
      ensures Wf() && (View(), status) == LoadDev(old(View()), id, h)
    {
      hide Cu.Wf, Cu.View, CusTotal, LoadRate, RefsMatch, CuInv, Flushed, Installed, UnitsWf, Units;
      if h.Disabled? { return ERROR; }
      if isLoaded { return if id == uuid then SUCCESS else ERROR; }
      if h.Loads? {
        Install(h.uuid, h.units);
        status := SUCCESS;
      } else {
        FailLoad(h.counterReset);
        status := ERROR;
      }
    }

    method UnloadHere(unlocks: bool) returns (status: Status)
      requires Wf() && DevInv(View())
      modifies this, clientProcs, UnitsFootprint(cuList)
      ensures Wf() && (View(), status) == UnloadDev(old(View()), unlocks)
    {
      hide Cu.Wf, Cu.View, CusTotal, LoadRate, RefsMatch, CuInv, Busy;
      if isLoaded {
        var busy := IsBusy();
        if busy { return BUSY; }
        if !unlocks { return LOCKED; }
      }
      Flush();
      status := SUCCESS;
    }

    // -------------------------------------------------------------------------------
    // Recycling
    // -------------------------------------------------------------------------------

    method DropSlotsOn(c: nat, client: nat)
      requires Shape() && UnitsWf() && c < numCu && CuInv(cuList[c].View())
      modifies cuList[c].Footprint()
      ensures UnitsWf() && Units() == old(Units())[c := DropSlotsFrom(old(cuList[c].View()), 0, client)]
    {
      hide CuInv, DropSlotsFrom, Used, Cu.Wf, Cu.View;
      UnitViews();
      ghost var us := Units();
      var _ := cuList[c].RecycleSlots(client);
      UnitViews();
      assert Units() == us[c := cuList[c].View()];
    }

    /** Gives up the dead client's slots on every unit, and sets the load counter to 0. */
    method DropAllSlots(client: nat)
      requires Wf() && isLoaded && DevShape(View())
      modifies this`currentLoad, this`loadRate, UnitsFootprint(cuList)
      ensures Wf() && isLoaded
      ensures View() == (var cus := DropSlots(old(View()).cus, client);
                         old(View()).(cus := cus, drift := -CusTotal(UsedLoad, cus)))
    {
      hide CuInv, DropSlots, CusTotal, LoadRate, Used, Cu.Wf, Cu.View;
      DropUnitSlots(client);
      FinishLoad(0);
    }

    method DropUnitSlots(client: nat)
      requires Shape() && UnitsWf() && forall c :: 0 <= c < numCu ==> CuInv(Units()[c])
      modifies UnitsFootprint(cuList)
      ensures UnitsWf() && Units() == DropSlots(old(Units()), client)
    {
      hide CuInv, DropSlotsFrom, Used, Cu.Wf, Cu.View, Mixed;
      ghost var us := Units();
      UnitViews();
      ghost var done := DropSlots(us, client);
      MixedEnds(done, us);
      var c := 0;
      while c < numCu
        invariant UnitsWf() && c <= numCu == |us|
        invariant Units() == Mixed(done, us, c)
      {
        UnitViews();
        MixedStep(done, us, c);
        DropSlotsOn(c, client);
        c := c + 1;
      }
    }

    method ClearClientOn(c: nat, client: nat)
      requires Wf() && isLoaded && c < numCu == |View().cus| && CuInv(View().cus[c]) && client != 0
      modifies this`currentLoad, this`loadRate, cuList[c].Footprint()
      ensures Wf() && isLoaded && |old(View()).cus| == numCu
      ensures View() == SetCu(old(View()), c, ClearClient(old(View()).cus[c], client))
    {
      hide CuInv, ClearClient, Used, CusTotal, LoadRate, Cu.Wf, Cu.View;
      UnitViews();
      ghost var us := Units();
      var delta := ClearClientUnit(c, client);
      Book(c, delta, us);
    }

    method ClearClientUnit(c: nat, client: nat) returns (delta: int)
      requires Shape() && UnitsWf() && c < numCu && CuInv(cuList[c].View()) && client != 0
      modifies cuList[c].Footprint()
      ensures UnitsWf() && Units() == old(Units())[c := cuList[c].View()]
      ensures cuList[c].View() == ClearClient(old(cuList[c].View()), client)
      ensures delta == Used(cuList[c].View()) - Used(old(cuList[c].View()))
    {
      hide CuInv, ClearClient, Used, Cu.Wf, Cu.View;
      UnitViews();
      ghost var us := Units();
      delta := cuList[c].ReleaseAllOfClient(client);
      UnitViews();
      assert Units() == us[c := cuList[c].View()];
    }

    /** Frees every channel of the client on this device. */
    method ReleaseAllChannels(client: nat)
      requires Wf() && isLoaded && DevShape(View()) && client != 0
      modifies this`currentLoad, this`loadRate, UnitsFootprint(cuList)
      ensures Wf() && isLoaded && View() == old(View()).(cus := ClearClients(old(View()).cus, client))
    {
      hide CuInv, ClearClient, CusTotal, LoadRate, Used, Cu.Wf, Cu.View, Mixed, Wf, View, UnitsFootprint;
      ghost var d := View();
      Visible();
      ghost var done := ClearClients(d.cus, client);
      MixedEnds(done, d.cus);
      var c := 0;
      while c < numCu
        invariant Wf() && isLoaded && c <= numCu == |d.cus|
        invariant View() == d.(cus := Mixed(done, d.cus, c))
      {
        Visible();
        UnitInside(c);
        MixedStep(done, d.cus, c);
        assert CuInv(d.cus[c]);
        ClearClientOn(c, client);
        c := c + 1;
      }
    }

    /** Frees channels and entry i, if the entry is the client's and counts. */
    method RecycleEntry(i: nat, client: nat)
      requires Wf() && isLoaded && DevShape(View()) && client != 0 && i < MAX_DEV_CLIENTS
      requires clientProcs[i].ref != 0 && clientProcs[i].clientId == client
      modifies this`currentLoad, this`loadRate, clientProcs, UnitsFootprint(cuList)
      ensures Wf() && isLoaded
      ensures View() == old(View()).(cus := ClearClients(old(View()).cus, client),
        procs := old(View()).procs[i := Proc(0, 0)])
    {
      hide CuInv, CusTotal, LoadRate, Units, ClearClient, Cu.Wf;
      ReleaseAllChannels(client);
      clientProcs[i] := Proc(0, 0);
    }

    /** Frees the client's channels; the device is shared again, with an empty table. */
    method RecycleExclusive(client: nat)
      requires Wf() && isLoaded && DevShape(View()) && client != 0
      modifies this`currentLoad, this`loadRate, this`isExcl, clientProcs, UnitsFootprint(cuList)
      ensures Wf() && isLoaded
      ensures View() == old(View()).(cus := ClearClients(old(View()).cus, client), isExcl := false,
        procs := EmptyTable())
    {
      hide CuInv, CusTotal, LoadRate, Units, ClearClient, Cu.Wf;
      ReleaseAllChannels(client);
      ResetTable();
    }

    method ResetTable()
      requires Wf() && isLoaded
      modifies this`isExcl, clientProcs
      ensures Wf() && isLoaded && View() == old(View()).(isExcl := false, procs := EmptyTable())
    {
      hide LoadRate, CusTotal, Cu.Wf, Cu.View;
      MakeShared();
    }

    method MakeShared()
      requires Shape()
      modifies this`isExcl, clientProcs
      ensures Table() == old(Table()).(isExcl := false, procs := EmptyTable())
    {
      isExcl := false;
      ClearTable();
    }

    /** Goes through all entries; the client has at most one. */
    method RecycleEntries(client: nat)
      requires Wf() && isLoaded && DevShape(View()) && client != 0 && DistinctProcs(clientProcs[..])
      modifies this`currentLoad, this`loadRate, clientProcs, UnitsFootprint(cuList)
      ensures Wf() && isLoaded
      ensures View() == EntryRecycled(old(View()), client)
    {
      hide CuInv, CusTotal, LoadRate, Units, ClearClient, Cu.Wf, DevShape;
      ghost var d := View();
      ghost var k := FindProc(d.procs, client);
      var i := 0;
      while i < MAX_DEV_CLIENTS
        invariant 0 <= i <= MAX_DEV_CLIENTS && Wf() && isLoaded
        invariant View() == if k < i then EntryRecycled(d, client) else d
      {
        assert clientProcs[i] == View().procs[i];
        assert View().procs[i].clientId == client ==> d.procs[i].clientId == client;
        if clientProcs[i].ref != 0 && clientProcs[i].clientId == client {
          Found(d.procs, i);
          RecycleEntry(i, client);
        }
        i := i + 1;
      }
    }

    /** Recycles the dead client on this device. `stop` tells the caller's loop to give up. */
    method RecycleHere(client: nat) returns (stop: bool)
      requires Wf() && DevInv(View()) && client != 0
      modifies Footprint()
      ensures Wf() && View() == RecycleDev(old(View()), client)
      ensures stop <==> GivesUp(old(View()))
    {
      hide CuInv, CusTotal, LoadRate, Units, RefsMatch, DropSlotsFrom, ClearClient, Cu.Wf;
      ghost var d := View();
      stop := false;
      if !isLoaded { return; }
      DropKeepsShape(d, client);
      NoDuplicates(d);
      DropAllSlots(client);
      if isExcl {
        if clientProcs[0].ref == 0 { return true; }
        if clientProcs[0].clientId == client { RecycleExclusive(client); }
      } else {
        RecycleEntries(client);
      }
    }

    // -------------------------------------------------------------------------------
    // Choosing a unit by load
    // -------------------------------------------------------------------------------

    /** Looks at unit c on behalf of a search by load, whose candidate so far is `best`: whether
        to try for a channel at once, and the candidate from here on. */
    method WeighUnit(c: nat, affinity: bool, pol: Policy, req: Request, best: Option<nat>)
        returns (tryNow: bool, best': Option<nat>)
      requires Wf() && c < numCu && (best.Some? ==> best.value < numCu) && req.poolId == 0
      ensures |View().cus| == numCu
      ensures var cu := View().cus[c];
              tryNow <==> InPass(cu, affinity) && LoadFits(cu, req) && Unbeatable(pol, cu, req)
      ensures best'.Some? ==> best'.value < numCu
      ensures !tryNow ==> Search(best', None) == Turn(View().cus, c, affinity, pol, req, best)
      ensures tryNow ==> best' == best
    {
      hide CuInv, Used, Cu.Wf;
      UnitViews();
      UnitCounters(c);
      tryNow, best' := false, best;
      if (affinity && cuList[c].numClient == 0) || (!affinity && cuList[c].numClient > 0) { return; }
      if !MatchesUnit(c, req) || req.load <= 0 { return; }
      if cuList[c].totalUsed + req.load > MAX_LOAD { return; }
      if best.Some? { UnitCounters(best.value); }
      if pol == MostUsed && cuList[c].totalUsed + req.load != MAX_LOAD {
        if best.None? || cuList[c].totalUsed > cuList[best.value].totalUsed { best' := Some(c); }
        return;
      }
      if pol == LeastUsed && cuList[c].totalUsed != 0 {
        if best.None? || cuList[c].totalUsed < cuList[best.value].totalUsed { best' := Some(c); }
        return;
      }
      tryNow := true;
    }

    /** Unit c's turn in a search by load. */
    method ConsiderByLoad(c: nat, affinity: bool, pol: Policy, req: Request, id: nat, best: Option<nat>)
        returns (taken: bool, best': Option<nat>, chanId: nat)
      requires Wf() && isLoaded && DevShape(View()) && c < numCu && (best.Some? ==> best.value < numCu)
      requires req.clientId != 0 && req.poolId == 0 && id != 0
      modifies this`currentLoad, this`loadRate, cuList[c].Footprint()
      ensures Wf() && isLoaded && |old(View()).cus| == numCu && (best'.Some? ==> best'.value < numCu)
      ensures Turn(old(View()).cus, c, affinity, pol, req, best) == if taken then Search(None, Some(c))
        else Search(best', None)
      ensures taken ==> Feasible(old(View()).cus[c], req) && chanId == FirstFree(old(View()).cus[c].channels)
      ensures View() == if taken then SetCu(old(View()), c, PutChannel(old(View()).cus[c], req, id)) else old(View())
    {
      hide CuInv, PutChannel, Used, LoadRate, CusTotal, Cu.Wf, FirstFree;
      UnitViews();
      ghost var cu := View().cus[c];
      assert CuInv(cu);
      chanId := 0;
      taken, best' := WeighUnit(c, affinity, pol, req, best);
      if taken {
        var status;
        status, chanId := AllocOnUnit(c, req, id);
        taken := status == SUCCESS;
      }
    }

    /** One pass of a search by load. */
    method SearchInPass(affinity: bool, pol: Policy, req: Request, id: nat, best: Option<nat>)
        returns (c: nat, best': Option<nat>, chanId: nat)
      requires Wf() && isLoaded && DevShape(View()) && (best.Some? ==> best.value < numCu)
      requires req.clientId != 0 && req.poolId == 0 && id != 0
      modifies this`currentLoad, this`loadRate, UnitsFootprint(cuList)
      ensures Wf() && isLoaded && numCu == old(numCu) == |old(View()).cus|
      ensures Searched(old(View()), affinity, pol, req, id, best, c, best', chanId, View())
    {
      hide CuInv, PutChannel, LoadRate, CusTotal, Feasible, DevShape, Turn, SearchFrom, HasFree, Searched, Wf, View,
        UnitsFootprint;
      Visible();
      ghost var d := View();
      c, best', chanId := 0, best, 0;
      var taken := false;
      while !taken && c < numCu
        invariant Wf() && isLoaded && c <= numCu == old(numCu) == |d.cus|
        invariant taken ==> Searched(d, affinity, pol, req, id, best, c, best', chanId, View())
        invariant !taken ==> View() == d && (best'.Some? ==> best'.value < numCu)
        invariant !taken ==>
          SearchFrom(d.cus, c, affinity, pol, req, Search(best', None)) ==
            SearchFrom(d.cus, 0, affinity, pol, req, Search(best, None))
        decreases !taken, numCu - c
      {
        Visible();
        UnitInside(c);
        SearchStep(d.cus, c, affinity, pol, req, best');
        taken, best', chanId := ConsiderByLoad(c, affinity, pol, req, id, best');
        Visible();
        if taken { SearchTakes(d, affinity, pol, req, id, best, c, best', chanId); } else { c := c + 1; }
      }
      if !taken { SearchEnds(d, affinity, pol, req, id, best, best', chanId); }
    }

    /** Both passes, and then the candidate, whose allocation is taken for granted. */
    method PickByLoad(pol: Policy, req: Request, id: nat) returns (c: nat, chanId: Option<nat>)
      requires Wf() && isLoaded && DevShape(View()) && req.clientId != 0 && req.poolId == 0 && id != 0
      modifies this`currentLoad, this`loadRate, UnitsFootprint(cuList)
      ensures Wf() && isLoaded && numCu == old(numCu) == |old(View()).cus|
      ensures c <= numCu && PolicyPick(old(View()).cus, pol, req) == if c < numCu then Some(c) else None
      ensures c < numCu ==> GrantIfFeasible(old(View()), c, req, id, chanId, View())
      ensures c == numCu ==> View() == old(View())
    {
      hide CuInv, PutChannel, LoadRate, CusTotal, Feasible, SearchFrom, HasFree, DevShape, PolicyPick, Units;
      ghost var d := View();
      PickFrom(d.cus, pol, req, SearchFrom(d.cus, 0, true, pol, req, Search(None, None)));
      var best, chan;
      c, best, chan := SearchInPass(true, pol, req, id, None);
      if c == numCu { c, best, chan := SearchInPass(false, pol, req, id, best); }
      chanId := Some(chan);
      if c == numCu && best.Some? { c, chanId := TakeCandidate(best.value, req, id); }
    }

    method TakeCandidate(best: nat, req: Request, id: nat) returns (c: nat, chanId: Option<nat>)
      requires Wf() && isLoaded && DevShape(View()) && best < numCu && req.clientId != 0 && id != 0
      modifies this`currentLoad, this`loadRate, cuList[best].Footprint()
      ensures Wf() && isLoaded && c == best && |old(View()).cus| == numCu
      ensures GrantIfFeasible(old(View()), c, req, id, chanId, View())
    {
      hide CuInv, PutChannel, LoadRate, CusTotal, Feasible, Cu.Wf;
      UnitViews();
      assert CuInv(View().cus[best]);
      var status, chan := AllocOnUnit(best, req, id);
      c, chanId := best, if status == SUCCESS then Some(chan) else None;
    }

    /** Allocates by policy on behalf of the request. */
    method PlaceByLoad(pol: Policy, req: Request, id: nat) returns (status: Status, c: nat, chanId: Option<nat>)
      requires Wf() && isLoaded && DevInv(View()) && req.clientId != 0 && req.poolId == 0 && id != 0
      modifies Footprint()
      ensures Wf() && isLoaded
      ensures var r := Register(old(View()), req);
              if r.None? then status == NO_DEV && View() == old(View())
              else
                && status == (if PolicyPick(r.value.cus, pol, req).Some? then SUCCESS else NO_KERNEL)
                && (status == NO_KERNEL ==> View() == Unregister(r.value, req.clientId))
                && (status == SUCCESS ==>
                      PolicyPick(r.value.cus, pol, req) == Some(c) &&
                        GrantIfFeasible(r.value, c, req, id, chanId, View()))
    {
      hide CuInv, PutChannel, CusTotal, LoadRate, PolicyPick, Register, Unregister, RefsMatch, Feasible,
        GrantIfFeasible;
      ghost var d := View();
      c, chanId := 0, None;
      var ok := Enter(req);
      if !ok { return NO_DEV, 0, None; }
      RegisterKeeps(d, req);
      c, chanId := PickByLoad(pol, req, id);
      status := if c < numCu then SUCCESS else NO_KERNEL;
      if c == numCu { Leave(req.clientId); }
    }

    // -------------------------------------------------------------------------------
    // Queries
    // -------------------------------------------------------------------------------

    predicate UnitFits(c: nat, kernel: string, alias: string)
      requires c < |cuList|
      reads cuList[c]
    {
      (kernel == "" || cuList[c].names.kernel == kernel) && (alias == "" || cuList[c].names.alias == alias)
    }

    /** Adds to acc what carries the id on unit c, or finds that it is more than the limit. */
    method QueryUnit(d: nat, c: nat, id: nat, kernel: string, alias: string, limit: nat, acc: seq<Res>)
        returns (over: bool, rs: seq<Res>)
      requires Wf() && c < numCu && |acc| <= limit
      ensures Wf() && View() == old(View()) && |View().cus| == numCu
      ensures var found := InUnit(d, c, View().cus[c], id, kernel, alias);
              && (over <==> |acc| + |found| > limit)
              && (!over ==> rs == acc + found)
    {
      hide Cu.Wf, InChannels, CusTotal, LoadRate, Used;
      ghost var us := Units();
      UnitViews();
      UnitCounters(c);
      over, rs := false, acc;
      if UnitFits(c, kernel, alias) {
        over, rs := cuList[c].QueryChannels(d, c, id, limit, acc);
        UnitViews();
        assert Units() == us;
      }
    }

    method QueryUnits(d: nat, id: nat, kernel: string, alias: string, limit: nat, acc: seq<Res>)
        returns (over: bool, rs: seq<Res>)
      requires Wf() && |acc| <= limit
      ensures Wf() && View() == old(View())
      ensures var found := InUnits(d, View().cus, |View().cus|, id, kernel, alias);
              && (over <==> |acc| + |found| > limit)
              && (!over ==> rs == acc + found)
    {
      hide Cu.Wf, InUnit, InUnits, Wf, View;
      ghost var cus := View().cus;
      Visible();
      NoUnits(d, cus, id, kernel, alias);
      over, rs := false, acc;
      var c := 0;
      while !over && c < numCu
        invariant Wf() && c <= numCu == |cus| && View() == old(View()) && cus == View().cus
        invariant if over then |acc| + |InUnits(d, cus, |cus|, id, kernel, alias)| > limit
                  else rs == acc + InUnits(d, cus, c, id, kernel, alias) && |rs| <= limit
      {
        OneMoreUnit(d, cus, c, id, kernel, alias);
        over, rs := QueryUnit(d, c, id, kernel, alias, limit, rs);
        c := c + 1;
      }
    }

    /** On a loaded device whose counter is exact, the counter is the sum of the used loads and
        the rate is within 0..1000. */
    lemma LoadMirrorsUnits()
      requires Wf() && isLoaded && DevInv(View()) && View().drift == 0
      ensures currentLoad == CusTotal(UsedLoad, View().cus)
      ensures loadRate == LoadRate(currentLoad, numCu) && 0 <= loadRate <= 1000
    {
      Visible();
      ExactLoadInRange(View());
      RateInRange(currentLoad, numCu);
    }

    lemma UnitCounters(c: nat)
      requires Wf() && c < numCu
      ensures |cuList[c].View().clients| == cuList[c].numClient
      ensures Used(cuList[c].View()) == cuList[c].totalUsed
      ensures cuList[c].View().names == cuList[c].names
    {
    }
  }

  lemma DividesIntoRange(x: int, y: int, k: int)
    requires y > 0 && 0 <= x <= k * y
    ensures 0 <= x / y <= k
  {
  }

  /** With an exact load counter the rate is within 0..1000. */
  lemma RateInRange(load: int, numCu: nat)
    requires numCu > 0 && 0 <= load <= MAX_LOAD * numCu
    ensures 0 <= LoadRate(load, numCu) <= 1000
  {
    DividesIntoRange(load * 1000, numCu * MAX_LOAD, 1000);
  }

  /** The device after a reservation on it, and how that went. */
  function ReservedHere(d: DevState, p: nat, req: Request): (DevState, Status) {
    if !HasReserveName(req.names) then (d, INVALID)
    else
      var c := PickReserve(d.cus, p, req);
      if c < |d.cus| then (SetCu(d, c, ReserveSlot(d.cus[c], p, req.load, req.clientId)), SUCCESS) else (d, NO_KERNEL)
  }

  /** What unit c's turn makes of a search that has found nothing to take yet. */
  function Turn(cus: seq<CuState>, c: nat, affinity: bool, pol: Policy, req: Request, best: Option<nat>): Search
    requires c < |cus| && (best.Some? ==> best.value < |cus|)
  {
    if InPass(cus[c], affinity) then Weighed(cus, c, pol, req, Search(best, None)) else Search(best, None)
  }

  lemma SearchStep(cus: seq<CuState>, c: nat, affinity: bool, pol: Policy, req: Request, best: Option<nat>)
    requires c < |cus| && (best.Some? ==> best.value < |cus|)
    ensures SearchOk(cus, Turn(cus, c, affinity, pol, req, best))
    ensures SearchFrom(cus, c, affinity, pol, req, Search(best, None))
              == SearchFrom(cus, c + 1, affinity, pol, req, Turn(cus, c, affinity, pol, req, best))
    ensures var st := Turn(cus, c, affinity, pol, req, best);
      st.taken.Some? ==> SearchFrom(cus, c + 1, affinity, pol, req, st) == st
  {
  }

  /** What one pass comes to: unit c is taken, or c is the number of units and best' the
      candidate. */
  ghost predicate Searched(d: DevState, affinity: bool, pol: Policy, req: Request, id: nat, best: Option<nat>,
                           c: nat, best': Option<nat>, chanId: nat, d': DevState) {
    && c <= |d.cus| && (best.Some? ==> best.value < |d.cus|) && (best'.Some? ==> best'.value < |d.cus|)
    && SearchFrom(d.cus, 0, affinity, pol, req, Search(best, None))
         == (if c < |d.cus| then Search(None, Some(c)) else Search(best', None))
    && (c < |d.cus| ==> Feasible(d.cus[c], req) && chanId == FirstFree(d.cus[c].channels))
    && d' == if c < |d.cus| then SetCu(d, c, PutChannel(d.cus[c], req, id)) else d
  }

  /** Unit c gave the request a channel, if it could. */
  ghost predicate GrantIfFeasible(d: DevState, c: nat, req: Request, id: nat, chanId: Option<nat>, d': DevState) {
    && c < |d.cus|
    && if Feasible(d.cus[c], req) then
         chanId == Some(FirstFree(d.cus[c].channels)) && d' == SetCu(d, c, PutChannel(d.cus[c], req, id))
       else chanId == None && d' == d
  }

  lemma SearchTakes(d: DevState, affinity: bool, pol: Policy, req: Request, id: nat, best: Option<nat>,
                    c: nat, best': Option<nat>, chanId: nat)
    requires c < |d.cus| && (best.Some? ==> best.value < |d.cus|) && (best'.Some? ==> best'.value < |d.cus|)
    requires SearchFrom(d.cus, 0, affinity, pol, req, Search(best, None)) == Search(None, Some(c))
    requires Feasible(d.cus[c], req) && chanId == FirstFree(d.cus[c].channels)
    ensures Searched(d, affinity, pol, req, id, best, c, best', chanId, SetCu(d, c, PutChannel(d.cus[c], req, id)))
  {
  }

  lemma SearchEnds(d: DevState, affinity: bool, pol: Policy, req: Request, id: nat, best: Option<nat>,
                   best': Option<nat>, chanId: nat)
    requires (best.Some? ==> best.value < |d.cus|) && (best'.Some? ==> best'.value < |d.cus|)
    requires SearchFrom(d.cus, |d.cus|, affinity, pol, req, Search(best', None))
               == SearchFrom(d.cus, 0, affinity, pol, req, Search(best, None))
    ensures Searched(d, affinity, pol, req, id, best, |d.cus|, best', chanId, d)
  {
  }

  /** The pick, from what the two passes come to. */
  lemma PickFrom(cus: seq<CuState>, pol: Policy, req: Request, st: Search)
    requires st == SearchFrom(cus, 0, true, pol, req, Search(None, None))
    ensures st.taken.Some? ==> PolicyPick(cus, pol, req) == st.taken
    ensures st.taken.None? ==>
              var st' := SearchFrom(cus, 0, false, pol, req, st);
              PolicyPick(cus, pol, req) == if st'.taken.Some? then st'.taken else st'.best
  {
  }

  /** Units before c done, the others not yet. */
  function Mixed(done: seq<CuState>, todo: seq<CuState>, c: nat): (cus: seq<CuState>)
    requires c <= |done| == |todo|
    ensures |cus| == |done|
  {
    done[..c] + todo[c..]
  }

  lemma MixedStep(done: seq<CuState>, todo: seq<CuState>, c: nat)
    requires c < |done| == |todo|
    ensures Mixed(done, todo, c)[c] == todo[c]
    ensures Mixed(done, todo, c)[c := done[c]] == Mixed(done, todo, c + 1)
  {
  }

  lemma MixedEnds(done: seq<CuState>, todo: seq<CuState>)
    requires |done| == |todo|
    ensures Mixed(done, todo, 0) == todo && Mixed(done, todo, |done|) == done
  {
  }

  /** The device after its loop over the entries of its client table. */
  function EntryRecycled(d: DevState, client: nat): DevState {
    var k := FindProc(d.procs, client);
    if k < |d.procs| && d.procs[k].ref != 0 then
      d.(cus := ClearClients(d.cus, client), procs := d.procs[k := Proc(0, 0)])
    else d
  }

  lemma AllIdle(d: DevState)
    requires DevInv(d) && !Busy(d)
    ensures forall c :: 0 <= c < |d.cus| ==> CuInv(d.cus[c]) && IdleCu(d.cus[c])
  {
    IdleDevice(d);
  }

  lemma NoFreshUnits(units: seq<Names>)
    ensures FreshUnits(units[..0]) == []
  {
  }

  lemma FreshNext(units: seq<Names>, c: nat)
    requires c < |units|
    ensures FreshUnits(units[..c + 1]) == FreshUnits(units[..c]) + [FreshCu(units[c])]
  {
  }

  lemma FreshUnused(units: seq<Names>)
    ensures CusTotal(UsedLoad, FreshUnits(units)) == 0
  {
    forall c | 0 <= c < |units| ensures Used(FreshCu(units[c])) == 0 {
      FreshCuInv(units[c]);
      IdleIffUnused(FreshCu(units[c]));
    }
    SumZeros(CuWeights(UsedLoad, FreshUnits(units)));
  }

  lemma DropKeepsShape(d: DevState, client: nat)
    requires DevShape(d)
    ensures DevShape(d.(cus := DropSlots(d.cus, client)))
  {
    forall c | 0 <= c < |d.cus| ensures CuInv(DropSlotsFrom(d.cus[c], 0, client)) {
      assert CuInv(d.cus[c]);
      DropSlotsKeepInv(d.cus[c], 0, client);
    }
  }

  lemma ReserveBooked(cu: CuState, p: nat, req: Request)
    requires CuInv(cu) && Reservable(cu, p, req.load) && p != 0 && Total(LoadInPool(p), cu.channels) == 0
    ensures Used(ReserveSlot(cu, p, req.load, req.clientId)) == Used(cu) + req.load
  {
    ReserveKeepsInv(cu, p, req.load, req.clientId);
  }

  lemma UnitDropped(d: DevState, c: nat, p: nat)
    requires DevShape(d) && c < |d.cus|
    ensures CuInv(d.cus[c]) && DevShape(SetCu(d, c, DropPool(d.cus[c], p)))
  {
    assert CuInv(d.cus[c]);
    DropPoolKeepsInv(d.cus[c], p);
  }

  lemma RegisterKeeps(d: DevState, req: Request)
    requires DevInv(d) && d.isLoaded && Register(d, req).Some?
    ensures var d' := Register(d, req).value; DevShape(d') && d'.isLoaded && d'.cus == d.cus
  {
  }

  lemma NoDuplicates(d: DevState)
    requires DevInv(d)
    ensures DistinctProcs(d.procs)
  {
  }

  /** Registering and unregistering look at the client table only. */
  lemma TableSteps(d: DevState, req: Request, c: nat)
    ensures var t := d.(cus := [], drift := 0);
            && (Register(d, req).Some? <==> Register(t, req).Some?)
            && (Register(d, req).Some? ==>
               Register(d, req).value == Register(t, req).value.(cus := d.cus, drift := d.drift))
            && Unregister(d, c) == Unregister(t, c).(cus := d.cus, drift := d.drift)
  {
  }
}
