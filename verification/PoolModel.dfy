/** Reserving and relinquishing pools: load set aside on single units, on lists of units, and
    on whole devices, all under one pool id, as one transaction. */
module PoolModel {
  import opened Tables
  import opened Sums
  import opened CuModel
  import opened DeviceModel
  import opened SystemModel

  // ---------------------------------------------------------------------------------
  // Reserving on one unit
  // ---------------------------------------------------------------------------------

  /** A reservation compares kernel name and alias only. */
  predicate HasReserveName(names: Names) {
    names.kernel != "" || names.alias != ""
  }

  predicate MatchesReserve(cu: CuState, req: Request) {
    && (req.names.kernel == "" || req.names.kernel == cu.names.kernel)
    && (req.names.alias == "" || req.names.alias == cu.names.alias)
  }

  predicate Takes(cu: CuState, affinity: bool, p: nat, req: Request) {
    (affinity <==> |cu.clients| > 0) && MatchesReserve(cu, req) && Reservable(cu, p, req.load)
  }

  function TakesFrom(cus: seq<CuState>, i: nat, affinity: bool, p: nat, req: Request): (k: nat)
    requires i <= |cus|
    ensures i <= k <= |cus|
    ensures k < |cus| ==> Takes(cus[k], affinity, p, req)
    ensures forall j :: i <= j < k ==> !Takes(cus[j], affinity, p, req)
    decreases |cus| - i
  {
    if i == |cus| || Takes(cus[i], affinity, p, req) then i else TakesFrom(cus, i + 1, affinity, p, req)
  }

  function PickReserve(cus: seq<CuState>, p: nat, req: Request): (k: nat)
    ensures k <= |cus|
    ensures k < |cus| ==> Reservable(cus[k], p, req.load)
  {
    var k := TakesFrom(cus, 0, true, p, req);
    if k < |cus| then k else TakesFrom(cus, 0, false, p, req)
  }

  function ReserveAt(s: SysState, d: nat, c: nat, p: nat, req: Request): (s': SysState)
    requires d < |s.devs| && c < |s.devs[d].cus| && req.load > 0
    ensures |s'.devs| == |s.devs|
  {
    SetDev(s, d, SetCu(s.devs[d], c, ReserveSlot(s.devs[d].cus[c], p, req.load, req.clientId)))
  }

  /** Reserves on the given device. */
  function ReserveFromDev(s: SysState, p: nat, d: nat, req: Request): (r: (SysState, Status))
    requires d < |s.devs|
    ensures |r.0.devs| == |s.devs|
  {
    if !HasReserveName(req.names) then (s, INVALID)
    else
      var c := PickReserve(s.devs[d].cus, p, req);
      if c < |s.devs[d].cus| then (ReserveAt(s, d, c, p, req), SUCCESS) else (s, NO_KERNEL)
  }

  /** One pass over the open devices from d on: where the load can be reserved. */
  function FindReserve(s: SysState, d: nat, affinity: bool, p: nat, req: Request): (r: Option<(nat, nat)>)
    requires d <= |s.devs|
    ensures r.Some? ==> r.value.0 < |s.devs| && r.value.1 < |s.devs[r.value.0].cus|
                        && Takes(s.devs[r.value.0].cus[r.value.1], affinity, p, req)
    decreases |s.devs| - d
  {
    var k := NextOpen(s.devs, d, req.clientId);
    if k == |s.devs| then None
    else
      var c := TakesFrom(s.devs[k].cus, 0, affinity, p, req);
      if c < |s.devs[k].cus| then Some((k, c)) else FindReserve(s, k + 1, affinity, p, req)
  }

  /** Reserves on any device. */
  function ReserveCu(s: SysState, p: nat, req: Request): (r: (SysState, Status))
    ensures |r.0.devs| == |s.devs|
  {
    if !HasReserveName(req.names) then (s, INVALID)
    else
      match FindReserve(s, 0, true, p, req)
      case Some((d, c)) => (ReserveAt(s, d, c, p, req), SUCCESS)
      case None =>
        match FindReserve(s, 0, false, p, req)
        case Some((d, c)) => (ReserveAt(s, d, c, p, req), SUCCESS)
        case None => (s, NO_KERNEL)
  }

  // ---------------------------------------------------------------------------------
  // Relinquishing a pool
  // ---------------------------------------------------------------------------------

  /** Unit by unit; stops at the first unit where the pool is in use. */
  function RelinquishUnits(cus: seq<CuState>, i: nat, p: nat): (r: (seq<CuState>, bool))
    requires i <= |cus|
    ensures |r.0| == |cus|
    decreases |cus| - i
  {
    if i == |cus| then (cus, true)
    else if PoolInUse(cus[i], p) then (cus, false)
    else RelinquishUnits(cus[i := DropPool(cus[i], p)], i + 1, p)
  }

  function RelinquishFrom(s: SysState, d: nat, p: nat): (r: (SysState, Status))
    requires d <= |s.devs|
    ensures |r.0.devs| == |s.devs|
    decreases |s.devs| - d
  {
    if d == |s.devs| then (s, SUCCESS)
    else
      var (cus, ok) := RelinquishUnits(s.devs[d].cus, 0, p);
      var s1 := SetDev(s, d, s.devs[d].(cus := cus));
      if ok then RelinquishFrom(s1, d + 1, p) else (s1, ERROR)
  }

  function Relinquish(s: SysState, p: nat): (r: (SysState, Status))
    ensures |r.0.devs| == |s.devs|
  {
    if p == 0 then (s, INVALID) else RelinquishFrom(s, 0, p)
  }

  // ---------------------------------------------------------------------------------
  // Lists and whole devices
  // ---------------------------------------------------------------------------------

  /** Reserves the requests from index i on, all on device d; gives the WHOLE pool back when
      one does not fit. */
  function ReserveEach(s: SysState, d: nat, p: nat, reqs: seq<Request>, i: nat): (r: (SysState, Status))
    requires d < |s.devs| && i <= |reqs|
    ensures |r.0.devs| == |s.devs|
    decreases |reqs| - i
  {
    if i == |reqs| then (s, SUCCESS)
    else
      var (s1, status) := ReserveFromDev(s, p, d, reqs[i]);
      if status != SUCCESS then (Relinquish(s1, p).0, status) else ReserveEach(s1, d, p, reqs, i + 1)
  }

  function ReserveSame(s: SysState, d: nat, p: nat, reqs: seq<Request>, last: Status): (r: (SysState, Status))
    requires d <= |s.devs| && reqs != []
    ensures |r.0.devs| == |s.devs|
    decreases |s.devs| - d
  {
    var k := NextOpen(s.devs, d, reqs[0].clientId);
    if k == |s.devs| then (s, last)
    else
      var (s1, status) := ReserveEach(s, k, p, reqs, 0);
      if status == SUCCESS then (s1, SUCCESS) else ReserveSame(s1, k + 1, p, reqs, status)
  }

  function ReserveAny(s: SysState, p: nat, reqs: seq<Request>, i: nat): (r: (SysState, Status))
    requires i <= |reqs|
    ensures |r.0.devs| == |s.devs|
    decreases |reqs| - i
  {
    if i == |reqs| then (s, SUCCESS)
    else
      var (s1, status) := ReserveCu(s, p, reqs[i]);
      if status != SUCCESS then (Relinquish(s1, p).0, status) else ReserveAny(s1, p, reqs, i + 1)
  }

  function ReserveList(s: SysState, p: nat, reqs: seq<Request>, sameDevice: bool): (r: (SysState, Status))
    ensures |r.0.devs| == |s.devs|
  {
    if |reqs| == 0 || |reqs| > MAX_LIST then (s, INVALID)
    else if sameDevice then ReserveSame(s, 0, p, reqs, ERROR)
    else ReserveAny(s, p, reqs, 0)
  }

  /** Some unit of the device has load in use. */
  predicate Busy(dev: DevState) {
    exists c :: 0 <= c < |dev.cus| && Used(dev.cus[c]) != 0
  }

  function WholeUnits(cus: seq<CuState>, p: nat, client: nat): (cus': seq<CuState>)
    ensures |cus'| == |cus|
    ensures forall c :: 0 <= c < |cus| ==> cus'[c] == ReserveWhole(cus[c], p, client)
  {
    seq(|cus|, c requires 0 <= c < |cus| => ReserveWhole(cus[c], p, client))
  }

  /** The load counter is set outright, to 1,000,000 per unit. */
  function WholeDev(dev: DevState, p: nat, client: nat): DevState {
    var cus := WholeUnits(dev.cus, p, client);
    dev.(cus := cus, drift := MAX_LOAD * |cus| - CusTotal(UsedLoad, cus))
  }

  /** The lowest loaded, idle device with the given xclbin, at or after d. */
  function NextIdle(s: SysState, d: nat, uuid: nat): (k: nat)
    requires d <= |s.devs|
    ensures d <= k <= |s.devs|
    ensures k < |s.devs| ==> s.devs[k].isLoaded && s.devs[k].uuid == uuid && !Busy(s.devs[k])
    ensures forall j :: d <= j < k ==> !(s.devs[j].isLoaded && s.devs[j].uuid == uuid && !Busy(s.devs[j]))
    decreases |s.devs| - d
  {
    if d == |s.devs| || (s.devs[d].isLoaded && s.devs[d].uuid == uuid && !Busy(s.devs[d])) then d
    else NextIdle(s, d + 1, uuid)
  }

  function ReserveXclbin(s: SysState, p: nat, uuid: nat, client: nat): (r: (SysState, Status))
    ensures |r.0.devs| == |s.devs|
  {
    if p == 0 then (s, INVALID)
    else
      var d := NextIdle(s, 0, uuid);
      if d == |s.devs| then (s, NO_KERNEL) else (SetDev(s, d, WholeDev(s.devs[d], p, client)), SUCCESS)
  }

  function ReserveDevice(s: SysState, p: nat, d: int, client: nat): (r: (SysState, Status))
    ensures |r.0.devs| == |s.devs|
  {
    if p == 0 || d < 0 || d >= MAX_DEVICES then (s, INVALID)
    else if d >= |s.devs| || !s.devs[d].isLoaded || Busy(s.devs[d]) then (s, NO_KERNEL)
    else (SetDev(s, d, WholeDev(s.devs[d], p, client)), SUCCESS)
  }

  /** No channel of the units holds load of the pool: so it is with a pool being reserved. */
  ghost predicate Unclaimed(cus: seq<CuState>, p: nat) {
    forall c {:trigger cus[c]} :: 0 <= c < |cus| ==> Total(LoadInPool(p), cus[c].channels) == 0
  }

  // ---------------------------------------------------------------------------------
  // A pool
  // ---------------------------------------------------------------------------------

  datatype PoolRequest = PoolRequest(listNum: int, reqs: seq<Request>, sameDevice: bool,
                                     xclbinNum: int, uuid: nat, clientId: nat)

  function ReserveXclbins(s: SysState, p: nat, n: nat, uuid: nat, client: nat): (r: (SysState, Status))
    ensures |r.0.devs| == |s.devs|
    decreases n
  {
    if n == 0 then (s, SUCCESS)
    else
      var (s1, status) := ReserveXclbin(s, p, uuid, client);
      if status != SUCCESS then (s1, status) else ReserveXclbins(s1, p, n - 1, uuid, client)
  }

  function ReserveLists(s: SysState, p: nat, n: nat, reqs: seq<Request>, sameDevice: bool): (r: (SysState, Status))
    ensures |r.0.devs| == |s.devs|
    decreases n
  {
    if n == 0 then (s, SUCCESS)
    else
      var (s1, status) := ReserveList(s, p, reqs, sameDevice);
      if status != SUCCESS then (s1, status) else ReserveLists(s1, p, n - 1, reqs, sameDevice)
  }

  /** Whole xclbins first, then the lists; the id of the new pool, or 0. */
  function ReservePool(s: SysState, q: PoolRequest): (SysState, nat) {
    if q.listNum < 0 || q.xclbinNum < 0 || |q.reqs| > MAX_LIST then (s, 0)
    else
      var p := NextId(s.poolId);
      var (s1, st1) := ReserveXclbins(s, p, q.xclbinNum, q.uuid, q.clientId);
      if st1 != SUCCESS then (Relinquish(s1, p).0, 0)
      else
        var (s2, st2) := ReserveLists(s1, p, q.listNum, q.reqs, q.sameDevice);
        if st2 != SUCCESS then (Relinquish(s2, p).0, 0)
        else (s2.(poolId := p), p)
  }

  // ---------------------------------------------------------------------------------
  // b is a plus slots of new pools
  // ---------------------------------------------------------------------------------

  /** No slot and no channel of the unit belongs to a pool of ps. */
  ghost predicate Fresh(cu: CuState, ps: set<nat>) {
    && (forall i {:trigger cu.reserves[i]} :: 0 <= i < |cu.reserves| ==> cu.reserves[i].poolId !in ps)
    && (forall i {:trigger cu.channels[i]} :: 0 <= i < |cu.channels| ==> cu.channels[i].poolId !in ps)
  }

  /** y is x with slots of pools in ps appended. */
  ghost predicate SlotsAdded(x: CuState, y: CuState, ps: set<nat>) {
    && y == x.(reserves := y.reserves)
    && x.reserves <= y.reserves
    && forall i {:trigger y.reserves[i]} :: |x.reserves| <= i < |y.reserves| ==> y.reserves[i].poolId in ps
  }

  ghost predicate DevAdded(x: DevState, y: DevState, ps: set<nat>) {
    && y.(cus := [], drift := 0) == x.(cus := [], drift := 0)
    && (y.drift == x.drift || y.drift == 0)
    && |y.cus| == |x.cus|
    && forall c {:trigger SlotsAdded(x.cus[c], y.cus[c], ps)} :: 0 <= c < |x.cus| ==>
         SlotsAdded(x.cus[c], y.cus[c], ps) && Fresh(x.cus[c], ps)
  }

  /** The two databases differ in slots of pools in ps, which a does not know, and in load
      counters of devices that b reserved as a whole, which are exact. */
  ghost predicate PoolsAdded(a: SysState, b: SysState, ps: set<nat>) {
    && 0 !in ps
    && |a.devs| == |b.devs| && a.serviceId == b.serviceId
    && forall d {:trigger DevAdded(a.devs[d], b.devs[d], ps)} :: 0 <= d < |a.devs| ==>
         DevAdded(a.devs[d], b.devs[d], ps)
  }

  /** Same tables; a load counter may have become exact. */
  ghost predicate SameTables(a: SysState, b: SysState) {
    && |a.devs| == |b.devs| && a.serviceId == b.serviceId
    && forall d {:trigger a.devs[d]} {:trigger b.devs[d]} :: 0 <= d < |a.devs| ==>
         a.devs[d].(drift := 0) == b.devs[d].(drift := 0) &&
           (b.devs[d].drift == a.devs[d].drift || b.devs[d].drift == 0)
  }

  lemma NoSlotAdded(x: CuState, y: CuState)
    requires SlotsAdded(x, y, {})
    ensures x == y
  {
    if y.reserves != [] {
      var last := y.reserves[|y.reserves| - 1];
    }
  }

  lemma NothingAdded(a: SysState, b: SysState)
    requires PoolsAdded(a, b, {})
    ensures SameTables(a, b)
  {
    forall d | 0 <= d < |a.devs|
      ensures a.devs[d].(drift := 0) == b.devs[d].(drift := 0) &&
        (b.devs[d].drift == a.devs[d].drift || b.devs[d].drift == 0)
    {
      assert DevAdded(a.devs[d], b.devs[d], {});
      forall c | 0 <= c < |a.devs[d].cus| ensures a.devs[d].cus[c] == b.devs[d].cus[c] {
        assert SlotsAdded(a.devs[d].cus[c], b.devs[d].cus[c], {});
        NoSlotAdded(a.devs[d].cus[c], b.devs[d].cus[c]);
      }
      assert a.devs[d].cus == b.devs[d].cus;
    }
  }

  /** The next pool id is new to every table. */
  lemma NextPoolIsFresh(s: SysState)
    requires Inv(s) && IdsFresh(s) && s.poolId < MAX_ID
    ensures PoolsAdded(s, s, {NextId(s.poolId)})
  {
    var p := NextId(s.poolId);
    forall d | 0 <= d < |s.devs| ensures DevAdded(s.devs[d], s.devs[d], {p}) {
      forall c | 0 <= c < |s.devs[d].cus| ensures Fresh(s.devs[d].cus[c], {p}) {
        assert IdsUpTo(s.devs[d].cus[c], s.serviceId, s.poolId);
      }
    }
  }

  /** On a unit of a where the pool is new, no channel holds load of it. */
  lemma FreshHoldsNothing(x: CuState, y: CuState, ps: set<nat>, p: nat)
    requires SlotsAdded(x, y, ps) && Fresh(x, ps) && p in ps
    ensures Total(LoadInPool(p), y.channels) == 0
    ensures !PoolInUse(y, p)
  {
    TotalZero(LoadInPool(p), y.channels);
  }

  // ---------------------------------------------------------------------------------
  // One reservation
  // ---------------------------------------------------------------------------------

  lemma ReserveSlotAdds(x: CuState, y: CuState, ps: set<nat>, p: nat, load: int, client: nat)
    requires CuInv(y) && SlotsAdded(x, y, ps) && Fresh(x, ps) && p in ps && p != 0 && Reservable(y, p, load)
    ensures var y' := ReserveSlot(y, p, load, client);
            && CuInv(y') && SlotsAdded(x, y', ps)
            && Used(y') == Used(y) + load
            && Held(y', p) == Held(y, p) + load
  {
    FreshHoldsNothing(x, y, ps, p);
    ReserveKeepsInv(y, p, load, client);
    var y' := ReserveSlot(y, p, load, client);
    var k := FindSlot(y.reserves, p);
    FoundSlot(y'.reserves, p, k);
    if k < |y.reserves| {
      forall i | 0 <= i < |x.reserves| ensures y.reserves[i].poolId != p { assert y.reserves[i] == x.reserves[i]; }
    }
  }

  lemma FoundSlot(rs: seq<Slot>, p: nat, k: nat)
    requires k < |rs| && rs[k].poolId == p && forall j :: 0 <= j < k ==> rs[j].poolId != p
    ensures FindSlot(rs, p) == k
  {
    var f := FindSlot(rs, p);
    assert f <= k;
  }

  /** Reserved load leaves the tables' references as they were. */
  lemma SlotsKeepRefs(d: DevState, c: nat, cu: CuState)
    requires DevInv(d) && c < |d.cus| && CuInv(cu) && cu.channels == d.cus[c].channels
    ensures DevInv(SetCu(d, c, cu))
  {
    forall b: nat ensures CusTotal(LiveChannels(b), d.cus[c := cu]) == CusTotal(LiveChannels(b), d.cus) {
      CusUpdate(LiveChannels(b), d.cus, c, cu);
    }
    SameLiveCounts(d, d.(cus := d.cus[c := cu]));
  }

  lemma SameLiveCounts(d: DevState, d': DevState)
    requires RefsMatch(d, 0) && d'.procs == d.procs && d'.isExcl == d.isExcl
    requires forall b: nat :: CusTotal(LiveChannels(b), d'.cus) == CusTotal(LiveChannels(b), d.cus)
    ensures RefsMatch(d', 0)
  {
    forall k | 0 <= k < |d'.procs| ensures GoodProc(d', k, 0) { assert GoodProc(d, k, 0); }
    forall b: nat ensures Listed(d', b, 0) { assert Listed(d, b, 0); }
  }

  function HeldTotal(s: SysState, p: nat): int {
    DevsTotal(AllUnits(HeldFor(p)), s.devs)
  }

  function SpareTotal(s: SysState): int {
    DevsTotal(AllUnits(SpareLoad), s.devs)
  }

  /** b is a valid extension of a by slots of the pools ps. */
  ghost predicate Reserving(a: SysState, b: SysState, ps: set<nat>) {
    Inv(b) && PoolsAdded(a, b, ps)
  }

  lemma ReserveAtAdds(a: SysState, b: SysState, ps: set<nat>, d: nat, c: nat, p: nat, req: Request)
    requires Reserving(a, b, ps) && p in ps
    requires d < |b.devs| && c < |b.devs[d].cus| && Reservable(b.devs[d].cus[c], p, req.load)
    ensures var b' := ReserveAt(b, d, c, p, req);
            && Reserving(a, b', ps) && b'.poolId == b.poolId
            && HeldTotal(b', p) == HeldTotal(b, p) + req.load
  {
    var x, y := a.devs[d], b.devs[d];
    assert DevAdded(x, y, ps);
    assert SlotsAdded(x.cus[c], y.cus[c], ps);
    assert DevInv(y);
    assert CuInv(y.cus[c]);
    ReserveSlotAdds(x.cus[c], y.cus[c], ps, p, req.load, req.clientId);
    var cu' := ReserveSlot(y.cus[c], p, req.load, req.clientId);
    SlotsKeepRefs(y, c, cu');
    UnitChanged(b, d, c, cu', HeldFor(p));
    AddedInUnit(a, b, ps, d, c, cu');
  }

  lemma UnitChanged(s: SysState, d: nat, c: nat, cu: CuState, m: CuMeasure)
    requires d < |s.devs| && c < |s.devs[d].cus|
    ensures DevsTotal(AllUnits(m), SetDev(s, d, SetCu(s.devs[d], c, cu)).devs)
              == DevsTotal(AllUnits(m), s.devs) - WeighCu(m, s.devs[d].cus[c]) + WeighCu(m, cu)
  {
    CusUpdate(m, s.devs[d].cus, c, cu);
    OneDeviceChanged(AllUnits(m), s.devs, s.devs[d := SetCu(s.devs[d], c, cu)], d);
  }

  lemma AddedInUnit(a: SysState, b: SysState, ps: set<nat>, d: nat, c: nat, cu: CuState)
    requires PoolsAdded(a, b, ps) && d < |b.devs| && c < |b.devs[d].cus|
    requires |a.devs[d].cus| == |b.devs[d].cus| ==> SlotsAdded(a.devs[d].cus[c], cu, ps)
    ensures PoolsAdded(a, SetDev(b, d, SetCu(b.devs[d], c, cu)), ps)
  {
    var b' := SetDev(b, d, SetCu(b.devs[d], c, cu));
    forall e | 0 <= e < |a.devs| ensures DevAdded(a.devs[e], b'.devs[e], ps) {
      assert DevAdded(a.devs[e], b.devs[e], ps);
      forall i | 0 <= i < |a.devs[e].cus|
        ensures SlotsAdded(a.devs[e].cus[i], b'.devs[e].cus[i], ps) && Fresh(a.devs[e].cus[i], ps)
      {
        assert SlotsAdded(a.devs[e].cus[i], b.devs[e].cus[i], ps);
      }
    }
  }

  // ---------------------------------------------------------------------------------
  // A whole device
  // ---------------------------------------------------------------------------------

  lemma IdleDevice(dev: DevState)
    requires DevInv(dev) && !Busy(dev)
    ensures forall c :: 0 <= c < |dev.cus| ==> IdleCu(dev.cus[c])
  {
    forall c | 0 <= c < |dev.cus| ensures IdleCu(dev.cus[c]) {
      assert CuInv(dev.cus[c]);
      IdleIffUnused(dev.cus[c]);
    }
  }

  /** A device is busy exactly when something on it is allocated or reserved. */
  lemma BusyIff(dev: DevState)
    requires DevInv(dev)
    ensures Busy(dev) <==> exists c :: 0 <= c < |dev.cus| && !IdleCu(dev.cus[c])
  {
    forall c | 0 <= c < |dev.cus| ensures IdleCu(dev.cus[c]) <==> Used(dev.cus[c]) == 0 {
      assert CuInv(dev.cus[c]);
      IdleIffUnused(dev.cus[c]);
    }
  }

  /** Reserving a whole idle device: every unit gets one full slot; the load counter, set
      outright, comes out exact. */
  lemma WholeDevInv(dev: DevState, p: nat, client: nat)
    requires DevInv(dev) && !Busy(dev) && p != 0
    ensures DevInv(WholeDev(dev, p, client)) && WholeDev(dev, p, client).drift == 0
    ensures CusTotal(HeldFor(p), dev.cus) == 0
    ensures CusTotal(HeldFor(p), WholeDev(dev, p, client).cus) == MAX_LOAD * |dev.cus|
  {
    var d' := WholeDev(dev, p, client);
    forall c | 0 <= c < |dev.cus|
      ensures CuInv(d'.cus[c]) && Used(d'.cus[c]) == MAX_LOAD && d'.cus[c].channels == dev.cus[c].channels
    {
      WholeUnit(dev, c, p, client);
    }
    WholeHeld(dev, p, client);
    SumConstant(CuWeights(UsedLoad, d'.cus), MAX_LOAD);
    forall b: nat ensures CusTotal(LiveChannels(b), d'.cus) == CusTotal(LiveChannels(b), dev.cus) {
      assert CuWeights(LiveChannels(b), d'.cus) == CuWeights(LiveChannels(b), dev.cus);
    }
    SameLiveCounts(dev, d');
  }

  lemma WholeHeld(dev: DevState, p: nat, client: nat)
    requires DevInv(dev) && !Busy(dev) && p != 0
    ensures CusTotal(HeldFor(p), dev.cus) == 0
    ensures CusTotal(HeldFor(p), WholeDev(dev, p, client).cus) == MAX_LOAD * |dev.cus|
  {
    var d' := WholeDev(dev, p, client);
    forall c | 0 <= c < |dev.cus| ensures Held(d'.cus[c], p) == MAX_LOAD && Held(dev.cus[c], p) == 0 {
      WholeUnit(dev, c, p, client);
    }
    SumZeros(CuWeights(HeldFor(p), dev.cus));
    SumConstant(CuWeights(HeldFor(p), d'.cus), MAX_LOAD);
  }

  lemma WholeUnit(dev: DevState, c: nat, p: nat, client: nat)
    requires DevInv(dev) && !Busy(dev) && p != 0 && c < |dev.cus|
    ensures var cu := ReserveWhole(dev.cus[c], p, client);
            CuInv(cu) && Used(cu) == MAX_LOAD && Held(cu, p) == MAX_LOAD && Held(dev.cus[c], p) == 0
  {
    IdleDevice(dev);
    assert CuInv(dev.cus[c]);
    ReserveWholeKeepsInv(dev.cus[c], p, client);
    FoundSlot(ReserveWhole(dev.cus[c], p, client).reserves, p, 0);
  }

  lemma {:induction false} SumConstant(ws: seq<int>, v: int)
    requires forall i :: 0 <= i < |ws| ==> ws[i] == v
    ensures Sum(ws) == v * |ws|
  {
    if ws != [] {
      SumConstant(ws[..|ws| - 1], v);
      assert v * |ws| == v * (|ws| - 1) + v;
    }
  }

  lemma WholeAdds(a: SysState, b: SysState, ps: set<nat>, d: nat, p: nat, client: nat)
    requires Reserving(a, b, ps) && p in ps && d < |b.devs| && !Busy(b.devs[d])
    ensures var b' := SetDev(b, d, WholeDev(b.devs[d], p, client));
            && Reserving(a, b', ps) && b'.poolId == b.poolId
            && HeldTotal(b', p) == HeldTotal(b, p) + MAX_LOAD * |b.devs[d].cus|
            && !Busy(a.devs[d]) && (|b.devs[d].cus| > 0 ==> Busy(b'.devs[d]))
  {
    var dev := b.devs[d];
    var b' := SetDev(b, d, WholeDev(dev, p, client));
    assert DevInv(dev);
    WholeDevInv(dev, p, client);
    OneDeviceChanged(AllUnits(HeldFor(p)), b.devs, b'.devs, d);
    IdleDevice(dev);
    assert DevAdded(a.devs[d], dev, ps);
    forall c | 0 <= c < |dev.cus|
      ensures SlotsAdded(a.devs[d].cus[c], b'.devs[d].cus[c], ps) && Used(a.devs[d].cus[c]) == 0
    {
      assert SlotsAdded(a.devs[d].cus[c], dev.cus[c], ps);
      assert a.devs[d].cus[c] == dev.cus[c];
      assert CuInv(dev.cus[c]);
      IdleIffUnused(dev.cus[c]);
    }
    if |dev.cus| > 0 { WholeIsUsed(dev, p, client); }
    AddedOnDevice(a, b, ps, d, b'.devs[d]);
  }

  lemma WholeIsUsed(dev: DevState, p: nat, client: nat)
    requires DevInv(dev) && !Busy(dev) && p != 0 && |dev.cus| > 0
    ensures Busy(WholeDev(dev, p, client))
  {
    IdleDevice(dev);
    assert CuInv(dev.cus[0]);
    ReserveWholeKeepsInv(dev.cus[0], p, client);
    assert Used(WholeDev(dev, p, client).cus[0]) == MAX_LOAD;
  }

  lemma AddedOnDevice(a: SysState, b: SysState, ps: set<nat>, d: nat, dev: DevState)
    requires PoolsAdded(a, b, ps) && d < |b.devs|
    requires dev.(cus := [], drift := 0) == b.devs[d].(cus := [], drift := 0) && |dev.cus| == |b.devs[d].cus|
    requires dev.drift == b.devs[d].drift || dev.drift == 0
    requires |a.devs[d].cus| == |dev.cus| ==>
               forall c {:trigger SlotsAdded(a.devs[d].cus[c], dev.cus[c], ps)} :: 0 <= c < |dev.cus| ==>
                 SlotsAdded(a.devs[d].cus[c], dev.cus[c], ps)
    ensures PoolsAdded(a, SetDev(b, d, dev), ps)
  {
    var b' := SetDev(b, d, dev);
    forall e | 0 <= e < |a.devs| ensures DevAdded(a.devs[e], b'.devs[e], ps) {
      assert DevAdded(a.devs[e], b.devs[e], ps);
      forall i | 0 <= i < |a.devs[e].cus|
        ensures SlotsAdded(a.devs[e].cus[i], b'.devs[e].cus[i], ps) && Fresh(a.devs[e].cus[i], ps)
      {
        assert SlotsAdded(a.devs[e].cus[i], b.devs[e].cus[i], ps);
      }
    }
  }

  // ---------------------------------------------------------------------------------
  // Relinquishing what was added
  // ---------------------------------------------------------------------------------

  lemma DropAdded(x: CuState, y: CuState, ps: set<nat>, p: nat)
    requires CuInv(y) && SlotsAdded(x, y, ps) && Fresh(x, ps) && p in ps
    ensures !PoolInUse(y, p)
    ensures CuInv(DropPool(y, p)) && SlotsAdded(x, DropPool(y, p), ps - {p}) && Fresh(x, ps - {p})
    ensures DropPool(y, p).channels == y.channels
  {
    FreshHoldsNothing(x, y, ps, p);
    DropPoolKeepsInv(y, p);
    var k := FindSlot(y.reserves, p);
    var y' := DropPool(y, p);
    forall i | 0 <= i < |x.reserves| ensures y.reserves[i].poolId != p { assert y.reserves[i] == x.reserves[i]; }
    if k < |y.reserves| {
      assert |x.reserves| <= k;
      forall i | |x.reserves| <= i < |y'.reserves| ensures y'.reserves[i].poolId in ps - {p} {
        var j := if i < k then i else i + 1;
        assert y'.reserves[i] == y.reserves[j] && j != k;
        assert PoolIds(y.reserves)[j] != PoolIds(y.reserves)[k];
      }
    }
  }

  lemma {:induction false} RelinquishUnitsAdded(xs: seq<CuState>, ys: seq<CuState>, i: nat, ps: set<nat>, p: nat)
    requires |xs| == |ys| && i <= |ys| && p in ps
    requires forall c {:trigger SlotsAdded(xs[c], ys[c], ps)} {:trigger CuInv(ys[c])} :: i <= c < |ys| ==>
               CuInv(ys[c]) && SlotsAdded(xs[c], ys[c], ps) && Fresh(xs[c], ps)
    ensures var (zs, ok) := RelinquishUnits(ys, i, p);
            && ok
            && forall c {:trigger zs[c]} :: 0 <= c < |ys| ==> zs[c] == if c < i then ys[c] else DropPool(ys[c], p)
    decreases |ys| - i
  {
    if i < |ys| {
      assert CuInv(ys[i]);
      DropAdded(xs[i], ys[i], ps, p);
      var ys' := ys[i := DropPool(ys[i], p)];
      forall c | i + 1 <= c < |ys'| ensures CuInv(ys'[c]) && SlotsAdded(xs[c], ys'[c], ps) && Fresh(xs[c], ps) {
        assert CuInv(ys[c]);
      }
      RelinquishUnitsAdded(xs, ys', i + 1, ps, p);
    }
  }

  lemma RelinquishDevAdded(x: DevState, y: DevState, ps: set<nat>, p: nat)
    requires DevInv(y) && DevAdded(x, y, ps) && p in ps
    ensures var (cus, ok) := RelinquishUnits(y.cus, 0, p);
            ok && DevInv(y.(cus := cus)) && DevAdded(x, y.(cus := cus), ps - {p})
  {
    forall c | 0 <= c < |y.cus| ensures CuInv(y.cus[c]) && SlotsAdded(x.cus[c], y.cus[c], ps) && Fresh(x.cus[c], ps) {
      assert CuInv(y.cus[c]) && SlotsAdded(x.cus[c], y.cus[c], ps);
    }
    RelinquishUnitsAdded(x.cus, y.cus, 0, ps, p);
    var cus := RelinquishUnits(y.cus, 0, p).0;
    forall c | 0 <= c < |y.cus|
      ensures CuInv(cus[c]) && SlotsAdded(x.cus[c], cus[c], ps - {p}) && Fresh(x.cus[c], ps - {p})
      ensures cus[c].channels == y.cus[c].channels
    {
      assert CuInv(y.cus[c]) && SlotsAdded(x.cus[c], y.cus[c], ps);
      DropAdded(x.cus[c], y.cus[c], ps, p);
    }
    forall b: nat ensures CusTotal(LiveChannels(b), cus) == CusTotal(LiveChannels(b), y.cus) {
      assert CuWeights(LiveChannels(b), cus) == CuWeights(LiveChannels(b), y.cus);
    }
    SameLiveCounts(y, y.(cus := cus));
  }

  /** During the device loop, devices before d have lost the pool p and the rest have not. */
  ghost predicate HalfRelinquished(a: SysState, b: SysState, ps: set<nat>, p: nat, d: nat) {
    && 0 !in ps && |a.devs| == |b.devs| && a.serviceId == b.serviceId
    && forall e: nat {:trigger HalfDev(a, b, ps, p, d, e)} :: e < |a.devs| ==> HalfDev(a, b, ps, p, d, e)
  }

  ghost predicate HalfDev(a: SysState, b: SysState, ps: set<nat>, p: nat, d: nat, e: nat)
    requires e < |a.devs| == |b.devs|
  {
    DevAdded(a.devs[e], b.devs[e], if e < d then ps - {p} else ps)
  }

  lemma {:induction false} RelinquishFromAdded(a: SysState, b: SysState, ps: set<nat>, p: nat, d: nat)
    requires Inv(b) && HalfRelinquished(a, b, ps, p, d) && p in ps && d <= |b.devs|
    ensures var (b', status) := RelinquishFrom(b, d, p);
            status == SUCCESS && Inv(b') && HalfRelinquished(a, b', ps, p, |b.devs|) && b'.poolId == b.poolId
    decreases |b.devs| - d
  {
    if d < |b.devs| {
      assert DevInv(b.devs[d]) && HalfDev(a, b, ps, p, d, d);
      RelinquishDevAdded(a.devs[d], b.devs[d], ps, p);
      var b1 := SetDev(b, d, b.devs[d].(cus := RelinquishUnits(b.devs[d].cus, 0, p).0));
      var d1 := d + 1;
      forall e: nat | e < |a.devs| ensures HalfDev(a, b1, ps, p, d1, e) {
        assert HalfDev(a, b, ps, p, d, e);
      }
      RelinquishFromAdded(a, b1, ps, p, d + 1);
    }
  }

  /** Relinquishing an added pool takes exactly its slots away and cannot fail. */
  lemma RelinquishAdded(a: SysState, b: SysState, ps: set<nat>, p: nat)
    requires Reserving(a, b, ps) && p in ps
    ensures var (b', status) := Relinquish(b, p);
            status == SUCCESS && Reserving(a, b', ps - {p}) && b'.poolId == b.poolId
  {
    forall e: nat | e < |a.devs| ensures HalfDev(a, b, ps, p, 0, e) {
      assert DevAdded(a.devs[e], b.devs[e], ps);
    }
    RelinquishFromAdded(a, b, ps, p, 0);
    var b' := Relinquish(b, p).0;
    forall e | 0 <= e < |a.devs| ensures DevAdded(a.devs[e], b'.devs[e], ps - {p}) {
      assert HalfDev(a, b', ps, p, |b.devs|, e);
    }
  }
}
