/** Runs: what holds after any sequence of requests, from any number of clients. */
module RunModel {
  import opened Tables
  import opened CuModel
  import opened DeviceModel
  import opened SystemModel
  import opened Rollback
  import opened ListModel
  import opened ListV2Model
  import opened ExclusiveModel
  import opened ProbeModel
  import opened RecycleModel
  import opened PoolModel
  import opened PoolTransaction
  import opened RelinquishModel
  import opened QueryModel
  import opened LoadModel
  import opened PolicyModel
  import opened ChangeModel

  datatype Op =
    | Alloc(req: Request)
    | AllocFrom(d: int, req: Request)
    | AllocByLoad(d: int, pol: Policy, req: Request)
    | AllocList(reqs: seq<Request>, sameDevice: bool)
    | AllocListV2(reqsV2: seq<RequestV2>)
    | Free(r: Res)
    | FreeList(rs: seq<Res>)
    | Probe(req: Request)
    | ProbeLists(reqs: seq<Request>, sameDevice: bool)
    | ProbePools(q: PoolRequest)
    | NewPool(q: PoolRequest)
    | DropAPool(p: nat)
    | Dead(client: nat)
    | LoadOne(d: int, uuid: nat, h: Attempt)
    | LoadSome(uuid: nat, hw: Hardware)
    | UnloadOne(d: int, unlocks: bool)

  /** What callers owe: nonzero client ids, ids that have not wrapped, and for the two kinds of
      request that break the reference counts or the probes, staying clear of that. */
  ghost predicate Enabled(s: SysState, op: Op) {
    && s.serviceId < MAX_ID && s.poolId < MAX_ID
    && match op
       case Alloc(req) => req.clientId != 0
       case AllocFrom(_, req) => req.clientId != 0
       case AllocByLoad(d, pol, req) => req.clientId != 0 && req.poolId == 0 && PickHasFree(s, d, pol, req)
       case AllocList(reqs, _) => HaveClients(reqs)
       case AllocListV2(reqs) => HaveClientsV2(reqs)
       case Free(r) => r.clientId != 0
       case FreeList(rs) => OfClients(rs)
       case Probe(req) => req.clientId != 0 && s.serviceId + Available(s, req) <= MAX_ID
       case ProbeLists(reqs, _) => HaveClients(reqs) && s.serviceId + FreeTotal(s) <= MAX_ID
       case ProbePools(q) => !Endless(q) && s.poolId + SpareTotal(s) < MAX_ID
       case NewPool(_) => true
       case DropAPool(_) => true
       case Dead(client) => client != 0
       case LoadOne(_, _, h) => PossibleAttempt(h)
       case LoadSome(_, hw) => PossibleHardware(hw)
       case UnloadOne(_, _) => true
  }

  /** The invariant of runs. */
  ghost predicate Good(s: SysState) {
    Inv(s) && IdsFresh(s)
  }

  ghost function Apply(s: SysState, op: Op): SysState
    requires Good(s) && Enabled(s, op)
  {
    match op
    case Alloc(req) => AllocCu(s, req, true).0
    case AllocFrom(d, req) => AllocCuFromDev(s, d, req, true).0
    case AllocByLoad(d, pol, req) => AllocCuFromDevByLoad(s, d, pol, req, true).0
    case AllocList(reqs, sameDevice) => AllocCuList(s, reqs, sameDevice).0
    case AllocListV2(reqs) => AllocCuListV2(s, reqs).0
    case Free(r) => ReleaseCu(s, r).0
    case FreeList(rs) => ReleaseAll(s, rs).0
    case Probe(req) => ProbeCu(s, req).0
    case ProbeLists(reqs, sameDevice) => ProbeList(s, reqs, sameDevice).0
    case ProbePools(q) => ProbePool(s, q).0
    case NewPool(q) => ReservePool(s, q).0
    case DropAPool(p) => Relinquish(s, p).0
    case Dead(client) => Recycle(s, client)
    case LoadOne(d, uuid, h) => Load(s, d, uuid, h).0
    case LoadSome(uuid, hw) => LoadAny(s, uuid, hw).0
    case UnloadOne(d, unlocks) => Unload(s, d, unlocks).0
  }

  // ---------------------------------------------------------------------------------
  // Four kinds of steps
  // ---------------------------------------------------------------------------------

  /** What any step comes to, seen from the tables. */
  datatype Kind =
    | Channels(pools: set<nat>)   // allocates from these pools, or releases
    | Slots(p: nat)               // adds slots of a new pool p
    | Dropped(p: nat)             // drops slots of p that are not in use
    | Gone(client: nat)           // recycles a client
    | Reloads                     // loads or unloads idle devices
    | Nothing                     // changes no table

  function KindOf(s: SysState, op: Op): Kind {
    match op
    case Alloc(req) => Channels({req.poolId})
    case AllocFrom(_, req) => Channels({req.poolId})
    case AllocByLoad(_, _, req) => Channels({req.poolId})
    case AllocList(reqs, _) => Channels(set i | 0 <= i < |reqs| :: reqs[i].poolId)
    case AllocListV2(reqs) => Channels(set i | 0 <= i < |reqs| :: reqs[i].req.poolId)
    case Free(_) => Channels({})
    case FreeList(_) => Channels({})
    case Probe(_) => Nothing
    case ProbeLists(_, _) => Nothing
    case ProbePools(_) => Nothing
    case NewPool(_) => Slots(NextId(s.poolId))
    case DropAPool(p) => Dropped(p)
    case Dead(client) => Gone(client)
    case LoadOne(_, _, _) => Reloads
    case LoadSome(_, _) => Reloads
    case UnloadOne(_, _) => Reloads
  }

  ghost predicate StepOf(s: SysState, k: Kind, s': SysState) {
    match k
    case Channels(pools) => ChangedAndAdvanced(s, s', pools)
    case Slots(p) => (SameTables(s, s') && s'.poolId == s.poolId) || (PoolsAdded(s, s', {p}) && s'.poolId == p)
    case Dropped(p) => s' == s || RelinquishedFrom(s, 0, p, s', SUCCESS) || RelinquishedFrom(s, 0, p, s', ERROR)
    case Gone(client) =>
      && |s'.devs| == |s.devs| && s'.serviceId == s.serviceId && s'.poolId == s.poolId
      && forall e {:trigger s'.devs[e]} :: 0 <= e < |s.devs| ==> s'.devs[e] == RecycledDev(s.devs[e], client)
    case Reloads => AllReloaded(s, s')
    case Nothing => OnlyIds(s, s')
  }

  /** No unit changed, and ids can only have moved on. */
  ghost predicate OnlyIds(s: SysState, s': SysState) {
    && |s'.devs| == |s.devs| && s'.serviceId >= s.serviceId && s'.poolId >= s.poolId
    && forall e {:trigger SameUnitsOn(s.devs[e], s'.devs[e])} :: 0 <= e < |s.devs| ==>
       SameUnitsOn(s.devs[e], s'.devs[e])
  }

  /** Same units; client table and mode may differ, and a load counter may have become exact. */
  predicate SameUnitsOn(x: DevState, y: DevState) {
    y.cus == x.cus && y.isLoaded == x.isLoaded && y.uuid == x.uuid && (y.drift == x.drift || y.drift == 0)
  }

  lemma OneChannelStep(s: SysState, op: Op)
    requires Good(s) && Enabled(s, op) && (op.Alloc? || op.AllocFrom? || op.AllocByLoad? || op.Free? || op.FreeList?)
    ensures StepOf(s, KindOf(s, op), Apply(s, op)) && Inv(Apply(s, op))
  {
    match op
    case Alloc(req) =>
      AllocCuKeepsInv(s, req, true);
      AllocCuStep(s, req);
    case AllocFrom(d, req) =>
      AllocCuFromDevKeepsInv(s, d, req, true);
      AllocCuFromDevStep(s, d, req);
    case AllocByLoad(d, pol, req) =>
      ByLoadKeepsInv(s, d, pol, req, true);
      ByLoadStep(s, d, pol, req);
    case Free(r) =>
      ReleaseKeepsInv(s, r);
      ReleaseChanges(s, r, {});
    case FreeList(rs) =>
      ReleaseAllKeepsInv(s, rs);
      ReleaseStep(s, rs);
  }

  lemma ListStep(s: SysState, op: Op)
    requires Good(s) && Enabled(s, op) && (op.AllocList? || op.AllocListV2?)
    ensures StepOf(s, KindOf(s, op), Apply(s, op)) && Inv(Apply(s, op))
  {
    match op
    case AllocList(reqs, sameDevice) =>
      AllocCuListKeepsInv(s, reqs, sameDevice);
      AllocCuListStep(s, reqs, sameDevice, set i | 0 <= i < |reqs| :: reqs[i].poolId);
    case AllocListV2(reqs) =>
      QueryInvertsListV2(s, reqs);
      AllocCuListV2Step(s, reqs, set i | 0 <= i < |reqs| :: reqs[i].req.poolId);
  }

  lemma SameTablesInv(s: SysState, s': SysState)
    requires Inv(s) && SameTables(s, s')
    ensures Inv(s')
  {
    forall d | 0 <= d < |s'.devs| ensures DevInv(s'.devs[d]) {
      assert DevInv(s.devs[d]);
      assert s.devs[d].(drift := 0) == s'.devs[d].(drift := 0);
      SameLiveCounts(s.devs[d], s'.devs[d]);
    }
  }

  lemma RestoredUnits(s: SysState, s': SysState, excl: set<nat>)
    requires Restored(s, s', excl) && s'.serviceId >= s.serviceId && s'.poolId >= s.poolId
    ensures OnlyIds(s, s')
  {
    forall e | 0 <= e < |s.devs| ensures SameUnitsOn(s.devs[e], s'.devs[e]) {
      assert Back(s.devs[e], s'.devs[e], excl);
    }
  }

  lemma ProbeCuStep(s: SysState, req: Request)
    requires Inv(s) && req.clientId != 0 && s.serviceId + Available(s, req) <= MAX_ID
    ensures OnlyIds(s, ProbeCu(s, req).0) && Inv(ProbeCu(s, req).0)
  {
    ProbeCuIsExact(s, req);
    AvailableBounds(s, req);
    if !HasName(req.names) { NoNameNoProbe(s, req); }
    RestoredUnits(s, ProbeCu(s, req).0, AskerOf(req));
  }

  lemma ProbeListStep(s: SysState, reqs: seq<Request>, sameDevice: bool)
    requires Inv(s) && HaveClients(reqs) && s.serviceId + FreeTotal(s) <= MAX_ID
    ensures OnlyIds(s, ProbeList(s, reqs, sameDevice).0) && Inv(ProbeList(s, reqs, sameDevice).0)
  {
    ProbeListRestores(s, reqs, sameDevice);
    RestoredUnits(s, ProbeList(s, reqs, sameDevice).0, Askers(reqs));
  }

  lemma ProbePoolStep(s: SysState, q: PoolRequest)
    requires PoolProbeable(s) && !Endless(q)
    ensures OnlyIds(s, ProbePool(s, q).0) && Inv(ProbePool(s, q).0)
  {
    ProbePoolRestores(s, q);
    SameTablesOnlyIds(s, ProbePool(s, q).0);
    SameTablesInv(s, ProbePool(s, q).0);
  }

  lemma ProbeStep(s: SysState, op: Op)
    requires Good(s) && Enabled(s, op) && (op.Probe? || op.ProbeLists? || op.ProbePools?)
    ensures StepOf(s, KindOf(s, op), Apply(s, op)) && Inv(Apply(s, op))
  {
    hide OnlyIds, Inv, IdsFresh, ProbeCu, ProbeList, ProbePool;
    match op {
      case Probe(req) => ProbeCuStep(s, req);
      case ProbeLists(reqs, sameDevice) => ProbeListStep(s, reqs, sameDevice);
      case ProbePools(q) => ProbePoolStep(s, q);
    }
  }

  lemma NewPoolStep(s: SysState, q: PoolRequest)
    requires Good(s) && s.poolId < MAX_ID
    ensures StepOf(s, Slots(NextId(s.poolId)), ReservePool(s, q).0) && Inv(ReservePool(s, q).0)
  {
    hide SameTables, PoolsAdded, Inv, IdsFresh, ReservePool;
    var whole := ReservePoolTransaction(s, q);
  }

  lemma DropStep(s: SysState, p: nat)
    requires Good(s)
    ensures StepOf(s, Dropped(p), Relinquish(s, p).0) && Inv(Relinquish(s, p).0)
  {
    hide RelinquishedFrom, RelinquishFrom, Inv, IdsFresh;
    if p != 0 {
      RelinquishSpec(s, p);
      assert Relinquish(s, p).1 == SUCCESS || Relinquish(s, p).1 == ERROR by { RelinquishStatus(s, p); }
    }
  }

  lemma RelinquishStatus(s: SysState, p: nat)
    requires RelinquishedFrom(s, 0, p, Relinquish(s, p).0, Relinquish(s, p).1)
    ensures Relinquish(s, p).1 == SUCCESS || Relinquish(s, p).1 == ERROR
  {
  }

  lemma DeadStep(s: SysState, client: nat)
    requires Good(s) && client != 0
    ensures StepOf(s, Gone(client), Recycle(s, client)) && Inv(Recycle(s, client))
  {
    hide RecycledDev, Inv, IdsFresh;
    RecycleSpec(s, client);
    forall e | 0 <= e < |s.devs| ensures Recycle(s, client).devs[e] == RecycledDev(s.devs[e], client) { }
  }

  lemma OtherStep(s: SysState, op: Op)
    requires Good(s) && Enabled(s, op)
    requires op.NewPool? || op.DropAPool? || op.Dead? || op.LoadOne? || op.LoadSome? || op.UnloadOne?
    ensures StepOf(s, KindOf(s, op), Apply(s, op)) && Inv(Apply(s, op))
  {
    hide StepOf, AllReloaded, Inv, IdsFresh, ReservePool, Relinquish, Recycle, Load, LoadAny, Unload;
    match op
    case NewPool(q) => NewPoolStep(s, q);
    case DropAPool(p) => DropStep(s, p);
    case Dead(client) => DeadStep(s, client);
    case LoadOne(d, uuid, h) => LoadKeeps(s, d, uuid, h); ReloadStep(s, Apply(s, op));
    case LoadSome(uuid, hw) => LoadAnySparesBusyDevices(s, uuid, hw); ReloadStep(s, Apply(s, op));
    case UnloadOne(d, unlocks) => UnloadKeeps(s, d, unlocks); ReloadStep(s, Apply(s, op));
  }

  lemma ReloadStep(s: SysState, s': SysState)
    requires Inv(s) && AllReloaded(s, s')
    ensures StepOf(s, Reloads, s') && Inv(s')
  {
    ReloadedInv(s, s');
  }

  lemma EveryStep(s: SysState, op: Op)
    requires Good(s) && Enabled(s, op)
    ensures StepOf(s, KindOf(s, op), Apply(s, op)) && Inv(Apply(s, op))
  {
    if op.Alloc? || op.AllocFrom? || op.AllocByLoad? || op.Free? || op.FreeList? { OneChannelStep(s, op); }
    else if op.AllocList? || op.AllocListV2? { ListStep(s, op); }
    else if op.Probe? || op.ProbeLists? || op.ProbePools? { ProbeStep(s, op); }
    else { OtherStep(s, op); }
  }

  // ---------------------------------------------------------------------------------
  // Ids stay fresh
  // ---------------------------------------------------------------------------------

  lemma SlotIdBound(cu: CuState, p: nat, sid: nat, pid: nat)
    requires IdsUpTo(cu, sid, pid) && p in Pools(cu.reserves)
    ensures p <= pid
  {
    var i :| 0 <= i < |cu.reserves| && PoolIds(cu.reserves)[i] == p;
  }

  lemma UnitIdsChanged(x: CuState, y: CuState, id: nat, pools: set<nat>, sid: nat, sid': nat, pid: nat)
    requires CuChanged(x, y, id, pools) && IdsUpTo(x, sid, pid) && sid <= sid'
    requires id <= sid' || pools == {}
    ensures IdsUpTo(y, sid', pid)
  {
    forall k | 0 <= k < |y.channels| ensures y.channels[k].serviceId <= sid' && y.channels[k].poolId <= pid {
      assert ChannelChanged(x.channels[k], y.channels[k], x.reserves, id, pools);
      if y.channels[k].poolId in Pools(x.reserves) { SlotIdBound(x, y.channels[k].poolId, sid, pid); }
    }
  }

  lemma ChangedIds(s: SysState, s': SysState, pools: set<nat>)
    requires IdsFresh(s) && s.serviceId < MAX_ID && ChangedAndAdvanced(s, s', pools)
    ensures IdsFresh(s')
  {
    var id := NextId(s.serviceId);
    var s1, ps := s'.(serviceId := s.serviceId), if s'.serviceId == s.serviceId then {} else pools;
    assert Changed(s, s1, ps);
    forall d, c | 0 <= d < |s'.devs| && 0 <= c < |s'.devs[d].cus|
      ensures IdsUpTo(s'.devs[d].cus[c], s'.serviceId, s'.poolId) {
      assert DevChanged(s.devs[d], s1.devs[d], id, ps);
      assert CuChanged(s.devs[d].cus[c], s1.devs[d].cus[c], id, ps) && IdsUpTo(s.devs[d].cus[c], s.serviceId, s.poolId);
      UnitIdsChanged(s.devs[d].cus[c], s1.devs[d].cus[c], id, ps, s.serviceId, s'.serviceId, s.poolId);
    }
  }

  lemma DroppedIds(s: SysState, p: nat, s': SysState, status: Status)
    requires IdsFresh(s) && RelinquishedFrom(s, 0, p, s', status)
    ensures IdsFresh(s')
  {
    forall d, c | 0 <= d < |s'.devs| && 0 <= c < |s'.devs[d].cus|
      ensures IdsUpTo(s'.devs[d].cus[c], s'.serviceId, s'.poolId) {
      var x, y := s.devs[d].cus[c], s'.devs[d].cus[c];
      assert IdsUpTo(x, s.serviceId, s.poolId);
      var k := FindSlot(x.reserves, p);
      forall i | 0 <= i < |y.reserves| ensures y.reserves[i].poolId <= s.poolId {
        if y != x { assert y.reserves[i] == x.reserves[if i < k then i else i + 1]; }
      }
    }
  }

  lemma GoneIds(s: SysState, client: nat, s': SysState)
    requires IdsFresh(s) && StepOf(s, Gone(client), s')
    ensures IdsFresh(s')
  {
    forall d, c | 0 <= d < |s'.devs| && 0 <= c < |s'.devs[d].cus|
      ensures IdsUpTo(s'.devs[d].cus[c], s'.serviceId, s'.poolId) {
      assert s'.devs[d] == RecycledDev(s.devs[d], client);
      assert IdsUpTo(s.devs[d].cus[c], s.serviceId, s.poolId);
      GoneUnitIds(s.devs[d].cus[c], client, s.serviceId, s.poolId);
    }
  }

  lemma GoneUnitIds(cu: CuState, client: nat, sid: nat, pid: nat)
    requires IdsUpTo(cu, sid, pid)
    ensures IdsUpTo(Recycled(cu, client), sid, pid)
  {
    var rs := Recycled(cu, client).reserves;
    WithoutClientMembers(cu.reserves, client);
    forall i | 0 <= i < |rs| ensures rs[i].poolId <= pid {
      assert rs[i] in rs;
      assert rs[i] in cu.reserves;
    }
  }

  /** An idle unit carries no id at all. */
  lemma IdleIds(cu: CuState, sid: nat, pid: nat)
    requires CuInv(cu) && IdleCu(cu)
    ensures IdsUpTo(cu, sid, pid)
  {
    forall k | 0 <= k < |cu.channels| ensures cu.channels[k] == FreeChannel(k) {
      assert GoodChannel(cu.channels[k], k);
    }
  }

  lemma ReloadedIds(s: SysState, s': SysState)
    requires IdsFresh(s) && AllReloaded(s, s')
    ensures IdsFresh(s')
  {
    forall d, c | 0 <= d < |s'.devs| && 0 <= c < |s'.devs[d].cus|
      ensures IdsUpTo(s'.devs[d].cus[c], s'.serviceId, s'.poolId) {
      assert Reloaded(s.devs[d], s'.devs[d]);
      if s'.devs[d] == s.devs[d] {
        assert IdsUpTo(s.devs[d].cus[c], s.serviceId, s.poolId);
      } else {
        IdleDevice(s'.devs[d]);
        assert CuInv(s'.devs[d].cus[c]);
        IdleIds(s'.devs[d].cus[c], s'.serviceId, s'.poolId);
      }
    }
  }

  lemma OnlyIdsIds(s: SysState, s': SysState)
    requires IdsFresh(s) && OnlyIds(s, s')
    ensures IdsFresh(s')
  {
    forall d, c | 0 <= d < |s'.devs| && 0 <= c < |s'.devs[d].cus|
      ensures IdsUpTo(s'.devs[d].cus[c], s'.serviceId, s'.poolId) {
      assert SameUnitsOn(s.devs[d], s'.devs[d]);
      assert IdsUpTo(s.devs[d].cus[c], s.serviceId, s.poolId);
    }
  }

  lemma SameTablesOnlyIds(s: SysState, s': SysState)
    requires SameTables(s, s') && s'.poolId >= s.poolId
    ensures OnlyIds(s, s')
  {
    forall e | 0 <= e < |s.devs| ensures SameUnitsOn(s.devs[e], s'.devs[e]) {
      assert s'.devs[e].(drift := 0) == s.devs[e].(drift := 0);
    }
  }

  lemma StepKeepsIds(s: SysState, k: Kind, s': SysState)
    requires Good(s) && s.serviceId < MAX_ID && s.poolId < MAX_ID && StepOf(s, k, s')
    requires k.Slots? ==> k.p == NextId(s.poolId)
    ensures IdsFresh(s')
  {
    hide IdsFresh, Inv, Changed, PoolsAdded, RelinquishedFrom, AllReloaded, OnlyIds;
    match k
    case Channels(pools) => ChangedIds(s, s', pools);
    case Slots(p) =>
      if SameTables(s, s') && s'.poolId == s.poolId {
        SameTablesOnlyIds(s, s');
        OnlyIdsIds(s, s');
      } else {
        SlotsIds(s, s', p);
      }
    case Dropped(p) =>
      if s' != s { DroppedIds(s, p, s', if RelinquishedFrom(s, 0, p, s', SUCCESS) then SUCCESS else ERROR); }
    case Gone(client) => GoneIds(s, client, s');
    case Reloads => ReloadedIds(s, s');
    case Nothing => OnlyIdsIds(s, s');
  }

  lemma SlotsIds(s: SysState, s': SysState, p: nat)
    requires Good(s) && s.poolId < MAX_ID && p == NextId(s.poolId) && PoolsAdded(s, s', {p}) && s'.poolId == p
    ensures IdsFresh(s')
  {
    AddedIds(s, s', p);
  }

  /** Every request keeps the invariant of runs. */
  lemma StepKeepsGood(s: SysState, op: Op)
    requires Good(s) && Enabled(s, op)
    ensures Good(Apply(s, op))
  {
    EveryStep(s, op);
    StepKeepsIds(s, KindOf(s, op), Apply(s, op));
  }

  // ---------------------------------------------------------------------------------
  // Runs
  // ---------------------------------------------------------------------------------

  ghost predicate Runs(s: SysState, ops: seq<Op>)
    requires Good(s)
    decreases |ops|
  {
    ops == [] || (Enabled(s, ops[0]) && (StepKeepsGood(s, ops[0]); Runs(Apply(s, ops[0]), ops[1..])))
  }

  ghost function After(s: SysState, ops: seq<Op>): SysState
    requires Good(s) && Runs(s, ops)
    decreases |ops|
  {
    if ops == [] then s
    else
      StepKeepsGood(s, ops[0]);
      After(Apply(s, ops[0]), ops[1..])
  }

  /** The database as the daemon starts: so many devices, none loaded. */
  function Initial(n: nat): SysState {
    SysState(seq(n, i => DevState(false, false, 0, [], EmptyTable(), 0)), 0, 0)
  }

  lemma InitialIsGood(n: nat)
    requires n <= MAX_DEVICES
    ensures Good(Initial(n))
  {
    forall d | 0 <= d < n ensures DevInv(Initial(n).devs[d]) { UnusedInv(Initial(n).devs[d]); }
  }

  /** Whatever requests come, in whatever order, from however many clients: the tables stay
      consistent, and no table ever holds an id that is still to be given out. */
  lemma {:induction false} EveryRunIsGood(s: SysState, ops: seq<Op>)
    requires Good(s) && Runs(s, ops)
    ensures Good(After(s, ops))
    decreases |ops|
  {
    if ops != [] {
      StepKeepsGood(s, ops[0]);
      EveryRunIsGood(Apply(s, ops[0]), ops[1..]);
    }
  }
}
