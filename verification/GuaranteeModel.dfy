/** Two promises over whole runs: what a pool reserved stays reserved for it, however full the
    rest gets; and a device's load counter mirrors its units, as long as no client is recycled. */
module GuaranteeModel {
  import opened Tables
  import opened Sums
  import opened CuModel
  import opened DeviceModel
  import opened SystemModel
  import opened RecycleModel
  import opened PoolModel
  import opened RelinquishModel
  import opened LoadModel
  import opened ChangeModel
  import opened RunModel

  // ---------------------------------------------------------------------------------
  // A pool's slot is kept
  // ---------------------------------------------------------------------------------

  function SlotFor(cu: CuState, p: nat): Slot
    requires p in Pools(cu.reserves)
  {
    cu.reserves[FindSlot(cu.reserves, p)]
  }

  /** The pool's slot is as it was, and no more of it is in use than was. */
  ghost predicate SlotKept(x: CuState, y: CuState, p: nat)
    requires p in Pools(x.reserves)
  {
    && p in Pools(y.reserves) && y.names == x.names && SlotFor(y, p) == SlotFor(x, p)
    && Total(LoadInPool(p), y.channels) <= Total(LoadInPool(p), x.channels)
  }

  ghost predicate PoolKeptOn(x: DevState, y: DevState, p: nat) {
    forall c {:trigger x.cus[c]} :: 0 <= c < |x.cus| && p in Pools(x.cus[c].reserves) ==>
      c < |y.cus| && SlotKept(x.cus[c], y.cus[c], p)
  }

  ghost predicate PoolKept(s: SysState, s': SysState, p: nat) {
    && |s'.devs| == |s.devs|
    && forall d {:trigger PoolKeptOn(s.devs[d], s'.devs[d], p)} :: 0 <= d < |s.devs| ==>
       PoolKeptOn(s.devs[d], s'.devs[d], p)
  }

  lemma PoolKeptTwice(s: SysState, s1: SysState, s2: SysState, p: nat)
    requires PoolKept(s, s1, p) && PoolKept(s1, s2, p)
    ensures PoolKept(s, s2, p)
  {
    forall d | 0 <= d < |s.devs| ensures PoolKeptOn(s.devs[d], s2.devs[d], p) {
      assert PoolKeptOn(s.devs[d], s1.devs[d], p) && PoolKeptOn(s1.devs[d], s2.devs[d], p);
    }
  }

  /** Same slots and no more load of the pool on any channel. */
  lemma SlotStays(x: CuState, y: CuState, p: nat)
    requires y.names == x.names && y.reserves == x.reserves && |y.channels| == |x.channels| && p in Pools(x.reserves)
    requires forall k :: 0 <= k < |x.channels| ==>
      Weigh(LoadInPool(p), y.channels[k]) <= Weigh(LoadInPool(p), x.channels[k])
    ensures SlotKept(x, y, p)
  {
    TotalMonotone(LoadInPool(p), y.channels, x.channels);
  }

  lemma SameDeviceKept(x: DevState, y: DevState, p: nat)
    requires y.cus == x.cus
    ensures PoolKeptOn(x, y, p)
  {
  }

  /** Among slots with distinct pool ids, the one found is the only one. */
  lemma FoundIs(rs: seq<Slot>, p: nat, slot: Slot)
    requires Distinct(PoolIds(rs)) && slot in rs && slot.poolId == p
    ensures p in Pools(rs) && rs[FindSlot(rs, p)] == slot
  {
    var i :| 0 <= i < |rs| && rs[i] == slot;
    assert PoolIds(rs)[i] == p;
    var k := FindSlot(rs, p);
    assert PoolIds(rs)[k] == p;
  }

  // ---------------------------------------------------------------------------------
  // Steps that spare a pool
  // ---------------------------------------------------------------------------------

  /** No slot of the pool was reserved by the client. */
  ghost predicate NotReservedBy(s: SysState, p: nat, client: nat) {
    forall d, c {:trigger s.devs[d].cus[c]} :: 0 <= d < |s.devs| && 0 <= c < |s.devs[d].cus| ==>
      p in Pools(s.devs[d].cus[c].reserves) ==>
      SlotFor(s.devs[d].cus[c], p).clientId != client
  }

  /** The step does not allocate from the pool, relinquish it, or recycle who reserved it. */
  ghost predicate Spares(s: SysState, k: Kind, p: nat) {
    match k
    case Channels(pools) => p !in pools
    case Slots(q) => q != p
    case Dropped(q) => q != p
    case Gone(client) => NotReservedBy(s, p, client)
    case Reloads => true
    case Nothing => true
  }

  lemma ChannelsKeep(s: SysState, s': SysState, pools: set<nat>, p: nat)
    requires Changed(s, s', pools) && p !in pools && p != 0
    ensures PoolKept(s, s', p)
  {
    var id := NextId(s.serviceId);
    forall d | 0 <= d < |s.devs| ensures PoolKeptOn(s.devs[d], s'.devs[d], p) {
      assert DevChanged(s.devs[d], s'.devs[d], id, pools);
      forall c | 0 <= c < |s.devs[d].cus| && p in Pools(s.devs[d].cus[c].reserves)
        ensures SlotKept(s.devs[d].cus[c], s'.devs[d].cus[c], p)
      {
        var x, y := s.devs[d].cus[c], s'.devs[d].cus[c];
        assert CuChanged(x, y, id, pools);
        forall k | 0 <= k < |x.channels|
          ensures Weigh(LoadInPool(p), y.channels[k]) <= Weigh(LoadInPool(p), x.channels[k]) {
          assert ChannelChanged(x.channels[k], y.channels[k], x.reserves, id, pools);
        }
        SlotStays(x, y, p);
      }
    }
  }

  lemma OnlyIdsKeep(s: SysState, s': SysState, p: nat)
    requires OnlyIds(s, s')
    ensures PoolKept(s, s', p)
  {
    forall d | 0 <= d < |s.devs| ensures PoolKeptOn(s.devs[d], s'.devs[d], p) {
      assert SameUnitsOn(s.devs[d], s'.devs[d]);
      SameDeviceKept(s.devs[d], s'.devs[d], p);
    }
  }

  lemma SlotsKeep(s: SysState, s': SysState, q: nat, p: nat)
    requires PoolsAdded(s, s', {q})
    ensures PoolKept(s, s', p)
  {
    forall d | 0 <= d < |s.devs| ensures PoolKeptOn(s.devs[d], s'.devs[d], p) {
      assert DevAdded(s.devs[d], s'.devs[d], {q});
      forall c | 0 <= c < |s.devs[d].cus| && p in Pools(s.devs[d].cus[c].reserves)
        ensures SlotKept(s.devs[d].cus[c], s'.devs[d].cus[c], p)
      {
        var x, y := s.devs[d].cus[c], s'.devs[d].cus[c];
        assert SlotsAdded(x, y, {q});
        var k := FindSlot(x.reserves, p);
        assert forall j :: 0 <= j < |x.reserves| ==> y.reserves[j] == x.reserves[j];
        FoundSlot(y.reserves, p, k);
      }
    }
  }

  lemma DroppedKeep(s: SysState, s': SysState, q: nat, p: nat, status: Status)
    requires Inv(s) && RelinquishedFrom(s, 0, q, s', status) && p != q
    ensures PoolKept(s, s', p)
  {
    forall d | 0 <= d < |s.devs| ensures PoolKeptOn(s.devs[d], s'.devs[d], p) {
      assert DevInv(s.devs[d]);
      forall c | 0 <= c < |s.devs[d].cus| && p in Pools(s.devs[d].cus[c].reserves)
        ensures SlotKept(s.devs[d].cus[c], s'.devs[d].cus[c], p)
      {
        var x, y := s.devs[d].cus[c], s'.devs[d].cus[c];
        assert CuInv(x);
        DropKeepsSlot(x, q, p);
      }
    }
  }

  lemma DropKeepsSlot(x: CuState, q: nat, p: nat)
    requires CuInv(x) && p in Pools(x.reserves) && p != q
    ensures SlotKept(x, DropPool(x, q), p)
  {
    DropPoolKeepsInv(x, q);
    var i, k := FindSlot(x.reserves, p), FindSlot(x.reserves, q);
    var rs := DropPool(x, q).reserves;
    if k < |x.reserves| {
      assert rs[if i < k then i else i - 1] == x.reserves[i];
      FoundIs(rs, p, x.reserves[i]);
    }
  }

  lemma GoneKeep(s: SysState, s': SysState, client: nat, p: nat)
    requires Inv(s) && client != 0 && StepOf(s, Gone(client), s') && NotReservedBy(s, p, client)
    ensures PoolKept(s, s', p)
  {
    forall d | 0 <= d < |s.devs| ensures PoolKeptOn(s.devs[d], s'.devs[d], p) {
      assert DevInv(s.devs[d]);
      assert s'.devs[d] == RecycledDev(s.devs[d], client);
      forall c | 0 <= c < |s.devs[d].cus| && p in Pools(s.devs[d].cus[c].reserves)
        ensures SlotKept(s.devs[d].cus[c], s'.devs[d].cus[c], p)
      {
        assert CuInv(s.devs[d].cus[c]);
        if s.devs[d].isLoaded { RecycleKeepsSlot(s.devs[d].cus[c], client, p); }
      }
    }
  }

  lemma RecycleKeepsSlot(x: CuState, client: nat, p: nat)
    requires CuInv(x) && client != 0 && p in Pools(x.reserves) && SlotFor(x, p).clientId != client
    ensures SlotKept(x, Recycled(x, client), p)
  {
    UnitRecycled(x, client);
    WithoutClientMembers(x.reserves, client);
    FoundIs(Recycled(x, client).reserves, p, SlotFor(x, p));
    TotalMonotone(LoadInPool(p), Freed(x.channels, client), x.channels);
  }

  lemma ReloadsKeep(s: SysState, s': SysState, p: nat)
    requires Inv(s) && AllReloaded(s, s')
    ensures PoolKept(s, s', p)
  {
    forall d | 0 <= d < |s.devs| ensures PoolKeptOn(s.devs[d], s'.devs[d], p) {
      assert DevInv(s.devs[d]) && Reloaded(s.devs[d], s'.devs[d]);
      forall c | 0 <= c < |s.devs[d].cus| && p in Pools(s.devs[d].cus[c].reserves) ensures Busy(s.devs[d]) {
        assert CuInv(s.devs[d].cus[c]);
        IdleIffUnused(s.devs[d].cus[c]);
      }
    }
  }

  lemma StepKeepsPool(s: SysState, k: Kind, s': SysState, p: nat)
    requires Good(s) && StepOf(s, k, s') && Spares(s, k, p) && p != 0 && (k.Gone? ==> k.client != 0)
    ensures PoolKept(s, s', p)
  {
    hide Inv, IdsFresh, PoolKept, Changed, PoolsAdded, SameTables, RelinquishedFrom, AllReloaded, OnlyIds;
    match k
    case Channels(pools) => ChangedKeeps(s, s', pools, p);
    case Slots(q) =>
      if PoolsAdded(s, s', {q}) { SlotsKeep(s, s', q, p); } else { SameTablesOnlyIds(s, s'); OnlyIdsKeep(s, s', p); }
    case Dropped(q) =>
      if s' == s { ItselfKeeps(s, p); }
      else { DroppedKeep(s, s', q, p, if RelinquishedFrom(s, 0, q, s', SUCCESS) then SUCCESS else ERROR); }
    case Gone(client) => GoneKeep(s, s', client, p);
    case Reloads => ReloadsKeep(s, s', p);
    case Nothing => OnlyIdsKeep(s, s', p);
  }

  lemma ItselfKeeps(s: SysState, p: nat)
    ensures PoolKept(s, s, p)
  {
    forall d | 0 <= d < |s.devs| ensures PoolKeptOn(s.devs[d], s.devs[d], p) {
      SameDeviceKept(s.devs[d], s.devs[d], p);
    }
  }

  lemma ChangedKeeps(s: SysState, s': SysState, pools: set<nat>, p: nat)
    requires ChangedAndAdvanced(s, s', pools) && p !in pools && p != 0
    ensures PoolKept(s, s', p)
  {
    if s'.serviceId == s.serviceId {
      ChannelsKeep(s, s', {}, p);
    } else {
      var s1 := s'.(serviceId := s.serviceId);
      ChannelsKeep(s, s1, pools, p);
      forall d | 0 <= d < |s.devs| ensures PoolKeptOn(s.devs[d], s'.devs[d], p) {
        assert PoolKeptOn(s.devs[d], s1.devs[d], p);
      }
    }
  }

  // ---------------------------------------------------------------------------------
  // The guarantee
  // ---------------------------------------------------------------------------------

  ghost predicate AllSpare(s: SysState, ops: seq<Op>, p: nat)
    requires Good(s) && Runs(s, ops)
    decreases |ops|
  {
    ops == [] ||
    (Spares(s, KindOf(s, ops[0]), p) && (StepKeepsGood(s, ops[0]); AllSpare(Apply(s, ops[0]), ops[1..], p)))
  }

  lemma {:induction false} RunKeepsPool(s: SysState, ops: seq<Op>, p: nat)
    requires Good(s) && Runs(s, ops) && AllSpare(s, ops, p) && p != 0
    ensures PoolKept(s, After(s, ops), p)
    decreases |ops|
  {
    if ops == [] {
      ItselfKeeps(s, p);
    } else {
      var s1 := Apply(s, ops[0]);
      EveryStep(s, ops[0]);
      StepKeepsGood(s, ops[0]);
      StepKeepsPool(s, KindOf(s, ops[0]), s1, p);
      RunKeepsPool(s1, ops[1..], p);
      PoolKeptTwice(s, s1, After(s1, ops[1..]), p);
    }
  }

  /** However a run fills the default pool and the other pools: where the pool had room for a
      request, the same unit still has that room, and refuses the request only for want of a
      free channel. */
  lemma ReservationGuarantee(s: SysState, ops: seq<Op>, d: nat, c: nat, req: Request)
    requires Good(s) && Runs(s, ops) && req.poolId != 0 && AllSpare(s, ops, req.poolId)
    requires d < |s.devs| && c < |s.devs[d].cus|
    requires 0 < req.load <= Room(s.devs[d].cus[c], req.poolId)
    ensures var s' := After(s, ops);
            && d < |s'.devs| && c < |s'.devs[d].cus|
            && s'.devs[d].cus[c].names == s.devs[d].cus[c].names
            && Room(s'.devs[d].cus[c], req.poolId) >= Room(s.devs[d].cus[c], req.poolId)
            && (Feasible(s'.devs[d].cus[c], req) <==>
               FirstFree(s'.devs[d].cus[c].channels) < |s'.devs[d].cus[c].channels|)
  {
    RunKeepsPool(s, ops, req.poolId);
    var s' := After(s, ops);
    assert PoolKeptOn(s.devs[d], s'.devs[d], req.poolId);
    assert SlotKept(s.devs[d].cus[c], s'.devs[d].cus[c], req.poolId);
  }

  // ---------------------------------------------------------------------------------
  // Load counters
  // ---------------------------------------------------------------------------------

  /** On every loaded device the load counter is the sum of the units' used loads. */
  ghost predicate Exact(s: SysState) {
    forall d {:trigger s.devs[d]} :: 0 <= d < |s.devs| && s.devs[d].isLoaded ==> s.devs[d].drift == 0
  }

  lemma ChangedExact(s: SysState, s': SysState, pools: set<nat>)
    requires Changed(s, s', pools) && Exact(s)
    ensures Exact(s')
  {
    forall d | 0 <= d < |s'.devs| && s'.devs[d].isLoaded ensures s'.devs[d].drift == 0 {
      assert DevChanged(s.devs[d], s'.devs[d], NextId(s.serviceId), pools);
    }
  }

  lemma StepKeepsExact(s: SysState, k: Kind, s': SysState)
    requires StepOf(s, k, s') && !k.Gone? && Exact(s)
    ensures Exact(s')
  {
    match k
    case Channels(pools) =>
      if s'.serviceId == s.serviceId { ChangedExact(s, s', {}); }
      else { ChangedExact(s, s'.(serviceId := s.serviceId), pools); }
    case Slots(q) => SlotsExact(s, s', q);
    case Dropped(q) =>
      forall d | 0 <= d < |s'.devs|
        ensures s'.devs[d].isLoaded == s.devs[d].isLoaded && s'.devs[d].drift == s.devs[d].drift {
        if s' != s { assert s'.devs[d].(cus := []) == s.devs[d].(cus := []); }
      }
    case Reloads =>
      forall d | 0 <= d < |s'.devs| && s'.devs[d].isLoaded ensures s'.devs[d].drift == 0 {
        assert Reloaded(s.devs[d], s'.devs[d]);
      }
    case Nothing =>
      forall d | 0 <= d < |s'.devs| && s'.devs[d].isLoaded ensures s'.devs[d].drift == 0 {
        assert SameUnitsOn(s.devs[d], s'.devs[d]);
      }
  }

  lemma SlotsExact(s: SysState, s': SysState, q: nat)
    requires Exact(s) && (SameTables(s, s') || PoolsAdded(s, s', {q}))
    ensures Exact(s')
  {
    forall d | 0 <= d < |s'.devs| && s'.devs[d].isLoaded ensures s'.devs[d].drift == 0 {
      if SameTables(s, s') {
        assert s'.devs[d].(drift := 0) == s.devs[d].(drift := 0);
      } else {
        assert DevAdded(s.devs[d], s'.devs[d], {q});
      }
    }
  }

  ghost predicate NobodyDies(ops: seq<Op>) {
    forall i :: 0 <= i < |ops| ==> !ops[i].Dead?
  }

  /** Over any run in which no client is recycled, from exact counters to exact counters. */
  lemma {:induction false} RunKeepsExact(s: SysState, ops: seq<Op>)
    requires Good(s) && Runs(s, ops) && NobodyDies(ops) && Exact(s)
    ensures Exact(After(s, ops))
    decreases |ops|
  {
    if ops != [] {
      EveryStep(s, ops[0]);
      StepKeepsGood(s, ops[0]);
      StepKeepsExact(s, KindOf(s, ops[0]), Apply(s, ops[0]));
      RunKeepsExact(Apply(s, ops[0]), ops[1..]);
    }
  }

  /** An exact load counter lies between 0 and a full load for every unit. */
  lemma ExactLoadInRange(dev: DevState)
    requires DevInv(dev)
    ensures 0 <= CusTotal(UsedLoad, dev.cus) <= MAX_LOAD * |dev.cus|
  {
    var ws, full := CuWeights(UsedLoad, dev.cus), seq(|dev.cus|, i => MAX_LOAD as int);
    forall i | 0 <= i < |ws| ensures 0 <= ws[i] <= full[i] {
      assert CuInv(dev.cus[i]);
      UsedBounds(dev.cus[i]);
    }
    SumNonNegative(ws);
    SumMonotone(ws, full);
    SumConstant(full, MAX_LOAD);
  }
}
