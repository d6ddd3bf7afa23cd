/** Relinquishing a pool in any state: what it removes, what it refuses, and the probe that
    reserves pools until it fails and then gives them all back. */
module RelinquishModel {
  import opened Tables
  import opened Sums
  import opened CuModel
  import opened DeviceModel
  import opened SystemModel
  import opened PoolModel
  import opened PoolTransaction

  // ---------------------------------------------------------------------------------
  // Relinquish, unit by unit
  // ---------------------------------------------------------------------------------

  /** The pool is in use on none of the units i..j. */
  ghost predicate FreeUpTo(cus: seq<CuState>, i: nat, j: nat, p: nat) {
    forall k :: i <= k <= j && k < |cus| ==> !PoolInUse(cus[k], p)
  }

  ghost predicate FreeOn(dev: DevState, p: nat) {
    forall k :: 0 <= k < |dev.cus| ==> !PoolInUse(dev.cus[k], p)
  }

  ghost predicate FreeOnFrom(cus: seq<CuState>, i: nat, p: nat) {
    forall k :: i <= k < |cus| ==> !PoolInUse(cus[k], p)
  }

  ghost predicate UnitsRelinquished(cus: seq<CuState>, i: nat, p: nat, zs: seq<CuState>, ok: bool) {
    && |zs| == |cus|
    && (ok <==> FreeOnFrom(cus, i, p))
    && forall j: nat {:trigger zs[j]} :: j < |cus| ==>
         zs[j] == if i <= j && FreeUpTo(cus, i, j, p) then DropPool(cus[j], p) else cus[j]
  }

  lemma FreeShift(cus: seq<CuState>, i: nat, p: nat)
    requires i < |cus| && !PoolInUse(cus[i], p)
    ensures var cus' := cus[i := DropPool(cus[i], p)];
            && (FreeOnFrom(cus', i + 1, p) <==> FreeOnFrom(cus, i, p))
            && forall j: nat :: i <= j ==> (FreeUpTo(cus', i + 1, j, p) <==> FreeUpTo(cus, i, j, p))
  {
    var cus' := cus[i := DropPool(cus[i], p)];
    assert forall k :: i < k < |cus| ==> cus'[k] == cus[k];
  }

  lemma {:induction false} RelinquishUnitsSpec(cus: seq<CuState>, i: nat, p: nat)
    requires i <= |cus|
    ensures UnitsRelinquished(cus, i, p, RelinquishUnits(cus, i, p).0, RelinquishUnits(cus, i, p).1)
    decreases |cus| - i
  {
    if i < |cus| && !PoolInUse(cus[i], p) {
      FreeShift(cus, i, p);
      var cus' := cus[i := DropPool(cus[i], p)];
      RelinquishUnitsSpec(cus', i + 1, p);
      assert RelinquishUnits(cus, i, p) == RelinquishUnits(cus', i + 1, p);
      assert FreeUpTo(cus, i, i, p);
    }
  }

  /** Unit (d, c) loses its slot of pool p: no unit up to it, in device order, is in use. */
  ghost predicate Reached(s: SysState, from: nat, d: nat, c: nat, p: nat)
    requires d < |s.devs|
  {
    && from <= d
    && (forall e {:trigger s.devs[e]} :: from <= e < d ==> FreeOn(s.devs[e], p))
    && FreeUpTo(s.devs[d].cus, 0, c, p)
  }

  ghost predicate RelinquishedFrom(s: SysState, from: nat, p: nat, s': SysState, status: Status) {
    && |s'.devs| == |s.devs| && s'.serviceId == s.serviceId && s'.poolId == s.poolId
    && status == (if forall e :: from <= e < |s.devs| ==> FreeOn(s.devs[e], p) then SUCCESS else ERROR)
    && forall d: nat {:trigger s'.devs[d]} :: d < |s.devs| ==>
         && s'.devs[d].(cus := []) == s.devs[d].(cus := [])
         && |s'.devs[d].cus| == |s.devs[d].cus|
         && forall c: nat {:trigger s'.devs[d].cus[c]} :: c < |s.devs[d].cus| ==>
              s'.devs[d].cus[c] == if Reached(s, from, d, c, p) then DropPool(s.devs[d].cus[c], p) else s.devs[d].cus[c]
  }

  lemma {:induction false} RelinquishFromSpec(s: SysState, d: nat, p: nat)
    requires d <= |s.devs|
    ensures RelinquishedFrom(s, d, p, RelinquishFrom(s, d, p).0, RelinquishFrom(s, d, p).1)
    decreases |s.devs| - d
  {
    hide DropPool, RelinquishUnits;
    if d < |s.devs| {
      RelinquishUnitsSpec(s.devs[d].cus, 0, p);
      var (cus, ok) := RelinquishUnits(s.devs[d].cus, 0, p);
      var s1 := SetDev(s, d, s.devs[d].(cus := cus));
      if ok {
        assert FreeOn(s.devs[d], p);
        AllFreeUpTo(s.devs[d], p);
        RelinquishFromSpec(s1, d + 1, p);
        OneDeviceOn(s, s1, d, p, RelinquishFrom(s1, d + 1, p).0, RelinquishFrom(s1, d + 1, p).1);
      } else {
        StopsOn(s, d, p, cus);
      }
    }
  }

  lemma AllFreeUpTo(dev: DevState, p: nat)
    requires FreeOn(dev, p)
    ensures forall c: nat :: FreeUpTo(dev.cus, 0, c, p)
  {
  }

  lemma StopsOn(s: SysState, d: nat, p: nat, cus: seq<CuState>)
    requires d < |s.devs| && UnitsRelinquished(s.devs[d].cus, 0, p, cus, false)
    ensures RelinquishedFrom(s, d, p, SetDev(s, d, s.devs[d].(cus := cus)), ERROR)
  {
    assert !FreeOn(s.devs[d], p);
    forall e: nat, c: nat | e < |s.devs| && c < |s.devs[e].cus| && e != d ensures !Reached(s, d, e, c, p) { }
  }

  lemma OneDeviceOn(s: SysState, s1: SysState, d: nat, p: nat, s': SysState, status: Status)
    requires d < |s.devs| && FreeOn(s.devs[d], p)
    requires |s1.devs| == |s.devs| && s1 == SetDev(s, d, s1.devs[d])
    requires s1.devs[d].(cus := []) == s.devs[d].(cus := []) && |s1.devs[d].cus| == |s.devs[d].cus|
    requires forall c: nat {:trigger s1.devs[d].cus[c]} :: c < |s.devs[d].cus| ==>
      s1.devs[d].cus[c] == DropPool(s.devs[d].cus[c], p)
    requires RelinquishedFrom(s1, d + 1, p, s', status)
    ensures RelinquishedFrom(s, d, p, s', status)
  {
    forall e: nat, c: nat | e < |s.devs| && c < |s.devs[e].cus|
      ensures Reached(s, d, e, c, p) <==> e == d || Reached(s1, d + 1, e, c, p)
    {
      if e > d { assert s1.devs[e] == s.devs[e]; }
      assert forall f :: d < f < |s.devs| ==> s1.devs[f] == s.devs[f];
    }
    assert forall f :: d < f < |s.devs| ==> s1.devs[f] == s.devs[f];
  }

  /** Dropping a pool that is not in use frees exactly the slot's load, and keeps the other
      slots in order. */
  lemma DropUnused(cu: CuState, p: nat)
    requires CuInv(cu) && !PoolInUse(cu, p)
    ensures var cu' := DropPool(cu, p);
            && CuInv(cu') && cu' == cu.(reserves := cu'.reserves)
            && Used(cu') == Used(cu) - Held(cu, p)
            && Reserved(cu'.reserves) == Reserved(cu.reserves) - Held(cu, p)
            && p !in Pools(cu'.reserves)
            && cu'.reserves == (var k := FindSlot(cu.reserves, p);
               if k < |cu.reserves| then DeleteAt(cu.reserves, k) else cu.reserves)
  {
    DropPoolKeepsInv(cu, p);
    var k := FindSlot(cu.reserves, p);
    if k < |cu.reserves| {
      DropSlotKeepsInv(cu, k);
      assert SlotLoads(DropPool(cu, p).reserves) == DeleteAt(SlotLoads(cu.reserves), k);
      SumDelete(SlotLoads(cu.reserves), k);
    }
  }

  /** Relinquish reports an error exactly when the pool is in use somewhere. It then has
      dropped the pool's slots on the units before the first one in use, and on no other;
      otherwise it has dropped all of them. A unit in use is never touched. */
  lemma RelinquishSpec(s: SysState, p: nat)
    requires Inv(s) && p != 0
    ensures RelinquishedFrom(s, 0, p, Relinquish(s, p).0, Relinquish(s, p).1)
    ensures Inv(Relinquish(s, p).0)
  {
    RelinquishFromSpec(s, 0, p);
    var s' := Relinquish(s, p).0;
    forall d | 0 <= d < |s.devs| ensures DevInv(s'.devs[d]) {
      var x, y := s.devs[d], s'.devs[d];
      assert DevInv(x);
      forall c | 0 <= c < |y.cus| ensures CuInv(y.cus[c]) && y.cus[c].channels == x.cus[c].channels {
        assert CuInv(x.cus[c]);
        DropPoolKeepsInv(x.cus[c], p);
      }
      forall b: nat ensures CusTotal(LiveChannels(b), y.cus) == CusTotal(LiveChannels(b), x.cus) {
        assert CuWeights(LiveChannels(b), y.cus) == CuWeights(LiveChannels(b), x.cus);
      }
      SameLiveCounts(x, y);
    }
  }

  lemma SameChannels(cu: CuState, p: nat)
    ensures DropPool(cu, p).channels == cu.channels
  {
  }

  /** Dropping slots on one device, whether or not it stops early, keeps the device's invariant. */
  lemma RelinquishDevInv(dev: DevState, p: nat)
    requires DevInv(dev)
    ensures DevInv(dev.(cus := RelinquishUnits(dev.cus, 0, p).0))
  {
    hide RefsMatch, CuInv, DropPool;
    RelinquishUnitsSpec(dev.cus, 0, p);
    var cus := RelinquishUnits(dev.cus, 0, p).0;
    forall c | 0 <= c < |cus| ensures CuInv(cus[c]) && cus[c].channels == dev.cus[c].channels {
      assert CuInv(dev.cus[c]);
      DropPoolKeepsInv(dev.cus[c], p);
      SameChannels(dev.cus[c], p);
    }
    forall b: nat ensures CusTotal(LiveChannels(b), cus) == CusTotal(LiveChannels(b), dev.cus) {
      assert CuWeights(LiveChannels(b), cus) == CuWeights(LiveChannels(b), dev.cus);
    }
    SameLiveCounts(dev, dev.(cus := cus));
  }

  // ---------------------------------------------------------------------------------
  // The probe for pools
  // ---------------------------------------------------------------------------------

  lemma AddedIds(s: SysState, s': SysState, p: nat)
    requires Inv(s) && AllIdsUpTo(s, s.serviceId, s.poolId) && PoolsAdded(s, s', {p}) && s.poolId <= p
    ensures AllIdsUpTo(s', s.serviceId, p)
  {
    forall d, c | 0 <= d < |s'.devs| && 0 <= c < |s'.devs[d].cus| ensures IdsUpTo(s'.devs[d].cus[c], s.serviceId, p) {
      assert DevAdded(s.devs[d], s'.devs[d], {p});
      var x, y := s.devs[d].cus[c], s'.devs[d].cus[c];
      assert SlotsAdded(x, y, {p}) && IdsUpTo(x, s.serviceId, s.poolId);
      forall i | 0 <= i < |y.reserves| ensures y.reserves[i].poolId <= p {
        if i < |x.reserves| { assert y.reserves[i] == x.reserves[i]; }
      }
    }
  }

  /** On one unit, the slots of one new pool take their load from the spare load. */
  lemma AddedOnUnit(x: CuState, y: CuState, p: nat)
    requires CuInv(y) && SlotsAdded(x, y, {p}) && Fresh(x, {p})
    ensures Used(y) == Used(x) + Held(y, p)
  {
    var n := |x.reserves|;
    if n < |y.reserves| {
      var last := |y.reserves| - 1;
      assert y.reserves[last].poolId == p && y.reserves[n].poolId == p;
      assert PoolIds(y.reserves)[last] == PoolIds(y.reserves)[n];
      assert last == n;
      assert DropSlot(y, n) == x by { assert DeleteAt(y.reserves, n) == x.reserves; }
      DropSlotKeepsInv(y, n);
      FreshHoldsNothing(x, y, {p}, p);
      forall i | 0 <= i < n ensures y.reserves[i].poolId != p { assert y.reserves[i] == x.reserves[i]; }
      FoundSlot(y.reserves, p, n);
    } else {
      assert y.reserves == x.reserves;
      forall i | 0 <= i < n ensures PoolIds(y.reserves)[i] != p { assert x.reserves[i].poolId !in {p}; }
    }
  }

  lemma AddedSpare(s: SysState, s': SysState, p: nat)
    requires Reserving(s, s', {p})
    ensures SpareTotal(s') == SpareTotal(s) - HeldTotal(s', p)
  {
    hide DevInv, DevAdded, CusTotal;
    var sp, sp', h := DevWeights(AllUnits(SpareLoad), s.devs), DevWeights(AllUnits(SpareLoad), s'.devs),
      DevWeights(AllUnits(HeldFor(p)), s'.devs);
    forall d | 0 <= d < |s.devs| ensures sp[d] == sp'[d] + h[d] {
      assert DevInv(s'.devs[d]) && DevAdded(s.devs[d], s'.devs[d], {p});
      AddedSpareOn(s.devs[d], s'.devs[d], p);
    }
    SumAdd(sp', h, sp);
  }

  lemma AddedSpareOn(x: DevState, y: DevState, p: nat)
    requires DevInv(y) && DevAdded(x, y, {p})
    ensures CusTotal(SpareLoad, x.cus) == CusTotal(SpareLoad, y.cus) + CusTotal(HeldFor(p), y.cus)
  {
    forall c | 0 <= c < |x.cus|
      ensures WeighCu(SpareLoad, x.cus[c]) == WeighCu(SpareLoad, y.cus[c]) + WeighCu(HeldFor(p), y.cus[c]) {
      assert CuInv(y.cus[c]) && SlotsAdded(x.cus[c], y.cus[c], {p});
      AddedOnUnit(x.cus[c], y.cus[c], p);
    }
    SumAdd(CuWeights(SpareLoad, y.cus), CuWeights(HeldFor(p), y.cus), CuWeights(SpareLoad, x.cus));
  }

  lemma SpareNonNegative(s: SysState)
    requires Inv(s)
    ensures SpareTotal(s) >= 0
  {
    forall d | 0 <= d < |s.devs| ensures WeighDev(AllUnits(SpareLoad), s.devs[d]) >= 0 {
      assert DevInv(s.devs[d]);
      forall c | 0 <= c < |s.devs[d].cus| ensures WeighCu(SpareLoad, s.devs[d].cus[c]) >= 0 {
        assert CuInv(s.devs[d].cus[c]);
      }
      SumNonNegative(CuWeights(SpareLoad, s.devs[d].cus));
    }
    SumNonNegative(DevWeights(AllUnits(SpareLoad), s.devs));
  }

  /** A state the pool probe can start from: the pool ids cannot wrap while it runs. */
  ghost predicate PoolProbeable(s: SysState) {
    Inv(s) && IdsFresh(s) && s.poolId + SpareTotal(s) < MAX_ID
  }

  ghost predicate UsesSpare(s: SysState, s': SysState, p: nat) {
    && PoolProbeable(s')
    && 0 <= SpareTotal(s') < SpareTotal(s)
    && s'.poolId == s.poolId + 1 == p
    && Reserving(s, s', {p})
  }

  lemma GrantedAsksForMore(s: SysState, q: PoolRequest)
    ensures ReservePool(s, q).1 != 0 && !Endless(q) ==> q.listNum + q.xclbinNum > 0
  {
  }

  lemma OutcomeUsesSpare(s: SysState, q: PoolRequest, whole: seq<nat>, s': SysState, p: nat)
    requires PoolProbeable(s) && q.listNum + q.xclbinNum > 0 && s.poolId < MAX_ID
    requires p != 0 && PoolOutcome(s, q, whole, s', p)
    ensures UsesSpare(s, s', p)
  {
    AddedSpare(s, s', p);
    AddedIds(s, s', p);
    SpareNonNegative(s');
  }

  /** Nothing is asked for, and nothing is wrong with that: such a request is granted whenever it
      is made. */
  predicate Endless(q: PoolRequest) {
    q.listNum == 0 && q.xclbinNum == 0 && |q.reqs| <= MAX_LIST
  }

  /** Any other request is refused, or lowers the spare load. */
  lemma PoolUsesSpare(s: SysState, q: PoolRequest)
    requires PoolProbeable(s) && !Endless(q)
    ensures var (s', p) := ReservePool(s, q);
            if p == 0 then SameTables(s, s') && s'.poolId == s.poolId && Inv(s') else UsesSpare(s, s', p)
  {
    SpareNonNegative(s);
    GrantedAsksForMore(s, q);
    var whole := ReservePoolTransaction(s, q);
    if ReservePool(s, q).1 != 0 { OutcomeUsesSpare(s, q, whole, ReservePool(s, q).0, ReservePool(s, q).1); }
  }

  /** Reserves pools until that fails. It ends because every pool lowers the spare load. */
  ghost function DrainPools(s: SysState, q: PoolRequest, acc: seq<nat>): (SysState, seq<nat>)
    requires PoolProbeable(s) && !Endless(q)
    decreases SpareTotal(s)
  {
    var (s1, p) := ReservePool(s, q);
    if p == 0 then (s1, acc)
    else
      PoolUsesSpare(s, q);
      DrainPools(s1, q, acc + [p])
  }

  function RelinquishAll(s: SysState, ps: seq<nat>): SysState
    decreases |ps|
  {
    if ps == [] then s else RelinquishAll(Relinquish(s, ps[0]).0, ps[1..])
  }

  ghost function ProbePool(s: SysState, q: PoolRequest): (SysState, nat)
    requires PoolProbeable(s) && !Endless(q)
  {
    var (s1, ps) := DrainPools(s, q, []);
    (RelinquishAll(s1, ps), |ps|)
  }

  function IdSet(ps: seq<nat>): set<nat> {
    set p | p in ps
  }

  /** Additions of one more pool on top of others. */
  lemma AddedTwice(a: SysState, s: SysState, s': SysState, ps: set<nat>, p: nat)
    requires PoolsAdded(a, s, ps) && PoolsAdded(s, s', {p})
    ensures PoolsAdded(a, s', ps + {p})
  {
    forall d | 0 <= d < |a.devs| ensures DevAdded(a.devs[d], s'.devs[d], ps + {p}) {
      assert DevAdded(a.devs[d], s.devs[d], ps) && DevAdded(s.devs[d], s'.devs[d], {p});
      forall c | 0 <= c < |a.devs[d].cus|
        ensures SlotsAdded(a.devs[d].cus[c], s'.devs[d].cus[c], ps + {p}) && Fresh(a.devs[d].cus[c], ps + {p})
      {
        UnitAddedTwice(a.devs[d].cus[c], s.devs[d].cus[c], s'.devs[d].cus[c], ps, p);
      }
    }
  }

  lemma UnitAddedTwice(x: CuState, y: CuState, z: CuState, ps: set<nat>, p: nat)
    requires SlotsAdded(x, y, ps) && Fresh(x, ps) && SlotsAdded(y, z, {p}) && Fresh(y, {p})
    ensures SlotsAdded(x, z, ps + {p}) && Fresh(x, ps + {p})
  {
    forall i | |x.reserves| <= i < |z.reserves| ensures z.reserves[i].poolId in ps + {p} {
      if i < |y.reserves| { assert z.reserves[i] == y.reserves[i]; }
    }
    forall i | 0 <= i < |x.reserves| ensures x.reserves[i].poolId !in ps + {p} {
      assert x.reserves[i] == y.reserves[i];
    }
    forall i | 0 <= i < |x.channels| ensures x.channels[i].poolId !in ps + {p} {
      assert x.channels[i] == y.channels[i];
    }
  }

  lemma AddedSameTables(a: SysState, s: SysState, s1: SysState, ps: set<nat>)
    requires PoolsAdded(a, s, ps) && SameTables(s, s1)
    ensures PoolsAdded(a, s1, ps)
  {
    forall d | 0 <= d < |a.devs| ensures DevAdded(a.devs[d], s1.devs[d], ps) {
      assert DevAdded(a.devs[d], s.devs[d], ps);
      assert s.devs[d].(drift := 0) == s1.devs[d].(drift := 0);
    }
  }

  lemma {:induction false} DrainPoolsAdds(a: SysState, s: SysState, q: PoolRequest, acc: seq<nat>)
    requires PoolProbeable(s) && !Endless(q)
    requires PoolsAdded(a, s, IdSet(acc)) && Distinct(acc) && forall p :: p in acc ==> p <= s.poolId
    ensures var (s', ps) := DrainPools(s, q, acc);
            Distinct(ps) && Reserving(a, s', IdSet(ps)) && s'.poolId == s.poolId + |ps| - |acc|
    decreases SpareTotal(s)
  {
    hide ReservePool, PoolsAdded, Inv, IdsFresh, SpareTotal, SameTables;
    PoolUsesSpare(s, q);
    var (s1, p) := ReservePool(s, q);
    if p == 0 {
      AddedSameTables(a, s, s1, IdSet(acc));
    } else {
      AddedTwice(a, s, s1, IdSet(acc), p);
      assert IdSet(acc + [p]) == IdSet(acc) + {p};
      DrainPoolsAdds(a, s1, q, acc + [p]);
    }
  }

  lemma {:induction false} RelinquishAllRestores(a: SysState, b: SysState, ps: seq<nat>)
    requires Reserving(a, b, IdSet(ps)) && Distinct(ps)
    ensures SameTables(a, RelinquishAll(b, ps)) && RelinquishAll(b, ps).poolId == b.poolId
    decreases |ps|
  {
    if ps == [] {
      assert IdSet(ps) == {};
      NothingAdded(a, b);
    } else {
      RelinquishAdded(a, b, IdSet(ps), ps[0]);
      assert IdSet(ps) - {ps[0]} == IdSet(ps[1..]);
      RelinquishAllRestores(a, Relinquish(b, ps[0]).0, ps[1..]);
    }
  }

  /** The pool probe ends and gives every table back; the pool id moves on by the count. */
  lemma ProbePoolRestores(s: SysState, q: PoolRequest)
    requires PoolProbeable(s) && !Endless(q)
    ensures SameTables(s, ProbePool(s, q).0)
    ensures ProbePool(s, q).0.poolId == s.poolId + ProbePool(s, q).1
  {
    assert IdSet([]) == {};
    forall d | 0 <= d < |s.devs| ensures DevAdded(s.devs[d], s.devs[d], {}) {
      forall c | 0 <= c < |s.devs[d].cus| ensures SlotsAdded(s.devs[d].cus[c], s.devs[d].cus[c], {}) { }
    }
    DrainPoolsAdds(s, s, q, []);
    var (s1, ps) := DrainPools(s, q, []);
    RelinquishAllRestores(s, s1, ps);
  }

  /** The database after n rounds of the probe's loop, were it to go on whatever happens. */
  function Rounds(s: SysState, q: PoolRequest, n: nat): SysState {
    if n == 0 then s else ReservePool(Rounds(s, q, n - 1), q).0
  }

  /** A request for nothing is granted in every round, and changes no table: the loop that waits
      for a refusal goes on for ever. */
  lemma {:induction false} EndlessIsAlwaysGranted(s: SysState, q: PoolRequest, n: nat)
    requires Endless(q)
    ensures ReservePool(Rounds(s, q, n), q).1 != 0 && Rounds(s, q, n) == s.(poolId := Rounds(s, q, n).poolId)
  {
    if n > 0 { EndlessIsAlwaysGranted(s, q, n - 1); }
  }

  /** Any other request is refused in some round. */
  lemma {:induction false} RefusedInSomeRound(a: SysState, s: SysState, q: PoolRequest, k: nat) returns (n: nat)
    requires PoolProbeable(s) && !Endless(q) && s == Rounds(a, q, k)
    ensures ReservePool(Rounds(a, q, n), q).1 == 0
    decreases SpareTotal(s)
  {
    PoolUsesSpare(s, q);
    var (s1, p) := ReservePool(s, q);
    if p == 0 { n := k; } else { n := RefusedInSomeRound(a, s1, q, k + 1); }
  }

  /** The pool probe's loop ends if and only if the request is not one for nothing. */
  lemma PoolProbeEnds(s: SysState, q: PoolRequest)
    requires PoolProbeable(s)
    ensures (exists n: nat :: ReservePool(Rounds(s, q, n), q).1 == 0) <==> !Endless(q)
  {
    if Endless(q) {
      forall n: nat ensures ReservePool(Rounds(s, q, n), q).1 != 0 { EndlessIsAlwaysGranted(s, q, n); }
    } else {
      var n := RefusedInSomeRound(s, s, q, 0);
    }
  }
}
