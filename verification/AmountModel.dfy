/** How much a pool holds when each of its lists is confined to one device. Every list is tried on
    the first open device first; a failure there gives the whole pool back, also what earlier lists
    had reserved. So the pool holds what was asked for exactly when there is nothing to lose, or
    when the first open device takes all the lists. */
module AmountModel {
  import opened Tables
  import opened CuModel
  import opened DeviceModel
  import opened SystemModel
  import opened PoolModel
  import opened PoolTransaction

  // ---------------------------------------------------------------------------------
  // What fits on the units of one device
  // ---------------------------------------------------------------------------------

  /** The units after the requests from index i on are reserved one after another, if they fit. */
  function FitList(cus: seq<CuState>, p: nat, reqs: seq<Request>, i: nat): (r: Option<seq<CuState>>)
    requires i <= |reqs|
    ensures r.Some? ==> |r.value| == |cus|
    decreases |reqs| - i
  {
    if i == |reqs| then Some(cus)
    else
      var c := PickReserve(cus, p, reqs[i]);
      if !HasReserveName(reqs[i].names) || c == |cus| then None
      else FitList(cus[c := ReserveSlot(cus[c], p, reqs[i].load, reqs[i].clientId)], p, reqs, i + 1)
  }

  /** Whether the list fits n times in a row. */
  predicate FitTimes(cus: seq<CuState>, p: nat, reqs: seq<Request>, n: nat)
    decreases n
  {
    n == 0 || (FitList(cus, p, reqs, 0).Some? && FitTimes(FitList(cus, p, reqs, 0).value, p, reqs, n - 1))
  }

  /** A list that fits is reserved on the device, and nothing else changes. */
  lemma {:induction false} EachFits(s: SysState, d: nat, p: nat, reqs: seq<Request>, i: nat)
    requires d < |s.devs| && i <= |reqs|
    ensures var r, fit := ReserveEach(s, d, p, reqs, i), FitList(s.devs[d].cus, p, reqs, i);
            && (r.1 == SUCCESS <==> fit.Some?)
            && (fit.Some? ==> r.0 == SetDev(s, d, s.devs[d].(cus := fit.value)))
    decreases |reqs| - i
  {
    hide PickReserve, ReserveSlot, Relinquish;
    if i == |reqs| {
      assert s.devs[d := s.devs[d]] == s.devs;
    } else {
      var c := PickReserve(s.devs[d].cus, p, reqs[i]);
      var (s1, status) := ReserveFromDev(s, p, d, reqs[i]);
      if status == SUCCESS {
        EachFits(s1, d, p, reqs, i + 1);
        assert ReserveEach(s, d, p, reqs, i) == ReserveEach(s1, d, p, reqs, i + 1);
      }
    }
  }

  /** A list that does not fit leaves every unit as it was before the pool. */
  lemma {:induction false} EachGivesBack(a: SysState, b: SysState, d: nat, p: nat, reqs: seq<Request>, i: nat)
    requires Reserving(a, b, {p}) && d < |b.devs| && i <= |reqs| && ReserveEach(b, d, p, reqs, i).1 != SUCCESS
    ensures SameTables(a, ReserveEach(b, d, p, reqs, i).0)
    decreases |reqs| - i
  {
    hide PoolsAdded, Inv, ReserveFromDev, HeldTotal, Relinquish, SameTables;
    if i < |reqs| {
      ReserveFromDevReserves(a, b, {p}, p, d, reqs[i]);
      var (b1, status) := ReserveFromDev(b, p, d, reqs[i]);
      if status == SUCCESS {
        EachGivesBack(a, b1, d, p, reqs, i + 1);
      } else {
        GivenBack(a, b1, {p}, p);
        assert {p} - {p} == {};
        NothingAdded(a, Relinquish(b1, p).0);
      }
    }
  }

  // ---------------------------------------------------------------------------------
  // One list
  // ---------------------------------------------------------------------------------

  /** The device that every list is tried on first. */
  function FirstDevice(s: SysState, reqs: seq<Request>): nat
    requires reqs != []
  {
    NextOpen(s.devs, 0, reqs[0].clientId)
  }

  /** Reservations do not change which devices are open. */
  lemma SameFirstDevice(a: SysState, b: SysState, ps: set<nat>, reqs: seq<Request>)
    requires PoolsAdded(a, b, ps) && reqs != []
    ensures FirstDevice(b, reqs) == FirstDevice(a, reqs)
  {
    forall d | 0 <= d < |a.devs| ensures Open(a.devs[d], reqs[0].clientId) == Open(b.devs[d], reqs[0].clientId) {
      assert DevAdded(a.devs[d], b.devs[d], ps);
      assert b.devs[d].(cus := [], drift := 0) == a.devs[d].(cus := [], drift := 0);
    }
  }

  /** What one list on one device comes to: nothing lost if the first device takes it; all that
      was held lost, if not. */
  ghost predicate ListOnOne(a: SysState, b: SysState, p: nat, reqs: seq<Request>, b': SysState) {
    && reqs != [] && FirstDevice(a, reqs) < |a.devs| == |b.devs| == |b'.devs|
    && Reserving(a, b', {p}) && LoadFrom(reqs, 0) > 0
    && var k := FirstDevice(a, reqs);
    && match FitList(b.devs[k].cus, p, reqs, 0)
       case Some(cus) => HeldTotal(b', p) == HeldTotal(b, p) + LoadFrom(reqs, 0) && b'.devs[k].cus == cus
       case None => HeldTotal(b', p) == LoadFrom(reqs, 0) && b'.devs[k].cus == a.devs[k].cus
  }

  lemma ListOnFirst(a: SysState, b: SysState, p: nat, reqs: seq<Request>)
    requires Reserving(a, b, {p}) && ReserveList(b, p, reqs, true).1 == SUCCESS
    ensures ListOnOne(a, b, p, reqs, ReserveList(b, p, reqs, true).0)
  {
    hide PoolsAdded, Inv, ReserveEach, HeldTotal, NextOpen, SameTables, FitList;
    var k := FirstDevice(b, reqs);
    SameFirstDevice(a, b, {p}, reqs);
    ReserveListReserves(a, b, {p}, p, reqs, true);
    assert |a.devs| == |b.devs| by { SameLength(a, b, {p}); }
    if k < |b.devs| {
      EachFits(b, k, p, reqs, 0);
      ReserveEachReserves(a, b, {p}, k, p, reqs, 0);
      var (b1, status) := ReserveEach(b, k, p, reqs, 0);
      if status != SUCCESS {
        EachGivesBack(a, b, k, p, reqs, 0);
        ReserveSameReserves(a, b1, {p}, k + 1, p, reqs, status);
        assert a.devs[k].cus == b1.devs[k].cus by { SameUnits(a, b1, k); }
        LaterDevices(a, b1, k + 1, p, reqs, status, k);
      }
    }
  }

  lemma SameLength(a: SysState, b: SysState, ps: set<nat>)
    requires PoolsAdded(a, b, ps)
    ensures |a.devs| == |b.devs|
  {
  }

  lemma SameUnits(a: SysState, b: SysState, d: nat)
    requires SameTables(a, b) && d < |a.devs|
    ensures |a.devs| == |b.devs| && a.devs[d].cus == b.devs[d].cus
  {
    assert a.devs[d].(drift := 0) == b.devs[d].(drift := 0);
  }

  /** A search from device d on leaves the units of an earlier device e as they were before the
      pool, once they are. */
  lemma {:induction false} LaterDevices(a: SysState, b: SysState, d: nat, p: nat, reqs: seq<Request>, last: Status,
      e: nat)
    requires Reserving(a, b, {p}) && reqs != [] && e < d <= |b.devs| == |a.devs| && last != SUCCESS
    requires b.devs[e].cus == a.devs[e].cus
    ensures ReserveSame(b, d, p, reqs, last).0.devs[e].cus == a.devs[e].cus
    decreases |b.devs| - d
  {
    hide PoolsAdded, Inv, ReserveEach, HeldTotal, NextOpen, SameTables, FitList;
    var k := NextOpen(b.devs, d, reqs[0].clientId);
    if k < |b.devs| {
      EachFits(b, k, p, reqs, 0);
      ReserveEachReserves(a, b, {p}, k, p, reqs, 0);
      var (b1, status) := ReserveEach(b, k, p, reqs, 0);
      if status != SUCCESS {
        EachGivesBack(a, b, k, p, reqs, 0);
        SameUnits(a, b1, e);
        LaterDevices(a, b1, k + 1, p, reqs, status, e);
      }
    }
  }

  // ---------------------------------------------------------------------------------
  // All lists
  // ---------------------------------------------------------------------------------

  /** n lists: what is held is at most what was, plus n times the list's load; and exactly that if
      the lists fit n times in a row on the first device, or if there is nothing to lose and one
      list only. Otherwise it is less. */
  lemma {:induction false} ListsAmount(a: SysState, b: SysState, p: nat, n: nat, reqs: seq<Request>)
    requires Reserving(a, b, {p}) && HeldTotal(b, p) >= 0 && reqs != [] && FirstDevice(a, reqs) < |a.devs| == |b.devs|
    requires ReserveLists(b, p, n, reqs, true).1 == SUCCESS
    ensures var k, total := FirstDevice(a, reqs), HeldTotal(b, p) + n * LoadFrom(reqs, 0);
            var fits, held := FitTimes(b.devs[k].cus, p, reqs, n), HeldTotal(ReserveLists(b, p, n, reqs, true).0, p);
            && held <= total
            && (fits ==> held == total)
            && (!fits && HeldTotal(b, p) > 0 ==> held < total)
    decreases n
  {
    hide Reserving, ReserveList, HeldTotal, FitList, LoadFrom, FirstDevice;
    if n > 0 {
      var (b1, status) := ReserveList(b, p, reqs, true);
      ListOnFirst(a, b, p, reqs);
      assert n * LoadFrom(reqs, 0) == LoadFrom(reqs, 0) + (n - 1) * LoadFrom(reqs, 0);
      ListsAmount(a, b1, p, n - 1, reqs);
    }
  }

  /** With nothing held before: all of it if the lists fit, or if there is at most one; else less. */
  lemma ListsAmountFromNothing(a: SysState, b: SysState, p: nat, n: nat, reqs: seq<Request>)
    requires Reserving(a, b, {p}) && HeldTotal(b, p) == 0 && reqs != [] && FirstDevice(a, reqs) < |a.devs| == |b.devs|
    requires ReserveLists(b, p, n, reqs, true).1 == SUCCESS &&
      b.devs[FirstDevice(a, reqs)].cus == a.devs[FirstDevice(a, reqs)].cus
    ensures HeldTotal(ReserveLists(b, p, n, reqs, true).0, p) == n * LoadFrom(reqs, 0) <==>
              n <= 1 || FitTimes(b.devs[FirstDevice(a, reqs)].cus, p, reqs, n)
  {
    hide Reserving, ReserveList, HeldTotal, FitList, LoadFrom, FirstDevice;
    if n > 0 {
      var (b1, status) := ReserveList(b, p, reqs, true);
      ListOnFirst(a, b, p, reqs);
      assert n * LoadFrom(reqs, 0) == LoadFrom(reqs, 0) + (n - 1) * LoadFrom(reqs, 0);
      ListsAmount(a, b1, p, n - 1, reqs);
    }
  }

  // ---------------------------------------------------------------------------------
  // Whole devices first
  // ---------------------------------------------------------------------------------

  predicate Qualifies(dev: DevState, uuid: nat) {
    dev.isLoaded && dev.uuid == uuid && !Busy(dev)
  }

  /** How many devices before k are idle and have the xclbin. */
  function IdleBefore(s: SysState, k: nat, uuid: nat): nat
    requires k <= |s.devs|
  {
    if k == 0 then 0 else IdleBefore(s, k - 1, uuid) + if Qualifies(s.devs[k - 1], uuid) then 1 else 0
  }

  /** Device k is among the first n that are idle and have the xclbin. */
  predicate TakenWhole(s: SysState, uuid: nat, n: nat, k: nat)
    requires k < |s.devs|
  {
    Qualifies(s.devs[k], uuid) && IdleBefore(s, k, uuid) < n
  }

  lemma {:induction false} NoneIdleBefore(s: SysState, k: nat, uuid: nat)
    requires k <= NextIdle(s, 0, uuid)
    ensures IdleBefore(s, k, uuid) == 0
  {
    if k > 0 { NoneIdleBefore(s, k - 1, uuid); }
  }

  lemma {:induction false} OneLessIdle(s: SysState, d: nat, dev: DevState, k: nat, uuid: nat)
    requires d < |s.devs| && k <= |s.devs| && Qualifies(s.devs[d], uuid) && !Qualifies(dev, uuid)
    ensures IdleBefore(SetDev(s, d, dev), k, uuid) == IdleBefore(s, k, uuid) - (if d < k then 1 else 0)
  {
    if k > 0 { OneLessIdle(s, d, dev, k - 1, uuid); }
  }

  /** The first n idle devices with the xclbin are taken as a whole, and no other is touched. */
  lemma {:induction false} XclbinsTake(b: SysState, p: nat, n: nat, uuid: nat, client: nat, k: nat)
    requires Inv(b) && p != 0 && k < |b.devs| && ReserveXclbins(b, p, n, uuid, client).1 == SUCCESS
    ensures ReserveXclbins(b, p, n, uuid, client).0.devs[k].cus
              == if TakenWhole(b, uuid, n, k) then WholeUnits(b.devs[k].cus, p, client) else b.devs[k].cus
    decreases n
  {
    hide WholeDev, Busy, DevInv;
    if n > 0 {
      var d := NextIdle(b, 0, uuid);
      var dev := WholeDev(b.devs[d], p, client);
      TakenDevice(b.devs[d], p, client);
      NoneIdleBefore(b, d, uuid);
      OneLessIdle(b, d, dev, k, uuid);
      XclbinsTake(SetDev(b, d, dev), p, n - 1, uuid, client, k);
    }
  }

  lemma TakenDevice(dev: DevState, p: nat, client: nat)
    requires DevInv(dev) && !Busy(dev) && dev.isLoaded && p != 0
    ensures var dev' := WholeDev(dev, p, client);
      DevInv(dev') && Busy(dev') && dev'.cus == WholeUnits(dev.cus, p, client)
  {
    WholeDevInv(dev, p, client);
    WholeIsUsed(dev, p, client);
  }

  /** No list fits on a device that is taken as a whole. */
  lemma FullTakesNothing(dev: DevState, p: nat, client: nat, reqs: seq<Request>)
    requires DevInv(dev) && !Busy(dev) && p != 0 && reqs != []
    ensures FitList(WholeUnits(dev.cus, p, client), p, reqs, 0) == None
  {
    forall c | 0 <= c < |dev.cus| ensures Used(WholeUnits(dev.cus, p, client)[c]) == MAX_LOAD {
      WholeUnit(dev, c, p, client);
    }
  }

  // ---------------------------------------------------------------------------------
  // The pool
  // ---------------------------------------------------------------------------------

  /** The first open device is not taken as a whole, and takes all the lists, one after another. */
  predicate FirstTakesAll(s: SysState, q: PoolRequest)
    requires q.listNum >= 0 && q.xclbinNum >= 0
  {
    && q.reqs != []
    && var k := FirstDevice(s, q.reqs);
    && k < |s.devs| && !TakenWhole(s, q.uuid, q.xclbinNum, k)
    && FitTimes(s.devs[k].cus, NextId(s.poolId), q.reqs, q.listNum)
  }

  lemma GrantedLists(s: SysState, q: PoolRequest)
    requires ReservePool(s, q).1 != 0
    ensures q.listNum >= 0 && q.xclbinNum >= 0
    ensures var p := NextId(s.poolId);
            var (b, st1) := ReserveXclbins(s, p, q.xclbinNum, q.uuid, q.clientId);
            var (b2, st2) := ReserveLists(b, p, q.listNum, q.reqs, q.sameDevice);
            && st1 == SUCCESS && st2 == SUCCESS
            && ReservePool(s, q) == (b2.(poolId := p), p)
            && (q.listNum > 0 ==> ReserveList(b, p, q.reqs, q.sameDevice).1 == SUCCESS)
  {
  }

  /** A granted pool whose lists are confined to one device each holds all that was asked for,
      every list's load and a full unit for every unit of the devices taken as a whole, if and
      only if there is no list, or one list and no whole device, or the first open device is not
      taken and takes all the lists. */
  lemma SameDevicePoolAmount(s: SysState, q: PoolRequest) returns (whole: seq<nat>)
    requires Inv(s) && IdsFresh(s) && s.poolId < MAX_ID && q.sameDevice && ReservePool(s, q).1 != 0
    ensures q.listNum >= 0 && q.xclbinNum >= 0
    ensures IdleDevices(s, q.uuid, whole) && |whole| == q.xclbinNum
    ensures var (s', p) := ReservePool(s, q);
            HeldTotal(s', p) == q.listNum * LoadFrom(q.reqs, 0) + MAX_LOAD * UnitsOf(s, whole) <==>
              q.listNum == 0 || (q.listNum == 1 && q.xclbinNum == 0) || FirstTakesAll(s, q)
  {
    hide PoolsAdded, Inv, IdsFresh, HeldTotal, ReserveXclbins, ReserveLists, ReserveList, FitTimes, TakenWhole, FitList,
      ReservePool;
    var p := NextId(s.poolId);
    GrantedLists(s, q);
    NextPoolHoldsNothing(s);
    whole := ReserveXclbinsReserve(s, s, {p}, p, q.xclbinNum, q.uuid, q.clientId);
    var b := ReserveXclbins(s, p, q.xclbinNum, q.uuid, q.clientId).0;
    if q.listNum > 0 {
      ListOnFirst(s, b, p, q.reqs);
      FirstDeviceAfter(s, b, q);
      if q.xclbinNum == 0 {
        NothingTaken(s, q, whole);
        ListsAmountFromNothing(s, b, p, q.listNum, q.reqs);
      } else {
        ListsAmount(s, b, p, q.listNum, q.reqs);
      }
    } else {
      NoLists(b, p, q);
    }
    var b2 := ReserveLists(b, p, q.listNum, q.reqs, q.sameDevice).0;
    ReserveListsReserve(s, b, {p}, p, q.listNum, q.reqs, q.sameDevice);
    PoolIdAside(s, b2, {p}, p);
  }

  lemma NoLists(b: SysState, p: nat, q: PoolRequest)
    requires q.listNum == 0
    ensures ReserveLists(b, p, q.listNum, q.reqs, q.sameDevice) == (b, SUCCESS)
  {
  }

  lemma NothingTaken(s: SysState, q: PoolRequest, whole: seq<nat>)
    requires q.xclbinNum == 0 && |whole| == 0
    ensures ReserveXclbins(s, NextId(s.poolId), q.xclbinNum, q.uuid, q.clientId) == (s, SUCCESS) &&
      UnitsOf(s, whole) == 0
  {
  }

  /** On the first device, what fits once whole devices are taken is what the tables said before. */
  lemma FirstDeviceAfter(s: SysState, b: SysState, q: PoolRequest)
    requires Inv(s) && q.listNum > 0 && q.xclbinNum >= 0 && q.reqs != [] &&
      FirstDevice(s, q.reqs) < |s.devs| == |b.devs|
    requires ReserveXclbins(s, NextId(s.poolId), q.xclbinNum, q.uuid, q.clientId) == (b, SUCCESS)
    ensures FitTimes(b.devs[FirstDevice(s, q.reqs)].cus, NextId(s.poolId), q.reqs, q.listNum) <==> FirstTakesAll(s, q)
  {
    var k, p := FirstDevice(s, q.reqs), NextId(s.poolId);
    assert DevInv(s.devs[k]);
    XclbinsTake(s, p, q.xclbinNum, q.uuid, q.clientId, k);
    if TakenWhole(s, q.uuid, q.xclbinNum, k) { FullTakesNothing(s.devs[k], p, q.clientId, q.reqs); }
  }
}
