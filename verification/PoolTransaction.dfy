/** What a pool reservation and a relinquish come to as a whole. */
module PoolTransaction {
  import opened Tables
  import opened Sums
  import opened CuModel
  import opened DeviceModel
  import opened SystemModel
  import opened PoolModel

  // ---------------------------------------------------------------------------------
  // Single reservations
  // ---------------------------------------------------------------------------------

  /** One reservation on behalf of pool p: it adds the request's load to what the pool holds,
      or does nothing. */
  ghost predicate Reserves(a: SysState, b: SysState, ps: set<nat>, p: nat, load: int, b': SysState, status: Status) {
    if status == SUCCESS then
      Reserving(a, b', ps) && b'.poolId == b.poolId && load > 0 && HeldTotal(b', p) == HeldTotal(b, p) + load
    else b' == b
  }

  lemma ReserveFromDevReserves(a: SysState, b: SysState, ps: set<nat>, p: nat, d: nat, req: Request)
    requires Reserving(a, b, ps) && p in ps && d < |b.devs|
    ensures Reserves(a, b, ps, p, req.load, ReserveFromDev(b, p, d, req).0, ReserveFromDev(b, p, d, req).1)
  {
    var c := PickReserve(b.devs[d].cus, p, req);
    if HasReserveName(req.names) && c < |b.devs[d].cus| { ReserveAtAdds(a, b, ps, d, c, p, req); }
  }

  lemma ReserveCuReserves(a: SysState, b: SysState, ps: set<nat>, p: nat, req: Request)
    requires Reserving(a, b, ps) && p in ps
    ensures Reserves(a, b, ps, p, req.load, ReserveCu(b, p, req).0, ReserveCu(b, p, req).1)
  {
    var t, f := FindReserve(b, 0, true, p, req), FindReserve(b, 0, false, p, req);
    if HasReserveName(req.names) {
      if t.Some? { ReserveAtAdds(a, b, ps, t.value.0, t.value.1, p, req); }
      else if f.Some? { ReserveAtAdds(a, b, ps, f.value.0, f.value.1, p, req); }
    }
  }

  // ---------------------------------------------------------------------------------
  // Lists
  // ---------------------------------------------------------------------------------

  /** The load requested by the list from index i on. */
  function LoadFrom(reqs: seq<Request>, i: nat): int
    requires i <= |reqs|
    decreases |reqs| - i
  {
    if i == |reqs| then 0 else reqs[i].load + LoadFrom(reqs, i + 1)
  }

  lemma AddedToMore(a: SysState, b: SysState, b': SysState, ps: set<nat>, ps': set<nat>)
    requires PoolsAdded(a, b, ps) && PoolsAdded(a, b', ps') && ps' <= ps
    ensures PoolsAdded(a, b', ps)
  {
    forall d | 0 <= d < |a.devs| ensures DevAdded(a.devs[d], b'.devs[d], ps) {
      assert DevAdded(a.devs[d], b.devs[d], ps) && DevAdded(a.devs[d], b'.devs[d], ps');
      forall c | 0 <= c < |a.devs[d].cus|
        ensures SlotsAdded(a.devs[d].cus[c], b'.devs[d].cus[c], ps) && Fresh(a.devs[d].cus[c], ps)
      {
        assert SlotsAdded(a.devs[d].cus[c], b'.devs[d].cus[c], ps');
        assert SlotsAdded(a.devs[d].cus[c], b.devs[d].cus[c], ps);
      }
    }
  }

  /** What a database holds of a pool that is new to a and not among those added. */
  lemma HeldNothing(a: SysState, b: SysState, b': SysState, ps: set<nat>, p: nat)
    requires PoolsAdded(a, b, ps) && p in ps && PoolsAdded(a, b', ps - {p})
    ensures HeldTotal(b', p) == 0
  {
    forall d | 0 <= d < |b'.devs| ensures WeighDev(AllUnits(HeldFor(p)), b'.devs[d]) == 0 {
      assert DevAdded(a.devs[d], b.devs[d], ps) && DevAdded(a.devs[d], b'.devs[d], ps - {p});
      forall c | 0 <= c < |b'.devs[d].cus| ensures Held(b'.devs[d].cus[c], p) == 0 {
        var x, y := a.devs[d].cus[c], b'.devs[d].cus[c];
        assert SlotsAdded(x, y, ps - {p}) && SlotsAdded(x, b.devs[d].cus[c], ps);
        forall i | 0 <= i < |y.reserves| ensures y.reserves[i].poolId != p {
          if i < |x.reserves| { assert y.reserves[i] == x.reserves[i]; }
        }
      }
      SumZeros(CuWeights(HeldFor(p), b'.devs[d].cus));
    }
    SumZeros(DevWeights(AllUnits(HeldFor(p)), b'.devs));
  }

  /** Giving the pool back leaves nothing of it, and of the others what there was. */
  lemma GivenBack(a: SysState, b: SysState, ps: set<nat>, p: nat)
    requires Reserving(a, b, ps) && p in ps
    ensures var b' := Relinquish(b, p).0;
            Reserving(a, b', ps) && Reserving(a, b', ps - {p}) && HeldTotal(b', p) == 0 && b'.poolId == b.poolId
  {
    RelinquishAdded(a, b, ps, p);
    AddedToMore(a, b, Relinquish(b, p).0, ps, ps - {p});
    HeldNothing(a, b, Relinquish(b, p).0, ps, p);
  }

  /** A list either adds its load to what the pool held, or leaves the pool with nothing. */
  ghost predicate ListReserves(a: SysState, b: SysState, ps: set<nat>, p: nat, load: int, b': SysState,
      status: Status) {
    && Reserving(a, b', ps) && b'.poolId == b.poolId
    && HeldTotal(b', p) == if status == SUCCESS then HeldTotal(b, p) + load else 0
  }

  lemma {:induction false} ReserveEachReserves(a: SysState, b: SysState, ps: set<nat>, d: nat, p: nat,
      reqs: seq<Request>, i: nat)
    requires Reserving(a, b, ps) && p in ps && d < |b.devs| && i <= |reqs|
    ensures var (b', status) := ReserveEach(b, d, p, reqs, i);
            ListReserves(a, b, ps, p, LoadFrom(reqs, i), b', status)
            && (status == SUCCESS ==> LoadFrom(reqs, i) >= |reqs| - i)
    decreases |reqs| - i
  {
    hide PoolsAdded, Inv, ReserveFromDev, HeldTotal, Relinquish;
    if i < |reqs| {
      ReserveFromDevReserves(a, b, ps, p, d, reqs[i]);
      var (b1, status) := ReserveFromDev(b, p, d, reqs[i]);
      if status == SUCCESS {
        assert ReserveEach(b, d, p, reqs, i) == ReserveEach(b1, d, p, reqs, i + 1);
        ReserveEachReserves(a, b1, ps, d, p, reqs, i + 1);
      } else {
        assert ReserveEach(b, d, p, reqs, i) == (Relinquish(b1, p).0, status);
        GivenBack(a, b1, ps, p);
      }
    }
  }

  lemma {:induction false} ReserveAnyReserves(a: SysState, b: SysState, ps: set<nat>, p: nat, reqs: seq<Request>,
      i: nat)
    requires Reserving(a, b, ps) && p in ps && i <= |reqs|
    ensures var (b', status) := ReserveAny(b, p, reqs, i);
            ListReserves(a, b, ps, p, LoadFrom(reqs, i), b', status)
            && (status == SUCCESS ==> LoadFrom(reqs, i) >= |reqs| - i)
    decreases |reqs| - i
  {
    hide PoolsAdded, Inv, ReserveCu, HeldTotal, Relinquish;
    if i < |reqs| {
      ReserveCuReserves(a, b, ps, p, reqs[i]);
      var (b1, status) := ReserveCu(b, p, reqs[i]);
      if status == SUCCESS { ReserveAnyReserves(a, b1, ps, p, reqs, i + 1); } else { GivenBack(a, b1, ps, p); }
    }
  }

  /** On one device, a failed attempt on an earlier device may have given back what the pool
      already held: after success it holds the list's load, on top of that or alone. */
  ghost predicate SameReserves(a: SysState, b: SysState, ps: set<nat>, p: nat, load: int, b': SysState,
      status: Status) {
    && Reserving(a, b', ps) && b'.poolId == b.poolId
    && (status == SUCCESS ==> HeldTotal(b', p) == load || HeldTotal(b', p) == HeldTotal(b, p) + load)
  }

  lemma {:induction false} ReserveSameReserves(a: SysState, b: SysState, ps: set<nat>, d: nat, p: nat,
                                               reqs: seq<Request>, last: Status)
    requires Reserving(a, b, ps) && p in ps && d <= |b.devs| && reqs != [] && last != SUCCESS
    ensures var (b', status) := ReserveSame(b, d, p, reqs, last);
            SameReserves(a, b, ps, p, LoadFrom(reqs, 0), b', status)
            && (status == SUCCESS ==> LoadFrom(reqs, 0) >= |reqs|)
    decreases |b.devs| - d
  {
    hide PoolsAdded, Inv, ReserveEach, NextOpen, HeldTotal;
    var k := NextOpen(b.devs, d, reqs[0].clientId);
    if k < |b.devs| {
      ReserveEachReserves(a, b, ps, k, p, reqs, 0);
      var (b1, status) := ReserveEach(b, k, p, reqs, 0);
      if status != SUCCESS { ReserveSameReserves(a, b1, ps, k + 1, p, reqs, status); }
    }
  }

  lemma ReserveListReserves(a: SysState, b: SysState, ps: set<nat>, p: nat, reqs: seq<Request>, sameDevice: bool)
    requires Reserving(a, b, ps) && p in ps
    ensures var (b', status) := ReserveList(b, p, reqs, sameDevice);
            && SameReserves(a, b, ps, p, LoadFrom(reqs, 0), b', status)
            && (status == SUCCESS ==> LoadFrom(reqs, 0) > 0)
            && (status == SUCCESS && !sameDevice ==> HeldTotal(b', p) == HeldTotal(b, p) + LoadFrom(reqs, 0))
  {
    if 0 < |reqs| <= MAX_LIST {
      if sameDevice {
        ReserveSameReserves(a, b, ps, 0, p, reqs, ERROR);
      } else {
        ReserveAnyReserves(a, b, ps, p, reqs, 0);
      }
    }
  }

  ghost predicate ListsReserve(a: SysState, b: SysState, ps: set<nat>, p: nat, n: nat, load: int, sameDevice: bool,
                               b': SysState, status: Status) {
    && Reserving(a, b', ps) && b'.poolId == b.poolId
    && (status == SUCCESS ==>
          && (n > 0 ==> HeldTotal(b', p) > 0)
          && (n == 0 ==> HeldTotal(b', p) == HeldTotal(b, p))
          && (!sameDevice ==> HeldTotal(b', p) == HeldTotal(b, p) + n * load)
          && (n == 1 && HeldTotal(b, p) == 0 ==> HeldTotal(b', p) == load))
  }

  lemma {:induction false} ReserveListsReserve(a: SysState, b: SysState, ps: set<nat>, p: nat, n: nat,
                                               reqs: seq<Request>, sameDevice: bool)
    requires Reserving(a, b, ps) && p in ps && HeldTotal(b, p) >= 0
    ensures ListsReserve(a, b, ps, p, n, LoadFrom(reqs, 0), sameDevice,
                         ReserveLists(b, p, n, reqs, sameDevice).0, ReserveLists(b, p, n, reqs, sameDevice).1)
    decreases n
  {
    hide PoolsAdded, Inv, ReserveList, HeldTotal, LoadFrom;
    if n > 0 {
      ReserveListReserves(a, b, ps, p, reqs, sameDevice);
      var (b1, status) := ReserveList(b, p, reqs, sameDevice);
      if status == SUCCESS {
        assert ReserveLists(b, p, n, reqs, sameDevice) == ReserveLists(b1, p, n - 1, reqs, sameDevice);
        ReserveListsReserve(a, b1, ps, p, n - 1, reqs, sameDevice);
        assert n * LoadFrom(reqs, 0) == LoadFrom(reqs, 0) + (n - 1) * LoadFrom(reqs, 0);
      } else {
        assert ReserveLists(b, p, n, reqs, sameDevice) == (b1, status);
      }
    }
  }

  // ---------------------------------------------------------------------------------
  // Whole devices
  // ---------------------------------------------------------------------------------

  function UnitsOf(s: SysState, ds: seq<nat>): int
    requires forall i :: 0 <= i < |ds| ==> ds[i] < |s.devs|
  {
    if ds == [] then 0 else |s.devs[ds[0]].cus| + UnitsOf(s, ds[1..])
  }

  /** Distinct devices of s that are loaded with the xclbin and idle. */
  ghost predicate IdleDevices(s: SysState, uuid: nat, ds: seq<nat>) {
    && Distinct(ds)
    && forall i {:trigger ds[i]} :: 0 <= i < |ds| ==>
         ds[i] < |s.devs| && s.devs[ds[i]].isLoaded && s.devs[ds[i]].uuid == uuid && !Busy(s.devs[ds[i]])
  }

  ghost predicate XclbinsReserve(a: SysState, b: SysState, ps: set<nat>, p: nat, n: nat, uuid: nat,
                                 ds: seq<nat>, b': SysState, status: Status) {
    && Reserving(a, b', ps) && b'.poolId == b.poolId
    && (status == SUCCESS ==>
          && |ds| == n && IdleDevices(b, uuid, ds)
          && HeldTotal(b', p) == HeldTotal(b, p) + MAX_LOAD * UnitsOf(b, ds)
          && UnitsOf(b, ds) >= n)
  }

  /** Device d, idle until now, is taken as a whole. */
  ghost predicate DeviceTaken(a: SysState, b: SysState, ps: set<nat>, p: nat, uuid: nat, d: nat, b1: SysState) {
    && d < |b.devs| && b.devs[d].isLoaded && b.devs[d].uuid == uuid && !Busy(b.devs[d])
    && |b1.devs| == |b.devs| && b1 == SetDev(b, d, b1.devs[d])
    && (|b.devs[d].cus| > 0 ==> Busy(b1.devs[d]))
    && Inv(b) && Reserving(a, b1, ps)
    && HeldTotal(b1, p) == HeldTotal(b, p) + MAX_LOAD * |b.devs[d].cus|
  }

  lemma ReserveXclbinReserves(a: SysState, b: SysState, ps: set<nat>, p: nat, uuid: nat, client: nat)
    requires Reserving(a, b, ps) && p in ps
    ensures var (b1, status) := ReserveXclbin(b, p, uuid, client);
            if status == SUCCESS then DeviceTaken(a, b, ps, p, uuid, NextIdle(b, 0, uuid), b1) else b1 == b
  {
    var d := NextIdle(b, 0, uuid);
    if d < |b.devs| { WholeAdds(a, b, ps, d, p, client); }
  }

  lemma TakeOneMore(a: SysState, b: SysState, ps: set<nat>, p: nat, n: nat, uuid: nat, d: nat, b1: SysState,
                    rest: seq<nat>, b': SysState)
    requires DeviceTaken(a, b, ps, p, uuid, d, b1) && n > 0
    requires XclbinsReserve(a, b1, ps, p, n - 1, uuid, rest, b', SUCCESS)
    ensures XclbinsReserve(a, b, ps, p, n, uuid, [d] + rest, b', SUCCESS)
  {
    OneMoreDevice(b, b1, uuid, d, rest);
    assert MAX_LOAD * (|b.devs[d].cus| + UnitsOf(b1, rest)) ==
      MAX_LOAD * |b.devs[d].cus| + MAX_LOAD * UnitsOf(b1, rest);
  }

  lemma {:induction false} ReserveXclbinsReserve(a: SysState, b: SysState, ps: set<nat>, p: nat, n: nat,
                                                 uuid: nat, client: nat) returns (ds: seq<nat>)
    requires Reserving(a, b, ps) && p in ps
    ensures XclbinsReserve(a, b, ps, p, n, uuid, ds,
                           ReserveXclbins(b, p, n, uuid, client).0, ReserveXclbins(b, p, n, uuid, client).1)
    decreases n
  {
    hide PoolsAdded, ReserveXclbin, HeldTotal, NextIdle;
    ds := [];
    if n > 0 {
      ReserveXclbinReserves(a, b, ps, p, uuid, client);
      var (b1, status) := ReserveXclbin(b, p, uuid, client);
      if status == SUCCESS {
        var rest := ReserveXclbinsReserve(a, b1, ps, p, n - 1, uuid, client);
        var (b', st) := ReserveXclbins(b1, p, n - 1, uuid, client);
        if st == SUCCESS {
          ds := [NextIdle(b, 0, uuid)] + rest;
          TakeOneMore(a, b, ps, p, n, uuid, NextIdle(b, 0, uuid), b1, rest, b');
        }
      }
    }
  }

  lemma OneMoreDevice(b: SysState, b1: SysState, uuid: nat, d: nat, rest: seq<nat>)
    requires Inv(b) && d < |b.devs| && b.devs[d].isLoaded && b.devs[d].uuid == uuid && !Busy(b.devs[d])
    requires |b1.devs| == |b.devs| && b1 == SetDev(b, d, b1.devs[d])
    requires |b.devs[d].cus| > 0 ==> Busy(b1.devs[d])
    requires IdleDevices(b1, uuid, rest)
    ensures IdleDevices(b, uuid, [d] + rest)
    ensures UnitsOf(b, [d] + rest) == |b.devs[d].cus| + UnitsOf(b1, rest)
    ensures |b.devs[d].cus| >= 1
  {
    assert DevInv(b.devs[d]);
    forall i | 0 <= i < |rest| ensures rest[i] != d && rest[i] < |b.devs| && b1.devs[rest[i]] == b.devs[rest[i]] { }
    UnitsOfSame(b, b1, rest);
    assert ([d] + rest)[1..] == rest;
  }

  lemma {:induction false} UnitsOfSame(s: SysState, s': SysState, ds: seq<nat>)
    requires forall i {:trigger ds[i]} :: 0 <= i < |ds| ==>
      ds[i] < |s.devs| == |s'.devs| && s'.devs[ds[i]] == s.devs[ds[i]]
    ensures UnitsOf(s', ds) == UnitsOf(s, ds)
  {
    if ds != [] { UnitsOfSame(s, s', ds[1..]); }
  }

  // ---------------------------------------------------------------------------------
  // The transaction
  // ---------------------------------------------------------------------------------

  /** Before the pool reserves anything it holds nothing. */
  lemma NextPoolHoldsNothing(s: SysState)
    requires Inv(s) && IdsFresh(s) && s.poolId < MAX_ID
    ensures Reserving(s, s, {NextId(s.poolId)}) && HeldTotal(s, NextId(s.poolId)) == 0
  {
    NextPoolIsFresh(s);
    var p := NextId(s.poolId);
    assert {p} - {p} == {};
    forall d | 0 <= d < |s.devs| ensures DevAdded(s.devs[d], s.devs[d], {}) {
      forall c | 0 <= c < |s.devs[d].cus| ensures SlotsAdded(s.devs[d].cus[c], s.devs[d].cus[c], {}) { }
    }
    HeldNothing(s, s, s, {p}, p);
  }

  /** A pool reservation is a transaction. It returns 0 and every table is as before, or it
      returns the new pool's id and the tables gained slots of that pool and nothing else.
      The pool then holds the lists' load, once per list, plus a full unit for every unit of
      the devices taken as a whole; for lists confined to one device this is so when there
      is one list and no whole device, and `AmountModel` says when else. */
  lemma ReservePoolTransaction(s: SysState, q: PoolRequest) returns (whole: seq<nat>)
    requires Inv(s) && IdsFresh(s) && s.poolId < MAX_ID
    ensures PoolOutcome(s, q, whole, ReservePool(s, q).0, ReservePool(s, q).1)
  {
    var p := NextId(s.poolId);
    whole := [];
    if q.listNum < 0 || q.xclbinNum < 0 || |q.reqs| > MAX_LIST {
      SameTablesRefl(s);
    } else {
      NextPoolHoldsNothing(s);
      whole := ReserveXclbinsReserve(s, s, {p}, p, q.xclbinNum, q.uuid, q.clientId);
      var (s1, st1) := ReserveXclbins(s, p, q.xclbinNum, q.uuid, q.clientId);
      if st1 != SUCCESS {
        Undone(s, s1, p);
      } else {
        ListsAfterDevices(s, s1, q, whole);
      }
    }
  }

  ghost predicate PoolOutcome(s: SysState, q: PoolRequest, whole: seq<nat>, s': SysState, p: nat) {
    if p == 0 then SameTables(s, s') && s'.poolId == s.poolId && Inv(s')
    else
      && p == NextId(s.poolId) == s'.poolId
      && Reserving(s, s', {p})
      && IdleDevices(s, q.uuid, whole) && |whole| == q.xclbinNum
      && (q.listNum + q.xclbinNum > 0 ==> HeldTotal(s', p) > 0)
      && (!q.sameDevice || (q.listNum <= 1 && q.xclbinNum == 0) ==>
            HeldTotal(s', p) == q.listNum * LoadFrom(q.reqs, 0) + MAX_LOAD * UnitsOf(s, whole))
  }

  lemma ListsAfterDevices(s: SysState, s1: SysState, q: PoolRequest, whole: seq<nat>)
    requires Inv(s) && s.poolId < MAX_ID && q.listNum >= 0 && q.xclbinNum >= 0 && |q.reqs| <= MAX_LIST
    requires HeldTotal(s, NextId(s.poolId)) == 0
    requires ReserveXclbins(s, NextId(s.poolId), q.xclbinNum, q.uuid, q.clientId) == (s1, SUCCESS)
    requires XclbinsReserve(s, s, {NextId(s.poolId)}, NextId(s.poolId), q.xclbinNum, q.uuid, whole, s1, SUCCESS)
    ensures PoolOutcome(s, q, whole, ReservePool(s, q).0, ReservePool(s, q).1)
  {
    var p := NextId(s.poolId);
    ReserveListsReserve(s, s1, {p}, p, q.listNum, q.reqs, q.sameDevice);
    var (s2, st2) := ReserveLists(s1, p, q.listNum, q.reqs, q.sameDevice);
    if st2 != SUCCESS {
      assert ReservePool(s, q) == (Relinquish(s2, p).0, 0);
      Undone(s, s2, p);
    } else {
      assert ReservePool(s, q) == (s2.(poolId := p), p);
      PoolMade(s, s1, s2, q, whole);
    }
  }

  lemma PoolMade(s: SysState, s1: SysState, s2: SysState, q: PoolRequest, whole: seq<nat>)
    requires Inv(s) && s.poolId < MAX_ID && q.listNum >= 0 && q.xclbinNum >= 0
    requires HeldTotal(s, NextId(s.poolId)) == 0
    requires XclbinsReserve(s, s, {NextId(s.poolId)}, NextId(s.poolId), q.xclbinNum, q.uuid, whole, s1, SUCCESS)
    requires ListsReserve(s, s1, {NextId(s.poolId)}, NextId(s.poolId), q.listNum, LoadFrom(q.reqs, 0), q.sameDevice, s2,
      SUCCESS)
    ensures PoolOutcome(s, q, whole, s2.(poolId := NextId(s.poolId)), NextId(s.poolId))
  {
    hide PoolsAdded, Inv, HeldTotal, LoadFrom;
    var p := NextId(s.poolId);
    PoolIdAside(s, s2, {p}, p);
    if q.xclbinNum == 0 { assert whole == []; }
    assert q.listNum <= 1 ==> q.listNum * LoadFrom(q.reqs, 0) == if q.listNum == 0 then 0 else LoadFrom(q.reqs, 0);
  }

  lemma SameTablesRefl(s: SysState)
    ensures SameTables(s, s)
  {
  }

  lemma Undone(s: SysState, s1: SysState, p: nat)
    requires Reserving(s, s1, {p}) && s1.poolId == s.poolId
    ensures SameTables(s, Relinquish(s1, p).0) && Relinquish(s1, p).0.poolId == s.poolId && Inv(Relinquish(s1, p).0)
  {
    GivenBack(s, s1, {p}, p);
    assert {p} - {p} == {};
    NothingAdded(s, Relinquish(s1, p).0);
  }

  lemma PoolIdAside(a: SysState, b: SysState, ps: set<nat>, id: nat)
    requires Reserving(a, b, ps)
    ensures Reserving(a, b.(poolId := id), ps)
    ensures forall p :: HeldTotal(b.(poolId := id), p) == HeldTotal(b, p)
  {
    var b' := b.(poolId := id);
    forall d | 0 <= d < |b'.devs| ensures DevInv(b'.devs[d]) { assert DevInv(b.devs[d]); }
    forall d | 0 <= d < |a.devs| ensures DevAdded(a.devs[d], b'.devs[d], ps) {
      assert DevAdded(a.devs[d], b.devs[d], ps);
    }
  }
}
