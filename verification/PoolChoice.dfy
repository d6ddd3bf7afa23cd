/** Where a pool reserves its load, and when it is refused: stated on the tables, without the
    searches. A request reserves on the first fitting unit of an open device, in use before idle;
    a list on all devices, request after request, or on the lowest open device that takes it. */
module PoolChoice {
  import opened Tables
  import opened Sums
  import opened CuModel
  import opened DeviceModel
  import opened SystemModel
  import opened ChoiceModel
  import opened PoolModel
  import opened PoolTransaction
  import opened AmountModel
  import opened RelinquishModel
  import opened RecycleModel

  // ---------------------------------------------------------------------------------
  // One request
  // ---------------------------------------------------------------------------------

  /** The unit has the kernel and the alias that are asked for. */
  predicate Fits(names: Names, req: Request) {
    && (req.names.kernel != "" ==> names.kernel == req.names.kernel)
    && (req.names.alias != "" ==> names.alias == req.names.alias)
  }

  /** The unit fits, and has load left and a slot for the pool. */
  ghost predicate CanReserve(cu: CuState, p: nat, req: Request) {
    && Fits(cu.names, req)
    && req.load > 0 && Used(cu) + req.load <= MAX_LOAD
    && (|cu.reserves| < MAX_RESERVES || exists i :: 0 <= i < |cu.reserves| && cu.reserves[i].poolId == p)
  }

  lemma CanReserveIff(cu: CuState, p: nat, req: Request)
    ensures CanReserve(cu, p, req) <==> MatchesReserve(cu, req) && Reservable(cu, p, req.load)
  {
    UsedBounds(cu);
  }

  predicate AsksForNothing(req: Request) {
    req.names.kernel == "" && req.names.alias == ""
  }

  /** Unit c is the one of the device to reserve on. */
  ghost predicate ReserveUnit(dev: DevState, c: nat, p: nat, req: Request) {
    && c < |dev.cus| && CanReserve(dev.cus[c], p, req)
    && forall j :: 0 <= j < |dev.cus| && j != c && CanReserve(dev.cus[j], p, req) ==> Sooner(dev.cus, c, j)
  }

  /** The request reserves on device d. */
  ghost predicate ReservesOn(s: SysState, d: nat, p: nat, req: Request, s': SysState)
    requires d < |s.devs|
  {
    && !AsksForNothing(req)
    && exists c :: ReserveUnit(s.devs[d], c, p, req) && s' == ReserveAt(s, d, c, p, req)
  }

  /** Device d has nothing for the request. */
  ghost predicate NoneToReserve(s: SysState, d: nat, p: nat, req: Request)
    requires d < |s.devs|
  {
    AsksForNothing(req) || forall c :: 0 <= c < |s.devs[d].cus| ==> !CanReserve(s.devs[d].cus[c], p, req)
  }

  lemma ReserveFromDevLands(s: SysState, p: nat, d: nat, req: Request, s': SysState)
    requires d < |s.devs|
    ensures ReserveFromDev(s, p, d, req) == (s', SUCCESS) <==> ReservesOn(s, d, p, req, s')
    ensures ReserveFromDev(s, p, d, req).1 != SUCCESS <==> NoneToReserve(s, d, p, req)
  {
    hide Reservable, MatchesReserve, CanReserve, ReserveAt;
    var dev := s.devs[d];
    forall j | 0 <= j < |dev.cus|
      ensures CanReserve(dev.cus[j], p, req) <==> Takes(dev.cus[j], InUse(dev.cus[j]), p, req)
    {
      CanReserveIff(dev.cus[j], p, req);
    }
    var c := PickReserve(dev.cus, p, req);
    if c < |dev.cus| { assert ReserveUnit(dev, c, p, req); }
  }

  /** Unit c of the open device d can be reserved on. */
  ghost predicate Reserver(s: SysState, d: nat, c: nat, p: nat, req: Request) {
    d < |s.devs| && Open(s.devs[d], req.clientId) && c < |s.devs[d].cus| && CanReserve(s.devs[d].cus[c], p, req)
  }

  ghost predicate FirstReserver(s: SysState, d: nat, c: nat, p: nat, req: Request) {
    && Reserver(s, d, c, p, req)
    && forall e: nat, j: nat {:trigger Reserver(s, e, j, p, req)} ::
         Reserver(s, e, j, p, req) && !(e == d && j == c) ==> Ahead(s, d, c, e, j)
  }

  /** The request reserves on any device. */
  ghost predicate ReservesAnywhere(s: SysState, p: nat, req: Request, s': SysState) {
    && !AsksForNothing(req)
    && exists d, c :: FirstReserver(s, d, c, p, req) && s' == ReserveAt(s, d, c, p, req)
  }

  ghost predicate NoReserver(s: SysState, p: nat, req: Request) {
    AsksForNothing(req) || forall d: nat, c: nat :: !Reserver(s, d, c, p, req)
  }

  /** The pass looks at the unit and can reserve on it. */
  ghost predicate Wanted(s: SysState, d: nat, c: nat, affinity: bool, p: nat, req: Request) {
    Reserver(s, d, c, p, req) && (affinity <==> InUse(s.devs[d].cus[c]))
  }

  ghost predicate NoneWanted(s: SysState, d: nat, affinity: bool, p: nat, req: Request) {
    forall c: nat :: !Wanted(s, d, c, affinity, p, req)
  }

  lemma WantedOn(s: SysState, d: nat, affinity: bool, p: nat, req: Request)
    requires d < |s.devs| && Open(s.devs[d], req.clientId)
    ensures var c := TakesFrom(s.devs[d].cus, 0, affinity, p, req);
            if c < |s.devs[d].cus| then
              && Wanted(s, d, c, affinity, p, req)
              && forall j: nat :: j < c ==> !Wanted(s, d, j, affinity, p, req)
            else NoneWanted(s, d, affinity, p, req)
  {
    hide Reservable, MatchesReserve, CanReserve;
    var cus := s.devs[d].cus;
    forall j: nat | j < |cus| ensures Takes(cus[j], affinity, p, req) <==> Wanted(s, d, j, affinity, p, req) {
      CanReserveIff(cus[j], p, req);
    }
  }

  lemma NoneWantedClosed(s: SysState, d: nat, affinity: bool, p: nat, req: Request)
    requires d <= |s.devs|
    ensures forall e: nat :: d <= e < NextOpen(s.devs, d, req.clientId) ==> NoneWanted(s, e, affinity, p, req)
    ensures forall e: nat :: |s.devs| <= e ==> NoneWanted(s, e, affinity, p, req)
  {
  }

  /** One pass finds the first that it looks at. */
  lemma {:induction false} FindReserveFirst(s: SysState, d: nat, affinity: bool, p: nat, req: Request)
    requires d <= |s.devs|
    ensures match FindReserve(s, d, affinity, p, req)
            case Some((k, c)) =>
              && d <= k && Wanted(s, k, c, affinity, p, req)
              && (forall e: nat :: d <= e < k ==> NoneWanted(s, e, affinity, p, req))
              && forall j: nat :: j < c ==> !Wanted(s, k, j, affinity, p, req)
            case None => forall e: nat :: d <= e ==> NoneWanted(s, e, affinity, p, req)
    decreases |s.devs| - d
  {
    hide Wanted, NoneWanted, Takes;
    NoneWantedClosed(s, d, affinity, p, req);
    var k := NextOpen(s.devs, d, req.clientId);
    if k < |s.devs| {
      WantedOn(s, k, affinity, p, req);
      FindReserveFirst(s, k + 1, affinity, p, req);
    }
  }

  /** What both passes come to. */
  lemma BothPasses(s: SysState, p: nat, req: Request)
    ensures var t, f := FindReserve(s, 0, true, p, req), FindReserve(s, 0, false, p, req);
            if t.Some? then FirstReserver(s, t.value.0, t.value.1, p, req)
            else if f.Some? then FirstReserver(s, f.value.0, f.value.1, p, req)
            else forall d: nat, c: nat :: !Reserver(s, d, c, p, req)
  {
    hide FindReserve, Reserver, Wanted, NoneWanted, FirstReserver;
    FindReserveFirst(s, 0, true, p, req);
    FindReserveFirst(s, 0, false, p, req);
    var t, f := FindReserve(s, 0, true, p, req), FindReserve(s, 0, false, p, req);
    if t.Some? {
      FirstOfPass(s, true, t.value.0, t.value.1, p, req);
    } else if f.Some? {
      FirstOfPass(s, false, f.value.0, f.value.1, p, req);
    } else {
      forall d: nat, c: nat ensures !Reserver(s, d, c, p, req) { NeitherPass(s, d, c, p, req); }
    }
  }

  lemma FirstOfPass(s: SysState, affinity: bool, d: nat, c: nat, p: nat, req: Request)
    requires Wanted(s, d, c, affinity, p, req)
    requires forall e: nat :: e < d ==> NoneWanted(s, e, affinity, p, req)
    requires forall j: nat :: j < c ==> !Wanted(s, d, j, affinity, p, req)
    requires !affinity ==> forall e: nat :: NoneWanted(s, e, true, p, req)
    ensures FirstReserver(s, d, c, p, req)
  {
    hide CanReserve;
    forall e: nat, j: nat | Reserver(s, e, j, p, req) && !(e == d && j == c) ensures Ahead(s, d, c, e, j) {
      assert Wanted(s, e, j, true, p, req) || Wanted(s, e, j, false, p, req);
      if e < d { assert NoneWanted(s, e, affinity, p, req); }
      if !affinity { assert NoneWanted(s, e, true, p, req); }
    }
  }

  lemma NeitherPass(s: SysState, d: nat, c: nat, p: nat, req: Request)
    requires NoneWanted(s, d, true, p, req) && NoneWanted(s, d, false, p, req)
    ensures !Reserver(s, d, c, p, req)
  {
    assert !Wanted(s, d, c, true, p, req) && !Wanted(s, d, c, false, p, req);
  }

  /** A reservation on any device goes to the first of all units that can be reserved on, in use
      before idle, then by device and index, and is refused exactly when there is none. */
  lemma ReserveCuLands(s: SysState, p: nat, req: Request, s': SysState)
    ensures ReserveCu(s, p, req) == (s', SUCCESS) <==> ReservesAnywhere(s, p, req, s')
    ensures ReserveCu(s, p, req).1 != SUCCESS <==> NoReserver(s, p, req)
    ensures ReserveCu(s, p, req).1 != SUCCESS ==>
              ReserveCu(s, p, req) == (s, if AsksForNothing(req) then INVALID else NO_KERNEL)
  {
    hide ReserveAt, FindReserve, CanReserve;
    BothPasses(s, p, req);
  }

  // ---------------------------------------------------------------------------------
  // Lists
  // ---------------------------------------------------------------------------------

  /** The requests from index i on reserve one after another, each on any device. */
  ghost predicate AnyTakes(s: SysState, p: nat, reqs: seq<Request>, i: nat, s': SysState)
    requires i <= |reqs|
    decreases |reqs| - i
  {
    if i == |reqs| then s' == s
    else exists s1 :: ReservesAnywhere(s, p, reqs[i], s1) && AnyTakes(s1, p, reqs, i + 1, s')
  }

  /** They reserve one after another on device d. */
  ghost predicate DevTakes(s: SysState, d: nat, p: nat, reqs: seq<Request>, i: nat, s': SysState)
    requires i <= |reqs|
    decreases |reqs| - i
  {
    if i == |reqs| then s' == s
    else d < |s.devs| && exists s1 :: ReservesOn(s, d, p, reqs[i], s1) && DevTakes(s1, d, p, reqs, i + 1, s')
  }

  ghost predicate DevCannot(s: SysState, d: nat, p: nat, reqs: seq<Request>) {
    forall s' :: !DevTakes(s, d, p, reqs, 0, s')
  }

  /** The database with nothing of the pool. */
  function WithoutPool(s: SysState, p: nat): (s': SysState)
    ensures |s'.devs| == |s.devs| && s'.serviceId == s.serviceId && s'.poolId == s.poolId
    ensures forall d :: 0 <= d < |s.devs| ==> s'.devs[d] == s.devs[d].(cus := UnitsWithout(s.devs[d].cus, p))
  {
    s.(devs := seq(|s.devs|, d requires 0 <= d < |s.devs| => s.devs[d].(cus := UnitsWithout(s.devs[d].cus, p))))
  }

  function UnitsWithout(cus: seq<CuState>, p: nat): (cus': seq<CuState>)
    ensures |cus'| == |cus| && forall c :: 0 <= c < |cus| ==> cus'[c] == DropPool(cus[c], p)
  {
    seq(|cus|, c requires 0 <= c < |cus| => DropPool(cus[c], p))
  }

  predicate OpenBefore(s: SysState, d: nat, client: nat) {
    exists e :: 0 <= e < d && e < |s.devs| && Open(s.devs[e], client)
  }

  /** What device d finds: the first open device, all there is; a later one, nothing of the pool,
      because the attempts before it gave the whole pool back. */
  function FoundBy(s: SysState, d: nat, p: nat, client: nat): (s': SysState)
    ensures |s'.devs| == |s.devs|
  {
    if OpenBefore(s, d, client) then WithoutPool(s, p) else s
  }

  /** The list reserves on device d, and could on no open device before it. */
  ghost predicate LowestTakes(s: SysState, d: nat, p: nat, reqs: seq<Request>, s': SysState)
    requires reqs != []
  {
    && d < |s.devs| && Open(s.devs[d], reqs[0].clientId)
    && DevTakes(FoundBy(s, d, p, reqs[0].clientId), d, p, reqs, 0, s')
    && AllCannot(s, d, p, reqs)
  }

  /** No open device before d can take the list. */
  ghost predicate AllCannot(s: SysState, d: nat, p: nat, reqs: seq<Request>)
    requires reqs != []
  {
    forall e {:trigger s.devs[e]} :: 0 <= e < d && e < |s.devs| && Open(s.devs[e], reqs[0].clientId) ==>
      DevCannot(FoundBy(s, e, p, reqs[0].clientId), e, p, reqs)
  }

  ghost predicate ListTakes(s: SysState, p: nat, reqs: seq<Request>, sameDevice: bool, s': SysState) {
    && 0 < |reqs| <= MAX_LIST
    && if sameDevice then exists d: nat :: LowestTakes(s, d, p, reqs, s') else AnyTakes(s, p, reqs, 0, s')
  }

  /** Some request from index i on is refused after those before it. */
  ghost predicate AnyStops(s: SysState, p: nat, reqs: seq<Request>, i: nat)
    requires i <= |reqs|
    decreases |reqs| - i
  {
    && i < |reqs|
    && (NoReserver(s, p, reqs[i])
        || exists s1 :: ReservesAnywhere(s, p, reqs[i], s1) && AnyStops(s1, p, reqs, i + 1))
  }

  ghost predicate DevStops(s: SysState, d: nat, p: nat, reqs: seq<Request>, i: nat)
    requires i <= |reqs|
    decreases |reqs| - i
  {
    && i < |reqs| && d < |s.devs|
    && (NoneToReserve(s, d, p, reqs[i])
        || exists s1 :: ReservesOn(s, d, p, reqs[i], s1) && DevStops(s1, d, p, reqs, i + 1))
  }

  /** Too few requests or too many, or one that is refused: on all devices, or on every open one. */
  ghost predicate ListStops(s: SysState, p: nat, reqs: seq<Request>, sameDevice: bool) {
    0 < |reqs| <= MAX_LIST ==>
      if sameDevice then
        forall e {:trigger s.devs[e]} :: 0 <= e < |s.devs| && Open(s.devs[e], reqs[0].clientId) ==>
          DevStops(FoundBy(s, e, p, reqs[0].clientId), e, p, reqs, 0)
      else AnyStops(s, p, reqs, 0)
  }

  lemma {:induction false} ReserveAnyLands(s: SysState, p: nat, reqs: seq<Request>, i: nat, s': SysState)
    requires i <= |reqs|
    ensures ReserveAny(s, p, reqs, i) == (s', SUCCESS) <==> AnyTakes(s, p, reqs, i, s')
    ensures ReserveAny(s, p, reqs, i).1 != SUCCESS <==> AnyStops(s, p, reqs, i)
    decreases |reqs| - i
  {
    hide ReserveCu, ReservesAnywhere, NoReserver, Relinquish;
    if i < |reqs| {
      var (s1, status) := ReserveCu(s, p, reqs[i]);
      ReserveCuLands(s, p, reqs[i], s1);
      forall t ensures ReserveCu(s, p, reqs[i]) == (t, SUCCESS) <==> ReservesAnywhere(s, p, reqs[i], t) {
        ReserveCuLands(s, p, reqs[i], t);
      }
      ReserveAnyLands(s1, p, reqs, i + 1, s');
    }
  }

  lemma {:induction false} ReserveEachLands(s: SysState, d: nat, p: nat, reqs: seq<Request>, i: nat, s': SysState)
    requires i <= |reqs| && d < |s.devs|
    ensures ReserveEach(s, d, p, reqs, i) == (s', SUCCESS) <==> DevTakes(s, d, p, reqs, i, s')
    ensures ReserveEach(s, d, p, reqs, i).1 != SUCCESS <==> DevStops(s, d, p, reqs, i)
    decreases |reqs| - i
  {
    hide ReserveFromDev, ReservesOn, NoneToReserve, Relinquish;
    if i < |reqs| {
      var (s1, status) := ReserveFromDev(s, p, d, reqs[i]);
      ReserveFromDevLands(s, p, d, reqs[i], s1);
      forall t ensures ReserveFromDev(s, p, d, reqs[i]) == (t, SUCCESS) <==> ReservesOn(s, d, p, reqs[i], t) {
        ReserveFromDevLands(s, p, d, reqs[i], t);
      }
      ReserveEachLands(s1, d, p, reqs, i + 1, s');
    }
  }

  // Giving the pool back

  lemma ReserveThenDrop(cu: CuState, p: nat, load: nat, client: nat)
    requires load > 0
    ensures DropPool(ReserveSlot(cu, p, load, client), p) == DropPool(cu, p)
    ensures Held(ReserveSlot(cu, p, load, client), p) == Held(cu, p) + load
  {
    var rs, rs' := cu.reserves, ReserveSlot(cu, p, load, client).reserves;
    var k := FindSlot(rs, p);
    FoundSlot(rs', p, k);
    assert DeleteAt(rs', k) == if k < |rs| then DeleteAt(rs, k) else rs;
  }

  lemma ReserveAtThenDrop(s: SysState, d: nat, c: nat, p: nat, req: Request)
    requires d < |s.devs| && c < |s.devs[d].cus| && req.load > 0
    ensures WithoutPool(ReserveAt(s, d, c, p, req), p) == WithoutPool(s, p)
  {
    hide DropPool, ReserveSlot;
    ReserveThenDrop(s.devs[d].cus[c], p, req.load, req.clientId);
    var s' := ReserveAt(s, d, c, p, req);
    assert UnitsWithout(s'.devs[d].cus, p) == UnitsWithout(s.devs[d].cus, p);
    assert WithoutPool(s', p).devs == WithoutPool(s, p).devs;
  }

  lemma DropTwice(cu: CuState, p: nat)
    requires CuInv(cu)
    ensures DropPool(DropPool(cu, p), p) == DropPool(cu, p) && Held(DropPool(cu, p), p) == 0
  {
    var k := FindSlot(cu.reserves, p);
    if k < |cu.reserves| {
      DropSlotKeepsInv(cu, k);
      assert p !in Pools(DropSlot(cu, k).reserves);
    }
  }

  lemma WithoutTwice(s: SysState, p: nat)
    requires Inv(s)
    ensures WithoutPool(WithoutPool(s, p), p) == WithoutPool(s, p)
  {
    hide DropPool, CuInv;
    forall d | 0 <= d < |s.devs| ensures WithoutPool(WithoutPool(s, p), p).devs[d] == WithoutPool(s, p).devs[d] {
      assert DevInv(s.devs[d]);
      forall c | 0 <= c < |s.devs[d].cus|
        ensures DropPool(DropPool(s.devs[d].cus[c], p), p) == DropPool(s.devs[d].cus[c], p)
      {
        assert CuInv(s.devs[d].cus[c]);
        DropTwice(s.devs[d].cus[c], p);
      }
      assert UnitsWithout(UnitsWithout(s.devs[d].cus, p), p) == UnitsWithout(s.devs[d].cus, p);
    }
    assert WithoutPool(WithoutPool(s, p), p).devs == WithoutPool(s, p).devs;
  }

  /** Giving back a pool that no channel uses yet. */
  lemma RelinquishIsWithout(a: SysState, b: SysState, p: nat)
    requires Reserving(a, b, {p})
    ensures Relinquish(b, p).0 == WithoutPool(b, p)
  {
    hide Inv, DropPool, Reached;
    assert p in {p};
    forall d: nat | d < |b.devs| ensures FreeOn(b.devs[d], p) { NotInUse(a, b, d, p); }
    RelinquishFromSpec(b, 0, p);
    var s' := Relinquish(b, p).0;
    forall d: nat | d < |b.devs| ensures s'.devs[d] == WithoutPool(b, p).devs[d] {
      forall c: nat | c < |b.devs[d].cus| ensures s'.devs[d].cus[c] == DropPool(b.devs[d].cus[c], p) {
        AllReached(b, d, c, p);
      }
      assert s'.devs[d].cus == UnitsWithout(b.devs[d].cus, p);
    }
    assert s'.devs == WithoutPool(b, p).devs;
  }

  lemma AllReached(s: SysState, d: nat, c: nat, p: nat)
    requires d < |s.devs| && forall e: nat :: e < |s.devs| ==> FreeOn(s.devs[e], p)
    ensures Reached(s, 0, d, c, p)
  {
  }

  lemma NotInUse(a: SysState, b: SysState, d: nat, p: nat)
    requires Reserving(a, b, {p}) && d < |b.devs|
    ensures FreeOn(b.devs[d], p)
  {
    assert DevAdded(a.devs[d], b.devs[d], {p});
    forall c | 0 <= c < |b.devs[d].cus| ensures !PoolInUse(b.devs[d].cus[c], p) {
      assert SlotsAdded(a.devs[d].cus[c], b.devs[d].cus[c], {p});
      FreshHoldsNothing(a.devs[d].cus[c], b.devs[d].cus[c], {p}, p);
    }
  }

  lemma {:induction false} EachFails(a: SysState, b: SysState, d: nat, p: nat, reqs: seq<Request>, i: nat)
    requires Reserving(a, b, {p}) && d < |b.devs| && i <= |reqs| && ReserveEach(b, d, p, reqs, i).1 != SUCCESS
    ensures ReserveEach(b, d, p, reqs, i).0 == WithoutPool(b, p)
    decreases |reqs| - i
  {
    hide Reserving, ReserveFromDev, Relinquish, WithoutPool;
    if i < |reqs| {
      var (b1, status) := ReserveFromDev(b, p, d, reqs[i]);
      OneReserved(a, b, d, p, reqs[i]);
      if status == SUCCESS { EachFails(a, b1, d, p, reqs, i + 1); } else { RelinquishIsWithout(a, b1, p); }
    }
  }

  lemma OneReserved(a: SysState, b: SysState, d: nat, p: nat, req: Request)
    requires Reserving(a, b, {p}) && d < |b.devs|
    ensures var b1 := ReserveFromDev(b, p, d, req).0; Reserving(a, b1, {p}) && WithoutPool(b1, p) == WithoutPool(b, p)
  {
    hide Inv, PoolsAdded, ReserveAt, WithoutPool;
    ReserveFromDevReserves(a, b, {p}, p, d, req);
    var c := PickReserve(b.devs[d].cus, p, req);
    if HasReserveName(req.names) && c < |b.devs[d].cus| { ReserveAtThenDrop(b, d, c, p, req); }
  }

  // The search for the device

  lemma StillFound(b0: SysState, d: nat, k: nat, p: nat, reqs: seq<Request>)
    requires reqs != [] && d <= |b0.devs| && AllCannot(b0, d, p, reqs)
    requires k == NextOpen(FoundBy(b0, d, p, reqs[0].clientId).devs, d, reqs[0].clientId)
    ensures FoundBy(b0, k, p, reqs[0].clientId) == FoundBy(b0, d, p, reqs[0].clientId) && AllCannot(b0, k, p, reqs)
    ensures k < |b0.devs| ==> Open(b0.devs[k], reqs[0].clientId)
  {
    var client := reqs[0].clientId;
    var b := FoundBy(b0, d, p, client);
    forall e: nat | e < |b0.devs| ensures Open(b.devs[e], client) <==> Open(b0.devs[e], client) { }
    assert forall e :: d <= e < k ==> !Open(b.devs[e], client);
    assert OpenBefore(b0, k, client) <==> OpenBefore(b0, d, client);
  }

  lemma TakesOrCannot(b: SysState, k: nat, p: nat, reqs: seq<Request>)
    requires k < |b.devs|
    ensures DevCannot(b, k, p, reqs) <==> ReserveEach(b, k, p, reqs, 0).1 != SUCCESS
  {
    hide DevTakes, ReserveEach;
    forall t ensures ReserveEach(b, k, p, reqs, 0) == (t, SUCCESS) <==> DevTakes(b, k, p, reqs, 0, t) {
      ReserveEachLands(b, k, p, reqs, 0, t);
    }
    var (b1, status) := ReserveEach(b, k, p, reqs, 0);
    if status == SUCCESS { assert DevTakes(b, k, p, reqs, 0, b1); }
  }

  lemma OnlyLowest(b0: SysState, k: nat, e: nat, p: nat, reqs: seq<Request>, s': SysState)
    requires reqs != [] && k < |b0.devs| && Open(b0.devs[k], reqs[0].clientId) && AllCannot(b0, k, p, reqs)
    requires !DevCannot(FoundBy(b0, k, p, reqs[0].clientId), k, p, reqs) && LowestTakes(b0, e, p, reqs, s')
    ensures e == k
  {
    hide DevTakes, DevCannot, FoundBy;
    TakesThenCan(FoundBy(b0, e, p, reqs[0].clientId), e, p, reqs, s');
  }

  lemma TakesThenCan(s: SysState, d: nat, p: nat, reqs: seq<Request>, s': SysState)
    requires DevTakes(s, d, p, reqs, 0, s')
    ensures !DevCannot(s, d, p, reqs)
  {
  }

  /** The first device that can take the list does. */
  lemma FoundLowest(b0: SysState, k: nat, p: nat, reqs: seq<Request>, b1: SysState, s': SysState)
    requires reqs != [] && k < |b0.devs| && Open(b0.devs[k], reqs[0].clientId) && AllCannot(b0, k, p, reqs)
    requires ReserveEach(FoundBy(b0, k, p, reqs[0].clientId), k, p, reqs, 0) == (b1, SUCCESS)
    ensures s' == b1 <==> exists e: nat :: LowestTakes(b0, e, p, reqs, s')
  {
    hide ReserveEach, DevTakes, FoundBy, DevCannot, AllCannot;
    var b := FoundBy(b0, k, p, reqs[0].clientId);
    ReserveEachLands(b, k, p, reqs, 0, s');
    TakesOrCannot(b, k, p, reqs);
    if s' == b1 { assert LowestTakes(b0, k, p, reqs, s'); }
    forall e: nat | LowestTakes(b0, e, p, reqs, s') ensures e == k { OnlyLowest(b0, k, e, p, reqs, s'); }
  }

  lemma GivenBackAgain(b0: SysState, k: nat, p: nat, client: nat)
    requires Inv(b0) && k < |b0.devs| && Open(b0.devs[k], client)
    ensures WithoutPool(FoundBy(b0, k, p, client), p) == FoundBy(b0, k + 1, p, client)
  {
    hide Inv, WithoutPool;
    WithoutTwice(b0, p);
  }

  lemma EachStillReserving(a: SysState, b: SysState, k: nat, p: nat, reqs: seq<Request>)
    requires Reserving(a, b, {p}) && k < |b.devs|
    ensures Reserving(a, ReserveEach(b, k, p, reqs, 0).0, {p})
  {
    ReserveEachReserves(a, b, {p}, k, p, reqs, 0);
  }

  lemma OneMoreCannot(b0: SysState, k: nat, p: nat, reqs: seq<Request>)
    requires reqs != [] && AllCannot(b0, k, p, reqs)
    requires DevCannot(FoundBy(b0, k, p, reqs[0].clientId), k, p, reqs)
    ensures AllCannot(b0, k + 1, p, reqs)
  {
    hide DevCannot, FoundBy;
  }

  lemma OneCan(b0: SysState, k: nat, p: nat, reqs: seq<Request>)
    requires reqs != [] && k < |b0.devs| && Open(b0.devs[k], reqs[0].clientId)
    requires !DevCannot(FoundBy(b0, k, p, reqs[0].clientId), k, p, reqs)
    ensures !AllCannot(b0, |b0.devs|, p, reqs)
  {
    hide DevCannot, FoundBy;
  }

  lemma NoneLowest(b0: SysState, p: nat, reqs: seq<Request>, s': SysState)
    requires reqs != [] && AllCannot(b0, |b0.devs|, p, reqs)
    ensures forall e: nat :: !LowestTakes(b0, e, p, reqs, s')
  {
    hide DevTakes, DevCannot, FoundBy;
    forall e: nat ensures !LowestTakes(b0, e, p, reqs, s') {
      if LowestTakes(b0, e, p, reqs, s') { TakesThenCan(FoundBy(b0, e, p, reqs[0].clientId), e, p, reqs, s'); }
    }
  }

  /** The search has come to device d: b0 was the database at its start, b is what d finds. */
  lemma {:induction false} ReserveSameLands(a: SysState, b0: SysState, b: SysState, d: nat, p: nat,
                                            reqs: seq<Request>, last: Status, s': SysState)
    requires Reserving(a, b, {p}) && Inv(b0) && d <= |b.devs| == |b0.devs| && reqs != [] && last != SUCCESS
    requires b == FoundBy(b0, d, p, reqs[0].clientId) && AllCannot(b0, d, p, reqs)
    ensures ReserveSame(b, d, p, reqs, last) == (s', SUCCESS) <==> exists e: nat :: LowestTakes(b0, e, p, reqs, s')
    ensures ReserveSame(b, d, p, reqs, last).1 != SUCCESS <==> AllCannot(b0, |b0.devs|, p, reqs)
    decreases |b.devs| - d
  {
    hide Reserving, Inv, ReserveEach, WithoutPool, DevCannot, AllCannot, FoundBy, LowestTakes, NextOpen;
    var client := reqs[0].clientId;
    var k := NextOpen(b.devs, d, client);
    StillFound(b0, d, k, p, reqs);
    if k < |b.devs| {
      var (b1, status) := ReserveEach(b, k, p, reqs, 0);
      TakesOrCannot(b, k, p, reqs);
      if status == SUCCESS {
        FoundLowest(b0, k, p, reqs, b1, s');
        OneCan(b0, k, p, reqs);
      } else {
        EachFails(a, b, k, p, reqs, 0);
        GivenBackAgain(b0, k, p, client);
        EachStillReserving(a, b, k, p, reqs);
        OneMoreCannot(b0, k, p, reqs);
        ReserveSameLands(a, b0, b1, k + 1, p, reqs, status, s');
      }
    } else {
      NoneLowest(b0, p, reqs, s');
    }
  }

  lemma ReserveListLands(a: SysState, b: SysState, p: nat, reqs: seq<Request>, sameDevice: bool, s': SysState)
    requires Reserving(a, b, {p})
    ensures ReserveList(b, p, reqs, sameDevice) == (s', SUCCESS) <==> ListTakes(b, p, reqs, sameDevice, s')
    ensures ReserveList(b, p, reqs, sameDevice).1 != SUCCESS <==> ListStops(b, p, reqs, sameDevice)
  {
    hide Reserving, ReserveAny, ReserveSame, LowestTakes, AnyTakes, AnyStops;
    if 0 < |reqs| <= MAX_LIST {
      if sameDevice {
        ReservingInv(a, b, p);
        assert AllCannot(b, 0, p, reqs);
        ReserveSameLands(a, b, b, 0, p, reqs, ERROR, s');
        CannotIsStops(b, p, reqs);
      } else {
        ReserveAnyLands(b, p, reqs, 0, s');
      }
    }
  }

  lemma CannotIsStops(s: SysState, p: nat, reqs: seq<Request>)
    requires reqs != []
    ensures AllCannot(s, |s.devs|, p, reqs) <==>
              forall e {:trigger s.devs[e]} :: 0 <= e < |s.devs| && Open(s.devs[e], reqs[0].clientId) ==>
                DevStops(FoundBy(s, e, p, reqs[0].clientId), e, p, reqs, 0)
  {
    hide DevCannot, DevStops, DevTakes, FoundBy, ReserveEach;
    forall e: nat | e < |s.devs|
      ensures DevCannot(FoundBy(s, e, p, reqs[0].clientId), e, p, reqs) <==>
                DevStops(FoundBy(s, e, p, reqs[0].clientId), e, p, reqs, 0)
    {
      var b := FoundBy(s, e, p, reqs[0].clientId);
      ReserveEachLands(b, e, p, reqs, 0, b);
      TakesOrCannot(b, e, p, reqs);
    }
  }

  lemma ReservingInv(a: SysState, b: SysState, p: nat)
    requires Reserving(a, b, {p})
    ensures Inv(b)
  {
  }

  // ---------------------------------------------------------------------------------
  // The pool
  // ---------------------------------------------------------------------------------

  /** The list reserves n times in a row. */
  ghost predicate ListsTake(s: SysState, p: nat, n: nat, reqs: seq<Request>, sameDevice: bool, s': SysState)
    decreases n
  {
    if n == 0 then s' == s
    else exists s1 :: ListTakes(s, p, reqs, sameDevice, s1) && ListsTake(s1, p, n - 1, reqs, sameDevice, s')
  }

  /** Device d is the first that is idle and has the xclbin, and is taken as a whole. */
  ghost predicate FirstIdleTaken(s: SysState, d: nat, p: nat, uuid: nat, client: nat, s': SysState) {
    && p != 0 && d < |s.devs| && Qualifies(s.devs[d], uuid)
    && (forall e {:trigger s.devs[e]} :: 0 <= e < d ==> !Qualifies(s.devs[e], uuid))
    && s' == SetDev(s, d, WholeDev(s.devs[d], p, client))
  }

  ghost predicate IdleTaken(s: SysState, p: nat, uuid: nat, client: nat, s': SysState) {
    exists d: nat :: FirstIdleTaken(s, d, p, uuid, client, s')
  }

  /** n devices are taken as a whole, one after another. */
  ghost predicate DevicesTaken(s: SysState, p: nat, n: nat, uuid: nat, client: nat, s': SysState)
    decreases n
  {
    if n == 0 then s' == s
    else exists s1 :: IdleTaken(s, p, uuid, client, s1) && DevicesTaken(s1, p, n - 1, uuid, client, s')
  }

  /** The request is well-formed, the devices can be taken, and then the lists reserved; under the
      next pool id the database is s' then. */
  ghost predicate PoolTakes(s: SysState, q: PoolRequest, s': SysState) {
    && q.listNum >= 0 && q.xclbinNum >= 0 && |q.reqs| <= MAX_LIST
    && exists s1, s2 ::
         && DevicesTaken(s, NextId(s.poolId), q.xclbinNum, q.uuid, q.clientId, s1)
         && ListsTake(s1, NextId(s.poolId), q.listNum, q.reqs, q.sameDevice, s2)
         && s' == s2.(poolId := NextId(s.poolId))
  }

  /** Some list is refused after those before it. */
  ghost predicate ListsStop(s: SysState, p: nat, n: nat, reqs: seq<Request>, sameDevice: bool)
    decreases n
  {
    && n > 0
    && (ListStops(s, p, reqs, sameDevice)
        || exists s1 :: ListTakes(s, p, reqs, sameDevice, s1) && ListsStop(s1, p, n - 1, reqs, sameDevice))
  }

  /** No device is left that is idle and has the xclbin, after fewer than n were taken. */
  ghost predicate DevicesStop(s: SysState, p: nat, n: nat, uuid: nat, client: nat)
    decreases n
  {
    && n > 0
    && ((forall d :: 0 <= d < |s.devs| ==> !Qualifies(s.devs[d], uuid))
        || exists s1 :: IdleTaken(s, p, uuid, client, s1) && DevicesStop(s1, p, n - 1, uuid, client))
  }

  /** The request is malformed, or a device or a list is refused. */
  ghost predicate PoolStops(s: SysState, q: PoolRequest) {
    || q.listNum < 0 || q.xclbinNum < 0 || |q.reqs| > MAX_LIST
    || DevicesStop(s, NextId(s.poolId), q.xclbinNum, q.uuid, q.clientId)
    || exists s1 ::
         && DevicesTaken(s, NextId(s.poolId), q.xclbinNum, q.uuid, q.clientId, s1)
         && ListsStop(s1, NextId(s.poolId), q.listNum, q.reqs, q.sameDevice)
  }

  lemma {:induction false} ReserveListsLands(a: SysState, b: SysState, p: nat, n: nat, reqs: seq<Request>,
                                             sameDevice: bool, s': SysState)
    requires Reserving(a, b, {p})
    ensures ReserveLists(b, p, n, reqs, sameDevice) == (s', SUCCESS) <==> ListsTake(b, p, n, reqs, sameDevice, s')
    ensures ReserveLists(b, p, n, reqs, sameDevice).1 != SUCCESS <==> ListsStop(b, p, n, reqs, sameDevice)
    decreases n
  {
    hide Reserving, ReserveList, ListTakes, ListStops;
    if n > 0 {
      var (b1, status) := ReserveList(b, p, reqs, sameDevice);
      ReserveListLands(a, b, p, reqs, sameDevice, b1);
      forall t ensures ReserveList(b, p, reqs, sameDevice) == (t, SUCCESS) <==> ListTakes(b, p, reqs, sameDevice, t) {
        ReserveListLands(a, b, p, reqs, sameDevice, t);
      }
      if status == SUCCESS {
        ListStillReserving(a, b, p, reqs, sameDevice);
        ReserveListsLands(a, b1, p, n - 1, reqs, sameDevice, s');
      }
    }
  }

  lemma ListStillReserving(a: SysState, b: SysState, p: nat, reqs: seq<Request>, sameDevice: bool)
    requires Reserving(a, b, {p})
    ensures Reserving(a, ReserveList(b, p, reqs, sameDevice).0, {p})
  {
    ReserveListReserves(a, b, {p}, p, reqs, sameDevice);
  }

  lemma ReserveXclbinLands(s: SysState, p: nat, uuid: nat, client: nat, s': SysState)
    ensures ReserveXclbin(s, p, uuid, client) == (s', SUCCESS) <==> IdleTaken(s, p, uuid, client, s')
    ensures p != 0 ==> (ReserveXclbin(s, p, uuid, client).1 != SUCCESS <==>
                        forall d :: 0 <= d < |s.devs| ==> !Qualifies(s.devs[d], uuid))
  {
    hide WholeDev, Busy;
    var k := NextIdle(s, 0, uuid);
    if p != 0 && k < |s.devs| {
      assert FirstIdleTaken(s, k, p, uuid, client, SetDev(s, k, WholeDev(s.devs[k], p, client)));
      forall d: nat | FirstIdleTaken(s, d, p, uuid, client, s') ensures d == k { }
    }
  }

  lemma {:induction false} ReserveXclbinsLands(s: SysState, p: nat, n: nat, uuid: nat, client: nat, s': SysState)
    requires p != 0
    ensures ReserveXclbins(s, p, n, uuid, client) == (s', SUCCESS) <==> DevicesTaken(s, p, n, uuid, client, s')
    ensures ReserveXclbins(s, p, n, uuid, client).1 != SUCCESS <==> DevicesStop(s, p, n, uuid, client)
    decreases n
  {
    hide ReserveXclbin, IdleTaken, Qualifies;
    if n > 0 {
      var s1 := ReserveXclbin(s, p, uuid, client).0;
      ReserveXclbinLands(s, p, uuid, client, s1);
      forall t ensures ReserveXclbin(s, p, uuid, client) == (t, SUCCESS) <==> IdleTaken(s, p, uuid, client, t) {
        ReserveXclbinLands(s, p, uuid, client, t);
      }
      ReserveXclbinsLands(s1, p, n - 1, uuid, client, s');
    }
  }

  /** When a pool is granted and as what, and when it is refused, by the tables alone. */
  lemma ReservePoolLands(s: SysState, q: PoolRequest, s': SysState)
    requires Inv(s) && IdsFresh(s) && s.poolId < MAX_ID
    ensures ReservePool(s, q) == (s', NextId(s.poolId)) <==> PoolTakes(s, q, s')
    ensures ReservePool(s, q).1 == 0 <==> PoolStops(s, q)
    ensures ReservePool(s, q).1 == 0 || ReservePool(s, q).1 == NextId(s.poolId)
  {
    hide Inv, IdsFresh, Reserving, ReserveXclbins, ReserveLists, DevicesTaken, ListsTake, Relinquish, DevicesStop,
      ListsStop;
    if q.listNum >= 0 && q.xclbinNum >= 0 && |q.reqs| <= MAX_LIST {
      var p := NextId(s.poolId);
      var (s1, st1) := ReserveXclbins(s, p, q.xclbinNum, q.uuid, q.clientId);
      ReserveXclbinsLands(s, p, q.xclbinNum, q.uuid, q.clientId, s1);
      forall t ensures ReserveXclbins(s, p, q.xclbinNum, q.uuid, q.clientId) == (t, SUCCESS) <==>
                         DevicesTaken(s, p, q.xclbinNum, q.uuid, q.clientId, t)
      {
        ReserveXclbinsLands(s, p, q.xclbinNum, q.uuid, q.clientId, t);
      }
      if st1 == SUCCESS {
        DevicesStillReserving(s, q);
        ReserveListsLands(s, s1, p, q.listNum, q.reqs, q.sameDevice, s1);
        forall t ensures ReserveLists(s1, p, q.listNum, q.reqs, q.sameDevice) == (t, SUCCESS) <==>
                           ListsTake(s1, p, q.listNum, q.reqs, q.sameDevice, t)
        {
          ReserveListsLands(s, s1, p, q.listNum, q.reqs, q.sameDevice, t);
        }
      }
    }
  }

  lemma DevicesStillReserving(s: SysState, q: PoolRequest)
    requires Inv(s) && IdsFresh(s) && s.poolId < MAX_ID && q.xclbinNum >= 0
    ensures var p := NextId(s.poolId); Reserving(s, ReserveXclbins(s, p, q.xclbinNum, q.uuid, q.clientId).0, {p})
  {
    NextPoolHoldsNothing(s);
    var whole := ReserveXclbinsReserve(s, s, {NextId(s.poolId)}, NextId(s.poolId), q.xclbinNum, q.uuid, q.clientId);
  }

  // ---------------------------------------------------------------------------------
  // What a unit holds of the pool
  // ---------------------------------------------------------------------------------

  /** The load of the requests from index i on that fit a unit with these names. */
  function FitLoad(names: Names, reqs: seq<Request>, i: nat): int
    requires i <= |reqs|
    decreases |reqs| - i
  {
    if i == |reqs| then 0 else (if Fits(names, reqs[i]) then reqs[i].load else 0) + FitLoad(names, reqs, i + 1)
  }

  predicate UnitAt(s: SysState, d: nat, c: nat) {
    d < |s.devs| && c < |s.devs[d].cus|
  }

  /** Unit c of device d holds at most so much more of the pool in s' than in s. */
  predicate Gains(s: SysState, s': SysState, d: nat, c: nat, p: nat, load: int) {
    && UnitAt(s, d, c) && UnitAt(s', d, c)
    && s'.devs[d].cus[c].names == s.devs[d].cus[c].names
    && Held(s'.devs[d].cus[c], p) <= Held(s.devs[d].cus[c], p) + load
  }

  lemma ReserveGains(s: SysState, e: nat, j: nat, p: nat, req: Request, d: nat, c: nat)
    requires UnitAt(s, e, j) && CanReserve(s.devs[e].cus[j], p, req) && UnitAt(s, d, c)
    ensures Gains(s, ReserveAt(s, e, j, p, req), d, c, p, if Fits(s.devs[d].cus[c].names, req) then req.load else 0)
  {
    ReserveThenDrop(s.devs[e].cus[j], p, req.load, req.clientId);
  }

  lemma {:induction false} AnyGains(s: SysState, p: nat, reqs: seq<Request>, i: nat, s': SysState, d: nat, c: nat)
    requires i <= |reqs| && AnyTakes(s, p, reqs, i, s') && UnitAt(s, d, c)
    ensures Gains(s, s', d, c, p, FitLoad(s.devs[d].cus[c].names, reqs, i))
    decreases |reqs| - i
  {
    hide Fits, Held, ReserveAt, Ahead;
    if i < |reqs| {
      var s1 :| ReservesAnywhere(s, p, reqs[i], s1) && AnyTakes(s1, p, reqs, i + 1, s');
      var e, j :| FirstReserver(s, e, j, p, reqs[i]) && s1 == ReserveAt(s, e, j, p, reqs[i]);
      ReserveGains(s, e, j, p, reqs[i], d, c);
      AnyGains(s1, p, reqs, i + 1, s', d, c);
    }
  }

  lemma {:induction false} DevGains(s: SysState, e: nat, p: nat, reqs: seq<Request>, i: nat, s': SysState,
                                    d: nat, c: nat)
    requires i <= |reqs| && DevTakes(s, e, p, reqs, i, s') && UnitAt(s, d, c)
    ensures Gains(s, s', d, c, p, FitLoad(s.devs[d].cus[c].names, reqs, i))
    decreases |reqs| - i
  {
    hide Fits, Held, ReserveAt, Sooner;
    if i < |reqs| {
      var s1 :| ReservesOn(s, e, p, reqs[i], s1) && DevTakes(s1, e, p, reqs, i + 1, s');
      var j :| ReserveUnit(s.devs[e], j, p, reqs[i]) && s1 == ReserveAt(s, e, j, p, reqs[i]);
      ReserveGains(s, e, j, p, reqs[i], d, c);
      DevGains(s1, e, p, reqs, i + 1, s', d, c);
    }
  }

  lemma FoundGains(s: SysState, e: nat, p: nat, client: nat, d: nat, c: nat)
    requires Inv(s) && UnitAt(s, d, c)
    ensures Gains(s, FoundBy(s, e, p, client), d, c, p, 0)
  {
    hide CuInv, DropPool;
    assert DevInv(s.devs[d]);
    assert CuInv(s.devs[d].cus[c]);
    DropTwice(s.devs[d].cus[c], p);
    DropKeepsNames(s.devs[d].cus[c], p);
  }

  lemma DropKeepsNames(cu: CuState, p: nat)
    ensures DropPool(cu, p).names == cu.names
  {
  }

  lemma ListGains(s: SysState, p: nat, reqs: seq<Request>, sameDevice: bool, s': SysState, d: nat, c: nat)
    requires Inv(s) && ListTakes(s, p, reqs, sameDevice, s') && UnitAt(s, d, c)
    ensures Gains(s, s', d, c, p, FitLoad(s.devs[d].cus[c].names, reqs, 0))
  {
    hide Inv, AnyTakes, DevTakes, FitLoad, FoundBy, Held, AllCannot;
    if sameDevice {
      var e: nat :| LowestTakes(s, e, p, reqs, s');
      FoundGains(s, e, p, reqs[0].clientId, d, c);
      DevGains(FoundBy(s, e, p, reqs[0].clientId), e, p, reqs, 0, s', d, c);
    } else {
      AnyGains(s, p, reqs, 0, s', d, c);
    }
  }

  lemma {:induction false} ListsGain(a: SysState, s: SysState, p: nat, n: nat, reqs: seq<Request>, sameDevice: bool,
                                     s': SysState, d: nat, c: nat)
    requires Reserving(a, s, {p}) && ListsTake(s, p, n, reqs, sameDevice, s') && UnitAt(s, d, c)
    ensures Gains(s, s', d, c, p, n * FitLoad(s.devs[d].cus[c].names, reqs, 0))
    decreases n
  {
    hide Reserving, FitLoad, Held, ListTakes, ReserveList;
    if n > 0 {
      var s1 :| ListTakes(s, p, reqs, sameDevice, s1) && ListsTake(s1, p, n - 1, reqs, sameDevice, s');
      ReservingInv(a, s, p);
      ListGains(s, p, reqs, sameDevice, s1, d, c);
      ReserveListLands(a, s, p, reqs, sameDevice, s1);
      ListStillReserving(a, s, p, reqs, sameDevice);
      ListsGain(a, s1, p, n - 1, reqs, sameDevice, s', d, c);
      var load := FitLoad(s.devs[d].cus[c].names, reqs, 0);
      assert n * load == load + (n - 1) * load;
    }
  }

  /** No unit of a device that is not taken as a whole holds more of a granted pool than the load
      of those requests that fit the unit, once for every list. */
  lemma PoolFitsUnits(s: SysState, q: PoolRequest, d: nat, c: nat)
    requires Inv(s) && IdsFresh(s) && s.poolId < MAX_ID && ReservePool(s, q).1 != 0 && UnitAt(s, d, c)
    ensures q.listNum >= 0 && q.xclbinNum >= 0
    ensures !TakenWhole(s, q.uuid, q.xclbinNum, d) ==>
              var (s', p) := ReservePool(s, q);
              && UnitAt(s', d, c)
              && Held(s'.devs[d].cus[c], p) <= q.listNum * FitLoad(s.devs[d].cus[c].names, q.reqs, 0)
  {
    hide Inv, IdsFresh, Reserving, ReserveXclbins, ReserveLists, ListsTake, ReservePool, Held, FitLoad, TakenWhole,
      ReserveList;
    GrantedLists(s, q);
    var p := NextId(s.poolId);
    var s1 := ReserveXclbins(s, p, q.xclbinNum, q.uuid, q.clientId).0;
    if !TakenWhole(s, q.uuid, q.xclbinNum, d) {
      XclbinsTake(s, p, q.xclbinNum, q.uuid, q.clientId, d);
      DevicesStillReserving(s, q);
      var s2 := ReserveLists(s1, p, q.listNum, q.reqs, q.sameDevice).0;
      ReserveListsLands(s, s1, p, q.listNum, q.reqs, q.sameDevice, s2);
      ListsGain(s, s1, p, q.listNum, q.reqs, q.sameDevice, s2, d, c);
      NewPoolHoldsNothing(s, d, c);
    }
  }

  lemma NewPoolHoldsNothing(s: SysState, d: nat, c: nat)
    requires Inv(s) && IdsFresh(s) && s.poolId < MAX_ID && UnitAt(s, d, c)
    ensures Held(s.devs[d].cus[c], NextId(s.poolId)) == 0
  {
    assert IdsUpTo(s.devs[d].cus[c], s.serviceId, s.poolId);
  }

  // ---------------------------------------------------------------------------------
  // The probe
  // ---------------------------------------------------------------------------------

  /** The databases ts follow one another as the pool is granted again and again. */
  ghost predicate GrantedInARow(q: PoolRequest, ts: seq<SysState>) {
    ts != [] && forall i {:trigger ts[i]} :: 0 <= i < |ts| - 1 ==> PoolTakes(ts[i], q, ts[i + 1])
  }

  /** The pool can be granted n times from s on, and then no more. */
  ghost predicate GrantedTimes(s: SysState, q: PoolRequest, n: nat) {
    exists ts :: |ts| == n + 1 && GrantedInARow(q, ts) && ts[0] == s && PoolStops(ts[n], q)
  }

  lemma ProbeableStep(s: SysState, q: PoolRequest, s': SysState)
    requires PoolProbeable(s) && !Endless(q)
    ensures ReservePool(s, q) == (s', NextId(s.poolId)) <==> PoolTakes(s, q, s')
    ensures ReservePool(s, q).1 == 0 <==> PoolStops(s, q)
    ensures ReservePool(s, q).1 != 0 ==> PoolProbeable(ReservePool(s, q).0)
    ensures ReservePool(s, q).1 != 0 ==> 0 <= SpareTotal(ReservePool(s, q).0) < SpareTotal(s)
    ensures PoolTakes(s, q, s') ==> ReservePool(s, q).1 != 0
    ensures ReservePool(s, q).1 == 0 || ReservePool(s, q).1 == NextId(s.poolId)
  {
    hide ReservePool, PoolTakes, PoolStops, SpareTotal;
    SpareNonNegative(s);
    ReservePoolLands(s, q, s');
    PoolUsesSpare(s, q);
    if ReservePool(s, q).1 != 0 { SpareNonNegative(ReservePool(s, q).0); }
  }

  lemma {:induction false} DrainPoolsCounts(s: SysState, q: PoolRequest, acc: seq<nat>, ts: seq<SysState>, n: nat)
    requires PoolProbeable(s) && !Endless(q) && GrantedInARow(q, ts) && n < |ts| && ts[n] == s
    requires PoolStops(ts[|ts| - 1], q)
    ensures |DrainPools(s, q, acc).1| == |acc| + |ts| - 1 - n
    decreases |ts| - n
  {
    hide ReservePool, PoolTakes, PoolStops, PoolProbeable, SpareTotal;
    var (s1, p) := ReservePool(s, q);
    if n < |ts| - 1 {
      ProbeableStep(s, q, ts[n + 1]);
      DrainPoolsCounts(s1, q, acc + [p], ts, n + 1);
    } else {
      ProbeableStep(s, q, s);
    }
  }

  lemma {:induction false} DrainPoolsTrace(s: SysState, q: PoolRequest, ts: seq<SysState>) returns (ts': seq<SysState>)
    requires PoolProbeable(s) && !Endless(q) && GrantedInARow(q, ts) && ts[|ts| - 1] == s && SpareTotal(s) >= 0
    ensures GrantedInARow(q, ts') && ts'[0] == ts[0] && PoolStops(ts'[|ts'| - 1], q)
    decreases SpareTotal(s)
  {
    hide ReservePool, PoolTakes, PoolStops, PoolProbeable, SpareTotal;
    var (s1, p) := ReservePool(s, q);
    ts' := ts;
    ProbeableStep(s, q, s1);
    if p != 0 {
      ts' := DrainPoolsTrace(s1, q, ts + [s1]);
    }
  }

  /** The pool probe reports how often the pool can be granted in a row. */
  lemma ProbePoolIsExact(s: SysState, q: PoolRequest, n: nat)
    requires PoolProbeable(s) && !Endless(q)
    ensures ProbePool(s, q).1 == n <==> GrantedTimes(s, q, n)
  {
    hide ReservePool, PoolTakes, PoolStops, DrainPools, RelinquishAll, SpareTotal;
    SpareNonNegative(s);
    var ts := DrainPoolsTrace(s, q, [s]);
    DrainPoolsCounts(s, q, [], ts, 0);
    if GrantedTimes(s, q, n) {
      var ts' :| |ts'| == n + 1 && GrantedInARow(q, ts') && ts'[0] == s && PoolStops(ts'[n], q);
      DrainPoolsCounts(s, q, [], ts', 0);
    }
  }

  // ---------------------------------------------------------------------------------
  // Whose the pool is
  // ---------------------------------------------------------------------------------

  /** Every slot that the unit has for the pool is the client's. */
  ghost predicate UnitOwned(cu: CuState, p: nat, client: nat) {
    forall i {:trigger cu.reserves[i]} :: 0 <= i < |cu.reserves| && cu.reserves[i].poolId == p ==>
      cu.reserves[i].clientId == client
  }

  ghost predicate Owned(s: SysState, p: nat, client: nat) {
    forall d: nat, c: nat {:trigger s.devs[d].cus[c]} :: UnitAt(s, d, c) ==> UnitOwned(s.devs[d].cus[c], p, client)
  }

  ghost predicate AllOf(reqs: seq<Request>, client: nat) {
    forall i {:trigger reqs[i]} :: 0 <= i < |reqs| ==> reqs[i].clientId == client
  }

  lemma ReserveOwned(s: SysState, d: nat, c: nat, p: nat, req: Request)
    requires Owned(s, p, req.clientId) && UnitAt(s, d, c) && req.load > 0
    ensures Owned(ReserveAt(s, d, c, p, req), p, req.clientId)
  {
    assert UnitOwned(s.devs[d].cus[c], p, req.clientId);
    assert UnitOwned(ReserveSlot(s.devs[d].cus[c], p, req.load, req.clientId), p, req.clientId);
  }

  lemma {:induction false} AnyOwned(s: SysState, p: nat, reqs: seq<Request>, i: nat, s': SysState, client: nat)
    requires i <= |reqs| && AnyTakes(s, p, reqs, i, s') && AllOf(reqs, client) && Owned(s, p, client)
    ensures Owned(s', p, client)
    decreases |reqs| - i
  {
    hide Fits, ReserveAt, Ahead, Owned;
    if i < |reqs| {
      var s1 :| ReservesAnywhere(s, p, reqs[i], s1) && AnyTakes(s1, p, reqs, i + 1, s');
      var e, j :| FirstReserver(s, e, j, p, reqs[i]) && s1 == ReserveAt(s, e, j, p, reqs[i]);
      ReserveOwned(s, e, j, p, reqs[i]);
      AnyOwned(s1, p, reqs, i + 1, s', client);
    }
  }

  lemma {:induction false} DevOwned(s: SysState, e: nat, p: nat, reqs: seq<Request>, i: nat, s': SysState, client: nat)
    requires i <= |reqs| && DevTakes(s, e, p, reqs, i, s') && AllOf(reqs, client) && Owned(s, p, client)
    ensures Owned(s', p, client)
    decreases |reqs| - i
  {
    hide Fits, ReserveAt, Sooner, Owned;
    if i < |reqs| {
      var s1 :| ReservesOn(s, e, p, reqs[i], s1) && DevTakes(s1, e, p, reqs, i + 1, s');
      var j :| ReserveUnit(s.devs[e], j, p, reqs[i]) && s1 == ReserveAt(s, e, j, p, reqs[i]);
      ReserveOwned(s, e, j, p, reqs[i]);
      DevOwned(s1, e, p, reqs, i + 1, s', client);
    }
  }

  lemma DropOwned(cu: CuState, p: nat, client: nat)
    requires UnitOwned(cu, p, client)
    ensures UnitOwned(DropPool(cu, p), p, client)
  {
  }

  lemma ListOwned(s: SysState, p: nat, reqs: seq<Request>, sameDevice: bool, s': SysState, client: nat)
    requires ListTakes(s, p, reqs, sameDevice, s') && AllOf(reqs, client) && Owned(s, p, client)
    ensures Owned(s', p, client)
  {
    hide AnyTakes, DevTakes, DropPool, AllCannot;
    if sameDevice {
      var e: nat :| LowestTakes(s, e, p, reqs, s');
      forall d: nat, c: nat | UnitAt(s, d, c) ensures UnitOwned(DropPool(s.devs[d].cus[c], p), p, client) {
        DropOwned(s.devs[d].cus[c], p, client);
      }
      assert Owned(FoundBy(s, e, p, reqs[0].clientId), p, client);
      DevOwned(FoundBy(s, e, p, reqs[0].clientId), e, p, reqs, 0, s', client);
    } else {
      AnyOwned(s, p, reqs, 0, s', client);
    }
  }

  lemma {:induction false} ListsOwned(s: SysState, p: nat, n: nat, reqs: seq<Request>, sameDevice: bool, s': SysState,
                                      client: nat)
    requires ListsTake(s, p, n, reqs, sameDevice, s') && AllOf(reqs, client) && Owned(s, p, client)
    ensures Owned(s', p, client)
    decreases n
  {
    hide Owned, ListTakes, AllOf;
    if n > 0 {
      var s1 :| ListTakes(s, p, reqs, sameDevice, s1) && ListsTake(s1, p, n - 1, reqs, sameDevice, s');
      ListOwned(s, p, reqs, sameDevice, s1, client);
      ListsOwned(s1, p, n - 1, reqs, sameDevice, s', client);
    }
  }

  lemma DeviceOwned(s: SysState, p: nat, uuid: nat, client: nat, s': SysState)
    requires IdleTaken(s, p, uuid, client, s') && Owned(s, p, client)
    ensures Owned(s', p, client)
  {
    hide Qualifies, CusTotal;
    var k: nat :| FirstIdleTaken(s, k, p, uuid, client, s');
    forall d: nat, c: nat | UnitAt(s', d, c) ensures UnitOwned(s'.devs[d].cus[c], p, client) {
      if d != k { assert UnitOwned(s.devs[d].cus[c], p, client); }
    }
  }

  lemma {:induction false} DevicesOwned(s: SysState, p: nat, n: nat, uuid: nat, client: nat, s': SysState)
    requires DevicesTaken(s, p, n, uuid, client, s') && Owned(s, p, client)
    ensures Owned(s', p, client)
    decreases n
  {
    hide Owned, IdleTaken;
    if n > 0 {
      var s1 :| IdleTaken(s, p, uuid, client, s1) && DevicesTaken(s1, p, n - 1, uuid, client, s');
      DeviceOwned(s, p, uuid, client, s1);
      DevicesOwned(s1, p, n - 1, uuid, client, s');
    }
  }

  /** A pool granted on behalf of one client is that client's: when it dies, recycling it leaves
      nothing of the pool anywhere. */
  lemma RecycleEndsPool(s: SysState, q: PoolRequest)
    requires Inv(s) && IdsFresh(s) && s.poolId < MAX_ID && q.clientId != 0 && AllOf(q.reqs, q.clientId)
    requires ReservePool(s, q).1 != 0
    ensures var (s', p) := ReservePool(s, q);
            && Owned(s', p, q.clientId)
            && forall d: nat, c: nat :: UnitAt(Recycle(s', q.clientId), d, c) ==>
                 p !in Pools(Recycle(s', q.clientId).devs[d].cus[c].reserves)
  {
    hide Inv, IdsFresh, ReservePool, DevicesTaken, ListsTake, RecycleFrom, RecycledUnits;
    var (s', p) := ReservePool(s, q);
    ReservePoolLands(s, q, s');
    var s1, s2 :| DevicesTaken(s, p, q.xclbinNum, q.uuid, q.clientId, s1)
                  && ListsTake(s1, p, q.listNum, q.reqs, q.sameDevice, s2) && s' == s2.(poolId := p);
    NewPoolOwned(s, q.clientId);
    DevicesOwned(s, p, q.xclbinNum, q.uuid, q.clientId, s1);
    ListsOwned(s1, p, q.listNum, q.reqs, q.sameDevice, s2, q.clientId);
    assert Owned(s', p, q.clientId);
    PoolStaysValid(s, q);
    RecycleSpec(s', q.clientId);
    forall d: nat, c: nat | UnitAt(Recycle(s', q.clientId), d, c)
      ensures p !in Pools(Recycle(s', q.clientId).devs[d].cus[c].reserves)
    {
      RecycleEndsOnUnit(s', d, c, p, q.clientId);
    }
  }

  lemma NewPoolOwned(s: SysState, client: nat)
    requires Inv(s) && IdsFresh(s) && s.poolId < MAX_ID
    ensures Owned(s, NextId(s.poolId), client)
  {
    forall d: nat, c: nat | UnitAt(s, d, c) ensures UnitOwned(s.devs[d].cus[c], NextId(s.poolId), client) {
      assert IdsUpTo(s.devs[d].cus[c], s.serviceId, s.poolId);
    }
  }

  lemma PoolStaysValid(s: SysState, q: PoolRequest)
    requires Inv(s) && IdsFresh(s) && s.poolId < MAX_ID
    ensures Inv(ReservePool(s, q).0)
  {
    var whole := ReservePoolTransaction(s, q);
  }

  lemma RecycleEndsOnUnit(s: SysState, d: nat, c: nat, p: nat, client: nat)
    requires Inv(s) && client != 0 && Owned(s, p, client) && UnitAt(s, d, c)
    requires d < |s.devs| && c < |RecycledDev(s.devs[d], client).cus|
    ensures p !in Pools(RecycledDev(s.devs[d], client).cus[c].reserves)
  {
    assert DevInv(s.devs[d]);
    var cu := s.devs[d].cus[c];
    assert UnitOwned(cu, p, client);
    WithoutClientMembers(cu.reserves, client);
    var rs := WithoutClient(cu.reserves, client);
    forall i | 0 <= i < |rs| ensures PoolIds(rs)[i] != p {
      assert rs[i] in rs;
      var k :| 0 <= k < |cu.reserves| && cu.reserves[k] == rs[i];
    }
  }
}
