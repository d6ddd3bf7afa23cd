/** "How many are available?": the daemon allocates until it fails, then releases all it got.
    The count is a closed form of the tables, and the tables come back unchanged. */
module ProbeModel {
  import opened Tables
  import opened Sums
  import opened CuModel
  import opened DeviceModel
  import opened SystemModel
  import opened Placement
  import opened Rollback
  import opened ListModel
  import opened ExclusiveModel

  /** How many more times the request can be granted: over the matching units of the devices
      that take the client, the smaller of the free channels and the load left over the
      request's load. */
  function Available(s: SysState, req: Request): int {
    DevsTotal(UsableUnits(req), s.devs)
  }

  function FreeTotal(s: SysState): int {
    DevsTotal(AllUnits(FreeChannels), s.devs)
  }

  // ---------------------------------------------------------------------------------
  // Capacity of one unit
  // ---------------------------------------------------------------------------------

  lemma Product(k: int, l: int)
    requires k >= 1 && l > 0
    ensures k * l >= l
  {
  }

  lemma Distribute(a: int, b: int, l: int)
    ensures (a - b) * l == a * l - b * l
  {
  }

  lemma DivMod(x: int, l: int) returns (q: int, r: int)
    requires l > 0
    ensures q == x / l && x == q * l + r && 0 <= r < l
  {
    q, r := x / l, x % l;
  }

  lemma QuotientUnique(x: int, l: int, q: int, r: int)
    requires l > 0 && x == q * l + r && 0 <= r < l
    ensures x / l == q
  {
    var q', r' := DivMod(x, l);
    Distribute(q, q', l);
    Distribute(q', q, l);
    if q > q' {
      Product(q - q', l);
    } else if q < q' {
      Product(q' - q, l);
    }
  }

  lemma DivLess(x: int, l: int)
    requires l > 0
    ensures (x - l) / l == x / l - 1
  {
    var q, r := x / l, x % l;
    assert x - l == (q - 1) * l + r by { assert (q - 1) * l == q * l - l; }
    QuotientUnique(x - l, l, q - 1, r);
  }

  lemma CapacityBounds(cu: CuState, req: Request)
    requires CuInv(cu)
    ensures Capacity(cu, req) >= 0
    ensures Capacity(cu, req) > 0 <==> Matches(cu, req) && Feasible(cu, req)
  {
    LiveBound(cu.channels);
    RoomBounds(cu, req.poolId);
    if req.load > 0 { DivPositive(Room(cu, req.poolId), req.load); }
  }

  lemma DivPositive(x: int, l: int)
    requires x >= 0 && l > 0
    ensures x / l >= 0 && (x / l > 0 <==> x >= l)
  {
  }

  lemma CapacityDrops(cu: CuState, req: Request, id: nat)
    requires CuInv(cu) && Matches(cu, req) && Feasible(cu, req) && req.clientId != 0 && id != 0
    ensures Capacity(PutChannel(cu, req, id), req) == Capacity(cu, req) - 1
    ensures WeighCu(FreeChannels, PutChannel(cu, req, id)) == WeighCu(FreeChannels, cu) - 1
  {
    var i := FirstFree(cu.channels);
    PutKeepsInv(cu, req, id);
    TotalUpdate(Live, cu.channels, i, Granted(req, i, id));
    TotalUpdate(LoadInPool(req.poolId), cu.channels, i, Granted(req, i, id));
    assert GoodChannel(cu.channels[i], i);
    DivLess(Room(cu, req.poolId), req.load);
  }

  // ---------------------------------------------------------------------------------
  // Capacity of the database
  // ---------------------------------------------------------------------------------

  lemma DeviceCapacity(dev: DevState, req: Request)
    requires DevInv(dev)
    ensures WeighDev(UsableUnits(req), dev) >= 0
    ensures WeighDev(UsableUnits(req), dev) > 0 <==>
              Usable(dev, req) && exists c ::
                0 <= c < |dev.cus| && Matches(dev.cus[c], req) && Feasible(dev.cus[c], req)
  {
    var ws := CuWeights(CapacityFor(req), dev.cus);
    forall c | 0 <= c < |dev.cus|
      ensures ws[c] >= 0 && (ws[c] > 0 <==> Matches(dev.cus[c], req) && Feasible(dev.cus[c], req))
    {
      assert CuInv(dev.cus[c]);
      CapacityBounds(dev.cus[c], req);
    }
    SumNonNegative(ws);
    SumPositive(ws);
  }

  lemma SumPositive(ws: seq<int>)
    requires forall i :: 0 <= i < |ws| ==> ws[i] >= 0
    ensures Sum(ws) > 0 <==> exists i :: 0 <= i < |ws| && ws[i] > 0
  {
    if forall i :: 0 <= i < |ws| ==> ws[i] == 0 {
      SumZeros(ws);
    } else {
      var i :| 0 <= i < |ws| && ws[i] > 0;
      SumMember(ws, i);
    }
  }

  ghost predicate Placeable(s: SysState, d: nat, c: nat, req: Request) {
    Candidate(s, d, c, true, req) || Candidate(s, d, c, false, req)
  }

  lemma AvailableBounds(s: SysState, req: Request)
    requires Inv(s)
    ensures Available(s, req) >= 0
    ensures Available(s, req) > 0 <==> exists d: nat, c: nat :: Placeable(s, d, c, req)
  {
    var ws := DevWeights(UsableUnits(req), s.devs);
    forall d | 0 <= d < |s.devs| ensures ws[d] >= 0 && (ws[d] > 0 <==> exists c: nat :: Placeable(s, d, c, req)) {
      assert DevInv(s.devs[d]);
      DeviceCapacity(s.devs[d], req);
      if ws[d] > 0 {
        var c :| 0 <= c < |s.devs[d].cus| && Matches(s.devs[d].cus[c], req) && Feasible(s.devs[d].cus[c], req);
        assert Placeable(s, d, c, req);
      }
      if c: nat :| Placeable(s, d, c, req) {
        assert Matches(s.devs[d].cus[c], req) && Feasible(s.devs[d].cus[c], req);
      }
    }
    SumNonNegative(ws);
    SumPositive(ws);
  }

  lemma GrantUsesOne(s: SysState, s': SysState, r: Res, req: Request)
    requires Inv(s) && GrantedAt(s, s', r, req) && req.clientId != 0
    ensures Available(s', req) == Available(s, req) - 1
    ensures FreeTotal(s') == FreeTotal(s) - 1
  {
    hide Capacity, Usable, Room, Total;
    var d, c := r.devId, r.cuId;
    GrantInUnit(s, r, req);
    GrantInUnits(s, s', r, req);
    OneDeviceChanged(UsableUnits(req), s.devs, s'.devs, d);
    OneDeviceChanged(AllUnits(FreeChannels), s.devs, s'.devs, d);
  }

  /** The units of s' are those of s but for r's, which gave its channel. */
  lemma GrantInUnits(s: SysState, s': SysState, r: Res, req: Request)
    requires GrantedAt(s, s', r, req)
    ensures |s'.devs| == |s.devs|
    ensures s'.devs[r.devId].cus
              == s.devs[r.devId].cus[r.cuId := PutChannel(s.devs[r.devId].cus[r.cuId], req, NextId(s.serviceId))]
    ensures forall e :: 0 <= e < |s.devs| && e != r.devId ==> s'.devs[e].cus == s.devs[e].cus
    ensures forall e :: 0 <= e < |s.devs| ==> (Usable(s.devs[e], req) <==> Usable(s'.devs[e], req))
    ensures Usable(s.devs[r.devId], req)
  {
    hide Usable, PutChannel, Feasible;
    var d, c := r.devId, r.cuId;
    var mid := SetDev(s, d, SetCu(s.devs[d], c, PutChannel(s.devs[d].cus[c], req, NextId(s.serviceId))));
    assert SameUnits(mid.devs[d], s'.devs[d]);
    forall e | 0 <= e < |s.devs| && e != d ensures s'.devs[e].cus == s.devs[e].cus {
      assert SameUnits(mid.devs[e], s'.devs[e]);
    }
  }

  lemma GrantInUnit(s: SysState, r: Res, req: Request)
    requires Inv(s) && r.devId < |s.devs| && r.cuId < |s.devs[r.devId].cus| && req.clientId != 0
    requires Matches(s.devs[r.devId].cus[r.cuId], req) && Feasible(s.devs[r.devId].cus[r.cuId], req)
    ensures var cus := s.devs[r.devId].cus;
            var cus' := cus[r.cuId := PutChannel(cus[r.cuId], req, NextId(s.serviceId))];
            && CusTotal(CapacityFor(req), cus') == CusTotal(CapacityFor(req), cus) - 1
            && CusTotal(FreeChannels, cus') == CusTotal(FreeChannels, cus) - 1
  {
    var cus := s.devs[r.devId].cus;
    var cu' := PutChannel(cus[r.cuId], req, NextId(s.serviceId));
    assert DevInv(s.devs[r.devId]);
    assert CuInv(cus[r.cuId]);
    CapacityDrops(cus[r.cuId], req, NextId(s.serviceId));
    CusUpdate(CapacityFor(req), cus, r.cuId, cu');
    CusUpdate(FreeChannels, cus, r.cuId, cu');
  }

  /** An allocation succeeds exactly when the count is positive, and then lowers it by one. */
  lemma AllocUsesOne(s: SysState, req: Request)
    requires Inv(s) && req.clientId != 0 && HasName(req.names)
    ensures var (s', r) := AllocCu(s, req, false);
            && (r.Ok? <==> Available(s, req) > 0)
            && Available(s', req) == Available(s, req) - (if r.Ok? then 1 else 0)
            && FreeTotal(s') == FreeTotal(s) - (if r.Ok? then 1 else 0)
  {
    AllocCuRefines(s, req);
    AvailableBounds(s, req);
    var (s', r) := AllocCu(s, req, false);
    if r.Ok? {
      GrantUsesOne(s, s', r.value, req);
      assert Placeable(s, r.value.devId, r.value.cuId, req);
    } else {
      forall d | 0 <= d < |s.devs| ensures s'.devs[d].cus == s.devs[d].cus {
        assert SameUnits(s.devs[d], s'.devs[d]);
      }
      SameWeights(UsableUnits(req), s.devs, s'.devs);
      SameWeights(AllUnits(FreeChannels), s.devs, s'.devs);
    }
  }

  lemma AdvanceKeepsTables(s: SysState)
    ensures Advance(s, true).devs == s.devs
    ensures Inv(s) ==> Inv(Advance(s, true))
  {
    if Inv(s) { AdvanceKeepsInv(s); }
  }

  lemma AllocUsesOneAndId(s: SysState, req: Request)
    requires Inv(s) && req.clientId != 0 && HasName(req.names)
    ensures var (s', r) := AllocCu(s, req, true);
            && Inv(s')
            && Available(s, req) >= 0
            && (r.Ok? <==> Available(s, req) > 0)
            && Available(s', req) == Available(s, req) - (if r.Ok? then 1 else 0)
            && s'.serviceId == (if r.Ok? then NextId(s.serviceId) else s.serviceId) && s'.poolId == s.poolId
  {
    AllocUsesOne(s, req);
    AllocCuUpdate(s, req);
    AvailableBounds(s, req);
    AllocCuKeepsInv(s, req, false);
    AdvanceKeepsTables(AllocCu(s, req, false).0);
  }

  // ---------------------------------------------------------------------------------
  // The probe for one unit
  // ---------------------------------------------------------------------------------

  /** Allocates until an allocation fails. It ends because every success uses one up. */
  function Drain(s: SysState, req: Request, acc: seq<Res>): (SysState, seq<Res>)
    requires Inv(s) && req.clientId != 0
    decreases if HasName(req.names) then Available(s, req) else 0
  {
    var (s1, r) := AllocCu(s, req, true);
    if r.Err? then (s1, acc)
    else
      AllocUsesOneAndId(s, req);
      Drain(s1, req, acc + [r.value])
  }

  function ProbeCu(s: SysState, req: Request): (SysState, nat)
    requires Inv(s) && req.clientId != 0
  {
    var (s1, rs) := Drain(s, req, []);
    (ReleaseEach(s1, rs), |rs|)
  }

  lemma {:induction false} DrainCounts(s: SysState, req: Request, acc: seq<Res>)
    requires Inv(s) && req.clientId != 0 && HasName(req.names)
    ensures var (s', rs) := Drain(s, req, acc);
            && |rs| == |acc| + Available(s, req)
            && s'.poolId == s.poolId
            && (s.serviceId + Available(s, req) <= MAX_ID ==> s'.serviceId == s.serviceId + Available(s, req))
    decreases Available(s, req)
  {
    AllocUsesOneAndId(s, req);
    var (s1, r) := AllocCu(s, req, true);
    if r.Ok? { DrainCounts(s1, req, acc + [r.value]); }
  }

  lemma {:induction false} DrainExtends(a: SysState, s: SysState, req: Request, acc: seq<Res>, excl: set<nat>)
    requires Inv(a) && Inv(s) && Asks(req, excl) && Ext(a, s, Items(acc), excl) && NoRepeats(acc)
    ensures var (s', rs) := Drain(s, req, acc);
            Inv(s') && Ext(a, s', Items(rs), excl) && NoRepeats(rs)
    decreases if HasName(req.names) then Available(s, req) else 0
  {
    hide Ext, Inv, AllocCu;
    AllocCuAttempts(a, s, Items(acc), excl, req);
    DrainRound(s, req, acc);
    var (s0, r) := AllocCu(s, req, false);
    if r.Ok? {
      assert Items(acc + [r.value]) == Items(acc) + {r.value};
      ExtSameTables(a, s0, Advance(s0, true), Items(acc + [r.value]), excl);
      DrainExtends(a, Advance(s0, true), req, acc + [r.value], excl);
    }
  }

  /** One round of the loop. */
  lemma DrainRound(s: SysState, req: Request, acc: seq<Res>)
    requires Inv(s) && req.clientId != 0
    ensures var (s0, r) := AllocCu(s, req, false);
            if r.Err? then Drain(s, req, acc) == (s0, acc)
            else
              && HasName(req.names) && Inv(Advance(s0, true))
               && 0 <= Available(Advance(s0, true), req) < Available(s, req)
              && Drain(s, req, acc) == Drain(Advance(s0, true), req, acc + [r.value])
  {
    if HasName(req.names) {
      AllocCuUpdate(s, req);
      AllocUsesOneAndId(s, req);
      AvailableBounds(AllocCu(s, req, true).0, req);
    }
  }

  /** The loop ends with a failure, which turns every shared device that the client alone uses. */
  lemma {:induction false} DrainTurns(s: SysState, req: Request, acc: seq<Res>, d: nat)
    requires Inv(s) && req.clientId != 0 && HasName(req.names) && req.devExcl && d < |s.devs| && UsedBy(s.devs[d], req)
    ensures |Drain(s, req, acc).0.devs| == |s.devs| && Drain(s, req, acc).0.devs[d].isExcl
    decreases Available(s, req)
  {
    hide Inv, Usable, AllocCu, Drain;
    DrainRound(s, req, acc);
    var (s0, r) := AllocCu(s, req, false);
    AllocKeepsUse(s, req, d);
    if r.Ok? {
      DrainTurns(Advance(s0, true), req, acc + [r.value], d);
    } else {
      FailedAllocTurns(s, req);
    }
  }

  /** The probe reports exactly the available count. Every unit is as before; and so is every
      device, with its client table and its mode, if and only if the request does not ask for
      exclusive use while its client alone uses a loaded shared device. Only the service id
      moves on, once per unit counted. */
  lemma ProbeCuIsExact(s: SysState, req: Request)
    requires Inv(s) && req.clientId != 0
    ensures ProbeCu(s, req).1 == (if HasName(req.names) then Available(s, req) else 0)
    ensures Inv(ProbeCu(s, req).0) && Restored(s, ProbeCu(s, req).0, AskerOf(req)) &&
      ProbeCu(s, req).0.poolId == s.poolId
    ensures ProbeCu(s, req).0.devs == s.devs <==>
              !HasName(req.names) || forall d :: 0 <= d < |s.devs| ==> !Turns(s.devs[d], req)
    ensures HasName(req.names) && s.serviceId + Available(s, req) <= MAX_ID ==>
              ProbeCu(s, req).0.serviceId == s.serviceId + Available(s, req)
  {
    var (s1, rs) := Drain(s, req, []);
    if HasName(req.names) { DrainCounts(s, req, []); }
    ExtRefl(s, AskerOf(req));
    assert Items([]) == {};
    DrainExtends(s, s, req, [], AskerOf(req));
    ReleaseEachRestores(s, s1, AskerOf(req), rs);
    ProbeTables(s, req);
  }

  lemma ProbeTables(s: SysState, req: Request)
    requires Inv(s) && req.clientId != 0
    ensures ProbeCu(s, req).0.devs == s.devs <==>
              !HasName(req.names) || forall d :: 0 <= d < |s.devs| ==> !Turns(s.devs[d], req)
  {
    hide Inv, Ext, Drain, ReleaseEach, Usable, Register;
    var (s1, rs) := Drain(s, req, []);
    ExtRefl(s, AskerOf(req));
    assert Items([]) == {};
    DrainExtends(s, s, req, [], AskerOf(req));
    ReleaseEachRestores(s, s1, AskerOf(req), rs);
    var s' := ReleaseEach(s1, rs);
    if !HasName(req.names) {
      NoNameNoProbe(s, req);
    } else if d :| 0 <= d < |s.devs| && Turns(s.devs[d], req) {
      DrainTurns(s, req, [], d);
      assert StaysTurned(s.devs[d], s1.devs[d], s'.devs[d]);
      assert s'.devs[d].isExcl;
    } else {
      NoTurnsNoneAlone(s, req);
      RestoredExactly(s, s', AskerOf(req));
    }
  }

  lemma NoNameNoProbe(s: SysState, req: Request)
    requires Inv(s) && req.clientId != 0 && !HasName(req.names)
    ensures ProbeCu(s, req).0 == s
  {
    assert AllocCu(s, req, true) == (s, Err(INVALID));
    assert Drain(s, req, []) == (s, []);
  }

  // ---------------------------------------------------------------------------------
  // Free channels bound how often a list can be allocated
  // ---------------------------------------------------------------------------------

  lemma FreeNonNegative(s: SysState)
    requires Inv(s)
    ensures FreeTotal(s) >= 0
  {
    forall d | 0 <= d < |s.devs| ensures WeighDev(AllUnits(FreeChannels), s.devs[d]) >= 0 {
      assert DevInv(s.devs[d]);
      forall c | 0 <= c < |s.devs[d].cus| ensures WeighCu(FreeChannels, s.devs[d].cus[c]) >= 0 {
        LiveBound(s.devs[d].cus[c].channels);
      }
      SumNonNegative(CuWeights(FreeChannels, s.devs[d].cus));
    }
    SumNonNegative(DevWeights(AllUnits(FreeChannels), s.devs));
  }

  lemma GrantFree(s: SysState, d: nat, dev: DevState, c: nat, req: Request)
    requires d < |s.devs| && dev.cus == s.devs[d].cus && c < |dev.cus| && Feasible(dev.cus[c], req)
    ensures FreeTotal(Grant(s, d, dev, c, req)) == FreeTotal(s) - 1
  {
    var cu := dev.cus[c];
    var cu' := PutChannel(cu, req, NextId(s.serviceId));
    TotalUpdate(Live, cu.channels, FirstFree(cu.channels), Granted(req, FirstFree(cu.channels), NextId(s.serviceId)));
    CusUpdate(FreeChannels, dev.cus, c, cu');
    OneDeviceChanged(AllUnits(FreeChannels), s.devs, s.devs[d := SetCu(dev, c, cu')], d);
  }

  lemma TryPlaceFree(s: SysState, d: nat, req: Request)
    requires d < |s.devs|
    ensures FreeTotal(TryPlace(s, d, req).0) == FreeTotal(s) - (if TryPlace(s, d, req).1.Ok? then 1 else 0)
  {
    hide PickCu, PutChannel, FreeTotal, Feasible;
    match Register(s.devs[d], req)
    case None =>
    case Some(dev) =>
      var c := PickCu(dev.cus, req);
      if HasName(req.names) && c < |dev.cus| {
        GrantFree(s, d, dev, c, req);
      } else {
        TableFree(s, d, Unregister(dev, req.clientId));
      }
  }

  lemma TableFree(s: SysState, d: nat, dev: DevState)
    requires d < |s.devs| && dev.cus == s.devs[d].cus
    ensures FreeTotal(SetDev(s, d, dev)) == FreeTotal(s)
  {
    OneDeviceChanged(AllUnits(FreeChannels), s.devs, s.devs[d := dev], d);
  }

  lemma AllocFree(s: SysState, req: Request)
    requires Inv(s) && req.clientId != 0
    ensures FreeTotal(AllocCu(s, req, false).0) == FreeTotal(s) - (if AllocCu(s, req, false).1.Ok? then 1 else 0)
  {
    if HasName(req.names) { AllocUsesOne(s, req); }
  }

  lemma ReleaseFree(s: SysState, r: Res)
    ensures FreeTotal(ReleaseCu(s, r).0) <= FreeTotal(s) + 1
  {
    if Holds(s, r) {
      var dev := s.devs[r.devId];
      var cu := dev.cus[r.cuId];
      TotalUpdate(Live, cu.channels, r.chanId, FreeChannel(r.chanId));
      CusUpdate(FreeChannels, dev.cus, r.cuId, ClearChannel(cu, r.chanId));
      OneDeviceChanged(AllUnits(FreeChannels), s.devs, ClearAndUnregister(s, r).devs, r.devId);
    }
  }

  lemma {:induction false} ReleaseAllFree(s: SysState, rs: seq<Res>)
    ensures FreeTotal(ReleaseAll(s, rs).0) <= FreeTotal(s) + |rs|
    decreases |rs|
  {
    if rs != [] {
      ReleaseFree(s, rs[0]);
      ReleaseAllFree(ReleaseCu(s, rs[0]).0, rs[1..]);
    }
  }

  lemma {:induction false} PlaceListFree(s: SysState, d: nat, reqs: seq<Request>, acc: seq<Res>)
    requires Inv(s) && HaveClients(reqs) && d < |s.devs| && s.devs[d].isLoaded && |acc| <= |reqs|
    ensures var (s', r) := PlaceList(s, d, reqs, acc);
            if r.Ok? then FreeTotal(s') == FreeTotal(s) - (|reqs| - |acc|) else FreeTotal(s') <= FreeTotal(s) + |acc|
    decreases |reqs| - |acc|
  {
    if |acc| < |reqs| {
      TryPlaceFree(s, d, reqs[|acc|]);
      TryPlaceKeepsInv(s, d, reqs[|acc|]);
      var (s1, r) := TryPlace(s, d, reqs[|acc|]);
      if r.Ok? { PlaceListFree(s1, d, reqs, acc + [r.value]); } else { ReleaseAllFree(s1, acc); }
    }
  }

  lemma {:induction false} SameDeviceFree(s: SysState, d: nat, reqs: seq<Request>)
    requires Inv(s) && HaveClients(reqs) && reqs != [] && d <= |s.devs|
    ensures var (s', r) := SameDevice(s, d, reqs, []);
            FreeTotal(s') <= FreeTotal(s) - (if r.Ok? then |reqs| else 0)
    decreases |s.devs| - d
  {
    hide FreeTotal, PlaceList, NextOpen, HaveClients, Inv;
    var k := NextOpen(s.devs, d, reqs[0].clientId);
    if k < |s.devs| {
      PlaceListFree(s, k, reqs, []);
      PlaceListKeepsInv(s, k, reqs, []);
      var (s1, r) := PlaceList(s, k, reqs, []);
      if r.Err? { SameDeviceFree(s1, k + 1, reqs); }
    }
  }

  lemma {:induction false} AnyDeviceFree(s: SysState, reqs: seq<Request>, acc: seq<Res>)
    requires Inv(s) && HaveClients(reqs) && |acc| <= |reqs|
    ensures AnyDevice(s, reqs, acc).1.Ok? ==> FreeTotal(AnyDevice(s, reqs, acc).0) == FreeTotal(s) - (|reqs| - |acc|)
    decreases |reqs| - |acc|
  {
    if |acc| < |reqs| {
      AllocFree(s, reqs[|acc|]);
      AllocCuKeepsInv(s, reqs[|acc|], false);
      var (s1, r) := AllocCu(s, reqs[|acc|], false);
      if r.Ok? { AnyDeviceFree(s1, reqs, acc + [r.value]); }
    }
  }

  lemma ListUsesFree(s: SysState, reqs: seq<Request>, sameDevice: bool)
    requires Inv(s) && HaveClients(reqs) && AllocCuList(s, reqs, sameDevice).1.Ok?
    ensures Inv(AllocCuList(s, reqs, sameDevice).0)
    ensures 0 <= FreeTotal(AllocCuList(s, reqs, sameDevice).0) < FreeTotal(s)
  {
    AllocCuListKeepsInv(s, reqs, sameDevice);
    FreeNonNegative(AllocCuList(s, reqs, sameDevice).0);
    if sameDevice { SameDeviceFree(s, 0, reqs); } else { AnyDeviceFree(s, reqs, []); }
  }

  // ---------------------------------------------------------------------------------
  // The probe for a list
  // ---------------------------------------------------------------------------------

  /** Allocates the list until that fails. It ends because every success uses up free channels. */
  function DrainLists(s: SysState, reqs: seq<Request>, sameDevice: bool, acc: seq<seq<Res>>): (SysState, seq<seq<Res>>)
    requires Inv(s) && HaveClients(reqs)
    decreases FreeTotal(s)
  {
    var (s1, r) := AllocCuList(s, reqs, sameDevice);
    if r.Err? then (s1, acc)
    else
      ListUsesFree(s, reqs, sameDevice);
      DrainLists(s1, reqs, sameDevice, acc + [r.value])
  }

  function ReleaseLists(s: SysState, lists: seq<seq<Res>>): SysState
    decreases |lists|
  {
    if lists == [] then s else ReleaseLists(ReleaseAll(s, lists[0]).0, lists[1..])
  }

  function ProbeList(s: SysState, reqs: seq<Request>, sameDevice: bool): (SysState, nat)
    requires Inv(s) && HaveClients(reqs)
  {
    var (s1, lists) := DrainLists(s, reqs, sameDevice, []);
    (ReleaseLists(s1, lists), |lists|)
  }

  /** Peeling the lists front to back is peeling them in any order. */
  lemma {:induction false} ReleaseListsRestores(a: SysState, b: SysState, lists: seq<seq<Res>>, items: set<Res>,
      excl: set<nat>)
    requires Inv(a) && Inv(b) && Ext(a, b, items, excl) && Split(lists, items)
    ensures var b' := ReleaseLists(b, lists);
            Inv(b') && Restored(a, b', excl) && b'.poolId == b.poolId && b'.serviceId == b.serviceId
    decreases |lists|
  {
    if lists == [] {
      ExtEmpty(a, b, excl);
    } else {
      ReleaseAllPeels(a, b, items, excl, lists[0]);
      ReleaseListsRestores(a, ReleaseAll(b, lists[0]).0, lists[1..], items - Items(lists[0]), excl);
    }
  }

  /** The lists partition the items, and none repeats a resource. */
  ghost predicate Split(lists: seq<seq<Res>>, items: set<Res>)
    decreases |lists|
  {
    if lists == [] then items == {}
    else NoRepeats(lists[0]) && Items(lists[0]) <= items && Split(lists[1..], items - Items(lists[0]))
  }

  lemma {:induction false} SplitMore(lists: seq<seq<Res>>, items: set<Res>, rs: seq<Res>)
    requires Split(lists, items) && NoRepeats(rs) && items !! Items(rs)
    ensures Split(lists + [rs], items + Items(rs))
    decreases |lists|
  {
    if lists == [] {
      assert lists + [rs] == [rs];
      assert items + Items(rs) - Items(rs) == {};
    } else {
      assert (lists + [rs])[1..] == lists[1..] + [rs];
      assert items + Items(rs) - Items(lists[0]) == items - Items(lists[0]) + Items(rs);
      SplitMore(lists[1..], items - Items(lists[0]), rs);
    }
  }

  lemma {:induction false} DrainListsExtends(a: SysState, s: SysState, reqs: seq<Request>, sameDevice: bool,
                                             acc: seq<seq<Res>>, items: set<Res>) returns (items': set<Res>)
    requires Inv(a) && Inv(s) && HaveClients(reqs) && Ext(a, s, items, Askers(reqs)) && Split(acc, items)
    ensures var (s', lists) := DrainLists(s, reqs, sameDevice, acc);
            Inv(s') && Ext(a, s', items', Askers(reqs)) && Split(lists, items') && s'.poolId == s.poolId
    decreases FreeTotal(s)
  {
    hide Ext, Inv, AllocCuList, Restored, NoneAlone, FreeTotal;
    var excl := Askers(reqs);
    AllocCuListAllOrNothing(s, reqs, sameDevice);
    var (s1, r) := AllocCuList(s, reqs, sameDevice);
    if r.Err? {
      ExtTrans(a, s, s1, items, {}, excl);
      assert items + {} == items;
      items' := items;
    } else {
      ListUsesFree(s, reqs, sameDevice);
      var s0 := s1.(serviceId := s.serviceId);
      ExtTrans(a, s, s0, items, Items(r.value), excl);
      ExtSameTables(a, s0, s1, items + Items(r.value), excl);
      SplitMore(acc, items, r.value);
      items' := DrainListsExtends(a, s1, reqs, sameDevice, acc + [r.value], items + Items(r.value));
    }
  }

  lemma {:induction false} DrainListsIds(s: SysState, reqs: seq<Request>, sameDevice: bool, acc: seq<seq<Res>>)
    requires Inv(s) && HaveClients(reqs) && s.serviceId + FreeTotal(s) <= MAX_ID
    ensures var (s', lists) := DrainLists(s, reqs, sameDevice, acc);
      s'.serviceId == s.serviceId + |lists| - |acc| && |lists| >= |acc|
    decreases FreeTotal(s)
  {
    AllocCuListAllOrNothing(s, reqs, sameDevice);
    var (s1, r) := AllocCuList(s, reqs, sameDevice);
    if r.Ok? {
      ListUsesFree(s, reqs, sameDevice);
      DrainListsIds(s1, reqs, sameDevice, acc + [r.value]);
    }
  }

  /** The list probe ends, and leaves every unit as it was; and every device too, with its client
      table and its mode, unless a client that asks for exclusive use is alone on a shared one. */
  lemma ProbeListRestores(s: SysState, reqs: seq<Request>, sameDevice: bool)
    requires Inv(s) && HaveClients(reqs)
    ensures Inv(ProbeList(s, reqs, sameDevice).0) && Restored(s, ProbeList(s, reqs, sameDevice).0, Askers(reqs))
    ensures NoneAlone(s, Askers(reqs)) ==> ProbeList(s, reqs, sameDevice).0.devs == s.devs
    ensures ProbeList(s, reqs, sameDevice).0.poolId == s.poolId
    ensures s.serviceId + FreeTotal(s) <= MAX_ID ==>
              ProbeList(s, reqs, sameDevice).0.serviceId == s.serviceId + ProbeList(s, reqs, sameDevice).1
  {
    hide Inv, Ext, Restored, NoneAlone, FreeTotal, DrainLists;
    if s.serviceId + FreeTotal(s) <= MAX_ID { DrainListsIds(s, reqs, sameDevice, []); }
    ExtRefl(s, Askers(reqs));
    var items := DrainListsExtends(s, s, reqs, sameDevice, [], {});
    var (s1, lists) := DrainLists(s, reqs, sameDevice, []);
    ReleaseListsRestores(s, s1, lists, items, Askers(reqs));
    if NoneAlone(s, Askers(reqs)) { RestoredExactly(s, ReleaseLists(s1, lists), Askers(reqs)); }
  }
}
