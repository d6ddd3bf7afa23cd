/** Exclusive requests that fail: which devices they leave changed. A shared device that the
    requesting client alone uses becomes exclusive on the way, and no rollback makes it shared
    again. */
module ExclusiveModel {
  import opened Tables
  import opened Sums
  import opened DeviceModel
  import opened SystemModel
  import opened Placement
  import opened Rollback
  import opened ListModel

  // ---------------------------------------------------------------------------------
  // One allocation
  // ---------------------------------------------------------------------------------

  /** The client is listed on the device, and can register again. */
  predicate UsedBy(dev: DevState, req: Request) {
    Usable(dev, req) && FindProc(dev.procs, req.clientId) < |dev.procs|
  }

  lemma AllocKeepsUse(s: SysState, req: Request, d: nat)
    requires Inv(s) && req.clientId != 0 && HasName(req.names) && d < |s.devs| && UsedBy(s.devs[d], req)
    ensures |AllocCu(s, req, false).0.devs| == |s.devs| && UsedBy(AllocCu(s, req, false).0.devs[d], req)
  {
    var (s', r) := AllocCu(s, req, false);
    ExtRefl(s, {req.clientId});
    AllocCuAttempts(s, s, {}, {req.clientId}, req);
    AllocCuRefines(s, req);
    var items := if r.Ok? then {} + {r.value} else {};
    assert DevInv(s.devs[d]) && DevInv(s'.devs[d]) && ExtDev(s.devs[d], s'.devs[d], d, items, {req.clientId});
    RefCountsChannels(s.devs[d], req.clientId);
    RefCountsChannels(s'.devs[d], req.clientId);
    ExtLive(s.devs[d], s'.devs[d], d, items, req.clientId);
  }

  function AskerOf(req: Request): set<nat> {
    if req.devExcl then {req.clientId} else {}
  }

  /** A request that turns no device finds its client nowhere alone on a shared one. */
  lemma NoTurnsNoneAlone(s: SysState, req: Request)
    requires Inv(s) && req.clientId != 0
    ensures NoneAlone(s, AskerOf(req)) <==> forall d :: 0 <= d < |s.devs| ==> !Turns(s.devs[d], req)
  {
    forall d | 0 <= d < |s.devs|
      ensures Turns(s.devs[d], req) <==> req.devExcl && !s.devs[d].isExcl && Sole(s.devs[d].procs, req.clientId)
    {
      assert DevInv(s.devs[d]);
      TurnsIff(s.devs[d], req);
      RefCountsChannels(s.devs[d], req.clientId);
      SumZeros(CuWeights(LiveChannels(req.clientId), []));
    }
  }

  // ---------------------------------------------------------------------------------
  // Exclusive devices stay exclusive
  // ---------------------------------------------------------------------------------

  /** No device that was exclusive has become shared; and if the request asks for exclusive use,
      every device that has changed is exclusive. */
  ghost predicate StillExcl(s: SysState, s': SysState, req: Request) {
    && |s'.devs| == |s.devs|
    && forall e {:trigger s'.devs[e]} :: 0 <= e < |s.devs| ==>
         && (s.devs[e].isExcl ==> s'.devs[e].isExcl)
         && (req.devExcl ==> s'.devs[e] == s.devs[e] || s'.devs[e].isExcl)
  }

  /** A place that takes the client: exclusive from then on if that is asked for. */
  lemma TryPlaceExcl(s: SysState, d: nat, req: Request)
    requires Inv(s) && d < |s.devs| && s.devs[d].isLoaded && req.clientId != 0
    ensures StillExcl(s, TryPlace(s, d, req).0, req)
    ensures UsedBy(s.devs[d], req) && req.devExcl ==> TryPlace(s, d, req).0.devs[d].isExcl
  {
    if Usable(s.devs[d], req) {
      assert DevInv(s.devs[d]);
      UndoTurns(s.devs[d], req);
    }
  }

  lemma VisitExcl(s: SysState, d: nat, affinity: bool, req: Request)
    requires Inv(s) && d < |s.devs| && s.devs[d].isLoaded && req.clientId != 0
    ensures StillExcl(s, Visit(s, d, affinity, req).0, req)
  {
    if Usable(s.devs[d], req) {
      assert DevInv(s.devs[d]);
      UndoTurns(s.devs[d], req);
    }
  }

  lemma {:induction false} ScanExcl(s: SysState, d: nat, affinity: bool, req: Request)
    requires Inv(s) && d <= |s.devs| && req.clientId != 0
    ensures StillExcl(s, ScanDevs(s, d, affinity, req).0, req)
    decreases |s.devs| - d
  {
    hide Visit, Inv;
    var k := NextOpen(s.devs, d, req.clientId);
    if k < |s.devs| {
      VisitExcl(s, k, affinity, req);
      VisitKeepsInv(s, k, affinity, req);
      var (s1, r1) := Visit(s, k, affinity, req);
      if r1.None? { ScanExcl(s1, k + 1, affinity, req); }
    }
  }

  lemma AllocExcl(s: SysState, req: Request)
    requires Inv(s) && req.clientId != 0
    ensures StillExcl(s, AllocCu(s, req, false).0, req)
  {
    ScanKeepsInv(s, 0, true, req);
    ScanExcl(s, 0, true, req);
    ScanExcl(ScanDevs(s, 0, true, req).0, 0, false, req);
  }

  // ---------------------------------------------------------------------------------
  // Lists of requests that ask alike
  // ---------------------------------------------------------------------------------

  /** All requests name what they want, and ask for exclusive use on behalf of one client. */
  ghost predicate AskAlike(reqs: seq<Request>, c: nat) {
    c != 0 && forall i {:trigger reqs[i]} :: 0 <= i < |reqs| ==>
      reqs[i].devExcl && reqs[i].clientId == c && HasName(reqs[i].names)
  }

  /** In a, device d is shared and used by c alone. */
  predicate Alone(a: SysState, d: nat, c: nat) {
    d < |a.devs| && !a.devs[d].isExcl && a.devs[d].isLoaded && Sole(a.devs[d].procs, c)
  }

  /** On the way through a list, device d is still used by c, as it was in a or exclusively. */
  lemma StillUsed(a: SysState, s: SysState, items: set<Res>, d: nat, req: Request)
    requires Inv(a) && Inv(s) && Ext(a, s, items, {req.clientId}) && Alone(a, d, req.clientId) && req.devExcl
    requires s.devs[d].isExcl || s.devs[d] == a.devs[d]
    ensures UsedBy(s.devs[d], req)
  {
    var c := req.clientId;
    assert DevInv(a.devs[d]) && DevInv(s.devs[d]) && ExtDev(a.devs[d], s.devs[d], d, items, {c});
    RefCountsChannels(a.devs[d], c);
    RefCountsChannels(s.devs[d], c);
    ExtLive(a.devs[d], s.devs[d], d, items, c);
    UsableIff(s.devs[d], req);
    if s.devs[d].isExcl {
      forall k | 0 <= k < |s.devs[d].procs| ensures k > 0 ==> s.devs[d].procs[k].clientId == 0 {
        assert GoodProc(s.devs[d], k, 0);
      }
    }
  }

  lemma ReleasedExcl(a: SysState, s: SysState, acc: seq<Res>, d: nat, c: nat)
    requires Inv(a) && Inv(s) && Ext(a, s, Items(acc), {c}) && NoRepeats(acc) && Alone(a, d, c) && s.devs[d].isExcl
    ensures |ReleaseAll(s, acc).0.devs| == |a.devs| && ReleaseAll(s, acc).0.devs[d].isExcl
  {
    ReleaseAllRestores(a, s, {c}, acc);
    assert StaysTurned(a.devs[d], s.devs[d], ReleaseAll(s, acc).0.devs[d]);
  }

  /** A list that fails on device k leaves d exclusive if d is k, or was exclusive before. */
  lemma {:induction false} PlaceListExcl(a: SysState, s: SysState, k: nat, reqs: seq<Request>, acc: seq<Res>, d: nat,
      c: nat)
    requires Placed(a, s, reqs, acc, {c}) && AskAlike(reqs, c) && Alone(a, d, c) && |s.devs| == |a.devs|
    requires k < |s.devs| && s.devs[k].isLoaded && PlaceList(s, k, reqs, acc).1.Err?
    requires s.devs[d].isExcl || s.devs[d] == a.devs[d]
    ensures |PlaceList(s, k, reqs, acc).0.devs| == |a.devs|
    ensures s.devs[d].isExcl || k == d ==> PlaceList(s, k, reqs, acc).0.devs[d].isExcl
    decreases |reqs| - |acc|
  {
    hide Inv, Ext, TryPlace, Serves, Sole;
    var req := reqs[|acc|];
    TryPlaceExcl(s, k, req);
    TryPlaceAttempts(a, s, Items(acc), {c}, k, req);
    if k == d { StillUsed(a, s, Items(acc), d, req); }
    var (s1, r) := TryPlace(s, k, req);
    if r.Ok? {
      PlacedMore(a, s, reqs, acc, {c}, s1, r.value);
      PlaceListExcl(a, s1, k, reqs, acc + [r.value], d, c);
    } else if s.devs[d].isExcl || k == d {
      ReleasedExcl(a, s1, acc, d, c);
    }
  }

  /** The search for one device tries every open one. */
  lemma {:induction false} SameDeviceExcl(a: SysState, s: SysState, e: nat, reqs: seq<Request>, d: nat, c: nat)
    requires Inv(a) && Undone(a, s, {c}) && AskAlike(reqs, c) && reqs != [] && Alone(a, d, c)
    requires |s.devs| == |a.devs| && e <= |s.devs| && SameDevice(s, e, reqs, []).1.Err?
    requires s.devs[d].isExcl || s.devs[d] == a.devs[d]
    ensures |SameDevice(s, e, reqs, []).0.devs| == |a.devs|
    ensures s.devs[d].isExcl || e <= d ==> SameDevice(s, e, reqs, []).0.devs[d].isExcl
    decreases |s.devs| - e
  {
    hide Inv, PlaceList, Undone, Sole;
    var k := NextOpen(s.devs, e, reqs[0].clientId);
    if k < |s.devs| {
      UndoneIsPlaced(a, s, reqs, {c});
      AlikeAsk(reqs, c);
      PlaceListAllOrNothing(a, s, k, reqs, [], {c});
      PlaceListExcl(a, s, k, reqs, [], d, c);
      var s1 := PlaceList(s, k, reqs, []).0;
      UndoneDevice(a, s1, d, c);
      SameDeviceExcl(a, s1, k + 1, reqs, d, c);
    }
  }

  lemma AlikeAsk(reqs: seq<Request>, c: nat)
    requires AskAlike(reqs, c)
    ensures AllAsk(reqs, {c}) && HaveClients(reqs) && (reqs != [] ==> Askers(reqs) == {c})
  {
    if reqs != [] { assert reqs[0].devExcl && reqs[0].clientId in Askers(reqs); }
  }

  lemma UndoneDevice(a: SysState, s: SysState, d: nat, c: nat)
    requires Undone(a, s, {c}) && d < |a.devs|
    ensures |s.devs| == |a.devs| && (s.devs[d].isExcl || s.devs[d] == a.devs[d])
  {
    assert Back(a.devs[d], s.devs[d], {c});
  }

  /** The allocation that fails tries every open device. */
  lemma {:induction false} AnyDeviceExcl(a: SysState, s: SysState, reqs: seq<Request>, acc: seq<Res>, d: nat, c: nat)
    requires Placed(a, s, reqs, acc, {c}) && AskAlike(reqs, c) && Alone(a, d, c) && |s.devs| == |a.devs|
    requires AnyDevice(s, reqs, acc).1.Err? && (s.devs[d].isExcl || s.devs[d] == a.devs[d])
    ensures |AnyDevice(s, reqs, acc).0.devs| == |a.devs| && AnyDevice(s, reqs, acc).0.devs[d].isExcl
    decreases |reqs| - |acc|
  {
    hide Inv, Ext, AllocCu, Serves, Sole, Usable;
    var req := reqs[|acc|];
    AllocExcl(s, req);
    AllocCuAttempts(a, s, Items(acc), {c}, req);
    StillUsed(a, s, Items(acc), d, req);
    var (s1, r) := AllocCu(s, req, false);
    if r.Ok? {
      PlacedMore(a, s, reqs, acc, {c}, s1, r.value);
      AnyDeviceExcl(a, s1, reqs, acc + [r.value], d, c);
    } else {
      FailedAllocTurns(s, req);
      ReleasedExcl(a, s1, acc, d, c);
    }
  }

  /** A failed list of named requests that all ask for exclusive use, for one client, leaves the
      database as it was if and only if the client is alone on no loaded shared device. */
  lemma ExclusiveListRestores(s: SysState, reqs: seq<Request>, sameDevice: bool, c: nat)
    requires Inv(s) && AskAlike(reqs, c) && 0 < |reqs| <= MAX_LIST && AllocCuList(s, reqs, sameDevice).1.Err?
    ensures AllocCuList(s, reqs, sameDevice).0 == s <==> forall d :: !Alone(s, d, c)
  {
    AlikeAsk(reqs, c);
    AllocCuListAllOrNothing(s, reqs, sameDevice);
    NothingDone(s, {c});
    UndoneIsPlaced(s, s, reqs, {c});
    if d :| Alone(s, d, c) {
      if sameDevice { SameDeviceExcl(s, s, 0, reqs, d, c); } else { AnyDeviceExcl(s, s, reqs, [], d, c); }
    } else {
      forall d | 0 <= d < |s.devs| ensures s.devs[d].isExcl || !Sole(s.devs[d].procs, c) {
        assert DevInv(s.devs[d]);
        RefCountsChannels(s.devs[d], c);
        SumZeros(CuWeights(LiveChannels(c), []));
        assert !Alone(s, d, c);
      }
    }
  }
}
