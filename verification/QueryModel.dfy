/** Looking an allocation up again by its service id. Service ids of new allocations are new
    to the tables, so a query by the id of an allocation just made finds that allocation. */
module QueryModel {
  import opened Tables
  import opened CuModel
  import opened DeviceModel
  import opened SystemModel
  import opened Placement
  import opened Rollback
  import opened ListModel
  import opened ListV2Model
  import opened PolicyModel

  // ---------------------------------------------------------------------------------
  // The operation
  // ---------------------------------------------------------------------------------

  predicate NamesFit(cu: CuState, kernel: string, alias: string) {
    (kernel == "" || cu.names.kernel == kernel) && (alias == "" || cu.names.alias == alias)
  }

  /** What carries the id among the first k channels of unit c of device d. */
  function InChannels(d: nat, c: nat, chs: seq<Channel>, k: nat, id: nat): seq<Res>
    requires k <= |chs|
  {
    if k == 0 then []
    else
      InChannels(d, c, chs, k - 1, id) +
      (if chs[k - 1].serviceId == id then
         [Res(d, c, k - 1, id, chs[k - 1].clientId, chs[k - 1].poolId, chs[k - 1].load)]
       else [])
  }

  function InUnit(d: nat, c: nat, cu: CuState, id: nat, kernel: string, alias: string): seq<Res> {
    if NamesFit(cu, kernel, alias) then InChannels(d, c, cu.channels, |cu.channels|, id) else []
  }

  function InUnits(d: nat, cus: seq<CuState>, k: nat, id: nat, kernel: string, alias: string): seq<Res>
    requires k <= |cus|
  {
    if k == 0 then [] else InUnits(d, cus, k - 1, id, kernel, alias) + InUnit(d, k - 1, cus[k - 1], id, kernel, alias)
  }

  function InDevices(devs: seq<DevState>, k: nat, id: nat, kernel: string, alias: string): seq<Res>
    requires k <= |devs|
  {
    if k == 0 then []
    else
      InDevices(devs, k - 1, id, kernel, alias) +
      InUnits(k - 1, devs[k - 1].cus, |devs[k - 1].cus|, id, kernel, alias)
  }

  /** Everything that carries the id, in table order; an error when that is more than `limit`. */
  function Query(s: SysState, id: nat, kernel: string, alias: string, limit: nat): Outcome<seq<Res>> {
    if id == 0 then Err(INVALID)
    else
      var rs := InDevices(s.devs, |s.devs|, id, kernel, alias);
      if |rs| > limit then Err(ERROR) else Ok(rs)
  }

  // ---------------------------------------------------------------------------------
  // What a query finds
  // ---------------------------------------------------------------------------------

  /** r is a channel of the tables that carries the id, on a unit the names fit. */
  predicate Carries(s: SysState, r: Res, id: nat, kernel: string, alias: string) {
    && r.devId < |s.devs| && r.cuId < |s.devs[r.devId].cus|
    && CarriesIn(r.devId, r.cuId, s.devs[r.devId].cus[r.cuId], r, id, kernel, alias)
  }

  predicate CarriesIn(d: nat, c: nat, cu: CuState, r: Res, id: nat, kernel: string, alias: string) {
    && NamesFit(cu, kernel, alias) && r.devId == d && r.cuId == c
    && r.chanId < |cu.channels| && r.serviceId == id
    && var ch := cu.channels[r.chanId];
    && ch.serviceId == id && ch.clientId == r.clientId && ch.poolId == r.poolId && ch.load == r.load
  }

  lemma {:induction false} InChannelsFinds(d: nat, c: nat, cu: CuState, k: nat, id: nat)
    requires k <= |cu.channels|
    ensures forall r :: r in InChannels(d, c, cu.channels, k, id) <==>
      r.chanId < k && CarriesIn(d, c, cu, r, id, "", "")
    ensures NoRepeats(InChannels(d, c, cu.channels, k, id))
  {
    if k > 0 { InChannelsFinds(d, c, cu, k - 1, id); }
  }

  lemma InUnitFinds(d: nat, c: nat, cu: CuState, id: nat, kernel: string, alias: string)
    ensures forall r :: r in InUnit(d, c, cu, id, kernel, alias) <==> CarriesIn(d, c, cu, r, id, kernel, alias)
    ensures forall r :: CarriesIn(d, c, cu, r, id, kernel, alias) ==> r.devId == d && r.cuId == c
    ensures NoRepeats(InUnit(d, c, cu, id, kernel, alias))
  {
    InChannelsFinds(d, c, cu, |cu.channels|, id);
  }

  lemma {:induction false} InUnitsFinds(d: nat, cus: seq<CuState>, k: nat, id: nat, kernel: string, alias: string)
    requires k <= |cus|
    ensures forall r :: r in InUnits(d, cus, k, id, kernel, alias) <==>
              r.cuId < k && CarriesIn(d, r.cuId, cus[r.cuId], r, id, kernel, alias)
    ensures NoRepeats(InUnits(d, cus, k, id, kernel, alias))
  {
    hide CarriesIn, InUnit, NoRepeats;
    if k > 0 {
      InUnitsFinds(d, cus, k - 1, id, kernel, alias);
      InUnitFinds(d, k - 1, cus[k - 1], id, kernel, alias);
      AppendApart(InUnits(d, cus, k - 1, id, kernel, alias), InUnit(d, k - 1, cus[k - 1], id, kernel, alias));
    } else {
      NoneNoRepeats();
    }
  }

  lemma NoneNoRepeats()
    ensures NoRepeats([])
  {
  }

  lemma {:induction false} InDevicesFinds(s: SysState, k: nat, id: nat, kernel: string, alias: string)
    requires k <= |s.devs|
    ensures forall r :: r in InDevices(s.devs, k, id, kernel, alias) <==>
      r.devId < k && Carries(s, r, id, kernel, alias)
    ensures NoRepeats(InDevices(s.devs, k, id, kernel, alias))
  {
    hide InUnits, NoRepeats;
    if k > 0 {
      InDevicesFinds(s, k - 1, id, kernel, alias);
      InUnitsFinds(k - 1, s.devs[k - 1].cus, |s.devs[k - 1].cus|, id, kernel, alias);
      AppendApart(InDevices(s.devs, k - 1, id, kernel, alias),
                  InUnits(k - 1, s.devs[k - 1].cus, |s.devs[k - 1].cus|, id, kernel, alias));
    } else {
      NoneNoRepeats();
    }
  }

  lemma AppendApart(xs: seq<Res>, ys: seq<Res>)
    requires NoRepeats(xs) && NoRepeats(ys) && forall x :: x in xs ==> x !in ys
    ensures NoRepeats(xs + ys)
  {
    forall i, j | 0 <= i < j < |xs + ys| ensures (xs + ys)[i] != (xs + ys)[j] {
      if i < |xs| <= j { assert xs[i] in xs && ys[j - |xs|] in ys; }
    }
  }

  /** The set of resources that carry the id is `items`, whatever the names of their units. */
  ghost predicate CarriedBy(s: SysState, id: nat, items: set<Res>) {
    forall r {:trigger r in items} {:trigger Carries(s, r, id, "", "")} :: r in items <==> Carries(s, r, id, "", "")
  }

  /** A query without names finds exactly what carries the id, each once. */
  lemma QueryFinds(s: SysState, id: nat, items: set<Res>, rs: seq<Res>, limit: nat)
    requires id != 0 && CarriedBy(s, id, items) && items == Items(rs) && NoRepeats(rs) && |rs| <= limit
    ensures var q := Query(s, id, "", "", limit);
            q.Ok? && Items(q.value) == Items(rs) && NoRepeats(q.value) && |q.value| == |rs|
  {
    InDevicesFinds(s, |s.devs|, id, "", "");
    var qs := InDevices(s.devs, |s.devs|, id, "", "");
    forall r ensures r in Items(qs) <==> r in items { assert r in qs <==> Carries(s, r, id, "", ""); }
    assert Items(qs) == items;
    SizeOfItems(qs);
    SizeOfItems(rs);
  }

  lemma {:induction false} SizeOfItems(rs: seq<Res>)
    requires NoRepeats(rs)
    ensures |Items(rs)| == |rs|
  {
    if rs != [] {
      var n := |rs| - 1;
      SizeOfItems(rs[..n]);
      assert rs == rs[..n] + [rs[n]];
      assert Items(rs) == Items(rs[..n]) + {rs[n]};
      assert rs[n] !in Items(rs[..n]);
    }
  }

  // ---------------------------------------------------------------------------------
  // What carries the next id
  // ---------------------------------------------------------------------------------

  /** Between requests nothing carries the next service id. */
  lemma NextIdIsNew(s: SysState)
    requires IdsFresh(s) && s.serviceId < MAX_ID
    ensures CarriedBy(s, NextId(s.serviceId), {})
  {
    var id := NextId(s.serviceId);
    forall r ensures !Carries(s, r, id, "", "") {
      if r.devId < |s.devs| && r.cuId < |s.devs[r.devId].cus| {
        assert IdsUpTo(s.devs[r.devId].cus[r.cuId], s.serviceId, s.poolId);
      }
    }
  }

  lemma CarriedSame(s: SysState, s': SysState, id: nat, items: set<Res>)
    requires CarriedBy(s, id, items) && SameCus(s, s')
    ensures CarriedBy(s', id, items)
  {
    forall r ensures Carries(s', r, id, "", "") <==> Carries(s, r, id, "", "") { }
  }

  /** s' is s with the request's channel r added; client tables may differ. */
  ghost predicate Put(s: SysState, s': SysState, r: Res, req: Request) {
    && r.devId < |s.devs| && r.cuId < |s.devs[r.devId].cus|
    && var cu := s.devs[r.devId].cus[r.cuId];
    && Feasible(cu, req) && r == GrantedRes(s, r.devId, cu, r.cuId, req)
    && SameCus(SetDev(s, r.devId, SetCu(s.devs[r.devId], r.cuId, PutChannel(cu, req, NextId(s.serviceId)))), s')
  }

  lemma CarriedPut(s: SysState, s': SysState, r: Res, req: Request, items: set<Res>)
    requires Inv(s) && CarriedBy(s, NextId(s.serviceId), items) && Put(s, s', r, req)
    ensures CarriedBy(s', NextId(s.serviceId), items + {r}) && r !in items
  {
    var id := NextId(s.serviceId);
    assert DevInv(s.devs[r.devId]);
    assert CuInv(s.devs[r.devId].cus[r.cuId]);
    var cu := s.devs[r.devId].cus[r.cuId];
    assert GoodChannel(cu.channels[r.chanId], r.chanId);
    forall x ensures Carries(s', x, id, "", "") <==> x == r || Carries(s, x, id, "", "") { }
  }

  lemma CarriedCleared(s: SysState, r: Res, id: nat, items: set<Res>)
    requires Inv(s) && CarriedBy(s, id, items) && r in items && r.clientId != 0 && id != 0
    ensures ReleaseCu(s, r).1 == SUCCESS && CarriedBy(ReleaseCu(s, r).0, id, items - {r})
  {
    assert Carries(s, r, id, "", "");
    HeldIsInRange(s, r);
    var s' := ReleaseCu(s, r).0;
    forall x ensures Carries(s', x, id, "", "") <==> x != r && Carries(s, x, id, "", "") { }
  }

  lemma {:induction false} CarriedReleased(s: SysState, rs: seq<Res>, id: nat, items: set<Res>)
    requires Inv(s) && CarriedBy(s, id, items) && Items(rs) <= items && NoRepeats(rs) && OfClients(rs) && id != 0
    ensures CarriedBy(ReleaseAll(s, rs).0, id, items - Items(rs)) && ReleaseAll(s, rs).1 == SUCCESS
    decreases |rs|
  {
    if rs == [] {
      assert items - Items(rs) == items;
    } else {
      assert rs[0] in Items(rs);
      CarriedCleared(s, rs[0], id, items);
      ReleaseKeepsInv(s, rs[0]);
      assert Items(rs) == Items(rs[1..]) + {rs[0]} && rs[0] !in Items(rs[1..]);
      assert items - {rs[0]} - Items(rs[1..]) == items - Items(rs);
      CarriedReleased(ReleaseCu(s, rs[0]).0, rs[1..], id, items - {rs[0]});
    }
  }

  // ---------------------------------------------------------------------------------
  // Lengths: a search that is already over the limit stays over it
  // ---------------------------------------------------------------------------------

  lemma {:induction false} LongerChannels(d: nat, c: nat, chs: seq<Channel>, k: nat, id: nat)
    requires k <= |chs|
    ensures |InChannels(d, c, chs, k, id)| <= |InChannels(d, c, chs, |chs|, id)|
    decreases |chs| - k
  {
    if k < |chs| { LongerChannels(d, c, chs, k + 1, id); }
  }

  lemma {:induction false} LongerUnits(d: nat, cus: seq<CuState>, k: nat, id: nat, kernel: string, alias: string)
    requires k <= |cus|
    ensures |InUnits(d, cus, k, id, kernel, alias)| <= |InUnits(d, cus, |cus|, id, kernel, alias)|
    decreases |cus| - k
  {
    if k < |cus| { LongerUnits(d, cus, k + 1, id, kernel, alias); }
  }

  lemma NoUnits(d: nat, cus: seq<CuState>, id: nat, kernel: string, alias: string)
    ensures InUnits(d, cus, 0, id, kernel, alias) == []
  {
  }

  lemma OneMoreUnit(d: nat, cus: seq<CuState>, c: nat, id: nat, kernel: string, alias: string)
    requires c < |cus|
    ensures InUnits(d, cus, c + 1, id, kernel, alias) ==
      InUnits(d, cus, c, id, kernel, alias) + InUnit(d, c, cus[c], id, kernel, alias)
    ensures |InUnits(d, cus, c + 1, id, kernel, alias)| <= |InUnits(d, cus, |cus|, id, kernel, alias)|
  {
    LongerUnits(d, cus, c + 1, id, kernel, alias);
  }

  lemma NoDevices(devs: seq<DevState>, id: nat, kernel: string, alias: string)
    ensures InDevices(devs, 0, id, kernel, alias) == []
  {
  }

  lemma OneMoreDevice(devs: seq<DevState>, d: nat, id: nat, kernel: string, alias: string)
    requires d < |devs|
    ensures InDevices(devs, d + 1, id, kernel, alias)
              == InDevices(devs, d, id, kernel, alias) + InUnits(d, devs[d].cus, |devs[d].cus|, id, kernel, alias)
    ensures |InDevices(devs, d + 1, id, kernel, alias)| <= |InDevices(devs, |devs|, id, kernel, alias)|
  {
    LongerDevices(devs, d + 1, id, kernel, alias);
  }

  lemma {:induction false} LongerDevices(devs: seq<DevState>, k: nat, id: nat, kernel: string, alias: string)
    requires k <= |devs|
    ensures |InDevices(devs, k, id, kernel, alias)| <= |InDevices(devs, |devs|, id, kernel, alias)|
    decreases |devs| - k
  {
    if k < |devs| { LongerDevices(devs, k + 1, id, kernel, alias); }
  }

  // ---------------------------------------------------------------------------------
  // While a list is being allocated, exactly what it was given carries the next id
  // ---------------------------------------------------------------------------------

  ghost predicate Tagged(s: SysState, base: set<Res>, acc: seq<Res>) {
    && Inv(s) && NoRepeats(acc) && OfClients(acc) && base !! Items(acc)
    && CarriedBy(s, NextId(s.serviceId), base + Items(acc))
  }

  lemma TagMore(s: SysState, base: set<Res>, acc: seq<Res>, s': SysState, r: Res, req: Request)
    requires Tagged(s, base, acc) && Put(s, s', r, req) && Inv(s') && req.clientId != 0
    ensures Tagged(s', base, acc + [r])
  {
    CarriedPut(s, s', r, req, base + Items(acc));
    assert Items(acc + [r]) == Items(acc) + {r};
    assert base + Items(acc + [r]) == base + Items(acc) + {r};
  }

  lemma TagSame(s: SysState, base: set<Res>, acc: seq<Res>, s': SysState)
    requires Tagged(s, base, acc) && SameCus(s, s') && Inv(s')
    ensures Tagged(s', base, acc)
  {
    CarriedSame(s, s', NextId(s.serviceId), base + Items(acc));
  }

  lemma TagReleased(s: SysState, base: set<Res>, acc: seq<Res>)
    requires Tagged(s, base, acc)
    ensures Tagged(ReleaseAll(s, acc).0, base, [])
  {
    CarriedReleased(s, acc, NextId(s.serviceId), base + Items(acc));
    ReleaseAllKeepsInv(s, acc);
    assert base + Items(acc) - Items(acc) == base + Items([]);
  }

  /** What one attempt leaves tagged: what was, and on success the new channel too. */
  ghost predicate TaggedMore(base: set<Res>, acc: seq<Res>, s': SysState, r: Outcome<Res>) {
    if r.Ok? then Tagged(s', base, acc + [r.value]) else Tagged(s', base, acc)
  }

  lemma AllocTags(s: SysState, base: set<Res>, acc: seq<Res>, req: Request)
    requires Tagged(s, base, acc) && req.clientId != 0
    ensures TaggedMore(base, acc, AllocCu(s, req, false).0, AllocCu(s, req, false).1)
  {
    if HasName(req.names) {
      AllocCuRefines(s, req);
      AllocCuKeepsInv(s, req, false);
      var (s', r) := AllocCu(s, req, false);
      if r.Ok? { TagMore(s, base, acc, s', r.value, req); } else { TagSame(s, base, acc, s'); }
    }
  }

  /** An attempt on one device gives a channel or changes no unit. */
  lemma TryPlacePuts(s: SysState, d: nat, req: Request)
    requires d < |s.devs|
    ensures var (s', r) := TryPlace(s, d, req);
            if r.Ok? then Put(s, s', r.value, req) else SameCus(s, s')
  {
    hide Put, Feasible, PutChannel, GrantedRes, Register, Unregister;
    SameAfterRegister(s.devs[d], req);
    match Register(s.devs[d], req)
    case None =>
    case Some(dev) =>
      var c := PickCu(dev.cus, req);
      if HasName(req.names) && c < |dev.cus| { GrantPuts(s, d, dev, c, req); }
  }

  lemma GrantPuts(s: SysState, d: nat, dev: DevState, c: nat, req: Request)
    requires d < |s.devs| && SameUnits(s.devs[d], dev) && c < |dev.cus| && Feasible(dev.cus[c], req)
    ensures Put(s, Grant(s, d, dev, c, req), GrantedRes(s, d, dev.cus[c], c, req), req)
  {
  }

  lemma PlaceTags(s: SysState, d: nat, base: set<Res>, acc: seq<Res>, req: Request)
    requires Tagged(s, base, acc) && req.clientId != 0 && d < |s.devs| && s.devs[d].isLoaded
    ensures TaggedMore(base, acc, TryPlace(s, d, req).0, TryPlace(s, d, req).1)
  {
    hide TryPlace, Put, SameCus, DevInv, CarriedBy;
    TryPlaceKeepsInv(s, d, req);
    TryPlacePuts(s, d, req);
    var (s', r) := TryPlace(s, d, req);
    if r.Ok? { TagMore(s, base, acc, s', r.value, req); } else { TagSame(s, base, acc, s'); }
  }

  ghost predicate ListTagged(base: set<Res>, n: nat, s': SysState, r: Outcome<seq<Res>>) {
    if r.Ok? then Tagged(s', base, r.value) && |r.value| == n else Tagged(s', base, [])
  }

  lemma {:induction false} PlaceListTags(s: SysState, d: nat, reqs: seq<Request>, base: set<Res>, acc: seq<Res>)
    requires Tagged(s, base, acc) && HaveClients(reqs) && d < |s.devs| && s.devs[d].isLoaded && |acc| <= |reqs|
    ensures ListTagged(base, |reqs|, PlaceList(s, d, reqs, acc).0, PlaceList(s, d, reqs, acc).1)
    decreases |reqs| - |acc|
  {
    if |acc| < |reqs| {
      PlaceTags(s, d, base, acc, reqs[|acc|]);
      var (s1, r) := TryPlace(s, d, reqs[|acc|]);
      if r.Ok? { PlaceListTags(s1, d, reqs, base, acc + [r.value]); } else { TagReleased(s1, base, acc); }
    }
  }

  lemma {:induction false} SameDeviceTags(s: SysState, d: nat, reqs: seq<Request>, used: seq<nat>, base: set<Res>)
    requires Tagged(s, base, []) && HaveClients(reqs) && reqs != [] && d <= |s.devs|
    ensures ListTagged(base, |reqs|, SameDevice(s, d, reqs, used).0, SameDevice(s, d, reqs, used).1)
    decreases |s.devs| - d
  {
    hide Tagged, PlaceList, NextOpen, HaveClients;
    var k := NextOpen(s.devs, d, reqs[0].clientId);
    if k < |s.devs| {
      if k in used {
        SameDeviceTags(s, k + 1, reqs, used, base);
      } else {
        PlaceListTags(s, k, reqs, base, []);
        var (s1, r) := PlaceList(s, k, reqs, []);
        if r.Err? { SameDeviceTags(s1, k + 1, reqs, used, base); }
      }
    }
  }

  lemma {:induction false} AnyDeviceTags(s: SysState, reqs: seq<Request>, base: set<Res>, acc: seq<Res>)
    requires Tagged(s, base, acc) && HaveClients(reqs) && |acc| <= |reqs|
    ensures ListTagged(base, |reqs|, AnyDevice(s, reqs, acc).0, AnyDevice(s, reqs, acc).1)
    decreases |reqs| - |acc|
  {
    if |acc| < |reqs| {
      AllocTags(s, base, acc, reqs[|acc|]);
      var (s1, r) := AllocCu(s, reqs[|acc|], false);
      if r.Ok? { AnyDeviceTags(s1, reqs, base, acc + [r.value]); } else { TagReleased(s1, base, acc); }
    }
  }

  lemma NothingTagged(s: SysState)
    requires Inv(s) && IdsFresh(s) && s.serviceId < MAX_ID
    ensures Tagged(s, {}, [])
  {
    NextIdIsNew(s);
    assert {} + Items([]) == {};
  }

  // ---------------------------------------------------------------------------------
  // Queries invert allocations
  // ---------------------------------------------------------------------------------

  /** The query by the id finds exactly rs, and each of them can be released. */
  ghost predicate FoundAgain(s: SysState, id: nat, limit: nat, rs: seq<Res>) {
    var q := Query(s, id, "", "", limit);
    && q.Ok? && |q.value| == |rs| && Items(q.value) == Items(rs)
    && forall r :: r in rs ==> ReleaseCu(s, r).1 == SUCCESS
  }

  lemma TaggedIsFound(s: SysState, s1: SysState, rs: seq<Res>, limit: nat)
    requires Tagged(s, {}, rs) && |rs| <= limit && s1 == Advance(s, true)
    ensures FoundAgain(s1, NextId(s.serviceId), limit, rs)
  {
    var id := NextId(s.serviceId);
    assert {} + Items(rs) == Items(rs);
    assert forall r :: Carries(s1, r, id, "", "") <==> Carries(s, r, id, "", "");
    QueryFinds(s1, id, Items(rs), rs, limit);
    forall r | r in rs ensures ReleaseCu(s1, r).1 == SUCCESS {
      assert r in Items(rs);
      CarriedCleared(s, r, id, Items(rs));
    }
  }

  lemma QueryInvertsAlloc(s: SysState, req: Request)
    requires Inv(s) && IdsFresh(s) && s.serviceId < MAX_ID && req.clientId != 0
    requires AllocCu(s, req, true).1.Ok?
    ensures var (s', r) := AllocCu(s, req, true);
            Query(s', s.serviceId + 1, "", "", MAX_LIST) == Ok([r.value]) && ReleaseCu(s', r.value).1 == SUCCESS
  {
    hide Query, CarriedBy, Inv, AllocCu;
    NothingTagged(s);
    AllocTags(s, {}, [], req);
    AllocCuUpdate(s, req);
    var (s1, r) := AllocCu(s, req, false);
    assert [] + [r.value] == [r.value];
    TaggedIsFound(s1, Advance(s1, true), [r.value], MAX_LIST);
    OnlyOne(Query(Advance(s1, true), s.serviceId + 1, "", "", MAX_LIST).value, r.value);
  }

  /** The same for an allocation from a named device. */
  lemma QueryInvertsAllocFromDev(s: SysState, d: int, req: Request)
    requires Inv(s) && IdsFresh(s) && s.serviceId < MAX_ID && req.clientId != 0
    requires AllocCuFromDev(s, d, req, true).1.Ok?
    ensures var (s', r) := AllocCuFromDev(s, d, req, true);
            Query(s', s.serviceId + 1, "", "", MAX_LIST) == Ok([r.value]) && ReleaseCu(s', r.value).1 == SUCCESS
  {
    hide Query, CarriedBy, Inv, TryPlace;
    NothingTagged(s);
    PlaceTags(s, d, {}, [], req);
    var (s1, r) := TryPlace(s, d, req);
    assert [] + [r.value] == [r.value];
    TaggedIsFound(s1, Advance(s1, true), [r.value], MAX_LIST);
    OnlyOne(Query(Advance(s1, true), s.serviceId + 1, "", "", MAX_LIST).value, r.value);
  }

  /** And for an allocation by load: the query finds the channel if there is one, and nothing if
      the success was not a real one. */
  lemma QueryInvertsByLoad(s: SysState, d: int, pol: Policy, req: Request)
    requires Inv(s) && IdsFresh(s) && s.serviceId < MAX_ID && req.clientId != 0 && req.poolId == 0
    requires AllocCuFromDevByLoad(s, d, pol, req, true).1.Ok?
    ensures var (s', r) := AllocCuFromDevByLoad(s, d, pol, req, true);
            match r.value
            case Real(res) =>
              Query(s', s.serviceId + 1, "", "", MAX_LIST) == Ok([res]) && ReleaseCu(s', res).1 == SUCCESS
            case Hollow(_, _) =>
              Query(s', s.serviceId + 1, "", "", MAX_LIST) == Ok([])
  {
    hide Query, CarriedBy, Inv, Put;
    var (s1, r) := PlaceByLoad(s, d, pol, req);
    NextIdIsNew(s);
    if r.value.Real? {
      RealIsPut(s, d, pol, req);
      NothingTagged(s);
      TagMore(s, {}, [], s1, r.value.res, req);
      assert [] + [r.value.res] == [r.value.res];
      TaggedIsFound(s1, Advance(s1, true), [r.value.res], MAX_LIST);
      OnlyOne(Query(Advance(s1, true), s.serviceId + 1, "", "", MAX_LIST).value, r.value.res);
    } else {
      HollowIsNothing(s, d, pol, req);
    }
  }

  lemma RealIsPut(s: SysState, d: nat, pol: Policy, req: Request)
    requires Inv(s) && req.clientId != 0 && req.poolId == 0 && d < |s.devs| && s.devs[d].isLoaded
    requires PlaceByLoad(s, d, pol, req).1.Ok? && PlaceByLoad(s, d, pol, req).1.value.Real?
    ensures var (s1, r) := PlaceByLoad(s, d, pol, req);
      Put(s, s1, r.value.res, req) && Inv(s1) && s1.serviceId == s.serviceId
  {
    GrantKeepsInv(s, d, PlaceByLoad(s, d, pol, req).1.value.res.cuId, req);
  }

  lemma HollowIsNothing(s: SysState, d: nat, pol: Policy, req: Request)
    requires CarriedBy(s, NextId(s.serviceId), {}) && d < |s.devs|
    requires PlaceByLoad(s, d, pol, req).1.Ok? && PlaceByLoad(s, d, pol, req).1.value.Hollow?
    ensures Query(Advance(PlaceByLoad(s, d, pol, req).0, true), NextId(s.serviceId), "", "", MAX_LIST) == Ok([])
  {
    var s1 := Advance(PlaceByLoad(s, d, pol, req).0, true);
    var id := NextId(s.serviceId);
    forall r ensures Carries(s1, r, id, "", "") <==> Carries(s, r, id, "", "") { }
    assert CarriedBy(s1, id, {});
    assert Items([]) == {};
    QueryFinds(s1, id, {}, [], MAX_LIST);
  }

  lemma OnlyOne(rs: seq<Res>, r: Res)
    requires |rs| == 1 && Items(rs) == Items([r])
    ensures rs == [r]
  {
    assert rs[0] in Items(rs);
  }

  /** Whatever the requests, exclusive ones included: the id of a list just allocated leads to
      exactly the list's resources, in full and each once. */
  lemma QueryInvertsList(s: SysState, reqs: seq<Request>, sameDevice: bool)
    requires Inv(s) && IdsFresh(s) && s.serviceId < MAX_ID && HaveClients(reqs)
    requires AllocCuList(s, reqs, sameDevice).1.Ok?
    ensures var (s', r) := AllocCuList(s, reqs, sameDevice);
            |r.value| == |reqs| && FoundAgain(s', s.serviceId + 1, MAX_LIST, r.value)
  {
    NothingTagged(s);
    if sameDevice { SameDeviceTags(s, 0, reqs, [], {}); } else { AnyDeviceTags(s, reqs, {}, []); }
    var (s1, r) := if sameDevice then SameDevice(s, 0, reqs, []) else AnyDevice(s, reqs, []);
    ListKeepsId(s, reqs, sameDevice);
    TaggedIsFound(s1, Advance(s1, true), r.value, MAX_LIST);
  }

  lemma {:induction false} AnyDeviceKeepsId(s: SysState, reqs: seq<Request>, acc: seq<Res>)
    requires Inv(s) && HaveClients(reqs) && |acc| <= |reqs|
    ensures AnyDevice(s, reqs, acc).0.serviceId == s.serviceId && AnyDevice(s, reqs, acc).0.poolId == s.poolId
    decreases |reqs| - |acc|
  {
    if |acc| < |reqs| {
      AllocCuUpdate(s, reqs[|acc|]);
      AllocCuKeepsInv(s, reqs[|acc|], false);
      var (s1, r) := AllocCu(s, reqs[|acc|], false);
      if r.Ok? { AnyDeviceKeepsId(s1, reqs, acc + [r.value]); }
    }
  }

  lemma ListKeepsId(s: SysState, reqs: seq<Request>, sameDevice: bool)
    requires Inv(s) && HaveClients(reqs) && reqs != []
    ensures var s' := (if sameDevice then SameDevice(s, 0, reqs, []) else AnyDevice(s, reqs, [])).0;
            s'.serviceId == s.serviceId && s'.poolId == s.poolId
  {
    if !sameDevice { AnyDeviceKeepsId(s, reqs, []); }
  }

  // ---------------------------------------------------------------------------------
  // Version 2 lists
  // ---------------------------------------------------------------------------------

  ghost predicate TaggedV2(p: Progress) {
    && Tagged(p.s, ItemsOf(p.results), []) && NoneTwice(p.results) && OfClientsV2(p.results)
  }

  lemma TagOne(p: Progress, i: nat, s1: SysState, r: Res)
    requires TaggedV2(p) && i < |p.results| && p.results[i].None? && Tagged(s1, ItemsOf(p.results), [r])
    ensures TaggedV2(PlaceOne(p, i, s1, r))
  {
    ItemsOfUpdate(p.results, i, r);
    assert r in Items([r]);
    StillNoneTwice(p.results, i, r);
    assert ItemsOf(p.results) + Items([r]) == ItemsOf(p.results) + {r} + Items([]);
  }

  lemma TagGroup(p: Progress, reqs: seq<RequestV2>, i: nat, v: nat, s1: SysState, rs: seq<Res>)
    requires TaggedV2(p) && |reqs| == |p.results| && i < |reqs|
    requires var g := Group(reqs, p.results, i, v); |rs| == |g| > 0
    requires Tagged(s1, ItemsOf(p.results), rs)
    ensures TaggedV2(PlaceGroup(p, Group(reqs, p.results, i, v), s1, rs))
  {
    var g := Group(reqs, p.results, i, v);
    var results' := Scatter(p.results, g, rs);
    GroupFiled(reqs, p.results, i, v, rs);
    ItemsOfFiled(p.results, g, rs, results');
    FiledNoneTwice(p.results, g, rs, results');
    forall j | 0 <= j < |results'| && results'[j].Some? ensures results'[j].value.clientId != 0 {
      FiledFrom(p.results, g, rs, results', j);
    }
    assert ItemsOf(p.results) + Items(rs) + Items([]) == ItemsOf(p.results) + Items(rs);
  }

  lemma StepTags(p: Progress, reqs: seq<RequestV2>, i: nat)
    requires TaggedV2(p) && |reqs| == |p.results| && i < |reqs| && p.results[i].None? && HaveClientsV2(reqs)
    ensures TaggedV2(StepV2(p, reqs, i).0) && StepV2(p, reqs, i).0.s.serviceId == p.s.serviceId
  {
    var req := ToV1(reqs[i]);
    match ConstraintOf(reqs[i])
    case AnyDev =>
      AllocTags(p.s, ItemsOf(p.results), [], req);
      AllocCuUpdate(p.s, req);
      var (s1, r) := AllocCu(p.s, req, false);
      if r.Ok? { assert [] + [r.value] == [r.value]; TagOne(p, i, s1, r.value); }
    case Hardware(d) =>
      if d < |p.s.devs| && p.s.devs[d].isLoaded { PlaceTags(p.s, d, ItemsOf(p.results), [], req); }
      var (s1, r) := AllocCuFromDev(p.s, d, req, false);
      if r.Ok? { assert [] + [r.value] == [r.value]; TagOne(p, i, s1, r.value); }
    case Virtual(v) =>
      var g := Group(reqs, p.results, i, v);
      assert i in g;
      SameDeviceTags(p.s, 0, AllToV1(reqs, g), p.used, ItemsOf(p.results));
      var (s1, r) := SameDevice(p.s, 0, AllToV1(reqs, g), p.used);
      if r.Ok? { TagGroup(p, reqs, i, v, s1, r.value); }
    case BadConstraint =>
  }

  lemma {:induction false} RunTags(p: Progress, reqs: seq<RequestV2>, i: nat)
    requires TaggedV2(p) && |reqs| == |p.results| && i <= |reqs| && HaveClientsV2(reqs)
    ensures TaggedV2(RunV2(p, reqs, i).0) && RunV2(p, reqs, i).0.s.serviceId == p.s.serviceId
    decreases |reqs| - i
  {
    hide TaggedV2, StepV2, HaveClientsV2;
    if i < |reqs| {
      if p.results[i].Some? {
        RunTags(p, reqs, i + 1);
      } else {
        StepTags(p, reqs, i);
        var (p1, status) := StepV2(p, reqs, i);
        if status == SUCCESS { RunTags(p1, reqs, i + 1); }
      }
    }
  }

  lemma {:induction false} AllocatedFacts(results: Results)
    ensures |Allocated(results)| <= |results|
    ensures OfClientsV2(results) ==> OfClients(Allocated(results))
  {
    if results != [] {
      AllocatedFacts(results[1..]);
      assert forall j :: 0 <= j < |results[1..]| ==> results[1..][j] == results[j + 1];
    }
  }

  /** The same for version 2 lists; the database is valid whether or not they succeed. */
  lemma QueryInvertsListV2(s: SysState, reqs: seq<RequestV2>)
    requires Inv(s) && IdsFresh(s) && s.serviceId < MAX_ID && HaveClientsV2(reqs)
    ensures var (s', r) := AllocCuListV2(s, reqs);
            && Inv(s')
            && (r.Ok? ==> FoundAgain(s', s.serviceId + 1, MAX_LIST_V2, Allocated(r.value.0)))
  {
    hide FoundAgain, RunV2, Allocated, NoResults, Inv;
    if 0 < |reqs| <= MAX_LIST_V2 {
      var start := Progress(s, NoResults(|reqs|), 0, []);
      NothingTagged(s);
      assert ItemsOf(start.results) == {};
      RunTags(start, reqs, 0);
      var (p, status) := RunV2(start, reqs, 0);
      AllocatedFacts(p.results);
      AllocatedItems(p.results);
      if status == SUCCESS {
        assert ItemsOf(p.results) + Items([]) == {} + Items(Allocated(p.results));
        TaggedIsFound(p.s, Advance(p.s, true), Allocated(p.results), MAX_LIST_V2);
        AdvanceKeepsInv(p.s);
      } else {
        ReleaseEachKeepsInv(p.s, Allocated(p.results));
      }
    }
  }
}
