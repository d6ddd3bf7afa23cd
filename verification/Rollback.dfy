/** Undoing allocations. `Ext(a, b, items, excl)` says that b is a plus exactly the channels of
    `items`, where the clients `excl` may ask for exclusive use; granting adds an item, releasing
    takes one away, and with no item left the two databases are equal, client lists, client
    tables and all, but for shared devices that one of those clients, which alone used the
    device, has made its own. Every hand-written rollback of the daemon rests on these facts. */
module Rollback {
  import opened Tables
  import opened Sums
  import opened CuModel
  import opened DeviceModel
  import opened SystemModel

  predicate ExtChannel(x: Channel, y: Channel, d: nat, c: nat, items: set<Res>) {
    y == x || (x.load == 0 && y.load != 0 && ResAt(d, c, y) in items)
  }

  ghost predicate ExtCu(x: CuState, y: CuState, d: nat, c: nat, items: set<Res>) {
    && y.names == x.names && y.reserves == x.reserves && |y.channels| == |x.channels|
    && x.clients <= y.clients
    && forall k {:trigger ExtChannel(x.channels[k], y.channels[k], d, c, items)} :: 0 <= k < |x.channels| ==>
         ExtChannel(x.channels[k], y.channels[k], d, c, items)
  }

  predicate ExtProc(x: Proc, y: Proc) {
    x.clientId != 0 ==> y.clientId == x.clientId
  }

  /** The client, and nobody else, is listed. */
  predicate Sole(ps: seq<Proc>, c: nat) {
    c != 0 && FindProc(ps, c) < |ps| && !OthersPresent(ps, c)
  }

  predicate NobodyListed(ps: seq<Proc>) {
    forall k :: 0 <= k < |ps| ==> ps[k].clientId == 0
  }

  /** Who was listed is still listed, in the same place unless the device became exclusive: that
      takes an empty table, or a client of excl that alone was listed. */
  ghost predicate ExtTable(x: DevState, y: DevState, excl: set<nat>) {
    if y.isExcl == x.isExcl then
      forall k {:trigger ExtProc(x.procs[k], y.procs[k])} :: 0 <= k < |x.procs| ==> ExtProc(x.procs[k], y.procs[k])
    else
      && y.isExcl
      && (NobodyListed(x.procs) || (y.procs[0].clientId in excl && Sole(x.procs, y.procs[0].clientId)))
  }

  ghost predicate ExtUnits(x: DevState, y: DevState, d: nat, items: set<Res>) {
    && y.isLoaded == x.isLoaded && y.uuid == x.uuid && y.drift == x.drift
    && |y.cus| == |x.cus|
    && (forall c {:trigger ExtCu(x.cus[c], y.cus[c], d, c, items)} :: 0 <= c < |x.cus| ==>
          ExtCu(x.cus[c], y.cus[c], d, c, items))
  }

  ghost predicate ExtDev(x: DevState, y: DevState, d: nat, items: set<Res>, excl: set<nat>) {
    ExtUnits(x, y, d, items) && ExtTable(x, y, excl)
  }

  /** r's channel is free in a and live, as r says, in b. */
  predicate Added(a: SysState, b: SysState, r: Res) {
    && r.devId < |a.devs| == |b.devs|
    && r.cuId < |a.devs[r.devId].cus| == |b.devs[r.devId].cus|
    && r.chanId < |a.devs[r.devId].cus[r.cuId].channels| == |b.devs[r.devId].cus[r.cuId].channels|
    && a.devs[r.devId].cus[r.cuId].channels[r.chanId].load == 0
    && b.devs[r.devId].cus[r.cuId].channels[r.chanId] == ChannelOf(r)
    && r.load != 0 && r.clientId != 0
  }

  ghost predicate Ext(a: SysState, b: SysState, items: set<Res>, excl: set<nat>) {
    && |a.devs| == |b.devs|
    && (forall d {:trigger ExtDev(a.devs[d], b.devs[d], d, items, excl)} :: 0 <= d < |a.devs| ==>
          ExtDev(a.devs[d], b.devs[d], d, items, excl))
    && forall r {:trigger Added(a, b, r)} :: r in items ==> Added(a, b, r)
  }

  // ---------------------------------------------------------------------------------
  // The start and the end
  // ---------------------------------------------------------------------------------

  lemma ExtRefl(a: SysState, excl: set<nat>)
    ensures Ext(a, a, {}, excl)
  {
    forall d | 0 <= d < |a.devs| ensures ExtDev(a.devs[d], a.devs[d], d, {}, excl) {
      forall c | 0 <= c < |a.devs[d].cus| ensures ExtCu(a.devs[d].cus[c], a.devs[d].cus[c], d, c, {}) {
      }
    }
  }

  lemma ExtCuEmpty(x: CuState, y: CuState, d: nat, c: nat)
    requires CuInv(x) && CuInv(y) && ExtCu(x, y, d, c, {})
    ensures x == y
  {
    forall k | 0 <= k < |x.channels| ensures x.channels[k] == y.channels[k] {
      assert ExtChannel(x.channels[k], y.channels[k], d, c, {});
    }
    assert x.channels == y.channels;
    forall b: nat | b in y.clients ensures b in x.clients {
      assert Owns(y.channels, b);
    }
    PrefixWithSameMembers(x.clients, y.clients);
  }

  /** y is x, or x made exclusive to a client of excl that alone was using it. */
  predicate Back(x: DevState, y: DevState, excl: set<nat>) {
    var c := y.procs[0].clientId;
    || y == x
    || (!x.isExcl && c in excl && Sole(x.procs, c)
        && y == x.(isExcl := true, procs := EmptyTable()[0 := Proc(c, RefOf(x.procs, c))]))
  }

  /** Every unit, and every device but those made exclusive, is as it was. */
  ghost predicate Restored(a: SysState, b: SysState, excl: set<nat>) {
    && |a.devs| == |b.devs|
    && forall d {:trigger Back(a.devs[d], b.devs[d], excl)} :: 0 <= d < |a.devs| ==> Back(a.devs[d], b.devs[d], excl)
  }

  /** No shared device is used by a client of excl alone. */
  ghost predicate NoneAlone(a: SysState, excl: set<nat>) {
    forall d, c {:trigger Sole(a.devs[d].procs, c)} :: 0 <= d < |a.devs| && c in excl ==>
      a.devs[d].isExcl || !Sole(a.devs[d].procs, c)
  }

  lemma RestoredExactly(a: SysState, b: SysState, excl: set<nat>)
    requires Restored(a, b, excl) && NoneAlone(a, excl)
    ensures a.devs == b.devs
  {
    forall d | 0 <= d < |a.devs| ensures a.devs[d] == b.devs[d] { assert Back(a.devs[d], b.devs[d], excl); }
  }

  lemma ExtDevSame(x: DevState, y: DevState)
    requires DevInv(x) && DevInv(y) && x.cus == y.cus && x.isExcl == y.isExcl
    requires forall k {:trigger ExtProc(x.procs[k], y.procs[k])} :: 0 <= k < |x.procs| ==>
      ExtProc(x.procs[k], y.procs[k])
    ensures x.procs == y.procs
  {
    forall k | 0 <= k < |x.procs| ensures x.procs[k] == y.procs[k] {
      assert GoodProc(x, k, 0) && GoodProc(y, k, 0) && ExtProc(x.procs[k], y.procs[k]);
      var b := y.procs[k].clientId;
      if b != 0 {
        assert Listed(x, b, 0);
        var j := FindProc(x.procs, b);
        assert ExtProc(x.procs[j], y.procs[j]);
      }
    }
  }

  lemma ExtDevTurned(x: DevState, y: DevState, excl: set<nat>)
    requires DevInv(x) && DevInv(y) && x.cus == y.cus && x.isExcl != y.isExcl && ExtTable(x, y, excl)
    ensures var c := y.procs[0].clientId;
            c in excl && Sole(x.procs, c) && y.procs == EmptyTable()[0 := Proc(c, RefOf(x.procs, c))]
  {
    var c := y.procs[0].clientId;
    assert GoodProc(y, 0, 0);
    assert Listed(x, c, 0);
    RefCountsChannels(x, c);
    forall k | 0 < k < |y.procs| ensures y.procs[k] == Proc(0, 0) { assert GoodProc(y, k, 0); }
  }

  lemma ExtDevEmpty(x: DevState, y: DevState, d: nat, excl: set<nat>)
    requires DevInv(x) && DevInv(y) && ExtDev(x, y, d, {}, excl)
    ensures Back(x, y, excl)
  {
    forall c | 0 <= c < |x.cus| ensures x.cus[c] == y.cus[c] {
      assert CuInv(x.cus[c]) && CuInv(y.cus[c]) && ExtCu(x.cus[c], y.cus[c], d, c, {});
      ExtCuEmpty(x.cus[c], y.cus[c], d, c);
    }
    assert x.cus == y.cus;
    if x.isExcl == y.isExcl { ExtDevSame(x, y); } else { ExtDevTurned(x, y, excl); }
  }

  lemma ExtEmpty(a: SysState, b: SysState, excl: set<nat>)
    requires Inv(a) && Inv(b) && Ext(a, b, {}, excl)
    ensures Restored(a, b, excl)
  {
    forall d | 0 <= d < |a.devs| ensures Back(a.devs[d], b.devs[d], excl) {
      assert DevInv(a.devs[d]) && DevInv(b.devs[d]) && ExtDev(a.devs[d], b.devs[d], d, {}, excl);
      ExtDevEmpty(a.devs[d], b.devs[d], d, excl);
    }
  }

  // ---------------------------------------------------------------------------------
  // Granting adds an item
  // ---------------------------------------------------------------------------------

  lemma ExtCuPut(x: CuState, y: CuState, d: nat, c: nat, items: set<Res>, req: Request, id: nat)
    requires ExtCu(x, y, d, c, items) && Feasible(y, req)
    ensures x.channels[FirstFree(y.channels)].load == 0
    ensures var r := ResAt(d, c, Granted(req, FirstFree(y.channels), id));
            ExtCu(x, PutChannel(y, req, id), d, c, items + {r})
  {
    var i := FirstFree(y.channels);
    var y' := PutChannel(y, req, id);
    var r := ResAt(d, c, Granted(req, i, id));
    assert ExtChannel(x.channels[i], y.channels[i], d, c, items);
    forall k | 0 <= k < |x.channels| ensures ExtChannel(x.channels[k], y'.channels[k], d, c, items + {r}) {
      assert ExtChannel(x.channels[k], y.channels[k], d, c, items);
    }
  }

  /** A registration, of a client of excl if it is exclusive. */
  lemma ExtTableRegister(x: DevState, y: DevState, excl: set<nat>, req: Request)
    requires ExtTable(x, y, excl) && Register(y, req).Some? && req.clientId != 0
    requires req.devExcl ==> req.clientId in excl
    ensures ExtTable(x, Register(y, req).value, excl)
  {
    var y' := Register(y, req).value;
    if y'.isExcl == y.isExcl {
      forall k | 0 <= k < |x.procs| && y.isExcl == x.isExcl ensures ExtProc(x.procs[k], y'.procs[k]) {
        assert ExtProc(x.procs[k], y.procs[k]);
      }
    } else {
      ExtTableTurns(x, y, req.clientId);
    }
  }

  /** Where y lists nobody but c, x lists nobody at all or c alone. */
  lemma ExtTableTurns(x: DevState, y: DevState, c: nat)
    requires forall k {:trigger ExtProc(x.procs[k], y.procs[k])} :: 0 <= k < |x.procs| ==>
      ExtProc(x.procs[k], y.procs[k])
    requires !OthersPresent(y.procs, c) && c != 0
    ensures NobodyListed(x.procs) || Sole(x.procs, c)
  {
    forall k | 0 <= k < |x.procs| ensures x.procs[k].clientId == 0 || x.procs[k].clientId == c {
      assert ExtProc(x.procs[k], y.procs[k]);
    }
  }

  lemma ExtDevPut(x: DevState, y: DevState, d: nat, items: set<Res>, excl: set<nat>, c: nat, req: Request, id: nat)
    requires ExtDev(x, y, d, items, excl) && c < |y.cus| && Feasible(y.cus[c], req)
    requires Register(y, req).Some? && req.clientId != 0 && (req.devExcl ==> req.clientId in excl)
    ensures var r := ResAt(d, c, Granted(req, FirstFree(y.cus[c].channels), id));
            ExtDev(x, SetCu(Register(y, req).value, c, PutChannel(y.cus[c], req, id)), d, items + {r}, excl)
  {
    var r := ResAt(d, c, Granted(req, FirstFree(y.cus[c].channels), id));
    var y1 := Register(y, req).value;
    var y' := SetCu(y1, c, PutChannel(y.cus[c], req, id));
    ExtTableRegister(x, y, excl, req);
    SameTable(x, y1, y', excl);
    forall e | 0 <= e < |x.cus| ensures ExtCu(x.cus[e], y'.cus[e], d, e, items + {r}) {
      assert ExtCu(x.cus[e], y.cus[e], d, e, items);
      if e == c {
        ExtCuPut(x.cus[c], y.cus[c], d, c, items, req, id);
      } else {
        ExtCuMore(x.cus[e], y.cus[e], d, e, items, items + {r});
      }
    }
  }

  lemma SameTable(x: DevState, y: DevState, y': DevState, excl: set<nat>)
    requires ExtTable(x, y, excl) && y'.procs == y.procs && y'.isExcl == y.isExcl
    ensures ExtTable(x, y', excl)
  {
    forall k | 0 <= k < |x.procs| && y.isExcl == x.isExcl ensures ExtProc(x.procs[k], y'.procs[k]) {
      assert ExtProc(x.procs[k], y.procs[k]);
    }
  }

  lemma ExtCuMore(x: CuState, y: CuState, d: nat, c: nat, items: set<Res>, items': set<Res>)
    requires ExtCu(x, y, d, c, items)
    requires forall r :: r in items && r.devId == d && r.cuId == c ==> r in items'
    ensures ExtCu(x, y, d, c, items')
  {
    forall k | 0 <= k < |x.channels| ensures ExtChannel(x.channels[k], y.channels[k], d, c, items') {
      assert ExtChannel(x.channels[k], y.channels[k], d, c, items);
    }
  }

  lemma ExtDevMore(x: DevState, y: DevState, d: nat, items: set<Res>, items': set<Res>, excl: set<nat>)
    requires ExtDev(x, y, d, items, excl)
    requires forall r :: r in items && r.devId == d ==> r in items'
    ensures ExtDev(x, y, d, items', excl)
  {
    forall c | 0 <= c < |x.cus| ensures ExtCu(x.cus[c], y.cus[c], d, c, items') {
      assert ExtCu(x.cus[c], y.cus[c], d, c, items);
      ExtCuMore(x.cus[c], y.cus[c], d, c, items, items');
    }
  }

  /** b' is b with the client counted on r's device and the channel of r put; exactly. */
  ghost predicate GrantFrom(b: SysState, b': SysState, r: Res, req: Request) {
    && r.devId < |b.devs| && Usable(b.devs[r.devId], req)
    && r.cuId < |b.devs[r.devId].cus|
    && Matches(b.devs[r.devId].cus[r.cuId], req) && Feasible(b.devs[r.devId].cus[r.cuId], req)
    && b' == Grant(b, r.devId, Register(b.devs[r.devId], req).value, r.cuId, req)
    && r == GrantedRes(b, r.devId, b.devs[r.devId].cus[r.cuId], r.cuId, req)
  }

  lemma ExtGrant(a: SysState, b: SysState, items: set<Res>, excl: set<nat>, b': SysState, r: Res, req: Request)
    requires Ext(a, b, items, excl) && GrantFrom(b, b', r, req) && req.clientId != 0 &&
      (req.devExcl ==> req.clientId in excl)
    ensures Ext(a, b', items + {r}, excl) && r !in items
  {
    hide ExtTable, Register;
    var d, c, cu := r.devId, r.cuId, b.devs[r.devId].cus[r.cuId];
    RegisterKeepsUnits(b.devs[d], req);
    assert ExtDev(a.devs[d], b.devs[d], d, items, excl);
    assert ExtCu(a.devs[d].cus[c], cu, d, c, items);
    ExtCuPut(a.devs[d].cus[c], cu, d, c, items, req, NextId(b.serviceId));
    forall q | q in items ensures q != r { assert Added(a, b, q); }
    forall e | 0 <= e < |a.devs| ensures ExtDev(a.devs[e], b'.devs[e], e, items + {r}, excl) {
      assert ExtDev(a.devs[e], b.devs[e], e, items, excl);
      if e == d { ExtDevPut(a.devs[d], b.devs[d], d, items, excl, c, req, NextId(b.serviceId)); }
      else { ExtDevMore(a.devs[e], b.devs[e], e, items, items + {r}, excl); }
    }
    forall q | q in items + {r} ensures Added(a, b', q) {
      if q != r { assert Added(a, b, q); }
    }
  }

  lemma RegisterKeepsUnits(dev: DevState, req: Request)
    requires Register(dev, req).Some?
    ensures Register(dev, req).value.cus == dev.cus
  {
  }

  // ---------------------------------------------------------------------------------
  // Releasing takes one away
  // ---------------------------------------------------------------------------------

  lemma ExtCuClear(x: CuState, y: CuState, d: nat, c: nat, items: set<Res>, i: nat)
    requires CuInv(x) && CuInv(y) && ExtCu(x, y, d, c, items)
    requires i < |y.channels| && y.channels[i].load != 0 && x.channels[i].load == 0
    ensures ExtCu(x, ClearChannel(y, i), d, c, items - {ResAt(d, c, y.channels[i])})
  {
    var b := y.channels[i].clientId;
    var y' := ClearChannel(y, i);
    assert GoodChannel(x.channels[i], i) && GoodChannel(y.channels[i], i);
    forall k | 0 <= k < |x.channels|
      ensures ExtChannel(x.channels[k], y'.channels[k], d, c, items - {ResAt(d, c, y.channels[i])})
    {
      assert ExtChannel(x.channels[k], y.channels[k], d, c, items);
      assert GoodChannel(y.channels[k], k);
    }
    if Total(LiveOf(b), y'.channels) == 0 {
      OwnersStay(x, y', d, c, items - {ResAt(d, c, y.channels[i])}, b);
      RemoveKeepsPrefix(x.clients, y.clients, b);
    }
  }

  /** Every channel of x is still there in y: a client of x still owns one in y. */
  lemma OwnersStay(x: CuState, y: CuState, d: nat, c: nat, items: set<Res>, b: nat)
    requires CuInv(x) && |x.channels| == |y.channels|
    requires forall k {:trigger ExtChannel(x.channels[k], y.channels[k], d, c, items)} :: 0 <= k < |x.channels| ==>
               ExtChannel(x.channels[k], y.channels[k], d, c, items)
    requires b != 0 && Total(LiveOf(b), y.channels) == 0
    ensures Total(LiveOf(b), x.channels) == 0
    ensures b !in x.clients
  {
    forall k | 0 <= k < |x.channels| ensures Weigh(LiveOf(b), x.channels[k]) <= Weigh(LiveOf(b), y.channels[k]) {
      assert ExtChannel(x.channels[k], y.channels[k], d, c, items);
      assert GoodChannel(x.channels[k], k);
    }
    TotalMonotone(LiveOf(b), x.channels, y.channels);
    TotalNonNegative(LiveOf(b), x.channels);
    assert !Owns(x.channels, b);
  }

  /** Live counts of x never exceed those of an extension of x. */
  lemma ExtLive(x: DevState, y: DevState, d: nat, items: set<Res>, b: nat)
    requires DevShape(x) && ExtUnits(x, y, d, items) && b != 0
    ensures CusTotal(LiveChannels(b), x.cus) <= CusTotal(LiveChannels(b), y.cus)
  {
    forall c | 0 <= c < |x.cus| ensures WeighCu(LiveChannels(b), x.cus[c]) <= WeighCu(LiveChannels(b), y.cus[c]) {
      assert CuInv(x.cus[c]) && ExtCu(x.cus[c], y.cus[c], d, c, items);
      forall k | 0 <= k < |x.cus[c].channels|
        ensures Weigh(LiveOf(b), x.cus[c].channels[k]) <= Weigh(LiveOf(b), y.cus[c].channels[k])
      {
        assert ExtChannel(x.cus[c].channels[k], y.cus[c].channels[k], d, c, items);
        assert GoodChannel(x.cus[c].channels[k], k);
      }
      TotalMonotone(LiveOf(b), x.cus[c].channels, y.cus[c].channels);
    }
    SumMonotone(CuWeights(LiveChannels(b), x.cus), CuWeights(LiveChannels(b), y.cus));
  }

  lemma ExtDevClear(x: DevState, y: DevState, d: nat, items: set<Res>, excl: set<nat>, r: Res)
    requires DevInv(x) && DevInv(y) && ExtDev(x, y, d, items, excl) && y.isLoaded
    requires r.devId == d && r.cuId < |y.cus| && r.chanId < |y.cus[r.cuId].channels|
    requires y.cus[r.cuId].channels[r.chanId] == ChannelOf(r) && r.load != 0 && r.clientId != 0
    requires |x.cus[r.cuId].channels| == |y.cus[r.cuId].channels| && x.cus[r.cuId].channels[r.chanId].load == 0
    ensures ExtDev(x, SetCu(y, r.cuId, ClearChannel(y.cus[r.cuId], r.chanId)), d, items - {r}, excl)
  {
    var y' := SetCu(y, r.cuId, ClearChannel(y.cus[r.cuId], r.chanId));
    forall c | 0 <= c < |x.cus| ensures ExtCu(x.cus[c], y'.cus[c], d, c, items - {r}) {
      assert ExtCu(x.cus[c], y.cus[c], d, c, items) && CuInv(x.cus[c]) && CuInv(y.cus[c]);
      if c == r.cuId { ExtCuClear(x.cus[c], y.cus[c], d, c, items, r.chanId); }
      else { ExtCuMore(x.cus[c], y.cus[c], d, c, items, items - {r}); }
    }
    SameTable(x, y, y', excl);
  }

  /** A device made exclusive to a client that was using it before stays so. */
  predicate StaysTurned(x: DevState, y: DevState, y': DevState) {
    !x.isExcl && y.isExcl && !NobodyListed(x.procs) ==> y'.isExcl
  }

  lemma ExtTableUnregister(x: DevState, y: DevState, d: nat, items: set<Res>, excl: set<nat>, b: nat)
    requires DevInv(x) && DevShape(y) && RefsMatch(y, b) && ExtDev(x, y, d, items, excl) && y.isLoaded && b != 0
    ensures ExtTable(x, Unregister(y, b), excl) && StaysTurned(x, y, Unregister(y, b))
  {
    var y' := Unregister(y, b);
    var k := FindProc(y.procs, b);
    LiveNonNegative(y.cus, b);
    assert Listed(y, b, b);
    assert GoodProc(y, k, b);
    assert y.isExcl ==> k == 0;
    ExtLive(x, y, d, items, b);
    RefCountsChannels(x, b);
    if x.isExcl == y.isExcl {
      assert GoodProc(x, k, 0);
      assert ExtProc(x.procs[k], y.procs[k]);
      assert y.procs[k].ref == 1 ==> x.procs[k].clientId == 0;
      forall j | 0 <= j < |x.procs| ensures ExtProc(x.procs[j], y'.procs[j]) {
        assert ExtProc(x.procs[j], y.procs[j]);
      }
      StillExclusive(x, y', b);
    } else if NobodyListed(x.procs) {
      forall j | 0 <= j < |x.procs| ensures ExtProc(x.procs[j], y'.procs[j]) { }
    }
  }

  lemma StillExclusive(x: DevState, y': DevState, b: nat)
    requires DevInv(x)
    requires forall k {:trigger ExtProc(x.procs[k], y'.procs[k])} :: 0 <= k < |x.procs| ==>
      ExtProc(x.procs[k], y'.procs[k])
    ensures x.isExcl ==> y'.procs[0].clientId != 0
  {
    assert ExtProc(x.procs[0], y'.procs[0]);
  }

  lemma ExtDevUnregister(x: DevState, y: DevState, d: nat, items: set<Res>, excl: set<nat>, b: nat)
    requires DevInv(x) && DevShape(y) && RefsMatch(y, b) && ExtDev(x, y, d, items, excl) && y.isLoaded && b != 0
    ensures ExtDev(x, Unregister(y, b), d, items, excl) && StaysTurned(x, y, Unregister(y, b))
  {
    ExtTableUnregister(x, y, d, items, excl, b);
    forall c | 0 <= c < |x.cus| ensures ExtCu(x.cus[c], Unregister(y, b).cus[c], d, c, items) {
      assert ExtCu(x.cus[c], y.cus[c], d, c, items);
    }
  }

  lemma ExtRelease(a: SysState, b: SysState, items: set<Res>, excl: set<nat>, r: Res)
    requires Inv(a) && Inv(b) && Ext(a, b, items, excl) && r in items
    ensures Holds(b, r) && Inv(ClearAndUnregister(b, r))
    ensures Ext(a, ClearAndUnregister(b, r), items - {r}, excl)
    ensures forall e {:trigger b.devs[e]} :: 0 <= e < |a.devs| ==>
              StaysTurned(a.devs[e], b.devs[e], ClearAndUnregister(b, r).devs[e])
  {
    hide ExtTable, ClearChannel, Unregister;
    assert Added(a, b, r);
    var d := r.devId;
    var b' := ClearAndUnregister(b, r);
    ClearKeepsSysInv(b, r);
    assert DevInv(a.devs[d]) && DevInv(b.devs[d]) && ExtDev(a.devs[d], b.devs[d], d, items, excl);
    ExtDevClear(a.devs[d], b.devs[d], d, items, excl, r);
    ClearOnDevice(b.devs[d], r.cuId, r.chanId);
    ExtDevUnregister(a.devs[d], SetCu(b.devs[d], r.cuId, ClearChannel(b.devs[d].cus[r.cuId], r.chanId)),
                     d, items - {r}, excl, r.clientId);
    forall e | 0 <= e < |a.devs| ensures ExtDev(a.devs[e], b'.devs[e], e, items - {r}, excl) {
      if e != d {
        assert ExtDev(a.devs[e], b.devs[e], e, items, excl);
        ExtDevMore(a.devs[e], b.devs[e], e, items, items - {r}, excl);
      }
    }
    OthersStayAdded(a, b, items, excl, r);
  }

  lemma OthersStayAdded(a: SysState, b: SysState, items: set<Res>, excl: set<nat>, r: Res)
    requires Ext(a, b, items, excl) && r in items && Holds(b, r)
    ensures forall q {:trigger Added(a, ClearAndUnregister(b, r), q)} :: q in items - {r} ==>
      Added(a, ClearAndUnregister(b, r), q)
  {
    assert Added(a, b, r);
    forall q | q in items - {r} ensures Added(a, ClearAndUnregister(b, r), q) {
      assert Added(a, b, q);
      assert q.devId == r.devId && q.cuId == r.cuId ==> q.chanId != r.chanId;
    }
  }

  // ---------------------------------------------------------------------------------
  // Releasing a list
  // ---------------------------------------------------------------------------------

  /** Releases in order and stops at the first resource that is not held. */
  function ReleaseAll(s: SysState, rs: seq<Res>): (t: (SysState, Status))
    ensures |t.0.devs| == |s.devs| && t.0.serviceId == s.serviceId && t.0.poolId == s.poolId
    decreases |rs|
  {
    if rs == [] then (s, SUCCESS)
    else
      var (s1, status) := ReleaseCu(s, rs[0]);
      if status != SUCCESS then (s1, status) else ReleaseAll(s1, rs[1..])
  }

  function Items(rs: seq<Res>): set<Res> {
    set r | r in rs
  }

  ghost predicate NoRepeats(rs: seq<Res>) {
    forall i, j :: 0 <= i < j < |rs| ==> rs[i] != rs[j]
  }

  /** Releasing some of what was added, in any order, takes exactly that away. */
  lemma {:induction false} ReleaseAllPeels(a: SysState, b: SysState, items: set<Res>, excl: set<nat>, rs: seq<Res>)
    requires Inv(a) && Inv(b) && Ext(a, b, items, excl) && Items(rs) <= items && NoRepeats(rs)
    ensures var (b', status) := ReleaseAll(b, rs);
            && status == SUCCESS && Inv(b') && Ext(a, b', items - Items(rs), excl)
            && forall e {:trigger b.devs[e]} :: 0 <= e < |a.devs| ==> StaysTurned(a.devs[e], b.devs[e], b'.devs[e])
    decreases |rs|
  {
    if rs == [] {
      assert items - Items(rs) == items;
    } else {
      var r := rs[0];
      assert r in Items(rs);
      ExtRelease(a, b, items, excl, r);
      HeldIsInRange(b, r);
      assert Items(rs) == Items(rs[1..]) + {r} && r !in Items(rs[1..]);
      ReleaseAllPeels(a, ClearAndUnregister(b, r), items - {r}, excl, rs[1..]);
      assert items - {r} - Items(rs[1..]) == items - Items(rs);
    }
  }

  /** Releasing everything that was added, in any order, restores the tables, exactly but for
      devices made exclusive on the way. */
  lemma ReleaseAllRestores(a: SysState, b: SysState, excl: set<nat>, rs: seq<Res>)
    requires Inv(a) && Inv(b) && Ext(a, b, Items(rs), excl) && NoRepeats(rs)
    ensures var (b', status) := ReleaseAll(b, rs);
            && status == SUCCESS && Inv(b') && Ext(a, b', {}, excl) && Restored(a, b', excl)
            && forall e {:trigger b.devs[e]} :: 0 <= e < |a.devs| ==> StaysTurned(a.devs[e], b.devs[e], b'.devs[e])
  {
    ReleaseAllPeels(a, b, Items(rs), excl, rs);
    assert Items(rs) - Items(rs) == {};
    ExtEmpty(a, ReleaseAll(b, rs).0, excl);
  }

  /** Additions compose. */
  lemma ExtTrans(a: SysState, b: SysState, c: SysState, items: set<Res>, more: set<Res>, excl: set<nat>)
    requires Ext(a, b, items, excl) && Ext(b, c, more, excl)
    ensures Ext(a, c, items + more, excl) && items !! more
  {
    hide ExtTable;
    forall r | r in more ensures r !in items && Added(a, c, r) {
      assert Added(b, c, r);
      assert ExtDev(a.devs[r.devId], b.devs[r.devId], r.devId, items, excl);
      assert ExtCu(a.devs[r.devId].cus[r.cuId], b.devs[r.devId].cus[r.cuId], r.devId, r.cuId, items);
      assert ExtChannel(a.devs[r.devId].cus[r.cuId].channels[r.chanId],
                        b.devs[r.devId].cus[r.cuId].channels[r.chanId], r.devId, r.cuId, items);
      forall q | q in items ensures q != r { assert Added(a, b, q); }
    }
    forall r | r in items ensures Added(a, c, r) {
      assert Added(a, b, r);
      assert ExtDev(b.devs[r.devId], c.devs[r.devId], r.devId, more, excl);
      assert ExtCu(b.devs[r.devId].cus[r.cuId], c.devs[r.devId].cus[r.cuId], r.devId, r.cuId, more);
      assert ExtChannel(b.devs[r.devId].cus[r.cuId].channels[r.chanId],
                        c.devs[r.devId].cus[r.cuId].channels[r.chanId], r.devId, r.cuId, more);
    }
    forall d | 0 <= d < |a.devs| ensures ExtDev(a.devs[d], c.devs[d], d, items + more, excl) {
      assert ExtDev(a.devs[d], b.devs[d], d, items, excl) && ExtDev(b.devs[d], c.devs[d], d, more, excl);
      ExtTableTrans(a.devs[d], b.devs[d], c.devs[d], excl);
      ExtUnitsTrans(a.devs[d], b.devs[d], c.devs[d], d, items, more);
    }
  }

  lemma ExtSameTables(a: SysState, b: SysState, b': SysState, items: set<Res>, excl: set<nat>)
    requires Ext(a, b, items, excl) && b'.devs == b.devs
    ensures Ext(a, b', items, excl)
  {
    forall d | 0 <= d < |a.devs| ensures ExtDev(a.devs[d], b'.devs[d], d, items, excl) {
      assert ExtDev(a.devs[d], b.devs[d], d, items, excl);
    }
    forall r | r in items ensures Added(a, b', r) { assert Added(a, b, r); }
  }

  lemma ExtTableTrans(x: DevState, y: DevState, z: DevState, excl: set<nat>)
    requires ExtTable(x, y, excl) && ExtTable(y, z, excl)
    ensures ExtTable(x, z, excl)
  {
    if x.isExcl == z.isExcl {
      forall k | 0 <= k < |x.procs| ensures ExtProc(x.procs[k], z.procs[k]) {
        assert ExtProc(x.procs[k], y.procs[k]) && ExtProc(y.procs[k], z.procs[k]);
      }
    } else if x.isExcl == y.isExcl {
      forall k | 0 <= k < |x.procs| ensures x.procs[k].clientId == 0 || x.procs[k].clientId == y.procs[k].clientId {
        assert ExtProc(x.procs[k], y.procs[k]);
      }
    } else {
      assert ExtProc(y.procs[0], z.procs[0]);
    }
  }

  lemma ExtUnitsTrans(x: DevState, y: DevState, z: DevState, d: nat, items: set<Res>, more: set<Res>)
    requires ExtUnits(x, y, d, items) && ExtUnits(y, z, d, more)
    ensures ExtUnits(x, z, d, items + more)
  {
    forall c | 0 <= c < |x.cus| ensures ExtCu(x.cus[c], z.cus[c], d, c, items + more) {
      assert ExtCu(x.cus[c], y.cus[c], d, c, items) && ExtCu(y.cus[c], z.cus[c], d, c, more);
      forall k | 0 <= k < |x.cus[c].channels|
        ensures ExtChannel(x.cus[c].channels[k], z.cus[c].channels[k], d, c, items + more)
      {
        assert ExtChannel(x.cus[c].channels[k], y.cus[c].channels[k], d, c, items);
        assert ExtChannel(y.cus[c].channels[k], z.cus[c].channels[k], d, c, more);
      }
    }
  }

  lemma HeldIsInRange(s: SysState, r: Res)
    requires Inv(s) && Holds(s, r)
    ensures ReleaseCu(s, r) == (ClearAndUnregister(s, r), SUCCESS)
  {
    var dev := s.devs[r.devId];
    assert DevInv(dev);
    assert CuInv(dev.cus[r.cuId]);
  }

  lemma {:induction false} ReleaseAllKeepsInv(s: SysState, rs: seq<Res>)
    requires Inv(s) && forall i :: 0 <= i < |rs| ==> rs[i].clientId != 0
    ensures Inv(ReleaseAll(s, rs).0)
    decreases |rs|
  {
    if rs != [] {
      ReleaseKeepsInv(s, rs[0]);
      ReleaseAllKeepsInv(ReleaseCu(s, rs[0]).0, rs[1..]);
    }
  }

  /** Releases every resource, whatever becomes of the others. */
  function ReleaseEach(s: SysState, rs: seq<Res>): (t: SysState)
    ensures |t.devs| == |s.devs| && t.serviceId == s.serviceId && t.poolId == s.poolId
    decreases |rs|
  {
    if rs == [] then s else ReleaseEach(ReleaseCu(s, rs[0]).0, rs[1..])
  }

  lemma ReleaseEachRestores(a: SysState, b: SysState, excl: set<nat>, rs: seq<Res>)
    requires Inv(a) && Inv(b) && Ext(a, b, Items(rs), excl) && NoRepeats(rs)
    ensures var b' := ReleaseEach(b, rs);
            && Inv(b') && Restored(a, b', excl)
            && forall e {:trigger b.devs[e]} :: 0 <= e < |a.devs| ==> StaysTurned(a.devs[e], b.devs[e], b'.devs[e])
  {
    ReleaseAllRestores(a, b, excl, rs);
    AllIsEach(b, rs);
  }

  lemma {:induction false} AllIsEach(s: SysState, rs: seq<Res>)
    requires ReleaseAll(s, rs).1 == SUCCESS
    ensures ReleaseEach(s, rs) == ReleaseAll(s, rs).0
    decreases |rs|
  {
    if rs != [] { AllIsEach(ReleaseCu(s, rs[0]).0, rs[1..]); }
  }

  lemma {:induction false} ReleaseEachKeepsInv(s: SysState, rs: seq<Res>)
    requires Inv(s) && forall i :: 0 <= i < |rs| ==> rs[i].clientId != 0
    ensures Inv(ReleaseEach(s, rs))
    decreases |rs|
  {
    if rs != [] {
      ReleaseKeepsInv(s, rs[0]);
      ReleaseEachKeepsInv(ReleaseCu(s, rs[0]).0, rs[1..]);
    }
  }

  // ---------------------------------------------------------------------------------
  // One attempt to allocate
  // ---------------------------------------------------------------------------------

  /** After an attempt on top of the additions `items`: on success one item more, serving the
      request under the next service id, and else no more than there was. */
  ghost predicate Attempted(a: SysState, b: SysState, items: set<Res>, excl: set<nat>, req: Request, b': SysState,
      r: Option<Res>) {
    && Inv(b') && b'.serviceId == b.serviceId && b'.poolId == b.poolId
    && match r
       case None => Ext(a, b', items, excl)
       case Some(res) =>
         && Ext(a, b', items + {res}, excl) && res !in items
         && Serves(a, res, req, NextId(b.serviceId))
  }

  /** r serves the request under service id `id`, on a unit that the request matches. */
  predicate Serves(a: SysState, r: Res, req: Request, id: nat) {
    && r.load == req.load && r.clientId == req.clientId && r.poolId == req.poolId && r.serviceId == id
    && r.devId < |a.devs| && r.cuId < |a.devs[r.devId].cus| && Matches(a.devs[r.devId].cus[r.cuId], req)
  }

  /** Who asks for exclusive use is among excl. */
  predicate Asks(req: Request, excl: set<nat>) {
    req.clientId != 0 && (req.devExcl ==> req.clientId in excl)
  }

  lemma ExtUndo(a: SysState, b: SysState, items: set<Res>, excl: set<nat>, d: nat, req: Request)
    requires Inv(a) && Inv(b) && Ext(a, b, items, excl) && d < |b.devs| && Usable(b.devs[d], req) && Asks(req, excl)
    ensures var b' := SetDev(b, d, Unregister(Register(b.devs[d], req).value, req.clientId));
            Inv(b') && Ext(a, b', items, excl)
  {
    hide ExtTable, Register, Unregister;
    var y1 := Register(b.devs[d], req).value;
    UndoKeepsInv(b, d, req);
    assert DevInv(a.devs[d]) && DevInv(b.devs[d]) && ExtDev(a.devs[d], b.devs[d], d, items, excl);
    RegisterRefs(b.devs[d], req);
    ExtTableRegister(a.devs[d], b.devs[d], excl, req);
    RegisterKeepsDevice(b.devs[d], req);
    ExtUnitsSame(a.devs[d], b.devs[d], y1, d, items);
    ExtDevUnregister(a.devs[d], y1, d, items, excl, req.clientId);
    TableAside(a, b, items, excl, d, Unregister(y1, req.clientId));
  }

  lemma RegisterKeepsDevice(dev: DevState, req: Request)
    requires Usable(dev, req)
    ensures var dev' := Register(dev, req).value;
            && dev'.cus == dev.cus && dev'.isLoaded == dev.isLoaded && dev'.uuid == dev.uuid && dev'.drift == dev.drift
            && dev'.isLoaded && forall c :: Unregister(dev', c).cus == dev.cus
  {
  }

  lemma ExtUnitsSame(x: DevState, y: DevState, y': DevState, d: nat, items: set<Res>)
    requires ExtUnits(x, y, d, items) && y'.cus == y.cus && y'.isLoaded == y.isLoaded && y'.uuid == y.uuid &&
      y'.drift == y.drift
    ensures ExtUnits(x, y', d, items)
  {
    forall c | 0 <= c < |x.cus| ensures ExtCu(x.cus[c], y'.cus[c], d, c, items) {
      assert ExtCu(x.cus[c], y.cus[c], d, c, items);
    }
  }

  /** One device changes in its client table only. */
  lemma TableAside(a: SysState, b: SysState, items: set<Res>, excl: set<nat>, d: nat, dev: DevState)
    requires Ext(a, b, items, excl) && d < |b.devs| && dev.cus == b.devs[d].cus &&
      ExtDev(a.devs[d], dev, d, items, excl)
    ensures Ext(a, SetDev(b, d, dev), items, excl)
  {
    var b' := SetDev(b, d, dev);
    forall e | 0 <= e < |a.devs| ensures ExtDev(a.devs[e], b'.devs[e], e, items, excl) {
      if e != d { assert ExtDev(a.devs[e], b.devs[e], e, items, excl); }
    }
    forall r | r in items ensures Added(a, b', r) { assert Added(a, b, r); }
  }

  lemma GrantAttempted(a: SysState, b: SysState, items: set<Res>, excl: set<nat>, b': SysState, r: Res, req: Request)
    requires Inv(a) && Inv(b) && Ext(a, b, items, excl) && GrantFrom(b, b', r, req) && Asks(req, excl)
    ensures Attempted(a, b, items, excl, req, b', Some(r))
  {
    GrantKeepsInv(b, r.devId, r.cuId, req);
    ExtGrant(a, b, items, excl, b', r, req);
    assert ExtDev(a.devs[r.devId], b.devs[r.devId], r.devId, items, excl);
    assert ExtCu(a.devs[r.devId].cus[r.cuId], b.devs[r.devId].cus[r.cuId], r.devId, r.cuId, items);
  }

  lemma TryPlaceAttempts(a: SysState, b: SysState, items: set<Res>, excl: set<nat>, d: nat, req: Request)
    requires Inv(a) && Inv(b) && Ext(a, b, items, excl) && d < |b.devs| && b.devs[d].isLoaded && Asks(req, excl)
    ensures var (b', r) := TryPlace(b, d, req);
            && Attempted(a, b, items, excl, req, b', if r.Ok? then Some(r.value) else None)
            && (r.Ok? ==> r.value.devId == d)
  {
    hide Ext, Inv, PickCu;
    var (b', r) := TryPlace(b, d, req);
    if r.Ok? {
      GrantAttempted(a, b, items, excl, b', r.value, req);
    } else if Usable(b.devs[d], req) {
      ExtUndo(a, b, items, excl, d, req);
    }
  }

  lemma VisitAttempts(a: SysState, b: SysState, items: set<Res>, excl: set<nat>, d: nat, affinity: bool, req: Request)
    requires Inv(a) && Inv(b) && Ext(a, b, items, excl) && d < |b.devs| && b.devs[d].isLoaded && Asks(req, excl)
    ensures Attempted(a, b, items, excl, req, Visit(b, d, affinity, req).0, Visit(b, d, affinity, req).1)
  {
    hide Ext, Inv, AcceptFrom;
    var (b', r) := Visit(b, d, affinity, req);
    if r.Some? {
      GrantAttempted(a, b, items, excl, b', r.value, req);
    } else if Usable(b.devs[d], req) {
      ExtUndo(a, b, items, excl, d, req);
    }
  }

  lemma {:induction false} ScanAttempts(a: SysState, b: SysState, items: set<Res>, excl: set<nat>, d: nat,
      affinity: bool, req: Request)
    requires Inv(a) && Inv(b) && Ext(a, b, items, excl) && d <= |b.devs| && Asks(req, excl)
    ensures Attempted(a, b, items, excl, req, ScanDevs(b, d, affinity, req).0, ScanDevs(b, d, affinity, req).1)
    decreases |b.devs| - d
  {
    hide Ext, Inv, Visit, Serves;
    var k := NextOpen(b.devs, d, req.clientId);
    if k < |b.devs| {
      VisitAttempts(a, b, items, excl, k, affinity, req);
      var (b1, r1) := Visit(b, k, affinity, req);
      if r1.None? { ScanAttempts(a, b1, items, excl, k + 1, affinity, req); }
    }
  }

  lemma AllocCuAttempts(a: SysState, b: SysState, items: set<Res>, excl: set<nat>, req: Request)
    requires Inv(a) && Inv(b) && Ext(a, b, items, excl) && Asks(req, excl)
    ensures var (b', r) := AllocCu(b, req, false);
            Attempted(a, b, items, excl, req, b', if r.Ok? then Some(r.value) else None)
  {
    hide Ext, Inv, ScanDevs, Serves;
    if HasName(req.names) {
      ScanAttempts(a, b, items, excl, 0, true, req);
      var (b1, r1) := ScanDevs(b, 0, true, req);
      if r1.None? { ScanAttempts(a, b1, items, excl, 0, false, req); }
    }
  }
}
