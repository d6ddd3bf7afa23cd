/** Where a version 2 list goes, and when it is refused: stated on the tables, without the loop.
    Items are taken in order; each that is not placed yet is served as it would be alone, on any
    device or on the one it names, and an item with a virtual index together with all others of
    that index, on the lowest device that takes them all and that no other index uses. */
module ListV2Choice {
  import opened Tables
  import opened DeviceModel
  import opened SystemModel
  import opened ChoiceModel
  import opened Rollback
  import opened ListModel
  import opened ListChoice
  import opened ListV2Model
  import opened ProbeModel

  // ---------------------------------------------------------------------------------
  // What an item asks for
  // ---------------------------------------------------------------------------------

  /** The device information is read as bits: 32 of index, 8 of kind; those above do not count. */
  lemma ConstraintBits(q: RequestV2, high: nat, kind: nat, index: nat)
    requires q.deviceInfo == high * 0x100_0000_0000 + kind * 0x1_0000_0000 + index
    requires kind < 0x100 && index < 0x1_0000_0000
    ensures ConstraintOf(q) == match kind
                               case 0 => AnyDev
                               case 1 => Hardware(index)
                               case 2 => Virtual(index)
                               case _ => BadConstraint
  {
    var upper := high * 0x100 + kind;
    assert q.deviceInfo == upper * 0x1_0000_0000 + index;
    assert q.deviceInfo / 0x1_0000_0000 == upper && upper % 0x100 == kind;
  }

  /** An item asks for what its own request says, but for the unit name. */
  lemma ItemKeepsRequest(q: RequestV2, cu: CuState)
    ensures ToV1(q).load == q.req.load && ToV1(q).clientId == q.req.clientId && ToV1(q).poolId == q.req.poolId
    ensures ToV1(q).devExcl == q.req.devExcl
    ensures Matches(cu, ToV1(q)) <==>
              && (q.req.names.kernel == "" || cu.names.kernel == q.req.names.kernel)
              && (q.req.names.alias == "" || cu.names.alias == q.req.names.alias)
    ensures HasName(ToV1(q).names) <==> q.req.names.kernel != "" || q.req.names.alias != ""
  {
  }

  // ---------------------------------------------------------------------------------
  // One item
  // ---------------------------------------------------------------------------------

  /** The first item that is not placed. */
  function NextItem(results: Results): (i: nat)
    ensures i <= |results| && forall j :: 0 <= j < i ==> results[j].Some?
    ensures i < |results| ==> results[i].None?
  {
    if results == [] || results[0].None? then 0
    else
      var i := NextItem(results[1..]);
      assert forall j :: 1 <= j < i + 1 ==> results[j] == results[1..][j - 1];
      i + 1
  }

  /** g lists the unplaced items of virtual index v, in order. */
  ghost predicate Members(reqs: seq<RequestV2>, results: Results, v: nat, g: seq<nat>) {
    && |results| == |reqs| && Ascending(g)
    && forall j: nat {:trigger j in g} ::
         j in g <==> j < |reqs| && results[j].None? && ConstraintOf(reqs[j]) == Virtual(v)
  }

  /** Item i is the next, and is placed: from p, what is placed becomes p'. */
  ghost predicate ItemLands(reqs: seq<RequestV2>, p: Progress, i: nat, p': Progress)
    requires Inv(p.s) && |p.results| == |reqs| && i < |reqs|
  {
    match ConstraintOf(reqs[i])
    case AnyDev => OneLands(p, i, p') && Lands(p.s, ToV1(reqs[i]), p'.s, Ok(p'.results[i].value))
    case Hardware(d) => OneLands(p, i, p') && NamedLands(p.s, d, ToV1(reqs[i]), p'.s, Ok(p'.results[i].value))
    case Virtual(v) => exists g, rs :: Members(reqs, p.results, v, g) && GroupLands(reqs, p, g, rs, p')
    case BadConstraint => false
  }

  /** Item i alone is placed anew. */
  predicate OneLands(p: Progress, i: nat, p': Progress) {
    && i < |p.results| == |p'.results| && p'.results[i].Some?
    && p' == Progress(p'.s, p.results[i := p'.results[i]], p.num + 1, p.used)
  }

  /** The items g are placed anew as rs, together on the lowest device that takes them all. */
  ghost predicate GroupLands(reqs: seq<RequestV2>, p: Progress, g: seq<nat>, rs: seq<Res>, p': Progress) {
    && g != [] && (forall k :: 0 <= k < |g| ==> g[k] < |reqs|)
    && SameFits(p.s, AllToV1(reqs, g), p.used, p'.s, rs)
    && rs != [] && Filed(p.results, g, rs, p'.results)
    && p'.num == p.num + |g| && p'.used == AddUsed(p.used, rs[0].devId)
  }

  /** Nothing serves item i, or its group: e says why. */
  ghost predicate ItemRefused(reqs: seq<RequestV2>, p: Progress, i: nat, e: Status)
    requires Inv(p.s) && |p.results| == |reqs| && i < |reqs|
  {
    match ConstraintOf(reqs[i])
    case AnyDev =>
      Unserved(p.s, ToV1(reqs[i])) && e == if HasName(ToV1(reqs[i]).names) then NO_KERNEL else INVALID
    case Hardware(d) =>
      if d < |p.s.devs| && HasName(ToV1(reqs[i]).names)
      then Refuses(p.s.devs[d], ToV1(reqs[i])) && e == if Usable(p.s.devs[d], ToV1(reqs[i])) then NO_KERNEL else NO_DEV
      else e == INVALID
    case Virtual(v) => e == NO_KERNEL && exists g :: Members(reqs, p.results, v, g) && GroupRefused(reqs, p, g)
    case BadConstraint => e == INVALID
  }

  ghost predicate GroupRefused(reqs: seq<RequestV2>, p: Progress, g: seq<nat>) {
    && g != [] && (forall k :: 0 <= k < |g| ==> g[k] < |reqs|)
    && NoneTakesAll(p.s, AllToV1(reqs, g), p.used)
  }

  // ---------------------------------------------------------------------------------
  // A step of the loop places the next item or group
  // ---------------------------------------------------------------------------------

  lemma NextGroup(reqs: seq<RequestV2>, results: Results, i: nat, v: nat)
    requires |results| == |reqs| && i < |reqs| && i == NextItem(results) && ConstraintOf(reqs[i]) == Virtual(v)
    ensures Members(reqs, results, v, Group(reqs, results, i, v)) && i in Group(reqs, results, i, v)
  {
  }

  lemma LastIsIn(g: seq<nat>)
    ensures g != [] ==> g[|g| - 1] in g
  {
  }

  lemma {:induction false} AscendingUnique(g: seq<nat>, h: seq<nat>)
    requires Ascending(g) && Ascending(h) && forall j: nat :: j in g <==> j in h
    ensures g == h
    decreases |g|
  {
    if g == [] {
      LastIsIn(h);
    } else {
      var x := g[|g| - 1];
      assert x in g && x in h && h[|h| - 1] in h && h[|h| - 1] in g;
      assert x == h[|h| - 1];
      var g', h' := g[..|g| - 1], h[..|h| - 1];
      forall j: nat {:trigger j in g'} ensures j in g' <==> j in h' {
        assert j in g' <==> j in g && j != x;
        assert j in h' <==> j in h && j != x;
      }
      AscendingUnique(g', h');
    }
  }

  lemma FiledUnique(results: Results, g: seq<nat>, rs: seq<Res>, results1: Results, results2: Results)
    requires Filed(results, g, rs, results1) && Filed(results, g, rs, results2)
    ensures results1 == results2
  {
    forall j: nat | j < |results| ensures results1[j] == results2[j] {
      if j in g {
        var k :| 0 <= k < |g| && g[k] == j;
        assert results1[g[k]] == results2[g[k]];
      }
    }
  }

  lemma StepLands(reqs: seq<RequestV2>, p: Progress, i: nat, p': Progress, e: Status)
    requires Inv(p.s) && HaveClientsV2(reqs) && |p.results| == |reqs| && i == NextItem(p.results) < |reqs|
    ensures StepV2(p, reqs, i) == (p', SUCCESS) <==> ItemLands(reqs, p, i, p')
    ensures e != SUCCESS ==> (StepV2(p, reqs, i).1 == e <==> ItemRefused(reqs, p, i, e))
    ensures !ItemRefused(reqs, p, i, SUCCESS)
  {
    match ConstraintOf(reqs[i])
    case AnyDev => StepLandsAny(reqs, p, i, p', e);
    case Hardware(d) => StepLandsNamed(reqs, p, i, d, p', e);
    case Virtual(v) => StepLandsGroup(reqs, p, i, v, p', e);
    case BadConstraint =>
  }

  lemma StepLandsAny(reqs: seq<RequestV2>, p: Progress, i: nat, p': Progress, e: Status)
    requires Inv(p.s) && HaveClientsV2(reqs) && |p.results| == |reqs| && i == NextItem(p.results) < |reqs|
    requires ConstraintOf(reqs[i]) == AnyDev
    ensures StepV2(p, reqs, i) == (p', SUCCESS) <==> ItemLands(reqs, p, i, p')
    ensures e != SUCCESS ==> (StepV2(p, reqs, i).1 == e <==> ItemRefused(reqs, p, i, e))
  {
    hide Inv, AllocCu, Served, ServedRes, Swept, Server, CanServe;
    var req := ToV1(reqs[i]);
    var (s1, r) := AllocCu(p.s, req, false);
    AllocCuLands(p.s, req, s1, r);
    if r.Ok? { ServedIsNotStuck(p.s, req, s1, r.value); }
    if |p'.results| == |reqs| && p'.results[i].Some? { AllocCuLands(p.s, req, p'.s, Ok(p'.results[i].value)); }
  }

  lemma StepLandsNamed(reqs: seq<RequestV2>, p: Progress, i: nat, d: nat, p': Progress, e: Status)
    requires Inv(p.s) && HaveClientsV2(reqs) && |p.results| == |reqs| && i == NextItem(p.results) < |reqs|
    requires ConstraintOf(reqs[i]) == Hardware(d)
    ensures StepV2(p, reqs, i) == (p', SUCCESS) <==> ItemLands(reqs, p, i, p')
    ensures e != SUCCESS ==> (StepV2(p, reqs, i).1 == e <==> ItemRefused(reqs, p, i, e))
  {
    hide Inv, AllocCuFromDev, Served, ServedRes, Usable, CanServe;
    var req := ToV1(reqs[i]);
    var (s1, r) := AllocCuFromDev(p.s, d, req, false);
    AllocCuFromDevLands(p.s, d, req, s1, r);
    if d < |p.s.devs| { LandsOrRefuses(p.s.devs[d], req); }
    if |p'.results| == |reqs| && p'.results[i].Some? {
      AllocCuFromDevLands(p.s, d, req, p'.s, Ok(p'.results[i].value));
    }
  }

  lemma LandsOrRefuses(dev: DevState, req: Request)
    ensures forall c: nat :: UnitFor(dev, c, req) ==> !Refuses(dev, req)
  {
  }

  lemma StepLandsGroup(reqs: seq<RequestV2>, p: Progress, i: nat, v: nat, p': Progress, e: Status)
    requires Inv(p.s) && HaveClientsV2(reqs) && |p.results| == |reqs| && i == NextItem(p.results) < |reqs|
    requires ConstraintOf(reqs[i]) == Virtual(v)
    ensures StepV2(p, reqs, i) == (p', SUCCESS) <==> ItemLands(reqs, p, i, p')
    ensures e != SUCCESS ==> (StepV2(p, reqs, i).1 == e <==> ItemRefused(reqs, p, i, e))
  {
    hide Inv, SameDevice, SameFits, SameStuck, NoneTakesAll, Scatter, Filed;
    var g := Group(reqs, p.results, i, v);
    NextGroup(reqs, p.results, i, v);
    var rq := AllToV1(reqs, g);
    var (s1, r) := SameDevice(p.s, 0, rq, p.used);
    SameDeviceIff(p.s, rq, p.used, s1, r);
    StuckIffNoneTakes(p.s, rq, p.used, s1, r);
    forall h | Members(reqs, p.results, v, h) ensures h == g { AscendingUnique(g, h); }
    if r.Ok? {
      GroupFiled(reqs, p.results, i, v, r.value);
      var p1 := PlaceGroup(p, g, s1, r.value);
      assert GroupLands(reqs, p, g, r.value, p1);
      forall h, rs | Members(reqs, p.results, v, h) && GroupLands(reqs, p, h, rs, p') ensures p' == p1 {
        SameDeviceIff(p.s, rq, p.used, p'.s, Ok(rs));
        FiledUnique(p.results, g, rs, p'.results, p1.results);
      }
      forall h | Members(reqs, p.results, v, h) ensures !GroupRefused(reqs, p, h) { }
    } else {
      assert GroupRefused(reqs, p, g);
      forall h, rs | Members(reqs, p.results, v, h) ensures !GroupLands(reqs, p, h, rs, p') {
        if GroupLands(reqs, p, h, rs, p') { SameDeviceIff(p.s, rq, p.used, p'.s, Ok(rs)); }
      }
    }
  }

  // ---------------------------------------------------------------------------------
  // The list
  // ---------------------------------------------------------------------------------

  ghost predicate V2Step(reqs: seq<RequestV2>, p: Progress, p': Progress) {
    && Inv(p.s) && |p.results| == |reqs| && NextItem(p.results) < |reqs|
    && ItemLands(reqs, p, NextItem(p.results), p')
  }

  /** What is placed grows along ps, from nothing, by one item or group each time. */
  ghost predicate V2Run(s: SysState, reqs: seq<RequestV2>, ps: seq<Progress>) {
    && ps != [] && ps[0] == Progress(s, NoResults(|reqs|), 0, [])
    && (forall k {:trigger ps[k]} :: 0 <= k < |ps| ==> Inv(ps[k].s) && |ps[k].results| == |reqs|)
    && forall k {:trigger ps[k]} :: 0 <= k < |ps| - 1 ==> V2Step(reqs, ps[k], ps[k + 1])
  }

  /** It ends with everything placed. */
  ghost predicate V2Fits(s: SysState, reqs: seq<RequestV2>, p: Progress) {
    exists ps :: V2Run(s, reqs, ps) && ps[|ps| - 1] == p && NextItem(p.results) == |reqs|
  }

  /** It ends at an item or group that nothing serves. */
  ghost predicate V2Refused(s: SysState, reqs: seq<RequestV2>, e: Status) {
    exists ps :: V2Run(s, reqs, ps) && V2Stops(reqs, ps[|ps| - 1], e)
  }

  ghost predicate V2Stops(reqs: seq<RequestV2>, p: Progress, e: Status) {
    && Inv(p.s) && |p.results| == |reqs| && NextItem(p.results) < |reqs|
    && ItemRefused(reqs, p, NextItem(p.results), e)
  }

  lemma {:induction false} RunSkips(p: Progress, reqs: seq<RequestV2>, i: nat)
    requires |p.results| == |reqs| && i <= NextItem(p.results)
    ensures RunV2(p, reqs, i) == RunV2(p, reqs, NextItem(p.results))
    decreases |reqs| - i
  {
    hide StepV2, NextItem;
    if i < NextItem(p.results) { RunSkips(p, reqs, i + 1); }
  }

  /** One step of the loop, as the run describes it. */
  lemma RunStep(reqs: seq<RequestV2>, p: Progress, p': Progress, i: nat)
    requires HaveClientsV2(reqs) && V2Step(reqs, p, p') && |p'.results| == |reqs| && i <= NextItem(p.results)
    ensures NextItem(p.results) + 1 <= NextItem(p'.results)
    ensures RunV2(p, reqs, i) == RunV2(p', reqs, NextItem(p.results) + 1)
  {
    hide Inv, StepV2, ItemLands, NextItem;
    var n := NextItem(p.results);
    RunSkips(p, reqs, i);
    StepLands(reqs, p, n, p', ERROR);
    PlacedOn(reqs, p, n, p');
  }

  /** The end of the loop, where all is placed or nothing serves the next item. */
  lemma RunStops(reqs: seq<RequestV2>, p: Progress, i: nat, e: Status)
    requires HaveClientsV2(reqs) && |p.results| == |reqs| && i <= NextItem(p.results)
    requires NextItem(p.results) == |reqs| || V2Stops(reqs, p, e)
    ensures NextItem(p.results) == |reqs| ==> RunV2(p, reqs, i) == (p, SUCCESS)
    ensures NextItem(p.results) < |reqs| ==> RunV2(p, reqs, i).1 == e != SUCCESS
  {
    hide Inv, StepV2, ItemRefused, NextItem;
    RunSkips(p, reqs, i);
    if NextItem(p.results) < |reqs| { StepLands(reqs, p, NextItem(p.results), p, e); }
  }

  /** From any stage of a complete run, or of one that stops, the loop comes to its end. */
  lemma {:induction false} RunV2Ends(s: SysState, reqs: seq<RequestV2>, ps: seq<Progress>, k: nat, i: nat, e: Status)
    requires HaveClientsV2(reqs) && V2Run(s, reqs, ps) && k < |ps| && i <= NextItem(ps[k].results)
    requires NextItem(ps[|ps| - 1].results) == |reqs| || V2Stops(reqs, ps[|ps| - 1], e)
    ensures NextItem(ps[|ps| - 1].results) == |reqs| ==> RunV2(ps[k], reqs, i) == (ps[|ps| - 1], SUCCESS)
    ensures NextItem(ps[|ps| - 1].results) < |reqs| ==> RunV2(ps[k], reqs, i).1 == e != SUCCESS
    decreases |ps| - k
  {
    hide Inv, RunV2, V2Step, V2Stops, NextItem, HaveClientsV2;
    if k < |ps| - 1 {
      assert V2Step(reqs, ps[k], ps[k + 1]);
      RunStep(reqs, ps[k], ps[k + 1], i);
      RunV2Ends(s, reqs, ps, k + 1, NextItem(ps[k].results) + 1, e);
    } else {
      RunStops(reqs, ps[k], i, e);
    }
  }

  lemma PlacedOn(reqs: seq<RequestV2>, p: Progress, i: nat, p': Progress)
    requires Inv(p.s) && HaveClientsV2(reqs) && |p.results| == |reqs| == |p'.results|
    requires i == NextItem(p.results) < |reqs| && ItemLands(reqs, p, i, p')
    ensures i + 1 <= NextItem(p'.results)
  {
    hide Inv, Lands, NamedLands, SameFits;
    forall j: nat | j <= i ensures p'.results[j].Some? {
      match ConstraintOf(reqs[i])
      case AnyDev =>
      case Hardware(_) =>
      case Virtual(v) =>
        var g, rs :| Members(reqs, p.results, v, g) && GroupLands(reqs, p, g, rs, p');
        assert i in g;
        if j == i {
          var k :| 0 <= k < |g| && g[k] == i;
          assert p'.results[g[k]] == Some(rs[k]);
        } else {
          assert j !in g;
        }
    }
  }

  lemma {:induction false} RunV2Trace(s: SysState, reqs: seq<RequestV2>, ps: seq<Progress>, i: nat)
      returns (ps': seq<Progress>)
    requires HaveClientsV2(reqs) && V2Run(s, reqs, ps) && i <= NextItem(ps[|ps| - 1].results)
    ensures V2Run(s, reqs, ps')
    ensures var p := ps'[|ps'| - 1];
            if RunV2(ps[|ps| - 1], reqs, i).1 == SUCCESS then NextItem(p.results) == |reqs|
            else V2Stops(reqs, p, RunV2(ps[|ps| - 1], reqs, i).1)
    decreases |reqs| - i
  {
    hide Inv, StepV2, ItemLands, ItemRefused;
    var p := ps[|ps| - 1];
    ps' := ps;
    RunSkips(p, reqs, i);
    var n := NextItem(p.results);
    if n < |reqs| {
      var (p1, status) := StepV2(p, reqs, n);
      StepLands(reqs, p, n, p1, status);
      if status == SUCCESS {
        StepKeepsInv(reqs, p, n);
        PlacedOn(reqs, p, n, p1);
        OneMoreStep(s, reqs, ps, p1);
        ps' := RunV2Trace(s, reqs, ps + [p1], n + 1);
      }
    }
  }

  lemma OneMoreStep(s: SysState, reqs: seq<RequestV2>, ps: seq<Progress>, p1: Progress)
    requires V2Run(s, reqs, ps) && V2Step(reqs, ps[|ps| - 1], p1) && Inv(p1.s) && |p1.results| == |reqs|
    ensures V2Run(s, reqs, ps + [p1])
  {
    hide Inv, V2Step;
    var ps' := ps + [p1];
    forall k | 0 <= k < |ps'| - 1 ensures V2Step(reqs, ps'[k], ps'[k + 1]) {
      if k < |ps| - 1 { assert V2Step(reqs, ps[k], ps[k + 1]); }
    }
  }

  lemma StepKeepsInv(reqs: seq<RequestV2>, p: Progress, i: nat)
    requires Inv(p.s) && HaveClientsV2(reqs) && |p.results| == |reqs| && i == NextItem(p.results) < |reqs|
    ensures Inv(StepV2(p, reqs, i).0.s)
  {
    match ConstraintOf(reqs[i])
    case AnyDev => AllocCuKeepsInv(p.s, ToV1(reqs[i]), false);
    case Hardware(d) => AllocCuFromDevKeepsInv(p.s, d, ToV1(reqs[i]), false);
    case Virtual(v) =>
      NextGroup(reqs, p.results, i, v);
      SameDeviceKeepsInv(p.s, AllToV1(reqs, Group(reqs, p.results, i, v)), p.used);
    case BadConstraint =>
  }

  lemma SameDeviceKeepsInv(s: SysState, reqs: seq<Request>, used: seq<nat>)
    requires Inv(s) && HaveClients(reqs) && reqs != []
    ensures Inv(SameDevice(s, 0, reqs, used).0)
  {
    NothingDone(s, Askers(reqs));
    SameDeviceAllOrNothing(s, s, 0, reqs, used, Askers(reqs));
  }

  /** When a version 2 list is allocated and as what, and when it is refused and why. */
  lemma AllocCuListV2Lands(s: SysState, reqs: seq<RequestV2>, t: SysState, results: Results, num: nat, e: Status)
    requires Inv(s) && HaveClientsV2(reqs)
    ensures AllocCuListV2(s, reqs) == (t, Ok((results, num))) <==>
              && 0 < |reqs| <= MAX_LIST_V2
              && exists p :: V2Fits(s, reqs, p) && t == Advance(p.s, true) && results == p.results && num == p.num
    ensures AllocCuListV2(s, reqs).1 == Err(e) <==>
              if 0 < |reqs| <= MAX_LIST_V2 then V2Refused(s, reqs, e) else e == INVALID
  {
    hide Inv, RunV2, V2Run, ReleaseEach, Allocated;
    var p0 := Progress(s, NoResults(|reqs|), 0, []);
    var (p, status) := RunV2(p0, reqs, 0);
    RunV2Lands(s, reqs, p, status);
    forall p1 | V2Fits(s, reqs, p1) ensures (p, status) == (p1, SUCCESS) { RunV2Lands(s, reqs, p1, SUCCESS); }
    if V2Refused(s, reqs, e) { RunV2Lands(s, reqs, p, e); }
  }

  lemma RunV2Lands(s: SysState, reqs: seq<RequestV2>, p: Progress, e: Status)
    requires Inv(s) && HaveClientsV2(reqs)
    ensures var (p1, status) := RunV2(Progress(s, NoResults(|reqs|), 0, []), reqs, 0);
            && (status == SUCCESS ==> V2Fits(s, reqs, p1))
            && (status != SUCCESS ==> V2Refused(s, reqs, status))
            && (V2Fits(s, reqs, p) ==> (p1, status) == (p, SUCCESS))
            && (V2Refused(s, reqs, e) ==> status == e != SUCCESS)
  {
    hide Inv, RunV2, V2Stops, V2Step, HaveClientsV2;
    var p0 := Progress(s, NoResults(|reqs|), 0, []);
    assert V2Run(s, reqs, [p0]);
    var ps0 := RunV2Trace(s, reqs, [p0], 0);
    var status := RunV2(p0, reqs, 0).1;
    RunV2Ends(s, reqs, ps0, 0, 0, status);
    if V2Fits(s, reqs, p) {
      var ps :| V2Run(s, reqs, ps) && ps[|ps| - 1] == p && NextItem(p.results) == |reqs|;
      RunV2Ends(s, reqs, ps, 0, 0, ERROR);
    }
    if V2Refused(s, reqs, e) {
      var ps :| V2Run(s, reqs, ps) && V2Stops(reqs, ps[|ps| - 1], e);
      StopsEarly(reqs, ps[|ps| - 1], e);
      RunV2Ends(s, reqs, ps, 0, 0, e);
    }
  }

  lemma StopsEarly(reqs: seq<RequestV2>, p: Progress, e: Status)
    requires V2Stops(reqs, p, e)
    ensures NextItem(p.results) < |reqs|
  {
  }

  /** One item that goes anywhere is served exactly when some unit has room for it. */
  lemma OneItemAnywhere(s: SysState, q: RequestV2)
    requires Inv(s) && q.req.clientId != 0 && ConstraintOf(q) == AnyDev
    ensures AllocCuListV2(s, [q]).1.Ok? <==> HasName(ToV1(q).names) && Available(s, ToV1(q)) > 0
  {
    hide Inv, AllocCu, Available;
    var p := Progress(s, NoResults(1), 0, []);
    if HasName(ToV1(q).names) { AllocUsesOne(s, ToV1(q)); }
    AllocNamed(s, ToV1(q));
    assert RunV2(p, [q], 0) == (var (p1, status) := StepV2(p, [q], 0);
                                if status == SUCCESS then RunV2(p1, [q], 1) else (p1, status));
  }

  lemma AllocNamed(s: SysState, req: Request)
    ensures var r := AllocCu(s, req, false).1;
            (r.Ok? ==> HasName(req.names)) && (r.Err? ==> r.error != SUCCESS)
  {
  }
}
