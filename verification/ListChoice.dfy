/** Where a list goes, and when it is refused: stated on the tables, without the searches. Over all
    devices the requests are served one after another, each as it would be alone; on one device
    they go to the lowest open device whose tables take them all, one after another. */
module ListChoice {
  import opened Tables
  import opened DeviceModel
  import opened SystemModel
  import opened Placement
  import opened ChoiceModel
  import opened Rollback
  import opened ListModel
  import opened ProbeModel

  // ---------------------------------------------------------------------------------
  // Over all devices
  // ---------------------------------------------------------------------------------

  /** The databases ss follow one another as the first |rs| requests are served by rs. */
  ghost predicate AnyRun(reqs: seq<Request>, ss: seq<SysState>, rs: seq<Res>) {
    && |rs| <= |reqs| && |ss| == |rs| + 1
    && (forall i {:trigger ss[i]} :: 0 <= i < |ss| ==> Inv(ss[i]))
    && forall i {:trigger rs[i]} :: 0 <= i < |rs| ==> Lands(ss[i], reqs[i], ss[i + 1], Ok(rs[i]))
  }

  /** Nothing can serve the request. */
  ghost predicate Unserved(s: SysState, req: Request) {
    !HasName(req.names) || NoServer(s, req)
  }

  /** All requests are served, and the database is s' then. */
  ghost predicate AnyFits(s: SysState, reqs: seq<Request>, s': SysState, rs: seq<Res>) {
    exists ss :: AnyRun(reqs, ss, rs) && |rs| == |reqs| && ss[0] == s && ss[|rs|] == s'
  }

  /** Some request cannot be served after those before it. */
  ghost predicate AnyStuck(s: SysState, reqs: seq<Request>) {
    exists ss, rs :: AnyRun(reqs, ss, rs) && |rs| < |reqs| && ss[0] == s && Unserved(ss[|rs|], reqs[|rs|])
  }

  lemma {:induction false} AnyDeviceRuns(s: SysState, reqs: seq<Request>, ss: seq<SysState>, acc: seq<Res>)
      returns (ss': seq<SysState>, rs: seq<Res>)
    requires HaveClients(reqs) && AnyRun(reqs, ss, acc) && ss[|acc|] == s
    ensures AnyRun(reqs, ss', rs) && ss'[0] == ss[0]
    ensures match AnyDevice(s, reqs, acc).1
            case Ok(rs') => rs' == rs && |rs| == |reqs| && AnyDevice(s, reqs, acc).0 == ss'[|rs|]
            case Err(e) => e == NO_KERNEL && |rs| < |reqs| && Unserved(ss'[|rs|], reqs[|rs|])
    decreases |reqs| - |acc|
  {
    hide AllocCu, Inv;
    ss', rs := ss, acc;
    if |acc| < |reqs| {
      var (s1, r) := AllocCu(s, reqs[|acc|], false);
      AllocCuLands(s, reqs[|acc|], s1, r);
      if r.Ok? {
        AllocCuKeepsInv(s, reqs[|acc|], false);
        AnyRunMore(reqs, ss, acc, s1, r.value);
        ss', rs := AnyDeviceRuns(s1, reqs, ss + [s1], acc + [r.value]);
      }
    }
  }

  lemma AnyRunMore(reqs: seq<Request>, ss: seq<SysState>, acc: seq<Res>, s1: SysState, r: Res)
    requires AnyRun(reqs, ss, acc) && |acc| < |reqs| && Inv(s1) && Lands(ss[|acc|], reqs[|acc|], s1, Ok(r))
    ensures AnyRun(reqs, ss + [s1], acc + [r])
  {
    hide Lands, Inv;
    var ss', rs := ss + [s1], acc + [r];
    forall i | 0 <= i < |rs| ensures Lands(ss'[i], reqs[i], ss'[i + 1], Ok(rs[i])) {
      if i < |acc| { assert rs[i] == acc[i]; }
    }
  }

  /** Two runs from one database agree as far as both go. */
  lemma {:induction false} AnyRunUnique(reqs: seq<Request>, ss: seq<SysState>, rs: seq<Res>,
                                        ss': seq<SysState>, rs': seq<Res>, n: nat)
    requires AnyRun(reqs, ss, rs) && AnyRun(reqs, ss', rs') && ss[0] == ss'[0] && n <= |rs| && n <= |rs'|
    ensures ss[..n + 1] == ss'[..n + 1] && rs[..n] == rs'[..n]
    decreases n
  {
    hide Lands, Inv;
    if n > 0 {
      AnyRunUnique(reqs, ss, rs, ss', rs', n - 1);
      assert ss[n - 1] == ss[..n][n - 1] == ss'[..n][n - 1] == ss'[n - 1];
      LandsUnique(ss[n - 1], reqs[n - 1], ss[n], Ok(rs[n - 1]), ss'[n], Ok(rs'[n - 1]));
    }
  }

  /** A request that is served at a database is not stuck there. */
  lemma ServedIsNotStuck(s: SysState, req: Request, s': SysState, r: Res)
    requires Inv(s) && Lands(s, req, s', Ok(r))
    ensures !Unserved(s, req)
  {
    assert Server(s, r.devId, r.cuId, req);
  }

  lemma AnyRunEnds(reqs: seq<Request>, ss: seq<SysState>, rs: seq<Res>, ss': seq<SysState>, rs': seq<Res>)
    requires AnyRun(reqs, ss, rs) && AnyRun(reqs, ss', rs') && ss[0] == ss'[0]
    requires |rs| == |reqs| || Unserved(ss[|rs|], reqs[|rs|])
    requires |rs'| == |reqs| || Unserved(ss'[|rs'|], reqs[|rs'|])
    ensures ss == ss' && rs == rs'
  {
    hide Lands, Inv, Unserved;
    var n := if |rs| < |rs'| then |rs| else |rs'|;
    AnyRunUnique(reqs, ss, rs, ss', rs', n);
    assert ss[n] == ss[..n + 1][n] == ss'[..n + 1][n] == ss'[n];
    if n < |rs'| { ServedIsNotStuck(ss'[n], reqs[n], ss'[n + 1], rs'[n]); }
    if n < |rs| { ServedIsNotStuck(ss[n], reqs[n], ss[n + 1], rs[n]); }
    assert ss[..n + 1] == ss && ss'[..n + 1] == ss';
    assert rs[..n] == rs && rs'[..n] == rs';
  }

  lemma AnyDeviceIff(s: SysState, reqs: seq<Request>, s': SysState, rs: seq<Res>)
    requires Inv(s) && HaveClients(reqs)
    ensures AnyDevice(s, reqs, []) == (s', Ok(rs)) <==> AnyFits(s, reqs, s', rs)
    ensures AnyDevice(s, reqs, []).1 == Err(NO_KERNEL) <==> AnyStuck(s, reqs)
    ensures AnyDevice(s, reqs, []).1.Ok? <==> !AnyStuck(s, reqs)
  {
    hide Lands, Inv, AnyDevice, Unserved;
    assert AnyRun(reqs, [s], []);
    var ss1, rs1 := AnyDeviceRuns(s, reqs, [s], []);
    if AnyFits(s, reqs, s', rs) {
      var ss :| AnyRun(reqs, ss, rs) && |rs| == |reqs| && ss[0] == s && ss[|rs|] == s';
      AnyRunEnds(reqs, ss, rs, ss1, rs1);
    }
    if AnyStuck(s, reqs) {
      var ss, rs2 :| AnyRun(reqs, ss, rs2) && |rs2| < |reqs| && ss[0] == s && Unserved(ss[|rs2|], reqs[|rs2|]);
      AnyRunEnds(reqs, ss, rs2, ss1, rs1);
    }
  }

  // ---------------------------------------------------------------------------------
  // On one device
  // ---------------------------------------------------------------------------------

  /** The tables xs of a device follow one another as units cs serve the first |cs| requests. */
  ghost predicate DevRun(reqs: seq<Request>, id: nat, xs: seq<DevState>, cs: seq<nat>) {
    && |cs| <= |reqs| && |xs| == |cs| + 1
    && (forall i {:trigger xs[i]} :: 0 <= i < |xs| ==> DevInv(xs[i]))
    && forall i {:trigger cs[i]} :: 0 <= i < |cs| ==>
         UnitFor(xs[i], cs[i], reqs[i]) && xs[i + 1] == Served(xs[i], cs[i], reqs[i], id)
  }

  /** The resources that such a run on device d hands out. */
  ghost function ResOf(d: nat, reqs: seq<Request>, id: nat, xs: seq<DevState>, cs: seq<nat>): (rs: seq<Res>)
    requires DevRun(reqs, id, xs, cs)
    ensures |rs| == |cs|
    ensures forall i :: 0 <= i < |cs| ==> rs[i] == ServedRes(d, xs[i], cs[i], reqs[i], id)
  {
    seq(|cs|, i requires 0 <= i < |cs| => assert cs[i] == cs[i]; ServedRes(d, xs[i], cs[i], reqs[i], id))
  }

  /** What is left of device x once all that was given on the way to z is released: x, or x as the
      own device of the client that used it alone before, if that asked for exclusive use. */
  function GivenUp(x: DevState, z: DevState): DevState {
    if z.isExcl && !x.isExcl && !NobodyListed(x.procs) then Turned(x, z.procs[0].clientId) else x
  }

  /** The device takes all requests, one after another. */
  ghost predicate TakesAll(x: DevState, reqs: seq<Request>, id: nat, xs: seq<DevState>, cs: seq<nat>) {
    DevRun(reqs, id, xs, cs) && xs[0] == x && |cs| == |reqs|
  }

  /** The device refuses a request after those before it, and is y once they are released. */
  ghost predicate FallsShort(x: DevState, reqs: seq<Request>, id: nat, y: DevState) {
    exists xs, cs ::
      && DevRun(reqs, id, xs, cs) && xs[0] == x && |cs| < |reqs|
      && Refuses(xs[|cs|], reqs[|cs|]) && y == GivenUp(x, LeftBy(xs[|cs|], reqs[|cs|]))
  }

  /** Two runs from one device agree as far as both go. */
  lemma {:induction false} DevRunUnique(reqs: seq<Request>, id: nat, xs: seq<DevState>, cs: seq<nat>,
                                        xs': seq<DevState>, cs': seq<nat>, n: nat)
    requires DevRun(reqs, id, xs, cs) && DevRun(reqs, id, xs', cs') && xs[0] == xs'[0] && n <= |cs| && n <= |cs'|
    ensures xs[..n + 1] == xs'[..n + 1] && cs[..n] == cs'[..n]
    decreases n
  {
    hide DevInv, Served, UnitFor;
    if n > 0 {
      DevRunUnique(reqs, id, xs, cs, xs', cs', n - 1);
      assert xs[n - 1] == xs[..n][n - 1] == xs'[..n][n - 1] == xs'[n - 1];
      assert cs[n - 1] == cs[n - 1] && cs'[n - 1] == cs'[n - 1];
      UnitForUnique(xs[n - 1], cs[n - 1], cs'[n - 1], reqs[n - 1]);
    }
  }

  lemma TakenIsNotRefused(x: DevState, c: nat, req: Request)
    requires UnitFor(x, c, req)
    ensures !Refuses(x, req)
  {
  }

  lemma DevRunEnds(reqs: seq<Request>, id: nat, xs: seq<DevState>, cs: seq<nat>, xs': seq<DevState>, cs': seq<nat>)
    requires DevRun(reqs, id, xs, cs) && DevRun(reqs, id, xs', cs') && xs[0] == xs'[0]
    requires |cs| == |reqs| || Refuses(xs[|cs|], reqs[|cs|])
    requires |cs'| == |reqs| || Refuses(xs'[|cs'|], reqs[|cs'|])
    ensures xs == xs' && cs == cs'
  {
    hide DevInv, Served, UnitFor, Refuses;
    var n := if |cs| < |cs'| then |cs| else |cs'|;
    DevRunUnique(reqs, id, xs, cs, xs', cs', n);
    assert xs[n] == xs[..n + 1][n] == xs'[..n + 1][n] == xs'[n];
    if n < |cs'| { TakenIsNotRefused(xs'[n], cs'[n], reqs[n]); }
    if n < |cs| { TakenIsNotRefused(xs[n], cs[n], reqs[n]); }
    assert xs[..n + 1] == xs && xs'[..n + 1] == xs';
    assert cs[..n] == cs && cs'[..n] == cs';
  }

  lemma TakesOrFallsShort(x: DevState, reqs: seq<Request>, id: nat, xs: seq<DevState>, cs: seq<nat>, y: DevState)
    requires TakesAll(x, reqs, id, xs, cs)
    ensures !FallsShort(x, reqs, id, y)
  {
    hide DevInv, Served, Usable, CanServe, GivenUp, UnitFor, Refuses;
    if FallsShort(x, reqs, id, y) {
      var xs', cs' :|
        && DevRun(reqs, id, xs', cs') && xs'[0] == x && |cs'| < |reqs|
        && Refuses(xs'[|cs'|], reqs[|cs'|]) && y == GivenUp(x, LeftBy(xs'[|cs'|], reqs[|cs'|]));
      DevRunEnds(reqs, id, xs, cs, xs', cs');
    }
  }

  lemma FallsShortUnique(x: DevState, reqs: seq<Request>, id: nat, y: DevState, y': DevState)
    requires FallsShort(x, reqs, id, y) && FallsShort(x, reqs, id, y')
    ensures y == y'
  {
    hide DevInv, Served, Usable, CanServe, GivenUp, UnitFor, Refuses;
    var xs, cs :|
      && DevRun(reqs, id, xs, cs) && xs[0] == x && |cs| < |reqs|
      && Refuses(xs[|cs|], reqs[|cs|]) && y == GivenUp(x, LeftBy(xs[|cs|], reqs[|cs|]));
    var xs', cs' :|
      && DevRun(reqs, id, xs', cs') && xs'[0] == x && |cs'| < |reqs|
      && Refuses(xs'[|cs'|], reqs[|cs'|]) && y' == GivenUp(x, LeftBy(xs'[|cs'|], reqs[|cs'|]));
    DevRunEnds(reqs, id, xs, cs, xs', cs');
  }

  // Releasing what was placed on one device

  lemma {:induction false} ReleaseOnDevice(s: SysState, rs: seq<Res>, k: nat)
    requires OnDevice(rs, k) && k < |s.devs|
    ensures var s' := ReleaseAll(s, rs).0;
            s' == SetDev(s, k, s'.devs[k]) && (!s.devs[k].isExcl ==> !s'.devs[k].isExcl)
    decreases |rs|
  {
    if rs == [] {
      assert s.devs[k := s.devs[k]] == s.devs;
    } else {
      ReleaseOneOnDevice(s, rs[0], k);
      ReleaseOnDevice(ReleaseCu(s, rs[0]).0, rs[1..], k);
    }
  }

  lemma ReleaseOneOnDevice(s: SysState, r: Res, k: nat)
    requires r.devId == k < |s.devs|
    ensures var s' := ReleaseCu(s, r).0;
            s' == SetDev(s, k, s'.devs[k]) && (!s.devs[k].isExcl ==> !s'.devs[k].isExcl)
  {
    assert s.devs[k := s.devs[k]] == s.devs;
  }

  lemma ReleaseGivesUp(a: SysState, s: SysState, k: nat, acc: seq<Res>, excl: set<nat>)
    requires Inv(a) && Inv(s) && Ext(a, s, Items(acc), excl) && NoRepeats(acc) && OnDevice(acc, k)
    requires k < |a.devs| && s == SetDev(a, k, s.devs[k])
    ensures ReleaseAll(s, acc).0 == SetDev(a, k, GivenUp(a.devs[k], s.devs[k]))
  {
    hide Inv, ReleaseAll;
    var s' := ReleaseAll(s, acc).0;
    ReleaseAllRestores(a, s, excl, acc);
    ReleaseOnDevice(s, acc, k);
    var x, z, y := a.devs[k], s.devs[k], s'.devs[k];
    assert Back(x, y, excl);
    assert StaysTurned(x, z, y);
    assert ExtDev(x, z, k, Items(acc), excl);
    GivenUpIs(x, z, y, excl);
    assert a.devs[k := z][k := y] == a.devs[k := y];
  }

  lemma GivenUpIs(x: DevState, z: DevState, y: DevState, excl: set<nat>)
    requires Back(x, y, excl) && StaysTurned(x, z, y) && ExtTable(x, z, excl) && (!z.isExcl ==> !y.isExcl)
    ensures y == GivenUp(x, z)
  {
    if y != x {
      var c := y.procs[0].clientId;
      var k := FindProc(x.procs, c);
      assert x.procs[k].clientId == c;
    }
  }

  lemma StillLoaded(a: SysState, s: SysState, k: nat, reqs: seq<Request>, acc: seq<Res>, excl: set<nat>)
    requires Placed(a, s, reqs, acc, excl) && k < |a.devs| && a.devs[k].isLoaded
    ensures k < |s.devs| && s.devs[k].isLoaded && DevInv(s.devs[k])
  {
    assert ExtDev(a.devs[k], s.devs[k], k, Items(acc), excl);
  }

  lemma AttemptFailed(a: SysState, s: SysState, s1: SysState, items: set<Res>, excl: set<nat>, req: Request)
    requires Attempted(a, s, items, excl, req, s1, None)
    ensures Inv(s1) && Ext(a, s1, items, excl)
  {
  }

  lemma OnOneDevice(k: nat, reqs: seq<Request>, id: nat, xs: seq<DevState>, cs: seq<nat>)
    requires DevRun(reqs, id, xs, cs)
    ensures OnDevice(ResOf(k, reqs, id, xs, cs), k)
  {
    forall i | 0 <= i < |cs| ensures ResOf(k, reqs, id, xs, cs)[i].devId == k { assert cs[i] == cs[i]; }
  }

  lemma DevRunMore(reqs: seq<Request>, id: nat, xs: seq<DevState>, cs: seq<nat>, k: nat, res: Res, y: DevState)
    requires DevRun(reqs, id, xs, cs) && |cs| < |reqs| && DevInv(y)
    requires UnitFor(xs[|cs|], res.cuId, reqs[|cs|]) && y == Served(xs[|cs|], res.cuId, reqs[|cs|], id)
    requires res == ServedRes(k, xs[|cs|], res.cuId, reqs[|cs|], id)
    ensures DevRun(reqs, id, xs + [y], cs + [res.cuId])
    ensures ResOf(k, reqs, id, xs + [y], cs + [res.cuId]) == ResOf(k, reqs, id, xs, cs) + [res]
  {
    hide DevInv, UnitFor, Served, ServedRes;
    var xs', cs' := xs + [y], cs + [res.cuId];
    forall i | 0 <= i < |cs'|
      ensures UnitFor(xs'[i], cs'[i], reqs[i]) && xs'[i + 1] == Served(xs'[i], cs'[i], reqs[i], id)
    {
      if i < |cs| { assert cs'[i] == cs[i]; }
    }
    forall i | 0 <= i < |cs| ensures ResOf(k, reqs, id, xs', cs')[i] == ResOf(k, reqs, id, xs, cs)[i] {
      assert cs'[i] == cs[i];
    }
  }

  lemma ValidDevice(s: SysState, k: nat)
    requires Inv(s) && k < |s.devs|
    ensures DevInv(s.devs[k])
  {
  }

  /** The list on device k from the state after acc: what its tables say. */
  lemma {:induction false} PlaceListRuns(a: SysState, s: SysState, k: nat, reqs: seq<Request>, acc: seq<Res>,
                                         xs: seq<DevState>, cs: seq<nat>, excl: set<nat>)
      returns (xs': seq<DevState>, cs': seq<nat>)
    requires Placed(a, s, reqs, acc, excl) && AllAsk(reqs, excl) && HaveClients(reqs)
    requires k < |a.devs| && a.devs[k].isLoaded
    requires DevRun(reqs, NextId(a.serviceId), xs, cs) && xs[0] == a.devs[k] && |cs| == |acc|
    requires s == SetDev(a, k, xs[|cs|]) && acc == ResOf(k, reqs, NextId(a.serviceId), xs, cs)
    ensures DevRun(reqs, NextId(a.serviceId), xs', cs') && xs'[0] == a.devs[k]
    ensures match PlaceList(s, k, reqs, acc).1
            case Ok(rs) =>
              && |cs'| == |reqs| && rs == ResOf(k, reqs, NextId(a.serviceId), xs', cs')
              && PlaceList(s, k, reqs, acc).0 == SetDev(a, k, xs'[|cs'|])
            case Err(_) =>
              && |cs'| < |reqs| && Refuses(xs'[|cs'|], reqs[|cs'|])
              && PlaceList(s, k, reqs, acc).0
                   == SetDev(a, k, GivenUp(a.devs[k], LeftBy(xs'[|cs'|], reqs[|cs'|])))
    decreases |reqs| - |acc|
  {
    hide TryPlace, Inv, Attempted, Ext, GivenUp, LeftBy, Refuses, UnitFor, Served, ReleaseAll;
    xs', cs' := xs, cs;
    if |acc| < |reqs| {
      var req := reqs[|acc|];
      var (s1, r) := TryPlace(s, k, req);
      StillLoaded(a, s, k, reqs, acc, excl);
      TryPlaceLands(s, k, req);
      TryPlaceAttempts(a, s, Items(acc), excl, k, req);
      assert a.devs[k := xs[|cs|]][k := s1.devs[k]] == a.devs[k := s1.devs[k]];
      if r.Ok? {
        PlacedMore(a, s, reqs, acc, excl, s1, r.value);
        ValidDevice(s1, k);
        DevRunMore(reqs, NextId(a.serviceId), xs, cs, k, r.value, s1.devs[k]);
        xs', cs' := PlaceListRuns(a, s1, k, reqs, acc + [r.value], xs + [s1.devs[k]], cs + [r.value.cuId], excl);
      } else {
        AttemptFailed(a, s, s1, Items(acc), excl, req);
        OnOneDevice(k, reqs, NextId(a.serviceId), xs, cs);
        ReleaseGivesUp(a, s1, k, acc, excl);
      }
    }
  }

  // The search for the device

  /** The search comes by the device: it is open to the first request's client, and not in use. */
  predicate Tried(dev: DevState, e: nat, reqs: seq<Request>, used: seq<nat>)
    requires reqs != []
  {
    Open(dev, reqs[0].clientId) && e !in used
  }

  /** Device e was tried in vain, or not at all. */
  ghost predicate PassedOver(s: SysState, s': SysState, e: nat, reqs: seq<Request>, used: seq<nat>)
    requires reqs != [] && e < |s.devs| == |s'.devs|
  {
    if Tried(s.devs[e], e, reqs, used) then FallsShort(s.devs[e], reqs, NextId(s.serviceId), s'.devs[e])
    else s'.devs[e] == s.devs[e]
  }

  /** Device d takes the whole list, by the run xs, cs; no device before it does. */
  ghost predicate TakenBy(s: SysState, reqs: seq<Request>, used: seq<nat>, s': SysState,
                          d: nat, xs: seq<DevState>, cs: seq<nat>)
    requires reqs != []
  {
    && d < |s.devs| == |s'.devs| && s'.serviceId == s.serviceId && s'.poolId == s.poolId
    && Tried(s.devs[d], d, reqs, used)
    && TakesAll(s.devs[d], reqs, NextId(s.serviceId), xs, cs) && s'.devs[d] == xs[|cs|]
    && (forall e {:trigger PassedOver(s, s', e, reqs, used)} :: 0 <= e < d ==> PassedOver(s, s', e, reqs, used))
    && (forall e {:trigger s'.devs[e]} :: d < e < |s.devs| ==> s'.devs[e] == s.devs[e])
  }

  /** The lowest device that takes all requests takes them. */
  ghost predicate SameFits(s: SysState, reqs: seq<Request>, used: seq<nat>, s': SysState, rs: seq<Res>)
    requires reqs != []
  {
    exists d, xs, cs :: TakenBy(s, reqs, used, s', d, xs, cs) && rs == ResOf(d, reqs, NextId(s.serviceId), xs, cs)
  }

  /** No device takes all requests. */
  ghost predicate SameStuck(s: SysState, reqs: seq<Request>, used: seq<nat>, s': SysState)
    requires reqs != []
  {
    && |s'.devs| == |s.devs| && s'.serviceId == s.serviceId && s'.poolId == s.poolId
    && forall e {:trigger PassedOver(s, s', e, reqs, used)} :: 0 <= e < |s.devs| ==> PassedOver(s, s', e, reqs, used)
  }

  ghost predicate SameLands(s: SysState, reqs: seq<Request>, used: seq<nat>, s': SysState, r: Outcome<seq<Res>>)
    requires reqs != []
  {
    match r
    case Ok(rs) => SameFits(s, reqs, used, s', rs)
    case Err(e) => e == NO_KERNEL && SameStuck(s, reqs, used, s')
  }

  lemma PassedOverUnique(s: SysState, s1: SysState, s2: SysState, e: nat, reqs: seq<Request>, used: seq<nat>)
    requires reqs != [] && e < |s.devs| == |s1.devs| == |s2.devs|
    requires PassedOver(s, s1, e, reqs, used) && PassedOver(s, s2, e, reqs, used)
    ensures s1.devs[e] == s2.devs[e]
  {
    hide FallsShort;
    if Tried(s.devs[e], e, reqs, used) {
      FallsShortUnique(s.devs[e], reqs, NextId(s.serviceId), s1.devs[e], s2.devs[e]);
    }
  }

  lemma TakenIsNotPassed(s: SysState, reqs: seq<Request>, used: seq<nat>, s1: SysState, d: nat, xs: seq<DevState>,
                         cs: seq<nat>, s2: SysState)
    requires reqs != [] && TakenBy(s, reqs, used, s1, d, xs, cs) && |s2.devs| == |s.devs|
    ensures !PassedOver(s, s2, d, reqs, used)
  {
    hide FallsShort, TakesAll;
    TakesOrFallsShort(s.devs[d], reqs, NextId(s.serviceId), xs, cs, s2.devs[d]);
  }

  lemma TakenByUnique(s: SysState, reqs: seq<Request>, used: seq<nat>, s1: SysState, d1: nat, xs1: seq<DevState>,
                      cs1: seq<nat>, s2: SysState, d2: nat, xs2: seq<DevState>, cs2: seq<nat>)
    requires reqs != [] && TakenBy(s, reqs, used, s1, d1, xs1, cs1) && TakenBy(s, reqs, used, s2, d2, xs2, cs2)
    ensures s1 == s2 && d1 == d2 && xs1 == xs2 && cs1 == cs2
  {
    hide FallsShort, PassedOver, DevRun, Tried;
    TakenIsNotPassed(s, reqs, used, s1, d1, xs1, cs1, s2);
    TakenIsNotPassed(s, reqs, used, s2, d2, xs2, cs2, s1);
    DevRunEnds(reqs, NextId(s.serviceId), xs1, cs1, xs2, cs2);
    forall e | 0 <= e < |s.devs| ensures s1.devs[e] == s2.devs[e] {
      if e < d1 { PassedOverUnique(s, s1, s2, e, reqs, used); }
    }
  }

  lemma SameFitsUnique(s: SysState, reqs: seq<Request>, used: seq<nat>, s1: SysState, rs1: seq<Res>,
                       s2: SysState, rs2: seq<Res>)
    requires reqs != [] && SameFits(s, reqs, used, s1, rs1) && SameFits(s, reqs, used, s2, rs2)
    ensures s1 == s2 && rs1 == rs2
  {
    hide PassedOver, DevRun, Tried;
    var d1, xs1, cs1 :| TakenBy(s, reqs, used, s1, d1, xs1, cs1)
                        && rs1 == ResOf(d1, reqs, NextId(s.serviceId), xs1, cs1);
    var d2, xs2, cs2 :| TakenBy(s, reqs, used, s2, d2, xs2, cs2)
                        && rs2 == ResOf(d2, reqs, NextId(s.serviceId), xs2, cs2);
    TakenByUnique(s, reqs, used, s1, d1, xs1, cs1, s2, d2, xs2, cs2);
  }

  lemma FitsIsNotStuck(s: SysState, reqs: seq<Request>, used: seq<nat>, s1: SysState, rs: seq<Res>, s2: SysState)
    requires reqs != [] && SameFits(s, reqs, used, s1, rs)
    ensures !SameStuck(s, reqs, used, s2)
  {
    hide PassedOver, DevRun, Tried;
    var d, xs, cs :| TakenBy(s, reqs, used, s1, d, xs, cs) && rs == ResOf(d, reqs, NextId(s.serviceId), xs, cs);
    if |s2.devs| == |s.devs| { TakenIsNotPassed(s, reqs, used, s1, d, xs, cs, s2); }
  }

  lemma SameLandsUnique(s: SysState, reqs: seq<Request>, used: seq<nat>, s1: SysState, r1: Outcome<seq<Res>>,
                        s2: SysState, r2: Outcome<seq<Res>>)
    requires reqs != [] && SameLands(s, reqs, used, s1, r1) && SameLands(s, reqs, used, s2, r2)
    ensures s1 == s2 && r1 == r2
  {
    hide SameFits, PassedOver;
    match (r1, r2)
    case (Ok(rs1), Ok(rs2)) => SameFitsUnique(s, reqs, used, s1, rs1, s2, rs2);
    case (Ok(rs1), Err(_)) => FitsIsNotStuck(s, reqs, used, s1, rs1, s2);
    case (Err(_), Ok(rs2)) => FitsIsNotStuck(s, reqs, used, s2, rs2, s1);
    case (Err(_), Err(_)) =>
      forall e | 0 <= e < |s.devs| ensures s1.devs[e] == s2.devs[e] { PassedOverUnique(s, s1, s2, e, reqs, used); }
  }

  /** The search has passed over the devices before d: s0 was the database at its start. */
  ghost predicate PassedUpTo(s0: SysState, s: SysState, d: nat, reqs: seq<Request>, used: seq<nat>)
    requires reqs != []
  {
    && |s.devs| == |s0.devs| && s.serviceId == s0.serviceId && s.poolId == s0.poolId
    && (forall e {:trigger PassedOver(s0, s, e, reqs, used)} :: 0 <= e < d && e < |s0.devs| ==>
          PassedOver(s0, s, e, reqs, used))
    && forall e {:trigger s.devs[e]} :: d <= e < |s0.devs| ==> s.devs[e] == s0.devs[e]
  }

  /** Device d, tried in vain or not at all, changes from s.devs[d] to dev. */
  lemma PassedOneMore(s0: SysState, s: SysState, d: nat, reqs: seq<Request>, used: seq<nat>, dev: DevState)
    requires reqs != [] && d < |s0.devs| && PassedUpTo(s0, s, d, reqs, used)
    requires if Tried(s0.devs[d], d, reqs, used) then FallsShort(s0.devs[d], reqs, NextId(s0.serviceId), dev)
             else dev == s.devs[d]
    ensures PassedUpTo(s0, SetDev(s, d, dev), d + 1, reqs, used)
  {
    hide FallsShort, Tried;
    var s' := SetDev(s, d, dev);
    forall e | 0 <= e < d + 1 ensures PassedOver(s0, s', e, reqs, used) {
      if e < d { assert PassedOver(s0, s, e, reqs, used); }
    }
  }

  lemma {:induction false} PassedClosed(s0: SysState, s: SysState, d: nat, k: nat, reqs: seq<Request>, used: seq<nat>)
    requires reqs != [] && d <= k <= |s0.devs| && PassedUpTo(s0, s, d, reqs, used)
    requires forall e :: d <= e < k ==> !Tried(s0.devs[e], e, reqs, used)
    ensures PassedUpTo(s0, s, k, reqs, used)
    decreases k - d
  {
    hide PassedUpTo, Tried;
    if d < k {
      PassedLength(s0, s, d, reqs, used);
      PassedOneMore(s0, s, d, reqs, used, s.devs[d]);
      assert s.devs[d := s.devs[d]] == s.devs;
      PassedClosed(s0, s, d + 1, k, reqs, used);
    }
  }

  lemma PassedLength(s0: SysState, s: SysState, d: nat, reqs: seq<Request>, used: seq<nat>)
    requires reqs != [] && PassedUpTo(s0, s, d, reqs, used)
    ensures |s.devs| == |s0.devs| && s.serviceId == s0.serviceId && (d < |s.devs| ==> s.devs[d] == s0.devs[d])
  {
  }

  lemma UpToNextOpen(s0: SysState, s: SysState, d: nat, reqs: seq<Request>, used: seq<nat>)
    requires reqs != [] && d <= |s.devs| && PassedUpTo(s0, s, d, reqs, used)
    ensures var k := NextOpen(s.devs, d, reqs[0].clientId);
            && PassedUpTo(s0, s, k, reqs, used) && |s.devs| == |s0.devs| && s.serviceId == s0.serviceId
            && (k < |s.devs| ==> s.devs[k] == s0.devs[k] && Open(s.devs[k], reqs[0].clientId))
  {
    var k := NextOpen(s.devs, d, reqs[0].clientId);
    forall e | d <= e < k ensures !Tried(s0.devs[e], e, reqs, used) {
      assert s.devs[e] == s0.devs[e] && !Open(s.devs[e], reqs[0].clientId);
    }
    PassedClosed(s0, s, d, k, reqs, used);
  }

  lemma AllPassed(s0: SysState, s: SysState, reqs: seq<Request>, used: seq<nat>)
    requires reqs != [] && PassedUpTo(s0, s, |s.devs|, reqs, used)
    ensures SameStuck(s0, reqs, used, s)
  {
  }

  lemma FoundDevice(s0: SysState, s: SysState, k: nat, reqs: seq<Request>, used: seq<nat>, xs: seq<DevState>,
                    cs: seq<nat>)
    requires reqs != [] && k < |s.devs| && PassedUpTo(s0, s, k, reqs, used)
    requires Tried(s0.devs[k], k, reqs, used) && TakesAll(s0.devs[k], reqs, NextId(s0.serviceId), xs, cs)
    ensures SameFits(s0, reqs, used, SetDev(s, k, xs[|cs|]), ResOf(k, reqs, NextId(s0.serviceId), xs, cs))
  {
    hide FallsShort, Tried;
    var s' := SetDev(s, k, xs[|cs|]);
    forall e | 0 <= e < k ensures PassedOver(s0, s', e, reqs, used) { assert PassedOver(s0, s, e, reqs, used); }
    assert TakenBy(s0, reqs, used, s', k, xs, cs);
  }

  /** The whole list on one device: all of it, by a run on the device's tables, or nothing. */
  lemma ListOnDevice(s: SysState, k: nat, reqs: seq<Request>, excl: set<nat>) returns (xs: seq<DevState>, cs: seq<nat>)
    requires Inv(s) && AllAsk(reqs, excl) && HaveClients(reqs) && k < |s.devs| && s.devs[k].isLoaded
    ensures var (s1, r) := PlaceList(s, k, reqs, []);
            && s1 == SetDev(s, k, s1.devs[k])
            && match r
               case Ok(rs) =>
                 && TakesAll(s.devs[k], reqs, NextId(s.serviceId), xs, cs) && s1.devs[k] == xs[|cs|]
                 && rs == ResOf(k, reqs, NextId(s.serviceId), xs, cs)
               case Err(_) => FallsShort(s.devs[k], reqs, NextId(s.serviceId), s1.devs[k])
  {
    hide AllAsk, UnitFor, Refuses, GivenUp, LeftBy, Placed, Undone;
    ValidDevice(s, k);
    NothingDone(s, excl);
    UndoneIsPlaced(s, s, reqs, excl);
    assert s.devs[k := s.devs[k]] == s.devs;
    xs, cs := [s.devs[k]], [];
    assert DevRun(reqs, NextId(s.serviceId), xs, cs);
    xs, cs := PlaceListRuns(s, s, k, reqs, [], xs, cs, excl);
  }

  lemma {:induction false} SameDeviceRuns(s0: SysState, s: SysState, d: nat, reqs: seq<Request>, used: seq<nat>,
                                          excl: set<nat>)
    requires Inv(s0) && Undone(s0, s, excl) && AllAsk(reqs, excl) && HaveClients(reqs) && reqs != []
    requires d <= |s.devs| && PassedUpTo(s0, s, d, reqs, used)
    ensures SameLands(s0, reqs, used, SameDevice(s, d, reqs, used).0, SameDevice(s, d, reqs, used).1)
    decreases |s.devs| - d
  {
    hide PlaceList, Placed, AllAsk, Inv, Undone, PassedUpTo, SameFits, SameStuck, FallsShort, DevRun, NextOpen;
    var k := NextOpen(s.devs, d, reqs[0].clientId);
    UpToNextOpen(s0, s, d, reqs, used);
    if k == |s.devs| {
      AllPassed(s0, s, reqs, used);
    } else if k in used {
      PassedClosed(s0, s, k, k + 1, reqs, used);
      SameDeviceRuns(s0, s, k + 1, reqs, used, excl);
    } else {
      UndoneInv(s0, s, excl);
      UndoneIsPlaced(s0, s, reqs, excl);
      PlaceListAllOrNothing(s0, s, k, reqs, [], excl);
      var s1, r := PlaceList(s, k, reqs, []).0, PlaceList(s, k, reqs, []).1;
      var xs, cs := ListOnDevice(s, k, reqs, excl);
      if r.Ok? {
        FoundDevice(s0, s, k, reqs, used, xs, cs);
      } else {
        PassedOneMore(s0, s, k, reqs, used, s1.devs[k]);
        SameDeviceRuns(s0, s1, k + 1, reqs, used, excl);
      }
    }
  }

  lemma UndoneInv(a: SysState, s: SysState, excl: set<nat>)
    requires Undone(a, s, excl)
    ensures Inv(s)
  {
  }

  /** The search for one device. */
  lemma SameDeviceIff(s: SysState, reqs: seq<Request>, used: seq<nat>, s': SysState, r: Outcome<seq<Res>>)
    requires Inv(s) && HaveClients(reqs) && reqs != []
    ensures SameDevice(s, 0, reqs, used) == (s', r) <==> SameLands(s, reqs, used, s', r)
  {
    hide Inv, SameLands, SameDevice, Undone;
    NothingDone(s, Askers(reqs));
    assert PassedUpTo(s, s, 0, reqs, used);
    SameDeviceRuns(s, s, 0, reqs, used, Askers(reqs));
    if SameLands(s, reqs, used, s', r) {
      SameLandsUnique(s, reqs, used, s', r, SameDevice(s, 0, reqs, used).0, SameDevice(s, 0, reqs, used).1);
    }
  }

  // ---------------------------------------------------------------------------------
  // The list
  // ---------------------------------------------------------------------------------

  /** The list is served, as rs, and uses up a service id; the database is t then. */
  ghost predicate ListLands(s: SysState, reqs: seq<Request>, sameDevice: bool, t: SysState, rs: seq<Res>) {
    && 0 < |reqs| <= MAX_LIST
    && exists s' :: t == Advance(s', true)
                    && if sameDevice then SameFits(s, reqs, [], s', rs) else AnyFits(s, reqs, s', rs)
  }

  /** No device that the search comes by takes all requests. */
  ghost predicate NoneTakesAll(s: SysState, reqs: seq<Request>, used: seq<nat>)
    requires reqs != []
  {
    forall d: nat, xs, cs :: d < |s.devs| && Tried(s.devs[d], d, reqs, used) ==>
      !TakesAll(s.devs[d], reqs, NextId(s.serviceId), xs, cs)
  }

  /** Too few requests or too many, or more than the tables can serve. */
  ghost predicate ListRefused(s: SysState, reqs: seq<Request>, sameDevice: bool) {
    0 < |reqs| <= MAX_LIST ==> if sameDevice then NoneTakesAll(s, reqs, []) else AnyStuck(s, reqs)
  }

  lemma StuckIffNoneTakes(s: SysState, reqs: seq<Request>, used: seq<nat>, s': SysState, r: Outcome<seq<Res>>)
    requires reqs != [] && SameLands(s, reqs, used, s', r)
    ensures r.Err? <==> NoneTakesAll(s, reqs, used)
  {
    hide FallsShort, TakesAll;
    if r.Err? {
      forall d: nat, xs, cs | d < |s.devs| && Tried(s.devs[d], d, reqs, used)
        ensures !TakesAll(s.devs[d], reqs, NextId(s.serviceId), xs, cs)
      {
        assert PassedOver(s, s', d, reqs, used);
        if TakesAll(s.devs[d], reqs, NextId(s.serviceId), xs, cs) {
          TakesOrFallsShort(s.devs[d], reqs, NextId(s.serviceId), xs, cs, s'.devs[d]);
        }
      }
    } else {
      FitsThenTakes(s, reqs, used, s', r.value);
    }
  }

  lemma FitsThenTakes(s: SysState, reqs: seq<Request>, used: seq<nat>, s': SysState, rs: seq<Res>)
    requires reqs != [] && SameFits(s, reqs, used, s', rs)
    ensures !NoneTakesAll(s, reqs, used)
  {
    hide PassedOver, DevRun;
    var d: nat, xs, cs :| TakenBy(s, reqs, used, s', d, xs, cs) && rs == ResOf(d, reqs, NextId(s.serviceId), xs, cs);
    assert TakesAll(s.devs[d], reqs, NextId(s.serviceId), xs, cs);
  }

  /** When a list is allocated and as what, and when it is refused, by the tables alone. */
  lemma AllocCuListLands(s: SysState, reqs: seq<Request>, sameDevice: bool, t: SysState, rs: seq<Res>)
    requires Inv(s) && HaveClients(reqs)
    ensures AllocCuList(s, reqs, sameDevice) == (t, Ok(rs)) <==> ListLands(s, reqs, sameDevice, t, rs)
    ensures AllocCuList(s, reqs, sameDevice).1.Err? <==> ListRefused(s, reqs, sameDevice)
    ensures AllocCuList(s, reqs, sameDevice).1.Err? ==>
              AllocCuList(s, reqs, sameDevice).1.error == if 0 < |reqs| <= MAX_LIST then NO_KERNEL else INVALID
  {
    hide Inv, SameDevice, AnyDevice, SameFits, AnyFits, AnyStuck, NoneTakesAll, SameLands;
    if 0 < |reqs| <= MAX_LIST {
      if sameDevice { ListOnOne(s, reqs, t, rs); } else { ListOnAny(s, reqs, t, rs); }
    }
  }

  lemma ListOnOne(s: SysState, reqs: seq<Request>, t: SysState, rs: seq<Res>)
    requires Inv(s) && HaveClients(reqs) && 0 < |reqs| <= MAX_LIST
    ensures AllocCuList(s, reqs, true) == (t, Ok(rs)) <==> ListLands(s, reqs, true, t, rs)
    ensures AllocCuList(s, reqs, true).1 == Err(NO_KERNEL) <==> NoneTakesAll(s, reqs, [])
    ensures AllocCuList(s, reqs, true).1.Ok? || NoneTakesAll(s, reqs, [])
  {
    hide Inv, SameDevice, SameFits, NoneTakesAll;
    var (s1, r) := SameDevice(s, 0, reqs, []);
    SameDeviceIff(s, reqs, [], s1, r);
    StuckIffNoneTakes(s, reqs, [], s1, r);
    forall s' ensures SameDevice(s, 0, reqs, []) == (s', Ok(rs)) <==> SameFits(s, reqs, [], s', rs) {
      SameDeviceIff(s, reqs, [], s', Ok(rs));
    }
  }

  lemma ListOnAny(s: SysState, reqs: seq<Request>, t: SysState, rs: seq<Res>)
    requires Inv(s) && HaveClients(reqs) && 0 < |reqs| <= MAX_LIST
    ensures AllocCuList(s, reqs, false) == (t, Ok(rs)) <==> ListLands(s, reqs, false, t, rs)
    ensures AllocCuList(s, reqs, false).1 == Err(NO_KERNEL) <==> AnyStuck(s, reqs)
    ensures AllocCuList(s, reqs, false).1.Ok? || AnyStuck(s, reqs)
  {
    hide Inv, AnyDevice, AnyFits, AnyStuck;
    forall s' ensures AnyDevice(s, reqs, []) == (s', Ok(rs)) <==> AnyFits(s, reqs, s', rs) {
      AnyDeviceIff(s, reqs, s', rs);
    }
    AnyDeviceIff(s, reqs, s, rs);
  }

  // ---------------------------------------------------------------------------------
  // The probe
  // ---------------------------------------------------------------------------------

  ghost predicate ServedOnce(s: SysState, reqs: seq<Request>, sameDevice: bool, t: SysState) {
    exists rs :: ListLands(s, reqs, sameDevice, t, rs)
  }

  /** The databases ts follow one another as the list is served again and again. */
  ghost predicate ServedInARow(reqs: seq<Request>, sameDevice: bool, ts: seq<SysState>) {
    && ts != [] && (forall i {:trigger ts[i]} :: 0 <= i < |ts| ==> Inv(ts[i]))
    && forall i {:trigger ts[i]} :: 0 <= i < |ts| - 1 ==> ServedOnce(ts[i], reqs, sameDevice, ts[i + 1])
  }

  /** The list can be served n times from s on, and then no more. */
  ghost predicate ServedTimes(s: SysState, reqs: seq<Request>, sameDevice: bool, n: nat) {
    exists ts :: |ts| == n + 1 && ServedInARow(reqs, sameDevice, ts) && ts[0] == s
                 && ListRefused(ts[n], reqs, sameDevice)
  }

  lemma {:induction false} DrainListsCounts(s: SysState, reqs: seq<Request>, sameDevice: bool, acc: seq<seq<Res>>,
                                            ts: seq<SysState>, n: nat)
    requires Inv(s) && HaveClients(reqs) && ServedInARow(reqs, sameDevice, ts) && n < |ts| && ts[n] == s
    requires ListRefused(ts[|ts| - 1], reqs, sameDevice)
    ensures |DrainLists(s, reqs, sameDevice, acc).1| == |acc| + |ts| - 1 - n
    decreases |ts| - n
  {
    hide AllocCuList, ListLands, ListRefused, Inv;
    var (s1, r) := AllocCuList(s, reqs, sameDevice);
    AllocCuListLands(s, reqs, sameDevice, s1, if r.Ok? then r.value else []);
    if n < |ts| - 1 {
      assert ServedOnce(ts[n], reqs, sameDevice, ts[n + 1]);
      var rs :| ListLands(ts[n], reqs, sameDevice, ts[n + 1], rs);
      AllocCuListLands(s, reqs, sameDevice, ts[n + 1], rs);
      DrainListsCounts(s1, reqs, sameDevice, acc + [rs], ts, n + 1);
    }
  }

  lemma {:induction false} DrainListsTrace(s: SysState, reqs: seq<Request>, sameDevice: bool, acc: seq<seq<Res>>,
                                           ts: seq<SysState>) returns (ts': seq<SysState>)
    requires Inv(s) && HaveClients(reqs) && ServedInARow(reqs, sameDevice, ts) && ts[|ts| - 1] == s
    ensures ServedInARow(reqs, sameDevice, ts') && ts'[0] == ts[0] && ListRefused(ts'[|ts'| - 1], reqs, sameDevice)
    decreases FreeTotal(s)
  {
    hide AllocCuList, ListLands, ListRefused, Inv, FreeTotal;
    var (s1, r) := AllocCuList(s, reqs, sameDevice);
    ts' := ts;
    AllocCuListLands(s, reqs, sameDevice, s1, if r.Ok? then r.value else []);
    if r.Ok? {
      ListUsesFree(s, reqs, sameDevice);
      OneMoreInARow(reqs, sameDevice, ts, s1, r.value);
      ts' := DrainListsTrace(s1, reqs, sameDevice, acc + [r.value], ts + [s1]);
    }
  }

  lemma OneMoreInARow(reqs: seq<Request>, sameDevice: bool, ts: seq<SysState>, s1: SysState, rs: seq<Res>)
    requires ServedInARow(reqs, sameDevice, ts) && Inv(s1) && ListLands(ts[|ts| - 1], reqs, sameDevice, s1, rs)
    ensures ServedInARow(reqs, sameDevice, ts + [s1])
  {
    hide ListLands, Inv;
    var ts' := ts + [s1];
    forall i | 0 <= i < |ts'| - 1 ensures ServedOnce(ts'[i], reqs, sameDevice, ts'[i + 1]) {
      if i < |ts| - 1 { assert ts[i] == ts'[i]; }
    }
  }

  /** The list probe reports how often the list can be served in a row. */
  lemma ProbeListIsExact(s: SysState, reqs: seq<Request>, sameDevice: bool, n: nat)
    requires Inv(s) && HaveClients(reqs)
    ensures ProbeList(s, reqs, sameDevice).1 == n <==> ServedTimes(s, reqs, sameDevice, n)
  {
    hide AllocCuList, ListLands, ListRefused, Inv, DrainLists, ReleaseLists;
    var ts := DrainListsTrace(s, reqs, sameDevice, [], [s]);
    DrainListsCounts(s, reqs, sameDevice, [], ts, 0);
    if ServedTimes(s, reqs, sameDevice, n) {
      var ts' :| |ts'| == n + 1 && ServedInARow(reqs, sameDevice, ts') && ts'[0] == s
                 && ListRefused(ts'[n], reqs, sameDevice);
      DrainListsCounts(s, reqs, sameDevice, [], ts', 0);
    }
  }
}
