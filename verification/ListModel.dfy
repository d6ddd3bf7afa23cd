/** Allocating a list of compute units, all from one device or from any: a transaction with
    a hand-written rollback. */
module ListModel {
  import opened Tables
  import opened SystemModel
  import opened Rollback

  // ---------------------------------------------------------------------------------
  // The operations
  // ---------------------------------------------------------------------------------

  /** Places the requests after the first |acc| on device d; releases everything placed so
      far when one does not fit. */
  function PlaceList(s: SysState, d: nat, reqs: seq<Request>, acc: seq<Res>): (t: (SysState, Outcome<seq<Res>>))
    requires d < |s.devs| && |acc| <= |reqs|
    ensures |t.0.devs| == |s.devs| && t.0.serviceId == s.serviceId && t.0.poolId == s.poolId
    ensures t.1.Ok? ==> |t.1.value| == |reqs|
    decreases |reqs| - |acc|
  {
    if |acc| == |reqs| then (s, Ok(acc))
    else
      var (s1, r) := TryPlace(s, d, reqs[|acc|]);
      if r.Err? then (ReleaseAll(s1, acc).0, Err(r.error)) else PlaceList(s1, d, reqs, acc + [r.value])
  }

  /** Tries the devices open to the first request's client in turn, skipping those in `used`. */
  function SameDevice(s: SysState, d: nat, reqs: seq<Request>, used: seq<nat>): (t: (SysState, Outcome<seq<Res>>))
    requires d <= |s.devs| && reqs != []
    ensures |t.0.devs| == |s.devs| && t.0.serviceId == s.serviceId && t.0.poolId == s.poolId
    ensures if t.1.Ok? then |t.1.value| == |reqs| else t.1.error == NO_KERNEL
    decreases |s.devs| - d
  {
    var k := NextOpen(s.devs, d, reqs[0].clientId);
    if k == |s.devs| then (s, Err(NO_KERNEL))
    else if k in used then SameDevice(s, k + 1, reqs, used)
    else
      var (s1, r) := PlaceList(s, k, reqs, []);
      if r.Ok? then (s1, r) else SameDevice(s1, k + 1, reqs, used)
  }

  function AnyDevice(s: SysState, reqs: seq<Request>, acc: seq<Res>): (SysState, Outcome<seq<Res>>)
    requires |acc| <= |reqs|
    decreases |reqs| - |acc|
  {
    if |acc| == |reqs| then (s, Ok(acc))
    else
      var (s1, r) := AllocCu(s, reqs[|acc|], false);
      if r.Err? then (ReleaseAll(s1, acc).0, Err(NO_KERNEL)) else AnyDevice(s1, reqs, acc + [r.value])
  }

  function AllocCuList(s: SysState, reqs: seq<Request>, sameDevice: bool): (SysState, Outcome<seq<Res>>)
  {
    if |reqs| == 0 || |reqs| > MAX_LIST then (s, Err(INVALID))
    else
      var (s1, r) := if sameDevice then SameDevice(s, 0, reqs, []) else AnyDevice(s, reqs, []);
      if r.Ok? then (Advance(s1, true), r) else (s1, r)
  }

  // ---------------------------------------------------------------------------------
  // Part of a list is placed
  // ---------------------------------------------------------------------------------

  ghost predicate HaveClients(reqs: seq<Request>) {
    forall i :: 0 <= i < |reqs| ==> reqs[i].clientId != 0
  }

  /** The clients that ask for exclusive use. */
  function Askers(reqs: seq<Request>): set<nat> {
    set i | 0 <= i < |reqs| && reqs[i].devExcl :: reqs[i].clientId
  }

  ghost predicate AllAsk(reqs: seq<Request>, excl: set<nat>) {
    forall i {:trigger reqs[i]} :: 0 <= i < |reqs| ==> Asks(reqs[i], excl)
  }

  /** s is a plus exactly the channels of acc, which serve the first |acc| requests. */
  ghost predicate Placed(a: SysState, s: SysState, reqs: seq<Request>, acc: seq<Res>, excl: set<nat>) {
    && |acc| <= |reqs|
    && Inv(a) && Inv(s) && Ext(a, s, Items(acc), excl) && NoRepeats(acc)
    && s.serviceId == a.serviceId && s.poolId == a.poolId
    && forall i {:trigger acc[i]} :: 0 <= i < |acc| ==> Serves(a, acc[i], reqs[i], NextId(a.serviceId))
  }

  ghost predicate OnDevice(rs: seq<Res>, d: nat) {
    forall i :: 0 <= i < |rs| ==> rs[i].devId == d
  }

  lemma PlacedNone(a: SysState, s: SysState, reqs: seq<Request>, excl: set<nat>)
    requires Inv(a) && Inv(s) && Ext(a, s, {}, excl) && s.serviceId == a.serviceId && s.poolId == a.poolId
    ensures Placed(a, s, reqs, [], excl)
  {
    assert Items([]) == {};
  }

  lemma PlacedMore(a: SysState, s: SysState, reqs: seq<Request>, acc: seq<Res>, excl: set<nat>, s': SysState, r: Res)
    requires Placed(a, s, reqs, acc, excl) && |acc| < |reqs|
    requires Attempted(a, s, Items(acc), excl, reqs[|acc|], s', Some(r))
    ensures Placed(a, s', reqs, acc + [r], excl)
  {
    assert Items(acc + [r]) == Items(acc) + {r};
    assert r !in acc;
    forall i | 0 <= i < |acc + [r]| ensures Serves(a, (acc + [r])[i], reqs[i], NextId(a.serviceId)) {
      if i < |acc| { assert acc[i] == (acc + [r])[i]; }
    }
  }

  // ---------------------------------------------------------------------------------
  // All or nothing
  // ---------------------------------------------------------------------------------

  /** Everything is released: nothing is left of the list. */
  ghost predicate Undone(a: SysState, s: SysState, excl: set<nat>) {
    Inv(s) && Ext(a, s, {}, excl) && Restored(a, s, excl) && s.serviceId == a.serviceId && s.poolId == a.poolId
  }

  lemma PlacedUndone(a: SysState, s: SysState, s': SysState, reqs: seq<Request>, acc: seq<Res>, excl: set<nat>)
    requires Placed(a, s, reqs, acc, excl) && |acc| < |reqs|
    requires Attempted(a, s, Items(acc), excl, reqs[|acc|], s', None)
    ensures Undone(a, ReleaseAll(s', acc).0, excl)
  {
    ReleaseAllRestores(a, s', excl, acc);
  }

  /** The list is placed in full, or nothing is left of it. */
  ghost predicate AllOrNothing(a: SysState, reqs: seq<Request>, excl: set<nat>, s: SysState, r: Outcome<seq<Res>>) {
    if r.Ok? then |r.value| == |reqs| && Placed(a, s, reqs, r.value, excl) else Undone(a, s, excl)
  }

  lemma {:induction false} PlaceListAllOrNothing(a: SysState, s: SysState, d: nat, reqs: seq<Request>, acc: seq<Res>,
      excl: set<nat>)
    requires Placed(a, s, reqs, acc, excl) && AllAsk(reqs, excl) && OnDevice(acc, d)
    requires d < |s.devs| && s.devs[d].isLoaded
    ensures var (s', r) := PlaceList(s, d, reqs, acc);
            AllOrNothing(a, reqs, excl, s', r) && (r.Ok? ==> OnDevice(r.value, d))
    decreases |reqs| - |acc|
  {
    hide Attempted, Undone, TryPlace, Asks;
    if |acc| < |reqs| {
      TryPlaceAttempts(a, s, Items(acc), excl, d, reqs[|acc|]);
      var (s1, r) := TryPlace(s, d, reqs[|acc|]);
      if r.Ok? {
        PlacedMore(a, s, reqs, acc, excl, s1, r.value);
        PlaceListAllOrNothing(a, s1, d, reqs, acc + [r.value], excl);
      } else {
        PlacedUndone(a, s, s1, reqs, acc, excl);
      }
    }
  }

  lemma UndoneIsPlaced(a: SysState, s: SysState, reqs: seq<Request>, excl: set<nat>)
    requires Inv(a) && Undone(a, s, excl)
    ensures Placed(a, s, reqs, [], excl)
  {
    PlacedNone(a, s, reqs, excl);
  }

  /** The device of the list is one that was not used before. */
  ghost predicate OnNewDevice(r: Outcome<seq<Res>>, used: seq<nat>) {
    r.Ok? && r.value != [] ==> OnDevice(r.value, r.value[0].devId) && r.value[0].devId !in used
  }

  lemma {:induction false} SameDeviceAllOrNothing(a: SysState, s: SysState, d: nat, reqs: seq<Request>, used: seq<nat>,
      excl: set<nat>)
    requires Inv(a) && Undone(a, s, excl) && AllAsk(reqs, excl) && reqs != [] && d <= |s.devs|
    ensures var (s', r) := SameDevice(s, d, reqs, used); AllOrNothing(a, reqs, excl, s', r) && OnNewDevice(r, used)
    decreases |s.devs| - d
  {
    hide NextOpen, PlaceList, Placed, AllAsk, Inv, Undone;
    var k := NextOpen(s.devs, d, reqs[0].clientId);
    if k < |s.devs| {
      if k in used {
        SameDeviceAllOrNothing(a, s, k + 1, reqs, used, excl);
      } else {
        UndoneIsPlaced(a, s, reqs, excl);
        PlaceListAllOrNothing(a, s, k, reqs, [], excl);
        var (s1, r) := PlaceList(s, k, reqs, []);
        if r.Err? { SameDeviceAllOrNothing(a, s1, k + 1, reqs, used, excl); }
      }
    }
  }

  lemma {:induction false} AnyDeviceAllOrNothing(a: SysState, s: SysState, reqs: seq<Request>, acc: seq<Res>,
      excl: set<nat>)
    requires Placed(a, s, reqs, acc, excl) && AllAsk(reqs, excl)
    ensures AllOrNothing(a, reqs, excl, AnyDevice(s, reqs, acc).0, AnyDevice(s, reqs, acc).1)
    decreases |reqs| - |acc|
  {
    hide Attempted, Undone, AllocCu, Asks;
    if |acc| < |reqs| {
      AllocCuAttempts(a, s, Items(acc), excl, reqs[|acc|]);
      var (s1, r) := AllocCu(s, reqs[|acc|], false);
      if r.Ok? {
        PlacedMore(a, s, reqs, acc, excl, s1, r.value);
        AnyDeviceAllOrNothing(a, s1, reqs, acc + [r.value], excl);
      } else {
        PlacedUndone(a, s, s1, reqs, acc, excl);
      }
    }
  }

  lemma NothingDone(a: SysState, excl: set<nat>)
    requires Inv(a)
    ensures Undone(a, a, excl)
  {
    ExtRefl(a, excl);
  }

  /** A list allocation adds exactly one channel per request, serving it, all under one service
      id, which it then uses up, and on one device if so asked; or it fails, and everything is
      as before. That includes client tables and exclusive modes, unless a client that asks for
      exclusive use was alone on a shared device, which may then have become its own. */
  lemma AllocCuListAllOrNothing(s: SysState, reqs: seq<Request>, sameDevice: bool)
    requires Inv(s) && HaveClients(reqs)
    ensures var (s', r) := AllocCuList(s, reqs, sameDevice);
            if r.Ok? then
              && |r.value| == |reqs| > 0
              && Placed(s, s'.(serviceId := s.serviceId), reqs, r.value, Askers(reqs))
              && s'.serviceId == NextId(s.serviceId)
              && (sameDevice ==> OnDevice(r.value, r.value[0].devId))
            else
              && Undone(s, s', Askers(reqs))
              && (NoneAlone(s, Askers(reqs)) ==> s' == s)
  {
    hide Undone, Placed;
    var excl := Askers(reqs);
    NothingDone(s, excl);
    UndoneIsPlaced(s, s, reqs, excl);
    if 0 < |reqs| <= MAX_LIST {
      if sameDevice {
        SameDeviceAllOrNothing(s, s, 0, reqs, [], excl);
      } else {
        AnyDeviceAllOrNothing(s, s, reqs, [], excl);
      }
      var (s1, r) := if sameDevice then SameDevice(s, 0, reqs, []) else AnyDevice(s, reqs, []);
      ListIds(s, s1, reqs, excl, r);
      assert Advance(s1, true).(serviceId := s1.serviceId) == s1;
      if r.Err? { UndoneExactly(s, s1, excl); }
    }
  }

  lemma ListIds(a: SysState, s: SysState, reqs: seq<Request>, excl: set<nat>, r: Outcome<seq<Res>>)
    requires AllOrNothing(a, reqs, excl, s, r)
    ensures s.serviceId == a.serviceId
  {
  }

  lemma UndoneExactly(a: SysState, s: SysState, excl: set<nat>)
    requires Undone(a, s, excl)
    ensures NoneAlone(a, excl) ==> s == a
  {
    if NoneAlone(a, excl) { RestoredExactly(a, s, excl); }
  }

  // ---------------------------------------------------------------------------------
  // The invariant is kept
  // ---------------------------------------------------------------------------------

  ghost predicate OfClients(rs: seq<Res>) {
    forall i :: 0 <= i < |rs| ==> rs[i].clientId != 0
  }

  lemma {:induction false} PlaceListKeepsInv(s: SysState, d: nat, reqs: seq<Request>, acc: seq<Res>)
    requires Inv(s) && HaveClients(reqs) && OfClients(acc) && d < |s.devs| && s.devs[d].isLoaded && |acc| <= |reqs|
    ensures Inv(PlaceList(s, d, reqs, acc).0)
    decreases |reqs| - |acc|
  {
    if |acc| < |reqs| {
      TryPlaceKeepsInv(s, d, reqs[|acc|]);
      var (s1, r) := TryPlace(s, d, reqs[|acc|]);
      if r.Ok? { PlaceListKeepsInv(s1, d, reqs, acc + [r.value]); } else { ReleaseAllKeepsInv(s1, acc); }
    }
  }

  lemma AllocCuListKeepsInv(s: SysState, reqs: seq<Request>, sameDevice: bool)
    requires Inv(s) && HaveClients(reqs)
    ensures Inv(AllocCuList(s, reqs, sameDevice).0)
  {
    AllocCuListAllOrNothing(s, reqs, sameDevice);
    var (s', r) := AllocCuList(s, reqs, sameDevice);
    if r.Ok? {
      AdvanceKeepsInv(s'.(serviceId := s.serviceId));
      assert s' == Advance(s'.(serviceId := s.serviceId), true);
    }
  }
}
