/** Choosing a unit of one device by load, from the default pool: the most used or the least used
    unit that can take the request, or without a policy the first. */
module PolicyModel {
  import opened Tables
  import opened CuModel
  import opened DeviceModel
  import opened SystemModel
  import opened Placement

  datatype Policy = MostUsed | LeastUsed | FirstFit

  /** The unit matches and has the load; whether it has a free channel is looked at later. */
  predicate LoadFits(cu: CuState, req: Request) {
    Matches(cu, req) && 0 < req.load <= MAX_LOAD - Used(cu)
  }

  /** Nothing can beat this unit: it would be full, or it is unused. */
  predicate Unbeatable(pol: Policy, cu: CuState, req: Request) {
    match pol
    case MostUsed => Used(cu) + req.load == MAX_LOAD
    case LeastUsed => Used(cu) == 0
    case FirstFit => true
  }

  predicate Beats(pol: Policy, cu: CuState, other: CuState) {
    match pol
    case MostUsed => Used(cu) > Used(other)
    case LeastUsed => Used(cu) < Used(other)
    case FirstFit => false
  }

  /** Where the search stands: `best` is the candidate so far; `taken`, a unit to stop at. */
  datatype Search = Search(best: Option<nat>, taken: Option<nat>)

  predicate HasFree(cu: CuState) {
    FirstFree(cu.channels) < |cu.channels|
  }

  /** Unit i's turn: taken at once when nothing can beat it and it has a free channel, and
      otherwise a candidate, unless nothing can beat it. */
  function Weighed(cus: seq<CuState>, i: nat, pol: Policy, req: Request, st: Search): Search
    requires i < |cus| && (st.best.Some? ==> st.best.value < |cus|)
  {
    if !LoadFits(cus[i], req) then st
    else if Unbeatable(pol, cus[i], req) then
      if HasFree(cus[i]) then Search(None, Some(i)) else st
    else if st.best.None? || Beats(pol, cus[i], cus[st.best.value]) then st.(best := Some(i))
    else st
  }

  predicate InPass(cu: CuState, affinity: bool) {
    affinity <==> |cu.clients| > 0
  }

  ghost predicate SearchOk(cus: seq<CuState>, st: Search) {
    (st.best.Some? ==> st.best.value < |cus|) &&
      (st.taken.Some? ==> st.taken.value < |cus| && HasFree(cus[st.taken.value]))
  }

  /** One pass from unit i on; it ends at the first unit that is taken. */
  function SearchFrom(cus: seq<CuState>, i: nat, affinity: bool, pol: Policy, req: Request, st: Search): (st': Search)
    requires i <= |cus| && SearchOk(cus, st)
    ensures SearchOk(cus, st')
    decreases |cus| - i
  {
    if i == |cus| || st.taken.Some? then st
    else SearchFrom(cus, i + 1, affinity, pol, req, if InPass(cus[i], affinity) then Weighed(cus, i, pol, req, st)
      else st)
  }

  /** Both passes; the candidate survives from the first to the second. */
  function PolicyPick(cus: seq<CuState>, pol: Policy, req: Request): (r: Option<nat>)
    ensures r.Some? ==> r.value < |cus|
  {
    var st := SearchFrom(cus, 0, false, pol, req, SearchFrom(cus, 0, true, pol, req, Search(None, None)));
    if st.taken.Some? then st.taken else st.best
  }

  /** What is reported as allocated: a channel, or a unit on which there was no free channel; of
      the resource handed back, only device and unit are then written. */
  datatype Claim = Real(res: Res) | Hollow(devId: nat, cuId: nat)

  /** Allocates by policy on device d. The daemon takes the candidate's allocation for granted
      and reports success even if it found no free channel. */
  function PlaceByLoad(s: SysState, d: nat, pol: Policy, req: Request): (SysState, Outcome<Claim>)
    requires d < |s.devs|
  {
    match Register(s.devs[d], req)
    case None => (s, Err(NO_DEV))
    case Some(dev) =>
      match PolicyPick(dev.cus, pol, req)
      case None => (SetDev(s, d, Unregister(dev, req.clientId)), Err(NO_KERNEL))
      case Some(c) =>
        if Feasible(dev.cus[c], req) then (Grant(s, d, dev, c, req), Ok(Real(GrantedRes(s, d, dev.cus[c], c, req))))
        else (SetDev(s, d, dev), Ok(Hollow(d, c)))
  }

  function AllocCuFromDevByLoad(s: SysState, d: int, pol: Policy, req: Request, update: bool)
      : (SysState, Outcome<Claim>) {
    if d < 0 || d >= |s.devs| || !HasName(req.names) then (s, Err(INVALID))
    else if !Open(s.devs[d], req.clientId) then (s, Err(NO_DEV))
    else
      var (s1, r) := PlaceByLoad(s, d, pol, req);
      if r.Ok? then (Advance(s1, update), r) else (s1, r)
  }

  // ---------------------------------------------------------------------------------
  // The choice is the best one
  // ---------------------------------------------------------------------------------

  /** The units the search can end up with: those with the load, less those that it would
      take at once if only they had a channel. */
  predicate Eligible(cu: CuState, pol: Policy, req: Request) {
    LoadFits(cu, req) && (Unbeatable(pol, cu, req) ==> HasFree(cu))
  }

  /** Units in use come before idle ones, and among either the lower before the higher. */
  predicate PassBefore(cus: seq<CuState>, i: nat, j: nat)
    requires i < |cus| && j < |cus|
  {
    if |cus[i].clients| > 0 then |cus[j].clients| == 0 || i < j else |cus[j].clients| == 0 && i < j
  }

  /** Unit i is better than unit j, or as good and looked at before it. */
  predicate Preferred(cus: seq<CuState>, pol: Policy, i: nat, j: nat)
    requires i < |cus| && j < |cus|
  {
    Beats(pol, cus[i], cus[j]) || (!Beats(pol, cus[j], cus[i]) && PassBefore(cus, i, j))
  }

  /** Unit c is the one to choose, as the tables tell: it is eligible, and preferred to every
      other eligible unit. */
  ghost predicate IsPick(cus: seq<CuState>, pol: Policy, req: Request, c: nat) {
    && c < |cus| && Eligible(cus[c], pol, req)
    && forall j {:trigger Preferred(cus, pol, c, j)} :: 0 <= j < |cus| && j != c && Eligible(cus[j], pol, req) ==>
       Preferred(cus, pol, c, j)
  }

  predicate Seen(cus: seq<CuState>, j: nat, i: nat, affinity: bool)
    requires j < |cus|
  {
    // the second pass has seen all of the first pass's units
    if affinity then |cus[j].clients| > 0 && j < i else |cus[j].clients| > 0 || j < i
  }

  /** What the search holds is preferred to every eligible unit seen so far; a unit that nothing
      can beat is not among those unless it is the one taken. */
  ghost predicate BestSoFar(cus: seq<CuState>, i: nat, affinity: bool, pol: Policy, req: Request, st: Search) {
    && SearchOk(cus, st)
    && match st.taken
       case Some(t) =>
         && Eligible(cus[t], pol, req) && Unbeatable(pol, cus[t], req)
         && forall j :: 0 <= j < |cus| && j != t && Eligible(cus[j], pol, req) && Unbeatable(pol, cus[j], req) ==>
            PassBefore(cus, t, j)
       case None =>
         && (st.best.Some? ==> Eligible(cus[st.best.value], pol, req) && Seen(cus, st.best.value, i, affinity))
         && forall j :: 0 <= j < |cus| && Seen(cus, j, i, affinity) && Eligible(cus[j], pol, req) ==>
              && !Unbeatable(pol, cus[j], req)
              && st.best.Some? && (j != st.best.value ==> Preferred(cus, pol, st.best.value, j))
  }

  lemma TurnKeepsBest(cus: seq<CuState>, i: nat, affinity: bool, pol: Policy, req: Request, st: Search)
    requires i < |cus| && req.poolId == 0 && st.taken.None?
    requires BestSoFar(cus, i, affinity, pol, req, st)
    ensures BestSoFar(cus, i + 1, affinity, pol, req, if InPass(cus[i], affinity) then Weighed(cus, i, pol, req, st)
      else st)
  {
    hide LoadFits, Used, HasFree;
    forall j | 0 <= j < |cus| && Seen(cus, j, i + 1, affinity) && j != i ensures Seen(cus, j, i, affinity) { }
    forall j | 0 <= j < |cus| && j != i && InPass(cus[i], affinity) && !Seen(cus, j, i, affinity)
      ensures PassBefore(cus, i, j) { }
    forall j | 0 <= j < |cus| && Seen(cus, j, i, affinity) && InPass(cus[i], affinity) && j != i
      ensures PassBefore(cus, j, i) { }
  }

  lemma {:induction false} SearchKeepsBest(cus: seq<CuState>, i: nat, affinity: bool, pol: Policy, req: Request,
      st: Search)
    requires i <= |cus| && req.poolId == 0
    requires BestSoFar(cus, i, affinity, pol, req, st)
    ensures BestSoFar(cus, |cus|, affinity, pol, req, SearchFrom(cus, i, affinity, pol, req, st))
    decreases |cus| - i
  {
    hide Eligible, Weighed, HasFree, Seen, Preferred, PassBefore;
    if i < |cus| && st.taken.None? {
      TurnKeepsBest(cus, i, affinity, pol, req, st);
      SearchKeepsBest(cus, i + 1, affinity, pol, req, if InPass(cus[i], affinity) then Weighed(cus, i, pol, req, st)
        else st);
    }
  }

  /** A unit that nothing can beat beats every other that has the load. */
  lemma UnbeatableBeats(pol: Policy, cu: CuState, other: CuState, req: Request)
    requires LoadFits(cu, req) && LoadFits(other, req) && Unbeatable(pol, cu, req) && !Unbeatable(pol, other, req)
    ensures Beats(pol, cu, other)
  {
    UsedBounds(other);
  }

  /** Two units that nothing can beat are equally good. */
  lemma UnbeatableTie(pol: Policy, cu: CuState, other: CuState, req: Request)
    requires Unbeatable(pol, cu, req) && Unbeatable(pol, other, req)
    ensures !Beats(pol, cu, other)
  {
  }

  lemma PickFound(cus: seq<CuState>, pol: Policy, req: Request)
    requires req.poolId == 0
    ensures match PolicyPick(cus, pol, req)
            case None => forall j :: 0 <= j < |cus| ==> !Eligible(cus[j], pol, req)
            case Some(c) => IsPick(cus, pol, req, c)
  {
    SearchKeepsBest(cus, 0, true, pol, req, Search(None, None));
    var st := SearchFrom(cus, 0, true, pol, req, Search(None, None));
    PassesMeet(cus, pol, req, st);
    SearchKeepsBest(cus, 0, false, pol, req, st);
    var st' := SearchFrom(cus, 0, false, pol, req, st);
    if st'.taken.Some? {
      var t := st'.taken.value;
      forall j | 0 <= j < |cus| && j != t && Eligible(cus[j], pol, req) ensures Preferred(cus, pol, t, j) {
        if Unbeatable(pol, cus[j], req) {
          UnbeatableTie(pol, cus[j], cus[t], req);
        } else {
          UnbeatableBeats(pol, cus[t], cus[j], req);
        }
      }
    }
  }

  /** The end of the first pass is the start of the second. */
  lemma PassesMeet(cus: seq<CuState>, pol: Policy, req: Request, st: Search)
    requires BestSoFar(cus, |cus|, true, pol, req, st)
    ensures BestSoFar(cus, 0, false, pol, req, st)
  {
    hide Eligible, Unbeatable, Preferred, PassBefore, HasFree;
    assert forall j :: 0 <= j < |cus| ==> (Seen(cus, j, |cus|, true) <==> Seen(cus, j, 0, false));
  }

  lemma PickIsUnique(cus: seq<CuState>, pol: Policy, req: Request, c: nat, c': nat)
    requires IsPick(cus, pol, req, c) && IsPick(cus, pol, req, c')
    ensures c == c'
  {
    if c != c' { PreferredOneWay(cus, pol, c, c'); }
  }

  lemma PreferredOneWay(cus: seq<CuState>, pol: Policy, i: nat, j: nat)
    requires i < |cus| && j < |cus| && i != j
    ensures !(Preferred(cus, pol, i, j) && Preferred(cus, pol, j, i))
  {
  }

  /** The search picks, over both passes and with its early exits, the best eligible unit, ties
      going to the one looked at first; none exactly when no unit is eligible. */
  lemma PolicyPickIsBest(cus: seq<CuState>, pol: Policy, req: Request)
    requires req.poolId == 0
    ensures forall c: nat :: PolicyPick(cus, pol, req) == Some(c) <==> IsPick(cus, pol, req, c)
    ensures PolicyPick(cus, pol, req) == None <==> forall j :: 0 <= j < |cus| ==> !Eligible(cus[j], pol, req)
  {
    PickFound(cus, pol, req);
    forall c: nat | IsPick(cus, pol, req, c) ensures PolicyPick(cus, pol, req) == Some(c) {
      PickIsUnique(cus, pol, req, c, PolicyPick(cus, pol, req).value);
    }
  }

  /** When every matching unit has a free channel, the policy serves the request whenever any
      unit of the device can, and from a unit of maximal or minimal used load among those. */
  lemma PolicyIsOptimal(s: SysState, d: nat, pol: Policy, req: Request)
    requires Inv(s) && d < |s.devs| && Usable(s.devs[d], req) && req.clientId != 0 && req.poolId == 0
    requires forall j :: 0 <= j < |s.devs[d].cus| && Matches(s.devs[d].cus[j], req) ==> HasFree(s.devs[d].cus[j])
    ensures var cus := s.devs[d].cus;
            match PlaceByLoad(s, d, pol, req).1
            case Err(e) => e == NO_KERNEL && forall j :: 0 <= j < |cus| ==>
              !(Matches(cus[j], req) && Feasible(cus[j], req))
            case Ok(claim) =>
              && claim.Real? && claim.res.devId == d
              && var c := claim.res.cuId;
              && c < |cus| && Matches(cus[c], req) && Feasible(cus[c], req)
              && PlaceByLoad(s, d, pol, req).0 == Grant(s, d, Register(s.devs[d], req).value, c, req)
              && forall j :: 0 <= j < |cus| && Matches(cus[j], req) && Feasible(cus[j], req) ==>
                   && (pol == MostUsed ==> Used(cus[j]) <= Used(cus[c]))
                   && (pol == LeastUsed ==> Used(cus[c]) <= Used(cus[j]))
  {
    hide PolicyPick, Used, FirstFree, Inv;
    var cus := s.devs[d].cus;
    PickFound(cus, pol, req);
    forall j | 0 <= j < |cus| ensures Eligible(cus[j], pol, req) <==> Matches(cus[j], req) && Feasible(cus[j], req) { }
    if PolicyPick(cus, pol, req).Some? {
      var c := PolicyPick(cus, pol, req).value;
      forall j | 0 <= j < |cus| && Eligible(cus[j], pol, req) ensures !Beats(pol, cus[j], cus[c]) {
        if j != c { assert Preferred(cus, pol, c, j); }
      }
    }
  }

  // ---------------------------------------------------------------------------------
  // Reported success
  // ---------------------------------------------------------------------------------

  /** The best eligible unit, the first of the best, is c. A success is then reported, and it is a
      real one, with reference counts that still match, exactly when c has a free channel. */
  lemma SuccessIsReal(s: SysState, d: nat, pol: Policy, req: Request, c: nat)
    requires Inv(s) && d < |s.devs| && Usable(s.devs[d], req) && req.clientId != 0 && req.poolId == 0
    requires IsPick(s.devs[d].cus, pol, req, c)
    ensures var (s', r) := PlaceByLoad(s, d, pol, req);
            && (Inv(s') <==> HasFree(s.devs[d].cus[c]))
            && if HasFree(s.devs[d].cus[c]) then
                 && Feasible(s.devs[d].cus[c], req)
                 && s' == Grant(s, d, Register(s.devs[d], req).value, c, req)
                 && r == Ok(Real(GrantedRes(s, d, s.devs[d].cus[c], c, req)))
               else
                 r == Ok(Hollow(d, c)) && s' == SetDev(s, d, Register(s.devs[d], req).value)
  {
    hide IsPick, PolicyPick;
    var cus, dev := s.devs[d].cus, Register(s.devs[d], req).value;
    PolicyPickIsBest(cus, pol, req);
    PickHasLoad(cus, pol, req, c);
    if HasFree(cus[c]) {
      GrantKeepsInv(s, d, c, req);
    } else {
      assert DevInv(s.devs[d]);
      LeakedReference(s.devs[d], req);
      var s' := SetDev(s, d, dev);
      assert s'.devs[d] == dev;
    }
  }

  /** An allocation by load is refused exactly for an index out of range or want of a name, by a
      device that does not take the client, or when no unit is eligible; each with its code. */
  lemma ByLoadIsRefused(s: SysState, d: int, pol: Policy, req: Request)
    requires Inv(s) && req.clientId != 0 && req.poolId == 0
    ensures var (s', r) := AllocCuFromDevByLoad(s, d, pol, req, false);
            if !(0 <= d < |s.devs|) || !HasName(req.names) then r == Err(INVALID) && s' == s
            else if !Usable(s.devs[d], req) then r == Err(NO_DEV) && s' == s
            else if forall j :: 0 <= j < |s.devs[d].cus| ==> !Eligible(s.devs[d].cus[j], pol, req)
            then r == Err(NO_KERNEL) && s' == SetDev(s, d, LeftBy(s.devs[d], req))
            else r.Ok?
  {
    hide PolicyPick, Eligible, IsPick, Feasible, Unregister, LeftBy;
    if 0 <= d < |s.devs| {
      assert DevInv(s.devs[d]);
      SameAfterRegister(s.devs[d], req);
      PolicyPickIsBest(s.devs[d].cus, pol, req);
      if Usable(s.devs[d], req) { UndoTurns(s.devs[d], req); }
    }
  }

  lemma PickHasLoad(cus: seq<CuState>, pol: Policy, req: Request, c: nat)
    requires IsPick(cus, pol, req, c)
    ensures c < |cus| && LoadFits(cus[c], req)
  {
  }

  /** The best eligible unit of the device, if there is one, has a free channel. */
  ghost predicate PickHasFree(s: SysState, d: int, pol: Policy, req: Request) {
    0 <= d < |s.devs| ==> forall c: nat :: IsPick(s.devs[d].cus, pol, req, c) ==> HasFree(s.devs[d].cus[c])
  }

  lemma PlaceByLoadKeepsInv(s: SysState, d: nat, pol: Policy, req: Request)
    requires Inv(s) && d < |s.devs| && s.devs[d].isLoaded && req.clientId != 0 && req.poolId == 0 &&
      PickHasFree(s, d, pol, req)
    ensures Inv(PlaceByLoad(s, d, pol, req).0)
  {
    if Usable(s.devs[d], req) {
      PolicyPickIsBest(s.devs[d].cus, pol, req);
      match PolicyPick(s.devs[d].cus, pol, req)
      case None => UndoKeepsInv(s, d, req);
      case Some(c) => SuccessIsReal(s, d, pol, req, c);
    }
  }

  lemma ByLoadKeepsInv(s: SysState, d: int, pol: Policy, req: Request, update: bool)
    requires Inv(s) && req.clientId != 0 && req.poolId == 0 && PickHasFree(s, d, pol, req)
    ensures Inv(AllocCuFromDevByLoad(s, d, pol, req, update).0)
  {
    if 0 <= d < |s.devs| && Open(s.devs[d], req.clientId) {
      PlaceByLoadKeepsInv(s, d, pol, req);
      if update { AdvanceKeepsInv(PlaceByLoad(s, d, pol, req).0); }
    }
  }

  /** A registration with no channel behind it is one reference too many. */
  lemma LeakedReference(d: DevState, req: Request)
    requires DevInv(d) && Usable(d, req) && req.clientId != 0
    ensures !DevInv(Register(d, req).value)
  {
    var d' := Register(d, req).value;
    RegisterRefs(d, req);
    var k := FindProc(d'.procs, req.clientId);
    assert Listed(d', req.clientId, req.clientId);
    LiveNonNegative(d'.cus, req.clientId);
    assert GoodProc(d', k, req.clientId);
    assert !GoodProc(d', k, 0);
  }
}
