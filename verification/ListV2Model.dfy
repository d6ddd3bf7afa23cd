/** List allocation, version 2: every item may name a hardware device, or share a virtual
    device index with other items, which must then end up together on one device that no
    other virtual index uses. */
module ListV2Model {
  import opened Tables
  import opened Sums
  import opened CuModel
  import opened DeviceModel
  import opened SystemModel
  import opened Rollback
  import opened ListModel

  // ---------------------------------------------------------------------------------
  // Requests
  // ---------------------------------------------------------------------------------

  datatype Constraint = AnyDev | Hardware(index: nat) | Virtual(index: nat) | BadConstraint

  datatype RequestV2 = RequestV2(req: Request, deviceInfo: nat)

  /** Bits 32-39 of the device information are the kind of constraint, bits 0-31 the index. */
  function ConstraintOf(q: RequestV2): Constraint {
    var kind, index := q.deviceInfo / 0x1_0000_0000 % 0x100, q.deviceInfo % 0x1_0000_0000;
    if kind == 0 then AnyDev
    else if kind == 1 then Hardware(index)
    else if kind == 2 then Virtual(index)
    else BadConstraint
  }

  /** A version 2 request is never matched by unit name. */
  function ToV1(q: RequestV2): Request {
    q.req.(names := q.req.names.(cu := ""))
  }

  function AllToV1(reqs: seq<RequestV2>, g: seq<nat>): (rs: seq<Request>)
    requires forall k :: 0 <= k < |g| ==> g[k] < |reqs|
    ensures |rs| == |g|
    ensures forall k :: 0 <= k < |g| ==> rs[k] == ToV1(reqs[g[k]])
  {
    seq(|g|, k requires 0 <= k < |g| => ToV1(reqs[g[k]]))
  }

  type Results = seq<Option<Res>>

  ghost predicate Ascending(g: seq<nat>) {
    forall k, l :: 0 <= k < l < |g| ==> g[k] < g[l]
  }

  /** The items from index i on that are not placed yet and have the virtual index v. */
  function Group(reqs: seq<RequestV2>, results: Results, i: nat, v: nat): (g: seq<nat>)
    requires |results| == |reqs| && i <= |reqs|
    ensures forall k :: 0 <= k < |g| ==>
              i <= g[k] < |reqs| && results[g[k]].None? && ConstraintOf(reqs[g[k]]) == Virtual(v)
    ensures Ascending(g)
    ensures forall j :: i <= j < |reqs| && results[j].None? && ConstraintOf(reqs[j]) == Virtual(v) ==> j in g
    decreases |reqs| - i
  {
    if i == |reqs| then []
    else if results[i].None? && ConstraintOf(reqs[i]) == Virtual(v) then [i] + Group(reqs, results, i + 1, v)
    else Group(reqs, results, i + 1, v)
  }

  /** Files the resources of a group under the items' own indices. */
  function Scatter(results: Results, g: seq<nat>, rs: seq<Res>): (results': Results)
    requires |g| == |rs| && forall k :: 0 <= k < |g| ==> g[k] < |results|
    ensures |results'| == |results|
    decreases |g|
  {
    if g == [] then results
    else Scatter(results[g[0] := Some(rs[0])], g[1..], rs[1..])
  }

  function AddUsed(used: seq<nat>, d: nat): seq<nat> {
    if d in used then used else used + [d]
  }

  // ---------------------------------------------------------------------------------
  // The operation
  // ---------------------------------------------------------------------------------

  /** What is placed so far: results by item, how many, and the devices of virtual groups. */
  datatype Progress = Progress(s: SysState, results: Results, num: nat, used: seq<nat>)

  function PlaceOne(p: Progress, i: nat, s: SysState, r: Res): (p': Progress)
    requires i < |p.results|
    ensures |p'.results| == |p.results|
  {
    Progress(s, p.results[i := Some(r)], p.num + 1, p.used)
  }

  function PlaceGroup(p: Progress, g: seq<nat>, s: SysState, rs: seq<Res>): (p': Progress)
    requires |g| == |rs| > 0 && forall k :: 0 <= k < |g| ==> g[k] < |p.results|
    ensures |p'.results| == |p.results|
  {
    Progress(s, Scatter(p.results, g, rs), p.num + |rs|, AddUsed(p.used, rs[0].devId))
  }

  /** One unplaced item, with its virtual group if it has one. */
  function StepV2(p: Progress, reqs: seq<RequestV2>, i: nat): (r: (Progress, Status))
    requires |p.results| == |reqs| && i < |reqs| && p.results[i].None?
    ensures |r.0.results| == |reqs|
  {
    match ConstraintOf(reqs[i])
    case AnyDev =>
      var (s1, r) := AllocCu(p.s, ToV1(reqs[i]), false);
      if r.Ok? then (PlaceOne(p, i, s1, r.value), SUCCESS) else (p.(s := s1), r.error)
    case Hardware(d) =>
      var (s1, r) := AllocCuFromDev(p.s, d, ToV1(reqs[i]), false);
      if r.Ok? then (PlaceOne(p, i, s1, r.value), SUCCESS) else (p.(s := s1), r.error)
    case Virtual(v) =>
      var g := Group(reqs, p.results, i, v);
      assert i in g;
      var (s1, r) := SameDevice(p.s, 0, AllToV1(reqs, g), p.used);
      if r.Err? then (p.(s := s1), r.error)
      else (PlaceGroup(p, g, s1, r.value), SUCCESS)
    case BadConstraint => (p, INVALID)
  }

  function RunV2(p: Progress, reqs: seq<RequestV2>, i: nat): (r: (Progress, Status))
    requires |p.results| == |reqs| && i <= |reqs|
    ensures |r.0.results| == |reqs|
    decreases |reqs| - i
  {
    if i == |reqs| then (p, SUCCESS)
    else if p.results[i].Some? then RunV2(p, reqs, i + 1)
    else
      var (p1, status) := StepV2(p, reqs, i);
      if status == SUCCESS then RunV2(p1, reqs, i + 1) else (p1, status)
  }

  /** The resources placed so far, in item order. */
  function Allocated(results: Results): seq<Res> {
    if results == [] then []
    else if results[0].Some? then [results[0].value] + Allocated(results[1..])
    else Allocated(results[1..])
  }

  function NoResults(n: nat): (results: Results)
    ensures |results| == n && forall i :: 0 <= i < n ==> results[i].None?
  {
    seq(n, i => None)
  }

  /** On failure everything placed is released; the resources are returned by item, with
      their number. */
  function AllocCuListV2(s: SysState, reqs: seq<RequestV2>): (SysState, Outcome<(Results, nat)>) {
    if |reqs| == 0 || |reqs| > MAX_LIST_V2 then (s, Err(INVALID))
    else
      var (p, status) := RunV2(Progress(s, NoResults(|reqs|), 0, []), reqs, 0);
      if status == SUCCESS then (Advance(p.s, true), Ok((p.results, p.num)))
      else (ReleaseEach(p.s, Allocated(p.results)), Err(status))
  }

  ghost predicate HaveClientsV2(reqs: seq<RequestV2>) {
    forall i :: 0 <= i < |reqs| ==> reqs[i].req.clientId != 0
  }

  ghost predicate OfClientsV2(results: Results) {
    forall i :: 0 <= i < |results| && results[i].Some? ==> results[i].value.clientId != 0
  }

  // ---------------------------------------------------------------------------------
  // What scattering does
  // ---------------------------------------------------------------------------------

  lemma {:induction false} ScatterSpec(results: Results, g: seq<nat>, rs: seq<Res>)
    requires |g| == |rs| && Distinct(g) && forall k :: 0 <= k < |g| ==> g[k] < |results|
    ensures forall k :: 0 <= k < |g| ==> Scatter(results, g, rs)[g[k]] == Some(rs[k])
    ensures forall j :: 0 <= j < |results| && j !in g ==> Scatter(results, g, rs)[j] == results[j]
    ensures (forall k :: 0 <= k < |g| ==> results[g[k]].None?) ==>
              Placements(Scatter(results, g, rs)) == Placements(results) + |g|
    decreases |g|
  {
    if g != [] {
      var results1 := results[g[0] := Some(rs[0])];
      ScatterSpec(results1, g[1..], rs[1..]);
      assert g[0] !in g[1..];
      assert forall k :: 1 <= k < |g| ==> g[k] == g[1..][k - 1] && rs[k] == rs[1..][k - 1];
      OnePlaced(results, g[0], rs[0]);
    }
  }

  function Flags(results: Results): (ws: seq<int>)
    ensures |ws| == |results|
    ensures forall i :: 0 <= i < |results| ==> ws[i] == OneIf(results[i].Some?)
  {
    seq(|results|, i requires 0 <= i < |results| => OneIf(results[i].Some?))
  }

  /** How many items are placed. */
  function Placements(results: Results): int {
    Sum(Flags(results))
  }

  lemma OnePlaced(results: Results, i: nat, r: Res)
    requires i < |results|
    ensures Placements(results[i := Some(r)]) == Placements(results) + OneIf(results[i].None?)
  {
    assert Flags(results[i := Some(r)]) == Flags(results)[i := 1];
    SumUpdate(Flags(results), i, 1);
  }

  // ---------------------------------------------------------------------------------
  // Partial placement
  // ---------------------------------------------------------------------------------

  function ItemsOf(results: Results): set<Res> {
    set i | 0 <= i < |results| && results[i].Some? :: results[i].value
  }

  /** Item j is placed as it asked: it serves its request, and a hardware index is obeyed. */
  ghost predicate WellPlaced(a: SysState, q: RequestV2, o: Option<Res>) {
    o.Some? ==>
      && Serves(a, o.value, ToV1(q), NextId(a.serviceId))
      && (ConstraintOf(q).Hardware? ==> o.value.devId == ConstraintOf(q).index)
  }

  /** Virtual groups are placed whole, each on one device of `used`, different groups apart. */
  ghost predicate GroupsApart(reqs: seq<RequestV2>, results: Results, used: seq<nat>)
    requires |results| == |reqs|
  {
    && (forall j {:trigger results[j]} :: 0 <= j < |reqs| && results[j].Some? && ConstraintOf(reqs[j]).Virtual? ==>
          results[j].value.devId in used)
    && forall j: nat, k: nat {:trigger GroupedRight(reqs, results, j, k)} :: j < |reqs| && k < |reqs| ==>
         GroupedRight(reqs, results, j, k)
  }

  /** Of two virtual items, the first of them placed: if they share the index, the other is
      placed on the same device; if not, it is not on that device. */
  predicate GroupedRight(reqs: seq<RequestV2>, results: Results, j: nat, k: nat)
    requires |results| == |reqs| && j < |reqs| && k < |reqs|
  {
    results[j].Some? && ConstraintOf(reqs[j]).Virtual? && ConstraintOf(reqs[k]).Virtual? ==>
      if ConstraintOf(reqs[j]) == ConstraintOf(reqs[k])
      then results[k].Some? && results[k].value.devId == results[j].value.devId
      else results[k].Some? ==> results[k].value.devId != results[j].value.devId
  }

  ghost predicate NoneTwice(results: Results) {
    forall j, k {:trigger results[j], results[k]} :: 0 <= j < k < |results| && results[j].Some? && results[k].Some? ==>
      results[j].value != results[k].value
  }

  /** p.s is a plus exactly the channels placed so far. */
  ghost predicate Extended(a: SysState, excl: set<nat>, p: Progress) {
    && Inv(a) && Inv(p.s) && Ext(a, p.s, ItemsOf(p.results), excl) && NoneTwice(p.results)
    && p.s.serviceId == a.serviceId && p.s.poolId == a.poolId
  }

  /** Besides, all items before i are placed, and all that are placed are placed as asked. */
  ghost predicate PartlyPlaced(a: SysState, excl: set<nat>, reqs: seq<RequestV2>, i: nat, p: Progress) {
    && |p.results| == |reqs| && i <= |reqs|
    && Extended(a, excl, p)
    && (forall j {:trigger p.results[j]} :: 0 <= j < i ==> p.results[j].Some?)
    && (forall j {:trigger p.results[j]} :: 0 <= j < |reqs| ==> WellPlaced(a, reqs[j], p.results[j]))
    && GroupsApart(reqs, p.results, p.used)
    && p.num == Placements(p.results)
  }

  /** The clients that ask for exclusive use. */
  function AskersV2(reqs: seq<RequestV2>): set<nat> {
    set i | 0 <= i < |reqs| && reqs[i].req.devExcl :: reqs[i].req.clientId
  }

  ghost predicate AllAskV2(reqs: seq<RequestV2>, excl: set<nat>) {
    forall i {:trigger reqs[i]} :: 0 <= i < |reqs| ==> Asks(ToV1(reqs[i]), excl)
  }

  lemma NothingPlaced(a: SysState, excl: set<nat>, reqs: seq<RequestV2>)
    requires Inv(a)
    ensures PartlyPlaced(a, excl, reqs, 0, Progress(a, NoResults(|reqs|), 0, []))
  {
    ExtRefl(a, excl);
    assert ItemsOf(NoResults(|reqs|)) == {};
    SumZeros(Flags(NoResults(|reqs|)));
  }

  lemma ServesBefore(a: SysState, s: SysState, items: set<Res>, excl: set<nat>, r: Res, req: Request, id: nat)
    requires Ext(a, s, items, excl) && Serves(s, r, req, id)
    ensures Serves(a, r, req, id)
  {
    assert ExtDev(a.devs[r.devId], s.devs[r.devId], r.devId, items, excl);
    assert ExtCu(a.devs[r.devId].cus[r.cuId], s.devs[r.devId].cus[r.cuId], r.devId, r.cuId, items);
  }

  /** One more item, placed on its own. */
  lemma OneMore(a: SysState, excl: set<nat>, reqs: seq<RequestV2>, i: nat, p: Progress, s1: SysState, r: Res)
    requires PartlyPlaced(a, excl, reqs, i, p) && i < |reqs| && p.results[i].None?
    requires Attempted(a, p.s, ItemsOf(p.results), excl, ToV1(reqs[i]), s1, Some(r))
    requires match ConstraintOf(reqs[i]) case AnyDev => true case Hardware(d) => r.devId == d case _ => false
    ensures PartlyPlaced(a, excl, reqs, i + 1, PlaceOne(p, i, s1, r))
  {
    hide Ext, Inv, Serves;
    var p1 := PlaceOne(p, i, s1, r);
    ItemsOfUpdate(p.results, i, r);
    OnePlaced(p.results, i, r);
    StillNoneTwice(p.results, i, r);
    forall j: nat, k: nat | j < |reqs| && k < |reqs| ensures GroupedRight(reqs, p1.results, j, k) {
      assert GroupedRight(reqs, p.results, j, k);
    }
  }

  lemma ItemsOfUpdate(results: Results, i: nat, r: Res)
    requires i < |results| && results[i].None?
    ensures ItemsOf(results[i := Some(r)]) == ItemsOf(results) + {r}
  {
    var results1 := results[i := Some(r)];
    assert results1[i].value == r;
    forall x | x in ItemsOf(results) ensures x in ItemsOf(results1) {
      var j :| 0 <= j < |results| && results[j].Some? && results[j].value == x;
      assert results1[j] == results[j];
    }
  }

  lemma StillNoneTwice(results: Results, i: nat, r: Res)
    requires i < |results| && results[i].None? && NoneTwice(results) && r !in ItemsOf(results)
    ensures NoneTwice(results[i := Some(r)])
  {
    var results1 := results[i := Some(r)];
    forall j, k | 0 <= j < k < |results| && results1[j].Some? && results1[k].Some?
      ensures results1[j].value != results1[k].value
    {
      if j != i { assert results[j].value in ItemsOf(results); }
      if k != i { assert results[k].value in ItemsOf(results); }
    }
  }

  // ---------------------------------------------------------------------------------
  // One more group
  // ---------------------------------------------------------------------------------

  /** results' is results with rs filed under the unplaced items g. */
  ghost predicate Filed(results: Results, g: seq<nat>, rs: seq<Res>, results': Results) {
    && |results'| == |results| && |g| == |rs|
    && (forall k {:trigger g[k]} :: 0 <= k < |g| ==>
       g[k] < |results| && results[g[k]].None? && results'[g[k]] == Some(rs[k]))
    && forall j: nat {:trigger results'[j]} :: j < |results| && j !in g ==> results'[j] == results[j]
  }

  lemma ItemsOfFiled(results: Results, g: seq<nat>, rs: seq<Res>, results': Results)
    requires Filed(results, g, rs, results')
    ensures ItemsOf(results') == ItemsOf(results) + Items(rs)
  {
    forall x | x in ItemsOf(results) ensures x in ItemsOf(results') {
      var j: nat :| j < |results| && results[j].Some? && results[j].value == x;
      assert j !in g;
      assert results'[j] == results[j];
    }
    forall x | x in Items(rs) ensures x in ItemsOf(results') {
      var k :| 0 <= k < |rs| && rs[k] == x;
      assert results'[g[k]].value == x;
    }
    forall x | x in ItemsOf(results') ensures x in ItemsOf(results) + Items(rs) {
      var j: nat :| j < |results'| && results'[j].Some? && results'[j].value == x;
      if j in g {
        var k :| 0 <= k < |g| && g[k] == j;
        assert rs[k] == x;
      } else {
        assert results[j].value == x;
      }
    }
  }

  lemma FiledNoneTwice(results: Results, g: seq<nat>, rs: seq<Res>, results': Results)
    requires Filed(results, g, rs, results') && NoneTwice(results) && NoRepeats(rs) && ItemsOf(results) !! Items(rs)
    ensures NoneTwice(results')
  {
    forall j: nat, k: nat | j < k < |results| && results'[j].Some? && results'[k].Some?
      ensures results'[j].value != results'[k].value
    {
      FiledFrom(results, g, rs, results', j);
      FiledFrom(results, g, rs, results', k);
    }
  }

  /** Where a filed result comes from. */
  lemma FiledFrom(results: Results, g: seq<nat>, rs: seq<Res>, results': Results, j: nat)
    requires Filed(results, g, rs, results') && j < |results| && results'[j].Some?
    ensures if j in g then (exists k :: 0 <= k < |g| && g[k] == j && results'[j].value == rs[k]) &&
      results'[j].value in Items(rs)
            else results'[j] == results[j] && results'[j].value in ItemsOf(results)
  {
    if j in g {
      var k :| 0 <= k < |g| && g[k] == j;
      assert results'[g[k]] == Some(rs[k]);
    }
  }

  /** g is the whole group of virtual index v, and it went to a device no other group uses. */
  lemma GroupsStillApart(reqs: seq<RequestV2>, results: Results, used: seq<nat>, i: nat, v: nat, g: seq<nat>,
                         rs: seq<Res>, d: nat, results': Results)
    requires |results| == |reqs| && i < |reqs| && results[i].None? && ConstraintOf(reqs[i]) == Virtual(v)
    requires forall j {:trigger results[j]} :: 0 <= j < i ==> results[j].Some?
    requires GroupsApart(reqs, results, used) && g == Group(reqs, results, i, v)
    requires Filed(results, g, rs, results') && OnDevice(rs, d) && d !in used
    ensures GroupsApart(reqs, results', AddUsed(used, d))
  {
    forall j: nat | j < |reqs| && results'[j].Some?
      ensures if j in g then results'[j].value.devId == d && ConstraintOf(reqs[j]) == Virtual(v) && results[j].None?
              else results[j] == results'[j] && ConstraintOf(reqs[j]) != Virtual(v)
                   && (ConstraintOf(reqs[j]).Virtual? ==> results[j].value.devId in used)
    {
      FiledFrom(results, g, rs, results', j);
      assert GroupedRight(reqs, results, j, i);
    }
    forall j: nat, k: nat | j < |reqs| && k < |reqs| ensures GroupedRight(reqs, results', j, k) {
      assert GroupedRight(reqs, results, j, k);
      if k in g {
        var m :| 0 <= m < |g| && g[m] == k;
        assert results'[g[m]].Some?;
      }
    }
  }

  lemma GroupFiled(reqs: seq<RequestV2>, results: Results, i: nat, v: nat, rs: seq<Res>)
    requires |results| == |reqs| && i <= |reqs| && |rs| == |Group(reqs, results, i, v)|
    ensures var g := Group(reqs, results, i, v);
            && Filed(results, g, rs, Scatter(results, g, rs))
            && Placements(Scatter(results, g, rs)) == Placements(results) + |rs|
            && forall k {:trigger g[k]} :: 0 <= k < |g| ==> g[k] < |reqs| && ConstraintOf(reqs[g[k]]) == Virtual(v)
  {
    ScatterSpec(results, Group(reqs, results, i, v), rs);
  }

  lemma PlacedUpTo(results: Results, i: nat, g: seq<nat>, rs: seq<Res>, results': Results)
    requires Filed(results, g, rs, results') && i < |results| && i in g
    requires forall j {:trigger results[j]} :: 0 <= j < i ==> results[j].Some?
    ensures forall j {:trigger results'[j]} :: 0 <= j < i + 1 ==> results'[j].Some?
  {
    forall j: nat | j < i + 1 ensures results'[j].Some? {
      if j in g {
        var k :| 0 <= k < |g| && g[k] == j;
      } else {
        assert results'[j] == results[j];
      }
    }
  }

  lemma OneMoreGroup(a: SysState, excl: set<nat>, reqs: seq<RequestV2>, i: nat, p: Progress, v: nat, g: seq<nat>,
      s1: SysState, rs: seq<Res>)
    requires PartlyPlaced(a, excl, reqs, i, p) && i < |reqs| && p.results[i].None? &&
      ConstraintOf(reqs[i]) == Virtual(v)
    requires g == Group(reqs, p.results, i, v) && i in g && |rs| == |g|
    requires Placed(p.s, s1, AllToV1(reqs, g), rs, excl)
    requires OnDevice(rs, rs[0].devId) && rs[0].devId !in p.used
    ensures PartlyPlaced(a, excl, reqs, i + 1, PlaceGroup(p, g, s1, rs))
  {
    var results' := Scatter(p.results, g, rs);
    GroupFiled(reqs, p.results, i, v, rs);
    ExtTrans(a, p.s, s1, ItemsOf(p.results), Items(rs), excl);
    ItemsOfFiled(p.results, g, rs, results');
    FiledNoneTwice(p.results, g, rs, results');
    PlacedUpTo(p.results, i, g, rs, results');
    GroupPlaced(a, excl, reqs, i, p, v, g, s1, rs, results');
  }

  lemma GroupPlaced(a: SysState, excl: set<nat>, reqs: seq<RequestV2>, i: nat, p: Progress, v: nat, g: seq<nat>,
      s1: SysState, rs: seq<Res>, results': Results)
    requires PartlyPlaced(a, excl, reqs, i, p) && i < |reqs| && p.results[i].None? &&
      ConstraintOf(reqs[i]) == Virtual(v)
    requires g == Group(reqs, p.results, i, v) && i in g && Filed(p.results, g, rs, results')
    requires forall k {:trigger g[k]} :: 0 <= k < |g| ==> g[k] < |reqs| && ConstraintOf(reqs[g[k]]) == Virtual(v)
    requires Placed(p.s, s1, AllToV1(reqs, g), rs, excl)
    requires OnDevice(rs, rs[0].devId) && rs[0].devId !in p.used
    ensures forall j {:trigger results'[j]} :: 0 <= j < |reqs| ==> WellPlaced(a, reqs[j], results'[j])
    ensures GroupsApart(reqs, results', AddUsed(p.used, rs[0].devId))
  {
    GroupsStillApart(reqs, p.results, p.used, i, v, g, rs, rs[0].devId, results');
    GroupWellPlaced(a, excl, reqs, p, g, s1, rs, results');
  }

  lemma GroupWellPlaced(a: SysState, excl: set<nat>, reqs: seq<RequestV2>, p: Progress, g: seq<nat>, s1: SysState,
      rs: seq<Res>, results': Results)
    requires |p.results| == |reqs| && Filed(p.results, g, rs, results')
    requires Ext(a, p.s, ItemsOf(p.results), excl) && p.s.serviceId == a.serviceId
    requires forall j {:trigger p.results[j]} :: 0 <= j < |reqs| ==> WellPlaced(a, reqs[j], p.results[j])
    requires forall k {:trigger g[k]} :: 0 <= k < |g| ==> g[k] < |reqs| && ConstraintOf(reqs[g[k]]).Virtual?
    requires Placed(p.s, s1, AllToV1(reqs, g), rs, excl)
    ensures forall j {:trigger results'[j]} :: 0 <= j < |reqs| ==> WellPlaced(a, reqs[j], results'[j])
  {
    forall j: nat | j < |reqs| ensures WellPlaced(a, reqs[j], results'[j]) {
      if j in g {
        var k :| 0 <= k < |g| && g[k] == j;
        assert Serves(p.s, rs[k], AllToV1(reqs, g)[k], NextId(p.s.serviceId));
        ServesBefore(a, p.s, ItemsOf(p.results), excl, rs[k], ToV1(reqs[j]), NextId(a.serviceId));
      } else {
        assert results'[j] == p.results[j];
      }
    }
  }

  // ---------------------------------------------------------------------------------
  // The whole list
  // ---------------------------------------------------------------------------------

  /** A failing step places nothing more, a successful one extends the placement. */
  ghost predicate StepOutcome(a: SysState, excl: set<nat>, reqs: seq<RequestV2>, i: nat, p: Progress, p1: Progress,
      status: Status) {
    if status == SUCCESS then PartlyPlaced(a, excl, reqs, i + 1, p1)
    else Extended(a, excl, p1) && p1 == p.(s := p1.s)
  }

  lemma StepAny(a: SysState, excl: set<nat>, reqs: seq<RequestV2>, i: nat, p: Progress)
    requires PartlyPlaced(a, excl, reqs, i, p) && i < |reqs| && p.results[i].None? && Asks(ToV1(reqs[i]), excl)
    requires ConstraintOf(reqs[i]) == AnyDev
    ensures StepOutcome(a, excl, reqs, i, p, StepV2(p, reqs, i).0, StepV2(p, reqs, i).1)
  {
    hide Ext, Inv, Serves, GroupsApart, AllocCu;
    AllocCuAttempts(a, p.s, ItemsOf(p.results), excl, ToV1(reqs[i]));
    var (s1, r) := AllocCu(p.s, ToV1(reqs[i]), false);
    if r.Ok? {
      OneMore(a, excl, reqs, i, p, s1, r.value);
      assert StepV2(p, reqs, i) == (PlaceOne(p, i, s1, r.value), SUCCESS);
    } else {
      AllocError(p.s, ToV1(reqs[i]));
      assert StepV2(p, reqs, i) == (p.(s := s1), r.error) && r.error != SUCCESS;
    }
  }

  lemma AllocError(s: SysState, req: Request)
    ensures var r := AllocCu(s, req, false).1; r.Err? ==> r.error != SUCCESS
  {
  }

  lemma StepHardware(a: SysState, excl: set<nat>, reqs: seq<RequestV2>, i: nat, p: Progress)
    requires PartlyPlaced(a, excl, reqs, i, p) && i < |reqs| && p.results[i].None? && Asks(ToV1(reqs[i]), excl)
    requires ConstraintOf(reqs[i]).Hardware?
    ensures StepOutcome(a, excl, reqs, i, p, StepV2(p, reqs, i).0, StepV2(p, reqs, i).1)
  {
    hide Ext, Inv, Serves, GroupsApart;
    var d := ConstraintOf(reqs[i]).index;
    if d < |p.s.devs| && p.s.devs[d].isLoaded { TryPlaceAttempts(a, p.s, ItemsOf(p.results), excl, d, ToV1(reqs[i])); }
    var (s1, r) := AllocCuFromDev(p.s, d, ToV1(reqs[i]), false);
    if r.Ok? {
      OneMore(a, excl, reqs, i, p, s1, r.value);
      assert StepV2(p, reqs, i) == (PlaceOne(p, i, s1, r.value), SUCCESS);
    } else {
      assert StepV2(p, reqs, i) == (p.(s := s1), r.error) && r.error != SUCCESS;
    }
  }

  lemma StepVirtual(a: SysState, excl: set<nat>, reqs: seq<RequestV2>, i: nat, p: Progress)
    requires PartlyPlaced(a, excl, reqs, i, p) && i < |reqs| && p.results[i].None? && AllAskV2(reqs, excl)
    requires ConstraintOf(reqs[i]).Virtual?
    ensures StepOutcome(a, excl, reqs, i, p, StepV2(p, reqs, i).0, StepV2(p, reqs, i).1)
  {
    hide Ext, Inv, Serves, GroupsApart, SameDevice, Asks, Restored;
    var v := ConstraintOf(reqs[i]).index;
    var g := Group(reqs, p.results, i, v);
    assert i in g;
    NothingDone(p.s, excl);
    SameDeviceAllOrNothing(p.s, p.s, 0, AllToV1(reqs, g), p.used, excl);
    var (s1, r) := SameDevice(p.s, 0, AllToV1(reqs, g), p.used);
    if r.Ok? {
      OneMoreGroup(a, excl, reqs, i, p, v, g, s1, r.value);
      assert StepV2(p, reqs, i) == (PlaceGroup(p, g, s1, r.value), SUCCESS);
    } else {
      StillExtended(a, excl, p, s1);
      assert StepV2(p, reqs, i) == (p.(s := s1), r.error) && r.error != SUCCESS;
    }
  }

  lemma StillExtended(a: SysState, excl: set<nat>, p: Progress, s1: SysState)
    requires Extended(a, excl, p) && Undone(p.s, s1, excl)
    ensures Extended(a, excl, p.(s := s1))
  {
    ExtTrans(a, p.s, s1, ItemsOf(p.results), {}, excl);
    assert ItemsOf(p.results) + {} == ItemsOf(p.results);
  }

  lemma StepPlaces(a: SysState, excl: set<nat>, reqs: seq<RequestV2>, i: nat, p: Progress)
    requires PartlyPlaced(a, excl, reqs, i, p) && i < |reqs| && p.results[i].None? && AllAskV2(reqs, excl)
    ensures StepOutcome(a, excl, reqs, i, p, StepV2(p, reqs, i).0, StepV2(p, reqs, i).1)
  {
    match ConstraintOf(reqs[i])
    case AnyDev => StepAny(a, excl, reqs, i, p);
    case Hardware(_) => StepHardware(a, excl, reqs, i, p);
    case Virtual(_) => StepVirtual(a, excl, reqs, i, p);
    case BadConstraint =>
  }

  lemma {:induction false} RunPlaces(a: SysState, excl: set<nat>, reqs: seq<RequestV2>, i: nat, p: Progress)
    requires PartlyPlaced(a, excl, reqs, i, p) && AllAskV2(reqs, excl)
    ensures var (p1, status) := RunV2(p, reqs, i);
            if status == SUCCESS then PartlyPlaced(a, excl, reqs, |reqs|, p1) else Extended(a, excl, p1)
    decreases |reqs| - i
  {
    hide Extended, WellPlaced, GroupsApart, StepV2, Placements, AllAskV2;
    if i < |reqs| {
      if p.results[i].Some? {
        RunPlaces(a, excl, reqs, i + 1, p);
      } else {
        StepPlaces(a, excl, reqs, i, p);
        var (p1, status) := StepV2(p, reqs, i);
        if status == SUCCESS { RunPlaces(a, excl, reqs, i + 1, p1); }
      }
    }
  }

  lemma {:induction false} AllocatedItems(results: Results)
    requires NoneTwice(results)
    ensures Items(Allocated(results)) == ItemsOf(results) && NoRepeats(Allocated(results))
  {
    if results != [] {
      var rest := results[1..];
      assert forall j :: 1 <= j < |results| ==> results[j] == rest[j - 1];
      assert forall j, k :: 0 <= j < k < |rest| ==> rest[j] == results[j + 1] && rest[k] == results[k + 1];
      AllocatedItems(rest);
      ItemsOfHead(results);
      if results[0].Some? {
        forall j | 0 <= j < |rest| && rest[j].Some? ensures rest[j].value != results[0].value {
          assert rest[j] == results[j + 1];
        }
        assert results[0].value !in ItemsOf(rest);
      }
    }
  }

  lemma ItemsOfHead(results: Results)
    requires results != []
    ensures ItemsOf(results) == ItemsOf(results[1..]) + (if results[0].Some? then {results[0].value} else {})
  {
    forall x | x in ItemsOf(results[1..]) ensures x in ItemsOf(results) {
      var j :| 0 <= j < |results[1..]| && results[1..][j].Some? && results[1..][j].value == x;
      assert results[j + 1].value == x;
    }
    forall x | x in ItemsOf(results) && !(results[0].Some? && results[0].value == x)
      ensures x in ItemsOf(results[1..]) {
      var j :| 0 <= j < |results| && results[j].Some? && results[j].value == x;
      assert results[1..][j - 1].value == x;
    }
  }

  /** What a version 2 list allocation promises on success. */
  ghost predicate PlacedAsAsked(a: SysState, reqs: seq<RequestV2>, s: SysState, results: Results, num: nat) {
    && |results| == |reqs| == num
    && (forall j {:trigger results[j]} :: 0 <= j < |reqs| ==> results[j].Some? && WellPlaced(a, reqs[j], results[j]))
    && (forall j: nat, k: nat {:trigger GroupedRight(reqs, results, j, k)} :: j < |reqs| && k < |reqs| ==>
          GroupedRight(reqs, results, j, k))
    && NoneTwice(results)
    && Inv(s) && Ext(a, s, ItemsOf(results), AskersV2(reqs))
  }

  /** The list is placed exactly as asked, every item once, hardware indices obeyed, items of one
      virtual index together and of different ones apart, with nothing else added; or it fails
      and everything is as before. That includes client tables and exclusive modes, unless a
      client that asks for exclusive use was alone on a shared device. */
  lemma AllocCuListV2Places(s: SysState, reqs: seq<RequestV2>)
    requires Inv(s) && HaveClientsV2(reqs)
    ensures var (s', r) := AllocCuListV2(s, reqs);
            if r.Ok? then
              PlacedAsAsked(s, reqs, s', r.value.0, r.value.1) && s'.serviceId == NextId(s.serviceId) &&
                s'.poolId == s.poolId
            else
              && Inv(s') && Restored(s, s', AskersV2(reqs))
              && (NoneAlone(s, AskersV2(reqs)) ==> s' == s)
  {
    hide Ext, Serves, GroupsApart, RunV2, Restored;
    var excl := AskersV2(reqs);
    NothingDone(s, excl);
    assert Restored(s, s, excl) by { UndoneRestored(s, s, excl); }
    if 0 < |reqs| <= MAX_LIST_V2 {
      var start := Progress(s, NoResults(|reqs|), 0, []);
      NothingPlaced(s, excl, reqs);
      RunPlaces(s, excl, reqs, 0, start);
      var (p, status) := RunV2(start, reqs, 0);
      if status == SUCCESS {
        PlacementDone(s, excl, reqs, p);
      } else {
        AllocatedItems(p.results);
        ReleaseEachRestores(s, p.s, excl, Allocated(p.results));
        if NoneAlone(s, excl) { RestoredExactly(s, ReleaseEach(p.s, Allocated(p.results)), excl); }
      }
    }
  }

  lemma UndoneRestored(a: SysState, s: SysState, excl: set<nat>)
    requires Undone(a, s, excl)
    ensures Restored(a, s, excl)
  {
  }

  lemma PlacementDone(s: SysState, excl: set<nat>, reqs: seq<RequestV2>, p: Progress)
    requires PartlyPlaced(s, excl, reqs, |reqs|, p) && excl == AskersV2(reqs)
    ensures PlacedAsAsked(s, reqs, Advance(p.s, true), p.results, p.num)
  {
    AllPlaced(p.results);
    AdvancedPlacement(s, p.s, ItemsOf(p.results), excl);
  }

  lemma AllPlaced(results: Results)
    requires forall j {:trigger results[j]} :: 0 <= j < |results| ==> results[j].Some?
    ensures Placements(results) == |results|
  {
    assert Flags(results) == seq(|results|, i => 1);
    SumOnes(|results|);
  }

  lemma AdvancedPlacement(a: SysState, s: SysState, items: set<Res>, excl: set<nat>)
    requires Inv(s) && Ext(a, s, items, excl)
    ensures Inv(Advance(s, true)) && Ext(a, Advance(s, true), items, excl)
  {
    AdvanceKeepsInv(s);
    ExtSameTables(a, s, Advance(s, true), items, excl);
  }
}
