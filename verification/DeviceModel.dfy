/** One device: the reference-counted client table with its exclusive mode, and sums over
    the device's compute units. */
module DeviceModel {
  import opened Tables
  import opened Sums
  import opened CuModel

  // ---------------------------------------------------------------------------------
  // Sums over the compute units of a device
  // ---------------------------------------------------------------------------------

  datatype CuMeasure =
    | UsedLoad                       // used load
    | LiveChannels(client: nat)      // live channels of one client
    | FreeChannels                   // channels not in use
    | SpareLoad                      // load neither used nor reserved
    | CapacityFor(req: Request)      // how often the request could still be granted
    | HeldFor(pool: nat)             // load reserved for one pool

  /** How often the request can be granted by this unit alone. */
  function Capacity(cu: CuState, req: Request): int {
    if Matches(cu, req) && req.load > 0 then
      Min(|cu.channels| - Total(Live, cu.channels), Room(cu, req.poolId) / req.load)
    else 0
  }

  function WeighCu(m: CuMeasure, cu: CuState): int {
    match m
    case UsedLoad => Used(cu)
    case LiveChannels(c) => Total(LiveOf(c), cu.channels)
    case FreeChannels => |cu.channels| - Total(Live, cu.channels)
    case SpareLoad => MAX_LOAD - Used(cu)
    case CapacityFor(req) => Capacity(cu, req)
    case HeldFor(p) => Held(cu, p)
  }

  function CuWeights(m: CuMeasure, cus: seq<CuState>): (ws: seq<int>)
    ensures |ws| == |cus|
    ensures forall i :: 0 <= i < |cus| ==> ws[i] == WeighCu(m, cus[i])
  {
    seq(|cus|, i requires 0 <= i < |cus| => WeighCu(m, cus[i]))
  }

  function CusTotal(m: CuMeasure, cus: seq<CuState>): int {
    Sum(CuWeights(m, cus))
  }

  lemma CusUpdate(m: CuMeasure, cus: seq<CuState>, c: nat, cu: CuState)
    requires c < |cus|
    ensures CusTotal(m, cus[c := cu]) == CusTotal(m, cus) - WeighCu(m, cus[c]) + WeighCu(m, cu)
  {
    assert CuWeights(m, cus[c := cu]) == CuWeights(m, cus)[c := WeighCu(m, cu)];
    SumUpdate(CuWeights(m, cus), c, WeighCu(m, cu));
  }

  lemma LiveNonNegative(cus: seq<CuState>, c: nat)
    ensures CusTotal(LiveChannels(c), cus) >= 0
  {
    forall i | 0 <= i < |cus| ensures WeighCu(LiveChannels(c), cus[i]) >= 0 {
      TotalNonNegative(LiveOf(c), cus[i].channels);
    }
    SumNonNegative(CuWeights(LiveChannels(c), cus));
  }

  /** A client with a live channel on one unit has one on the device. */
  lemma LiveMember(cus: seq<CuState>, c: nat, i: nat)
    requires i < |cus|
    ensures Total(LiveOf(c), cus[i].channels) <= CusTotal(LiveChannels(c), cus)
  {
    forall j | 0 <= j < |cus| ensures WeighCu(LiveChannels(c), cus[j]) >= 0 {
      TotalNonNegative(LiveOf(c), cus[j].channels);
    }
    SumMember(CuWeights(LiveChannels(c), cus), i);
  }

  // ---------------------------------------------------------------------------------
  // The client table
  // ---------------------------------------------------------------------------------

  function ProcIds(ps: seq<Proc>): (ids: seq<nat>)
    ensures |ids| == |ps|
    ensures forall i :: 0 <= i < |ps| ==> ids[i] == ps[i].clientId
  {
    seq(|ps|, i requires 0 <= i < |ps| => ps[i].clientId)
  }

  /** First entry of client c (of id 0: first empty entry); |ps| when there is none. */
  function FindProc(ps: seq<Proc>, c: nat): (k: nat)
    ensures k <= |ps|
    ensures k < |ps| ==> ps[k].clientId == c
    ensures forall j :: 0 <= j < k ==> ps[j].clientId != c
  {
    var k := Find(ProcIds(ps), c);
    assert forall j :: 0 <= j < k ==> ProcIds(ps)[j] != c;
    k
  }

  function EmptyTable(): (ps: ClientTable)
    ensures forall i :: 0 <= i < |ps| ==> ps[i] == Proc(0, 0)
  {
    seq(MAX_DEV_CLIENTS, i => Proc(0, 0))
  }

  predicate OthersPresent(ps: seq<Proc>, c: nat) {
    exists k :: 0 <= k < |ps| && ps[k].clientId != 0 && ps[k].clientId != c
  }

  function RefOf(ps: seq<Proc>, c: nat): int {
    var k := FindProc(ps, c);
    if k < |ps| then ps[k].ref else 0
  }

  /** Counts one more use of the device by the client, or refuses. */
  function Register(d: DevState, req: Request): Option<DevState>
  {
    var ps, c := d.procs, req.clientId;
    if d.isExcl then
      if ps[0].clientId == c then Some(d.(procs := ps[0 := ps[0].(ref := ps[0].ref + 1)])) else None
    else if req.devExcl then
      if OthersPresent(ps, c) then None
      else Some(d.(isExcl := true, procs := EmptyTable()[0 := Proc(c, RefOf(ps, c) + 1)]))
    else
      var k, e := FindProc(ps, c), FindProc(ps, 0);
      if k < |ps| then Some(d.(procs := ps[k := ps[k].(ref := ps[k].ref + 1)]))
      else if e < |ps| then Some(d.(procs := ps[e := Proc(c, 1)]))
      else None
  }

  /** Counts one use less; the entry is emptied, and exclusive mode left, at zero. */
  function Unregister(d: DevState, c: nat): DevState
  {
    var ps := d.procs;
    var k := if d.isExcl then 0 else FindProc(ps, c);
    if !d.isLoaded || k == |ps| || ps[k].clientId != c then d
    else if ps[k].ref == 1 then d.(isExcl := false, procs := ps[k := Proc(0, 0)])
    else d.(procs := ps[k := ps[k].(ref := ps[k].ref - 1)])
  }

  /** Loaded, and willing to count this client once more. */
  predicate Usable(d: DevState, req: Request)
  {
    d.isLoaded && Register(d, req).Some?
  }

  // ---------------------------------------------------------------------------------
  // Invariant
  // ---------------------------------------------------------------------------------

  ghost predicate DevShape(d: DevState) {
    && |d.cus| <= MAX_KERNELS
    && (forall c {:trigger CuInv(d.cus[c])} :: 0 <= c < |d.cus| ==> CuInv(d.cus[c]))
    && (if d.isLoaded then |d.cus| >= 1 else d.cus == [] && !d.isExcl)
  }

  function OneIf(b: bool): int {
    if b then 1 else 0
  }

  predicate GoodProc(d: DevState, k: nat, pending: nat)
    requires k < |d.procs|
  {
    var p := d.procs[k];
    if p.clientId == 0 then p.ref == 0
    else
      && p.ref == CusTotal(LiveChannels(p.clientId), d.cus) + OneIf(p.clientId == pending)
      && p.ref > 0
      && (d.isExcl ==> k == 0)
  }

  ghost predicate DistinctProcs(ps: seq<Proc>) {
    forall i, j :: 0 <= i < j < |ps| && ps[i].clientId != 0 ==> ps[i].clientId != ps[j].clientId
  }

  predicate Listed(d: DevState, c: nat, pending: nat) {
    c != 0 && CusTotal(LiveChannels(c), d.cus) + OneIf(c == pending) > 0 ==> FindProc(d.procs, c) < |d.procs|
  }

  /** Every entry's count is the number of live channels of its client on the device (plus
      one for a `pending` client whose channel is being put or cleared; 0 means none), every
      owner of a live channel is listed once, and an exclusive device lists one client, in
      entry 0. */
  ghost predicate RefsMatch(d: DevState, pending: nat) {
    && (forall k :: 0 <= k < |d.procs| ==> GoodProc(d, k, pending))
    && DistinctProcs(d.procs)
    && (forall c: nat :: Listed(d, c, pending))
    && (d.isExcl ==> d.procs[0].clientId != 0)
  }

  ghost predicate DevInv(d: DevState) {
    DevShape(d) && RefsMatch(d, 0)
  }

  /** A client's count is the number of its live channels on the device; it has one entry if
      it has any channel, and none otherwise. */
  lemma RefCountsChannels(d: DevState, c: nat)
    requires DevInv(d) && c != 0
    ensures RefOf(d.procs, c) == CusTotal(LiveChannels(c), d.cus)
    ensures FindProc(d.procs, c) < |d.procs| <==> CusTotal(LiveChannels(c), d.cus) > 0
    ensures forall j, k :: 0 <= j < k < |d.procs| && d.procs[j].clientId == c ==> d.procs[k].clientId != c
  {
    LiveNonNegative(d.cus, c);
    assert Listed(d, c, 0);
    var k := FindProc(d.procs, c);
    if k < |d.procs| { assert GoodProc(d, k, 0); }
  }

  /** Every live channel of an exclusive device is its one client's. */
  lemma ExclusiveIsOwned(d: DevState, c: nat, i: nat)
    requires DevInv(d) && d.isExcl && c < |d.cus| && i < |d.cus[c].channels| && d.cus[c].channels[i].load != 0
    ensures d.cus[c].channels[i].clientId == d.procs[0].clientId
    ensures forall k :: 0 < k < |d.procs| ==> d.procs[k] == Proc(0, 0)
  {
    forall k | 0 < k < |d.procs| ensures d.procs[k] == Proc(0, 0) { assert GoodProc(d, k, 0); }
    assert CuInv(d.cus[c]);
    assert GoodChannel(d.cus[c].channels[i], i);
    var b := d.cus[c].channels[i].clientId;
    TotalMember(LiveOf(b), d.cus[c].channels, i);
    LiveMember(d.cus, b, c);
    RefCountsChannels(d, b);
    assert d.procs[FindProc(d.procs, b)].clientId == b;
  }

  // ---------------------------------------------------------------------------------
  // What registering and unregistering keep
  // ---------------------------------------------------------------------------------

  lemma RegisterRefs(d: DevState, req: Request)
    requires DevInv(d) && Usable(d, req) && req.clientId != 0
    ensures DevShape(Register(d, req).value) && RefsMatch(Register(d, req).value, req.clientId)
  {
    var c := req.clientId;
    if !d.isExcl && req.devExcl {
      OnlyClient(d, c);
    } else {
      var k := RegisterEntry(d, req);
      LiveNonNegative(d.cus, c);
      EntrySet(d, k, 0, c, c);
    }
  }

  /** Unless the device turns exclusive, registering rewrites one entry: the client's, or
      the first empty one. */
  lemma RegisterEntry(d: DevState, req: Request) returns (k: nat)
    requires DevInv(d) && Usable(d, req) && req.clientId != 0
    requires d.isExcl || !req.devExcl
    ensures k < |d.procs|
    ensures if FindProc(d.procs, req.clientId) < |d.procs| then FindProc(d.procs, req.clientId) == k
            else d.procs[k].clientId == 0
    ensures d.isExcl ==> k == 0
    ensures Register(d, req).value
              == SetProc(d, k, Proc(req.clientId, CusTotal(LiveChannels(req.clientId), d.cus) + 1))
  {
    var c := req.clientId;
    k := FindProc(d.procs, c);
    if d.isExcl {
      Found(d.procs, 0);
    }
    if k < |d.procs| {
      assert GoodProc(d, k, 0);
    } else {
      LiveNonNegative(d.cus, c);
      assert Listed(d, c, 0);
      k := FindProc(d.procs, 0);
    }
  }

  /** The entry of an id that a duplicate-free table holds is where that id is found. */
  lemma Found(ps: seq<Proc>, k: nat)
    requires DistinctProcs(ps) && k < |ps| && ps[k].clientId != 0
    ensures FindProc(ps, ps[k].clientId) == k
  {
  }

  function SetProc(d: DevState, k: nat, p: Proc): DevState
    requires k < |d.procs|
  {
    d.(procs := d.procs[k := p])
  }

  /** Entry k, of client c or empty with c unlisted, is rewritten to c's new count: the table
      matches again, with `pending'` in place of `pending`. */
  lemma EntrySet(d: DevState, k: nat, pending: nat, c: nat, pending': nat)
    requires RefsMatch(d, pending) && k < |d.procs| && c != 0
    requires if FindProc(d.procs, c) < |d.procs| then FindProc(d.procs, c) == k else d.procs[k].clientId == 0
    requires d.isExcl ==> k == 0
    requires (pending == 0 || pending == c) && (pending' == 0 || pending' == c)
    requires CusTotal(LiveChannels(c), d.cus) + OneIf(c == pending') > 0
    ensures RefsMatch(SetProc(d, k, Proc(c, CusTotal(LiveChannels(c), d.cus) + OneIf(c == pending'))), pending')
  {
    var p := Proc(c, CusTotal(LiveChannels(c), d.cus) + OneIf(c == pending'));
    var d' := SetProc(d, k, p);
    OnlyEntryOf(d.procs, k, c);
    forall j | 0 <= j < |d'.procs| ensures GoodProc(d', j, pending') {
      assert GoodProc(d, j, pending);
    }
    forall b: nat ensures Listed(d', b, pending') {
      assert Listed(d, b, pending);
      StillFound(d.procs, k, p, b);
    }
  }

  /** Where c is listed in entry k if at all, no other entry is c's. */
  lemma OnlyEntryOf(ps: seq<Proc>, k: nat, c: nat)
    requires DistinctProcs(ps) && k < |ps| && c != 0
    requires if FindProc(ps, c) < |ps| then FindProc(ps, c) == k else ps[k].clientId == 0
    ensures forall j :: 0 <= j < |ps| && j != k ==> ps[j].clientId != c
  {
  }

  /** Rewriting entry k loses no client but the entry's own. */
  lemma StillFound(ps: seq<Proc>, k: nat, p: Proc, b: nat)
    requires k < |ps|
    ensures FindProc(ps, b) < |ps| && ps[k].clientId != b ==> FindProc(ps[k := p], b) < |ps|
    ensures FindProc(ps[k := p], p.clientId) < |ps|
  {
    var j := FindProc(ps, b);
    if j < |ps| && j != k { assert ps[k := p][j].clientId == b; }
    assert ps[k := p][k].clientId == p.clientId;
  }

  /** The entry of client c is emptied once c has no live channel left. */
  lemma EntryCleared(d: DevState, k: nat, c: nat)
    requires RefsMatch(d, c) && k < |d.procs| && c != 0 && d.procs[k].clientId == c
    requires CusTotal(LiveChannels(c), d.cus) == 0
    ensures RefsMatch(SetProc(d, k, Proc(0, 0)).(isExcl := false), 0)
  {
    var d' := SetProc(d, k, Proc(0, 0)).(isExcl := false);
    forall j | 0 <= j < |d'.procs| ensures GoodProc(d', j, 0) {
      assert GoodProc(d, j, c);
    }
    forall b: nat ensures Listed(d', b, 0) {
      assert Listed(d, b, c);
      StillFound(d.procs, k, Proc(0, 0), b);
    }
  }

  /** A shared device that lists no other client becomes exclusive to this one. */
  lemma OnlyClient(d: DevState, c: nat)
    requires RefsMatch(d, 0) && c != 0 && !OthersPresent(d.procs, c)
    ensures RefsMatch(d.(isExcl := true, procs := EmptyTable()[0 := Proc(c, RefOf(d.procs, c) + 1)]), c)
  {
    var d' := d.(isExcl := true, procs := EmptyTable()[0 := Proc(c, RefOf(d.procs, c) + 1)]);
    LiveNonNegative(d.cus, c);
    var k := FindProc(d.procs, c);
    assert Listed(d, c, 0);
    if k < |d.procs| { assert GoodProc(d, k, 0); }
    assert d'.procs[0].clientId == c;
    forall b: nat ensures Listed(d', b, c) {
      assert Listed(d, b, 0);
      LiveNonNegative(d.cus, b);
    }
  }

  lemma UnregisterRefs(d: DevState, c: nat)
    requires DevShape(d) && RefsMatch(d, c) && d.isLoaded && c != 0
    ensures DevInv(Unregister(d, c))
  {
    LiveNonNegative(d.cus, c);
    assert Listed(d, c, c);
    var k := FindProc(d.procs, c);
    assert GoodProc(d, k, c);
    if d.procs[k].ref == 1 {
      EntryCleared(d, k, c);
    } else {
      EntrySet(d, k, c, c, 0);
    }
  }

  /** A channel moves between its owner's pending use and its table of live channels. */
  lemma PendingSettles(d: DevState, cus: seq<CuState>, c: nat)
    requires RefsMatch(d, c) && c != 0
    requires forall b: nat :: b != 0 ==>
               CusTotal(LiveChannels(b), cus) == CusTotal(LiveChannels(b), d.cus) + OneIf(b == c)
    ensures RefsMatch(d.(cus := cus), 0)
  {
    var d' := d.(cus := cus);
    forall k | 0 <= k < |d'.procs| ensures GoodProc(d', k, 0) { assert GoodProc(d, k, c); }
    forall b: nat ensures Listed(d', b, 0) { assert Listed(d, b, c); }
  }

  lemma SettledBecomesPending(d: DevState, cus: seq<CuState>, c: nat)
    requires RefsMatch(d, 0) && c != 0
    requires forall b: nat :: b != 0 ==>
               CusTotal(LiveChannels(b), d.cus) == CusTotal(LiveChannels(b), cus) + OneIf(b == c)
    ensures RefsMatch(d.(cus := cus), c)
  {
    var d' := d.(cus := cus);
    forall k | 0 <= k < |d'.procs| ensures GoodProc(d', k, c) { assert GoodProc(d, k, 0); }
    forall b: nat ensures Listed(d', b, c) { assert Listed(d, b, 0); }
  }

  // ---------------------------------------------------------------------------------
  // Channel steps on a device
  // ---------------------------------------------------------------------------------

  function SetCu(d: DevState, c: nat, cu: CuState): DevState
    requires c < |d.cus|
  {
    d.(cus := d.cus[c := cu])
  }

  lemma PutOnDevice(d: DevState, c: nat, req: Request, id: nat)
    requires DevShape(d) && c < |d.cus| && Feasible(d.cus[c], req) && req.clientId != 0 && id != 0
    ensures DevShape(SetCu(d, c, PutChannel(d.cus[c], req, id)))
    ensures RefsMatch(d, req.clientId) ==> DevInv(SetCu(d, c, PutChannel(d.cus[c], req, id)))
  {
    var cu, cu' := d.cus[c], PutChannel(d.cus[c], req, id);
    PutKeepsInv(cu, req, id);
    assert GoodChannel(cu.channels[FirstFree(cu.channels)], FirstFree(cu.channels));
    if RefsMatch(d, req.clientId) {
      forall b: nat | b != 0
        ensures CusTotal(LiveChannels(b), d.cus[c := cu'])
                  == CusTotal(LiveChannels(b), d.cus) + OneIf(b == req.clientId)
      {
        CusUpdate(LiveChannels(b), d.cus, c, cu');
        TotalUpdate(LiveOf(b), cu.channels, FirstFree(cu.channels), Granted(req, FirstFree(cu.channels), id));
      }
      PendingSettles(d, d.cus[c := cu'], req.clientId);
    }
  }

  lemma ClearOnDevice(d: DevState, c: nat, i: nat)
    requires DevShape(d) && c < |d.cus| && i < |d.cus[c].channels| && d.cus[c].channels[i].load != 0
    ensures d.cus[c].channels[i].clientId != 0
    ensures DevShape(SetCu(d, c, ClearChannel(d.cus[c], i)))
    ensures RefsMatch(d, 0) ==> RefsMatch(SetCu(d, c, ClearChannel(d.cus[c], i)), d.cus[c].channels[i].clientId)
  {
    var cu, cu' := d.cus[c], ClearChannel(d.cus[c], i);
    ClearKeepsInv(cu, i);
    assert GoodChannel(cu.channels[i], i);
    if RefsMatch(d, 0) {
      forall b: nat | b != 0
        ensures CusTotal(LiveChannels(b), d.cus)
                  == CusTotal(LiveChannels(b), d.cus[c := cu']) + OneIf(b == cu.channels[i].clientId)
      {
        CusUpdate(LiveChannels(b), d.cus, c, cu');
        TotalUpdate(LiveOf(b), cu.channels, i, FreeChannel(i));
      }
      SettledBecomesPending(d, d.cus[c := cu'], cu.channels[i].clientId);
    }
  }

  // ---------------------------------------------------------------------------------
  // Register, then unregister
  // ---------------------------------------------------------------------------------

  /** Registering without a grant and taking it back restores the device EXACTLY when the
      request did not just turn a shared device, on which the client already has channels,
      into an exclusive one. */
  lemma UndoRegister(d: DevState, req: Request)
    requires DevInv(d) && Usable(d, req) && req.clientId != 0
    ensures var d' := Unregister(Register(d, req).value, req.clientId);
            && DevInv(d')
            && (d' == d <==> !req.devExcl || d.isExcl || FindProc(d.procs, req.clientId) == |d.procs|)
  {
    var c := req.clientId;
    var d1 := Register(d, req).value;
    RegisterRefs(d, req);
    UnregisterRefs(d1, c);
    var k, e := FindProc(d.procs, c), FindProc(d.procs, 0);
    if k < |d.procs| { assert GoodProc(d, k, 0); }
    if d.isExcl {
      assert d1.procs[0 := d.procs[0]] == d.procs;
    } else if req.devExcl {
      if k == |d.procs| {
        forall i | 0 <= i < |d.procs| ensures d.procs[i] == EmptyTable()[i] { assert GoodProc(d, i, 0); }
        assert d.procs == EmptyTable();
        assert d1.procs[0 := Proc(0, 0)] == d.procs;
      }
    } else if k < |d.procs| {
      Found(d1.procs, k);
      assert d1.procs[k := d.procs[k]] == d.procs;
    } else {
      assert GoodProc(d, e, 0);
      Found(d1.procs, e);
      assert d1.procs[e := Proc(0, 0)] == d.procs;
    }
  }

  /** Usability is what the table says about other clients and free entries; it outlives a
      registration that is taken back, and one that is used. */
  lemma UsableIff(d: DevState, req: Request)
    requires DevInv(d) && req.clientId != 0
    ensures Usable(d, req) <==>
              && d.isLoaded
              && (if d.isExcl || req.devExcl then !OthersPresent(d.procs, req.clientId)
                  else FindProc(d.procs, req.clientId) < |d.procs| || FindProc(d.procs, 0) < |d.procs|)
  {
    if d.isExcl {
      forall k | 0 <= k < |d.procs| ensures k > 0 ==> d.procs[k].clientId == 0 {
        assert GoodProc(d, k, 0);
      }
    }
  }

  lemma UndoKeepsUsable(d: DevState, req: Request)
    requires DevInv(d) && Usable(d, req) && req.clientId != 0
    ensures Usable(Unregister(Register(d, req).value, req.clientId), req)
  {
    var d' := Unregister(Register(d, req).value, req.clientId);
    UndoRegister(d, req);
    if d' != d {
      var k := FindProc(d.procs, req.clientId);
      assert GoodProc(d, k, 0);
      assert Register(d, req).value.procs[0].ref == d.procs[k].ref + 1;
      assert d'.isExcl && d'.procs[0].clientId == req.clientId;
    }
  }

  /** A client that has registered can register again. */
  lemma RegisterKeepsUsable(d: DevState, req: Request)
    requires Usable(d, req)
    ensures forall cus :: Usable(Register(d, req).value.(cus := cus), req)
  {
    var d' := Register(d, req).value;
    if !d'.isExcl {
      var k, e := FindProc(d.procs, req.clientId), FindProc(d.procs, 0);
      assert d'.procs[if k < |d.procs| then k else e].clientId == req.clientId;
    }
  }

  // ---------------------------------------------------------------------------------
  // Sums over the devices
  // ---------------------------------------------------------------------------------

  datatype DevMeasure = AllUnits(m: CuMeasure) | UsableUnits(req: Request)

  function WeighDev(m: DevMeasure, dev: DevState): int {
    match m
    case AllUnits(cm) => CusTotal(cm, dev.cus)
    case UsableUnits(req) => if Usable(dev, req) then CusTotal(CapacityFor(req), dev.cus) else 0
  }

  function DevWeights(m: DevMeasure, devs: seq<DevState>): (ws: seq<int>)
    ensures |ws| == |devs|
    ensures forall i :: 0 <= i < |devs| ==> ws[i] == WeighDev(m, devs[i])
  {
    seq(|devs|, i requires 0 <= i < |devs| => WeighDev(m, devs[i]))
  }

  function DevsTotal(m: DevMeasure, devs: seq<DevState>): int {
    Sum(DevWeights(m, devs))
  }

  lemma OneDeviceChanged(m: DevMeasure, devs: seq<DevState>, devs': seq<DevState>, d: nat)
    requires |devs| == |devs'| && d < |devs|
    requires forall e :: 0 <= e < |devs| && e != d ==> WeighDev(m, devs[e]) == WeighDev(m, devs'[e])
    ensures DevsTotal(m, devs') == DevsTotal(m, devs) - WeighDev(m, devs[d]) + WeighDev(m, devs'[d])
  {
    assert DevWeights(m, devs') == DevWeights(m, devs)[d := WeighDev(m, devs'[d])];
    SumUpdate(DevWeights(m, devs), d, WeighDev(m, devs'[d]));
  }

  lemma SameWeights(m: DevMeasure, devs: seq<DevState>, devs': seq<DevState>)
    requires |devs| == |devs'|
    requires forall e :: 0 <= e < |devs| ==> WeighDev(m, devs[e]) == WeighDev(m, devs'[e])
    ensures DevsTotal(m, devs') == DevsTotal(m, devs)
  {
    assert DevWeights(m, devs') == DevWeights(m, devs);
  }
}
