/** One compute unit: its load accounting, its invariant, and the steps that change its
    tables. Every step here is total on the tables and knows nothing of the daemon's
    counters: the used load is DEFINED as a sum over the tables. */
module CuModel {
  import opened Tables
  import opened Sums

  // ---------------------------------------------------------------------------------
  // Sums over the channels
  // ---------------------------------------------------------------------------------

  /** What a sum over the channels counts: the load held by one pool, the load held by no
      pool of a given set, the channels of one client, or the live channels. */
  datatype Measure = LoadInPool(pool: nat) | LoadOutside(pools: set<nat>) | LiveOf(client: nat) | Live

  function Weigh(m: Measure, ch: Channel): (w: int)
    ensures w >= 0
  {
    match m
    case LoadInPool(p) => if ch.poolId == p then ch.load else 0
    case LoadOutside(ps) => if ch.poolId in ps then 0 else ch.load
    case LiveOf(c) => if ch.clientId == c then 1 else 0
    case Live => if ch.load != 0 then 1 else 0
  }

  function Weights(m: Measure, chs: seq<Channel>): (ws: seq<int>)
    ensures |ws| == |chs|
    ensures forall i :: 0 <= i < |chs| ==> ws[i] == Weigh(m, chs[i])
  {
    seq(|chs|, i requires 0 <= i < |chs| => Weigh(m, chs[i]))
  }

  function Total(m: Measure, chs: seq<Channel>): int {
    Sum(Weights(m, chs))
  }

  lemma TotalUpdate(m: Measure, chs: seq<Channel>, i: nat, ch: Channel)
    requires i < |chs|
    ensures Total(m, chs[i := ch]) == Total(m, chs) - Weigh(m, chs[i]) + Weigh(m, ch)
  {
    assert Weights(m, chs[i := ch]) == Weights(m, chs)[i := Weigh(m, ch)];
    SumUpdate(Weights(m, chs), i, Weigh(m, ch));
  }

  lemma TotalUpdateAll(chs: seq<Channel>, i: nat, ch: Channel)
    requires i < |chs|
    ensures forall m :: Total(m, chs[i := ch]) == Total(m, chs) - Weigh(m, chs[i]) + Weigh(m, ch)
  {
    forall m ensures Total(m, chs[i := ch]) == Total(m, chs) - Weigh(m, chs[i]) + Weigh(m, ch) {
      TotalUpdate(m, chs, i, ch);
    }
  }

  lemma TotalMember(m: Measure, chs: seq<Channel>, i: nat)
    requires i < |chs|
    ensures Weigh(m, chs[i]) <= Total(m, chs)
  {
    SumMember(Weights(m, chs), i);
  }

  lemma TotalNonNegative(m: Measure, chs: seq<Channel>)
    ensures Total(m, chs) >= 0
  {
    SumNonNegative(Weights(m, chs));
  }

  lemma TotalMonotone(m: Measure, chs: seq<Channel>, chs': seq<Channel>)
    requires |chs| == |chs'|
    requires forall i :: 0 <= i < |chs| ==> Weigh(m, chs[i]) <= Weigh(m, chs'[i])
    ensures Total(m, chs) <= Total(m, chs')
  {
    SumMonotone(Weights(m, chs), Weights(m, chs'));
  }

  lemma TotalZero(m: Measure, chs: seq<Channel>)
    requires forall i :: 0 <= i < |chs| ==> Weigh(m, chs[i]) == 0
    ensures Total(m, chs) == 0
  {
    SumZeros(Weights(m, chs));
  }

  /** Taking a pool out of the set moves that pool's load outside. */
  lemma OutsideSplit(chs: seq<Channel>, ps: set<nat>, p: nat)
    requires p !in ps
    ensures Total(LoadOutside(ps), chs) == Total(LoadOutside(ps + {p}), chs) + Total(LoadInPool(p), chs)
  {
    SumAdd(Weights(LoadOutside(ps + {p}), chs), Weights(LoadInPool(p), chs), Weights(LoadOutside(ps), chs));
  }

  lemma LiveBound(chs: seq<Channel>)
    ensures Total(Live, chs) <= |chs|
    ensures Total(Live, chs) == |chs| <==> FirstFree(chs) == |chs|
  {
    var ones := seq(|chs|, i => 1);
    SumOnes(|chs|);
    SumMonotone(Weights(Live, chs), ones);
    var f := FirstFree(chs);
    if f < |chs| {
      SumMonotone(Weights(Live, chs), ones[f := 0]);
      SumUpdate(ones, f, 0);
    } else {
      assert Weights(Live, chs) == ones;
    }
  }

  lemma {:induction false} SumOnes(n: nat)
    ensures Sum(seq(n, i => 1)) == n
  {
    if n > 0 {
      assert seq(n, i => 1)[..n - 1] == seq(n - 1, i => 1);
      SumOnes(n - 1);
    }
  }

  function FreeFrom(chs: seq<Channel>, i: nat): (k: nat)
    requires i <= |chs|
    ensures i <= k <= |chs|
    ensures k < |chs| ==> chs[k].load == 0
    ensures forall j :: i <= j < k ==> chs[j].load != 0
    decreases |chs| - i
  {
    if i == |chs| || chs[i].load == 0 then i else FreeFrom(chs, i + 1)
  }

  /** The lowest free channel; |chs| when every channel is live. */
  function FirstFree(chs: seq<Channel>): (k: nat)
    ensures k <= |chs|
    ensures k < |chs| ==> chs[k].load == 0
    ensures forall j :: 0 <= j < k ==> chs[j].load != 0
  {
    FreeFrom(chs, 0)
  }

  // ---------------------------------------------------------------------------------
  // Reserve slots and the load a unit has in use
  // ---------------------------------------------------------------------------------

  function SlotLoads(rs: seq<Slot>): (ws: seq<int>)
    ensures |ws| == |rs|
    ensures forall i :: 0 <= i < |rs| ==> ws[i] == rs[i].load
  {
    seq(|rs|, i requires 0 <= i < |rs| => rs[i].load)
  }

  function Reserved(rs: seq<Slot>): int {
    Sum(SlotLoads(rs))
  }

  function PoolIds(rs: seq<Slot>): (ps: seq<nat>)
    ensures |ps| == |rs|
    ensures forall i :: 0 <= i < |rs| ==> ps[i] == rs[i].poolId
  {
    seq(|rs|, i requires 0 <= i < |rs| => rs[i].poolId)
  }

  function Pools(rs: seq<Slot>): set<nat> {
    set p | p in PoolIds(rs)
  }

  function FindSlot(rs: seq<Slot>, p: nat): (k: nat)
    ensures k <= |rs|
    ensures k < |rs| ==> rs[k].poolId == p
    ensures forall j :: 0 <= j < k ==> rs[j].poolId != p
    ensures k < |rs| <==> p in Pools(rs)
  {
    var k := Find(PoolIds(rs), p);
    assert forall j :: 0 <= j < k ==> PoolIds(rs)[j] != p;
    k
  }

  /** Used load: all reserved load, plus the load of every channel that was allocated from
      no pool still reserved here (the default pool, or a pool whose slot is gone). */
  function Used(cu: CuState): int {
    Reserved(cu.reserves) + Total(LoadOutside(Pools(cu.reserves)), cu.channels)
  }

  /** The load a request on pool p (0 is the default pool) can still get. */
  function Room(cu: CuState, p: nat): int {
    if p == 0 then
      MAX_LOAD - Used(cu)
    else
      var k := FindSlot(cu.reserves, p);
      if k < |cu.reserves| then cu.reserves[k].load - Total(LoadInPool(p), cu.channels) else 0
  }

  // ---------------------------------------------------------------------------------
  // Invariant
  // ---------------------------------------------------------------------------------

  predicate GoodChannel(ch: Channel, i: nat) {
    && ch.channelId == i
    && (if ch.load == 0 then ch == FreeChannel(i) else ch.clientId != 0 && ch.serviceId != 0)
  }

  /** Whether the client has a live channel here. */
  predicate Owns(chs: seq<Channel>, c: nat) {
    c != 0 && Total(LiveOf(c), chs) > 0
  }

  predicate GoodSlot(s: Slot, chs: seq<Channel>) {
    && s.poolId != 0
    && s.load > 0
    && Total(LoadInPool(s.poolId), chs) <= s.load
  }

  ghost predicate CuInv(cu: CuState) {
    && |cu.channels| == MAX_CHANNELS
    && (forall i {:trigger GoodChannel(cu.channels[i], i)} :: 0 <= i < |cu.channels| ==> GoodChannel(cu.channels[i], i))
    && Distinct(cu.clients)
    && (forall c: nat {:trigger Owns(cu.channels, c)} :: c in cu.clients <==> Owns(cu.channels, c))
    && |cu.reserves| <= MAX_RESERVES
    && Distinct(PoolIds(cu.reserves))
    && (forall i {:trigger GoodSlot(cu.reserves[i], cu.channels)} :: 0 <= i < |cu.reserves| ==>
       GoodSlot(cu.reserves[i], cu.channels))
    && Used(cu) <= MAX_LOAD
  }

  lemma UsedBounds(cu: CuState)
    ensures 0 <= Reserved(cu.reserves) <= Used(cu)
  {
    SumNonNegative(SlotLoads(cu.reserves));
    TotalNonNegative(LoadOutside(Pools(cu.reserves)), cu.channels);
  }

  lemma RoomBounds(cu: CuState, p: nat)
    requires CuInv(cu)
    ensures 0 <= Room(cu, p) <= MAX_LOAD
  {
    UsedBounds(cu);
    var k := FindSlot(cu.reserves, p);
    if p != 0 && k < |cu.reserves| {
      assert GoodSlot(cu.reserves[k], cu.channels);
      SumMember(SlotLoads(cu.reserves), k);
      TotalNonNegative(LoadInPool(p), cu.channels);
    }
  }

  /** A client list never outgrows the live channels, so the daemon's scan for the end of
      the list stays inside its array. */
  lemma {:induction false} ClientsBound(cs: seq<nat>, chs: seq<Channel>)
    requires Distinct(cs)
    requires forall c :: c in cs ==> Owns(chs, c)
    requires forall i :: 0 <= i < |chs| && chs[i].clientId != 0 ==> chs[i].load != 0
    ensures |cs| <= Total(Live, chs)
  {
    if chs == [] {
      if cs != [] { assert Owns(chs, cs[0]); }
    } else {
      var n := |chs| - 1;
      var front, last := chs[..n], chs[n];
      TotalLast(Live, chs);
      var cs' := Remove(cs, last.clientId);
      RemoveMembers(cs, last.clientId);
      forall c | c in cs' ensures Owns(front, c) {
        TotalLast(LiveOf(c), chs);
        assert Owns(chs, c);
      }
      ClientsBound(cs', front);
      if last.clientId in cs { assert Owns(chs, last.clientId); }
    }
  }

  lemma TotalLast(m: Measure, chs: seq<Channel>)
    requires chs != []
    ensures Total(m, chs) == Total(m, chs[..|chs| - 1]) + Weigh(m, chs[|chs| - 1])
  {
    assert Weights(m, chs)[..|chs| - 1] == Weights(m, chs[..|chs| - 1]);
  }

  // ---------------------------------------------------------------------------------
  // Allocating and releasing a channel
  // ---------------------------------------------------------------------------------

  predicate Feasible(cu: CuState, req: Request) {
    0 < req.load <= Room(cu, req.poolId) && FirstFree(cu.channels) < |cu.channels|
  }

  function Granted(req: Request, i: nat, id: nat): Channel
    requires req.load > 0
  {
    Channel(i, id, req.poolId, req.clientId, req.load)
  }

  function AddClient(cs: seq<nat>, c: nat): seq<nat> {
    if c in cs then cs else cs + [c]
  }

  /** The lowest free channel is given to the request; the client joins the client list. */
  function PutChannel(cu: CuState, req: Request, id: nat): CuState
    requires Feasible(cu, req)
  {
    var i := FirstFree(cu.channels);
    cu.(channels := cu.channels[i := Granted(req, i, id)],
        clients := AddClient(cu.clients, req.clientId))
  }

  /** The channel is freed; the client leaves the list with its last channel. */
  function ClearChannel(cu: CuState, i: nat): CuState
    requires i < |cu.channels|
  {
    var c := cu.channels[i].clientId;
    var chs := cu.channels[i := FreeChannel(i)];
    cu.(channels := chs,
        clients := if Total(LiveOf(c), chs) == 0 then Remove(cu.clients, c) else cu.clients)
  }

  lemma PutKeepsInv(cu: CuState, req: Request, id: nat)
    requires CuInv(cu) && Feasible(cu, req) && req.clientId != 0 && id != 0
    ensures CuInv(PutChannel(cu, req, id))
    ensures Used(PutChannel(cu, req, id)) == Used(cu) + (if req.poolId == 0 then req.load else 0)
  {
    var cu' := PutChannel(cu, req, id);
    var i := FirstFree(cu.channels);
    var ch := Granted(req, i, id);
    TotalUpdateAll(cu.channels, i, ch);
    ZeroPoolHasNoSlot(cu);
    assert GoodChannel(cu.channels[i], i);
    forall k | 0 <= k < |cu.reserves| ensures GoodSlot(cu'.reserves[k], cu'.channels) {
      assert GoodSlot(cu.reserves[k], cu.channels);
      if cu.reserves[k].poolId == req.poolId {
        assert PoolIds(cu.reserves)[k] == PoolIds(cu.reserves)[FindSlot(cu.reserves, req.poolId)];
      }
    }
    forall c: nat ensures c in cu'.clients <==> Owns(cu'.channels, c) {
      TotalNonNegative(LiveOf(c), cu.channels);
      assert c in cu.clients <==> Owns(cu.channels, c);
    }
  }

  lemma ZeroPoolHasNoSlot(cu: CuState)
    requires CuInv(cu)
    ensures 0 !in Pools(cu.reserves)
  {
    forall k | 0 <= k < |cu.reserves| ensures PoolIds(cu.reserves)[k] != 0 {
      assert GoodSlot(cu.reserves[k], cu.channels);
    }
  }

  lemma ClearKeepsInv(cu: CuState, i: nat)
    requires CuInv(cu) && i < |cu.channels| && cu.channels[i].load != 0
    ensures CuInv(ClearChannel(cu, i))
    ensures Used(ClearChannel(cu, i)) == Used(cu)
              - (if cu.channels[i].poolId in Pools(cu.reserves) then 0 else cu.channels[i].load)
  {
    var cu' := ClearChannel(cu, i);
    var c := cu.channels[i].clientId;
    TotalUpdateAll(cu.channels, i, FreeChannel(i));
    assert GoodChannel(cu.channels[i], i);
    forall k | 0 <= k < |cu.reserves| ensures GoodSlot(cu'.reserves[k], cu'.channels) {
      assert GoodSlot(cu.reserves[k], cu.channels);
    }
    RemoveMembers(cu.clients, c);
    TotalNonNegative(LiveOf(c), cu'.channels);
    forall d: nat ensures d in cu'.clients <==> Owns(cu'.channels, d) {
      assert d in cu.clients <==> Owns(cu.channels, d);
    }
  }

  // ---------------------------------------------------------------------------------
  // Reserving and relinquishing load
  // ---------------------------------------------------------------------------------

  predicate Reservable(cu: CuState, p: nat, load: int) {
    && 0 < load <= MAX_LOAD
    && Used(cu) + load <= MAX_LOAD
    && (FindSlot(cu.reserves, p) < |cu.reserves| || |cu.reserves| < MAX_RESERVES)
  }

  /** The pool's slot grows, or a new slot is appended. */
  function ReserveSlot(cu: CuState, p: nat, load: int, client: nat): CuState
    requires load > 0
  {
    var k := FindSlot(cu.reserves, p);
    if k < |cu.reserves| then
      cu.(reserves := cu.reserves[k := cu.reserves[k].(load := cu.reserves[k].load + load)])
    else
      cu.(reserves := cu.reserves + [Slot(p, load, client)])
  }

  function DropSlot(cu: CuState, k: nat): CuState
    requires k < |cu.reserves|
  {
    cu.(reserves := DeleteAt(cu.reserves, k))
  }

  /** No channel may hold the id of a pool that has no slot yet: ids of new pools are fresh. */
  lemma ReserveKeepsInv(cu: CuState, p: nat, load: int, client: nat)
    requires CuInv(cu) && Reservable(cu, p, load) && p != 0
    requires FindSlot(cu.reserves, p) == |cu.reserves| ==> Total(LoadInPool(p), cu.channels) == 0
    ensures CuInv(ReserveSlot(cu, p, load, client))
    ensures Used(ReserveSlot(cu, p, load, client)) == Used(cu) + load
  {
    var cu' := ReserveSlot(cu, p, load, client);
    var rs, rs' := cu.reserves, cu'.reserves;
    var k := FindSlot(rs, p);
    forall i | 0 <= i < |rs| ensures GoodSlot(rs'[i], cu.channels) {
      assert GoodSlot(rs[i], cu.channels);
    }
    if k < |rs| {
      assert SlotLoads(rs') == SlotLoads(rs)[k := rs[k].load + load];
      SumUpdate(SlotLoads(rs), k, rs[k].load + load);
      assert PoolIds(rs') == PoolIds(rs);
    } else {
      assert SlotLoads(rs')[..|rs|] == SlotLoads(rs);
      assert PoolIds(rs') == PoolIds(rs) + [p];
      assert Pools(rs') == Pools(rs) + {p};
      OutsideSplit(cu.channels, Pools(rs), p);
    }
  }

  lemma SlotGone(rs: seq<Slot>, k: nat)
    requires k < |rs| && Distinct(PoolIds(rs))
    ensures var rs', p := DeleteAt(rs, k), rs[k].poolId;
            Reserved(rs') == Reserved(rs) - rs[k].load && Distinct(PoolIds(rs')) &&
            Pools(rs') == Pools(rs) - {p} && p in Pools(rs)
  {
    var rs', p, ps := DeleteAt(rs, k), rs[k].poolId, PoolIds(rs);
    assert SlotLoads(rs') == DeleteAt(SlotLoads(rs), k);
    SumDelete(SlotLoads(rs), k);
    assert PoolIds(rs') == Remove(ps, p) by {
      assert Find(ps, p) == k by { assert forall j :: 0 <= j < k ==> ps[j] != ps[k]; }
    }
    RemoveMembers(ps, p);
    assert p in ps by { assert ps[k] == p; }
  }

  /** Dropping a slot frees only its unused load: what channels hold of it stays in use. */
  lemma DropSlotKeepsInv(cu: CuState, k: nat)
    requires CuInv(cu) && k < |cu.reserves|
    ensures CuInv(DropSlot(cu, k))
    ensures Used(DropSlot(cu, k))
              == Used(cu) - cu.reserves[k].load + Total(LoadInPool(cu.reserves[k].poolId), cu.channels)
    ensures Pools(DropSlot(cu, k).reserves) == Pools(cu.reserves) - {cu.reserves[k].poolId}
  {
    var cu' := DropSlot(cu, k);
    var rs, rs', p := cu.reserves, cu'.reserves, cu.reserves[k].poolId;
    assert GoodSlot(rs[k], cu.channels);
    SlotGone(rs, k);
    OutsideSplit(cu.channels, Pools(rs'), p);
    assert Pools(rs') + {p} == Pools(rs);
    forall i | 0 <= i < |rs'| ensures GoodSlot(rs'[i], cu.channels) {
      assert GoodSlot(rs[if i < k then i else i + 1], cu.channels);
    }
  }

  /** The load the slot of pool p holds here; 0 without a slot. */
  function Held(cu: CuState, p: nat): int {
    var k := FindSlot(cu.reserves, p);
    if k < |cu.reserves| then cu.reserves[k].load else 0
  }

  /** Removes the slot of pool p, if there is one. */
  function DropPool(cu: CuState, p: nat): CuState {
    var k := FindSlot(cu.reserves, p);
    if k < |cu.reserves| then DropSlot(cu, k) else cu
  }

  /** A pool is in use on a unit when its slot there has load handed out. */
  predicate PoolInUse(cu: CuState, p: nat) {
    p in Pools(cu.reserves) && Total(LoadInPool(p), cu.channels) != 0
  }

  lemma DropPoolKeepsInv(cu: CuState, p: nat)
    requires CuInv(cu)
    ensures CuInv(DropPool(cu, p))
    ensures Pools(DropPool(cu, p).reserves) == Pools(cu.reserves) - {p}
  {
    var k := FindSlot(cu.reserves, p);
    if k < |cu.reserves| { DropSlotKeepsInv(cu, k); }
  }

  // ---------------------------------------------------------------------------------
  // Idle units and the reservation of a whole unit
  // ---------------------------------------------------------------------------------

  /** No live channel, no reservation. */
  ghost predicate IdleCu(cu: CuState) {
    cu.reserves == [] && forall i :: 0 <= i < |cu.channels| ==> cu.channels[i].load == 0
  }

  /** The used load is zero exactly when nothing is allocated or reserved. */
  lemma IdleIffUnused(cu: CuState)
    requires CuInv(cu)
    ensures IdleCu(cu) <==> Used(cu) == 0
  {
    UsedBounds(cu);
    if IdleCu(cu) {
      TotalZero(LoadOutside(Pools(cu.reserves)), cu.channels);
    } else if cu.reserves != [] {
      assert GoodSlot(cu.reserves[0], cu.channels);
      SumMember(SlotLoads(cu.reserves), 0);
    } else {
      var i :| 0 <= i < |cu.channels| && cu.channels[i].load != 0;
      TotalMember(LoadOutside(Pools(cu.reserves)), cu.channels, i);
    }
  }

  function ReserveWhole(cu: CuState, p: nat, client: nat): CuState {
    cu.(reserves := [Slot(p, MAX_LOAD, client)])
  }

  lemma ReserveWholeKeepsInv(cu: CuState, p: nat, client: nat)
    requires CuInv(cu) && IdleCu(cu) && p != 0
    ensures CuInv(ReserveWhole(cu, p, client))
    ensures Used(ReserveWhole(cu, p, client)) == MAX_LOAD
    ensures ReserveWhole(cu, p, client) == ReserveSlot(cu, p, MAX_LOAD, client)
  {
    IdleIffUnused(cu);
    TotalZero(LoadInPool(p), cu.channels);
    assert FindSlot(cu.reserves, p) == 0;
    ReserveKeepsInv(cu, p, MAX_LOAD, client);
    assert ReserveSlot(cu, p, MAX_LOAD, client).reserves == [Slot(p, MAX_LOAD, client)];
  }

  // ---------------------------------------------------------------------------------
  // A unit fresh from loading
  // ---------------------------------------------------------------------------------

  function FreshCu(names: Names): CuState {
    CuState(names, seq(MAX_CHANNELS, i requires 0 <= i => FreeChannel(i)), [], [])
  }

  lemma FreshCuInv(names: Names)
    ensures CuInv(FreshCu(names)) && IdleCu(FreshCu(names))
  {
    var cu := FreshCu(names);
    TotalZero(LoadOutside(Pools(cu.reserves)), cu.channels);
    forall c: nat ensures c in cu.clients <==> Owns(cu.channels, c) {
      if c != 0 { TotalZero(LiveOf(c), cu.channels); }
    }
  }
}
