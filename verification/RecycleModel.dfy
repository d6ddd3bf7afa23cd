/** Recycling a dead client: its reserve slots, its channels and its table entries go, on
    every loaded device. Channels that OTHER clients allocated from its pools stay, and
    count as default-pool load from then on. */
module RecycleModel {
  import opened Tables
  import opened Sums
  import opened CuModel
  import opened DeviceModel
  import opened SystemModel

  // ---------------------------------------------------------------------------------
  // The operation
  // ---------------------------------------------------------------------------------

  /** Drops the client's slots from index i on, one at a time. */
  function DropSlotsFrom(cu: CuState, i: nat, c: nat): CuState
    requires i <= |cu.reserves|
    decreases |cu.reserves| - i
  {
    if i == |cu.reserves| then cu
    else if cu.reserves[i].clientId == c then DropSlotsFrom(DropSlot(cu, i), i, c)
    else DropSlotsFrom(cu, i + 1, c)
  }

  function DropSlots(cus: seq<CuState>, c: nat): (cus': seq<CuState>)
    ensures |cus'| == |cus|
    ensures forall i :: 0 <= i < |cus| ==> cus'[i] == DropSlotsFrom(cus[i], 0, c)
  {
    seq(|cus|, i requires 0 <= i < |cus| => DropSlotsFrom(cus[i], 0, c))
  }

  function Freed(chs: seq<Channel>, c: nat): (chs': seq<Channel>)
    ensures |chs'| == |chs|
    ensures forall i :: 0 <= i < |chs| ==> chs'[i] == if chs[i].clientId == c then FreeChannel(i) else chs[i]
  {
    seq(|chs|, i requires 0 <= i < |chs| => if chs[i].clientId == c then FreeChannel(i) else chs[i])
  }

  /** A unit that does not list the client is left alone. */
  function ClearClient(cu: CuState, c: nat): CuState {
    if c in cu.clients then cu.(channels := Freed(cu.channels, c), clients := Remove(cu.clients, c)) else cu
  }

  function ClearClients(cus: seq<CuState>, c: nat): (cus': seq<CuState>)
    ensures |cus'| == |cus|
    ensures forall i :: 0 <= i < |cus| ==> cus'[i] == ClearClient(cus[i], c)
  {
    seq(|cus|, i requires 0 <= i < |cus| => ClearClient(cus[i], c))
  }

  /** The device's own load counter is first SET to 0 and then lowered by the default-pool
      load that is released, which leaves it off by all the load in use before the release. */
  function RecycleDev(d: DevState, c: nat): DevState {
    var cus := DropSlots(d.cus, c);
    var d1 := d.(cus := cus, drift := -CusTotal(UsedLoad, cus));
    if !d.isLoaded then d
    else if d.isExcl then
      if d.procs[0].ref != 0 && d.procs[0].clientId == c then
        d1.(cus := ClearClients(cus, c), isExcl := false, procs := EmptyTable())
      else d1
    else
      var k := FindProc(d.procs, c);
      if k < |d.procs| && d.procs[k].ref != 0 then
        d1.(cus := ClearClients(cus, c), procs := d.procs[k := Proc(0, 0)])
      else d1
  }

  /** The device loop gives up at an exclusive device nobody uses. */
  predicate GivesUp(d: DevState) {
    d.isLoaded && d.isExcl && d.procs[0].ref == 0
  }

  function RecycleFrom(s: SysState, d: nat, c: nat): (s': SysState)
    requires d <= |s.devs|
    ensures |s'.devs| == |s.devs|
    decreases |s.devs| - d
  {
    if d == |s.devs| then s
    else
      var s1 := SetDev(s, d, RecycleDev(s.devs[d], c));
      if GivesUp(s.devs[d]) then s1 else RecycleFrom(s1, d + 1, c)
  }

  function Recycle(s: SysState, c: nat): SysState {
    RecycleFrom(s, 0, c)
  }

  // ---------------------------------------------------------------------------------
  // What is left of a unit
  // ---------------------------------------------------------------------------------

  function WithoutClient(rs: seq<Slot>, c: nat): seq<Slot> {
    if rs == [] then []
    else
      var front, last := WithoutClient(rs[..|rs| - 1], c), rs[|rs| - 1];
      if last.clientId == c then front else front + [last]
  }

  lemma {:induction false} WithoutClientConcat(rs: seq<Slot>, ts: seq<Slot>, c: nat)
    ensures WithoutClient(rs + ts, c) == WithoutClient(rs, c) + WithoutClient(ts, c)
  {
    if ts == [] {
      assert rs + ts == rs;
    } else {
      assert (rs + ts)[..|rs + ts| - 1] == rs + ts[..|ts| - 1];
      WithoutClientConcat(rs, ts[..|ts| - 1], c);
    }
  }

  lemma {:induction false} WithoutClientMembers(rs: seq<Slot>, c: nat)
    ensures forall x :: x in WithoutClient(rs, c) <==> x in rs && x.clientId != c
  {
    if rs != [] {
      assert rs == rs[..|rs| - 1] + [rs[|rs| - 1]];
      WithoutClientMembers(rs[..|rs| - 1], c);
    }
  }

  lemma WithoutClientHead(rs: seq<Slot>, i: nat, c: nat)
    requires i < |rs|
    ensures WithoutClient(rs[i..], c)
              == (if rs[i].clientId == c then [] else [rs[i]]) + WithoutClient(rs[i + 1..], c)
  {
    assert rs[i..] == [rs[i]] + rs[i + 1..];
    WithoutClientConcat([rs[i]], rs[i + 1..], c);
    assert [rs[i]][..0] == [];
  }

  /** Dropping slot by slot filters the slot list, keeping the order of the rest. */
  lemma {:induction false} DropSlotsFilters(cu: CuState, i: nat, c: nat)
    requires i <= |cu.reserves|
    ensures DropSlotsFrom(cu, i, c) == cu.(reserves := cu.reserves[..i] + WithoutClient(cu.reserves[i..], c))
    decreases |cu.reserves| - i
  {
    var rs := cu.reserves;
    if i < |rs| {
      WithoutClientHead(rs, i, c);
      if rs[i].clientId == c {
        var rs' := DropSlot(cu, i).reserves;
        assert rs'[..i] == rs[..i] && rs'[i..] == rs[i + 1..];
        DropSlotsFilters(DropSlot(cu, i), i, c);
      } else {
        DropSlotsFilters(cu, i + 1, c);
        assert rs[..i + 1] == rs[..i] + [rs[i]];
      }
    } else {
      assert rs[..i] + WithoutClient(rs[i..], c) == rs;
    }
  }

  lemma {:induction false} DropSlotsKeepInv(cu: CuState, i: nat, c: nat)
    requires CuInv(cu) && i <= |cu.reserves|
    ensures CuInv(DropSlotsFrom(cu, i, c))
    decreases |cu.reserves| - i
  {
    if i < |cu.reserves| {
      if cu.reserves[i].clientId == c {
        DropSlotKeepsInv(cu, i);
        DropSlotsKeepInv(DropSlot(cu, i), i, c);
      } else {
        DropSlotsKeepInv(cu, i + 1, c);
      }
    }
  }

  /** A unit after recycling, in closed form. */
  function Recycled(cu: CuState, c: nat): CuState {
    CuState(cu.names, Freed(cu.channels, c), Remove(cu.clients, c), WithoutClient(cu.reserves, c))
  }

  lemma FreedTotals(chs: seq<Channel>, c: nat)
    requires c != 0
    ensures forall m :: m != LiveOf(0) ==> Total(m, Freed(chs, c)) <= Total(m, chs)
    ensures Total(LiveOf(c), Freed(chs, c)) == 0
    ensures forall b: nat :: b != c && b != 0 ==> Total(LiveOf(b), Freed(chs, c)) == Total(LiveOf(b), chs)
  {
    forall m | m != LiveOf(0) ensures Total(m, Freed(chs, c)) <= Total(m, chs) {
      TotalMonotone(m, Freed(chs, c), chs);
    }
    TotalZero(LiveOf(c), Freed(chs, c));
    forall b: nat | b != c && b != 0 ensures Total(LiveOf(b), Freed(chs, c)) == Total(LiveOf(b), chs) {
      TotalMonotone(LiveOf(b), chs, Freed(chs, c));
    }
  }

  lemma FreedKeepsInv(cu: CuState, c: nat)
    requires CuInv(cu) && c != 0
    ensures CuInv(cu.(channels := Freed(cu.channels, c), clients := Remove(cu.clients, c)))
  {
    var cu' := cu.(channels := Freed(cu.channels, c), clients := Remove(cu.clients, c));
    FreedTotals(cu.channels, c);
    RemoveMembers(cu.clients, c);
    forall i | 0 <= i < |cu'.channels| ensures GoodChannel(cu'.channels[i], i) {
      assert GoodChannel(cu.channels[i], i);
    }
    forall b: nat ensures b in cu'.clients <==> Owns(cu'.channels, b) {
      assert b in cu.clients <==> Owns(cu.channels, b);
    }
    forall k | 0 <= k < |cu.reserves| ensures GoodSlot(cu'.reserves[k], cu'.channels) {
      assert GoodSlot(cu.reserves[k], cu.channels);
    }
  }

  /** A client that is not listed has no channel to free. */
  lemma UnlistedIsFreed(cu: CuState, c: nat)
    requires CuInv(cu) && c != 0 && c !in cu.clients
    ensures Freed(cu.channels, c) == cu.channels && Remove(cu.clients, c) == cu.clients
  {
    assert !Owns(cu.channels, c);
    forall i | 0 <= i < |cu.channels| ensures cu.channels[i].clientId != c {
      TotalMember(LiveOf(c), cu.channels, i);
    }
    assert forall i :: 0 <= i < |cu.clients| ==> cu.clients[i] != c;
  }

  /** The two phases on one unit, dropping slots and clearing channels, in closed form. */
  lemma UnitRecycled(cu: CuState, c: nat)
    requires CuInv(cu) && c != 0
    ensures ClearClient(DropSlotsFrom(cu, 0, c), c) == Recycled(cu, c)
    ensures CuInv(Recycled(cu, c))
    ensures c !in cu.clients ==> DropSlotsFrom(cu, 0, c) == Recycled(cu, c)
  {
    var mid := DropSlotsFrom(cu, 0, c);
    DropSlotsFilters(cu, 0, c);
    assert cu.reserves[..0] + WithoutClient(cu.reserves[0..], c) == WithoutClient(cu.reserves, c);
    DropSlotsKeepInv(cu, 0, c);
    FreedKeepsInv(mid, c);
    if c !in cu.clients { UnlistedIsFreed(cu, c); }
  }

  /** A channel of another client that came from a pool of the recycled client keeps its load,
      and that load now counts in the unit's used load as default-pool load does. */
  lemma OrphansBecomeDefault(cu: CuState, c: nat, k: nat, i: nat)
    requires CuInv(cu) && k < |cu.reserves| && cu.reserves[k].clientId == c != 0
    requires i < |cu.channels| && cu.channels[i].poolId == cu.reserves[k].poolId && cu.channels[i].clientId != c
    ensures Recycled(cu, c).channels[i] == cu.channels[i]
    ensures Weigh(LoadOutside(Pools(cu.reserves)), cu.channels[i]) == 0
    ensures Weigh(LoadOutside(Pools(Recycled(cu, c).reserves)), cu.channels[i]) == cu.channels[i].load
  {
    var rs', ps := WithoutClient(cu.reserves, c), PoolIds(cu.reserves);
    WithoutClientMembers(cu.reserves, c);
    assert ps[k] in ps;
    forall j | 0 <= j < |rs'| ensures PoolIds(rs')[j] != ps[k] {
      assert rs'[j] in rs';
      var i :| 0 <= i < |cu.reserves| && cu.reserves[i] == rs'[j];
      assert i != k && ps[i] != ps[k];
    }
  }

  // ---------------------------------------------------------------------------------
  // What is left of a device
  // ---------------------------------------------------------------------------------

  function RecycledUnits(cus: seq<CuState>, c: nat): (cus': seq<CuState>)
    ensures |cus'| == |cus|
    ensures forall i :: 0 <= i < |cus| ==> cus'[i] == Recycled(cus[i], c)
  {
    seq(|cus|, i requires 0 <= i < |cus| => Recycled(cus[i], c))
  }

  function WithoutProc(ps: ClientTable, c: nat): (ps': ClientTable)
    ensures forall k :: 0 <= k < |ps| ==> ps'[k] == if ps[k].clientId == c then Proc(0, 0) else ps[k]
  {
    seq(MAX_DEV_CLIENTS, k requires 0 <= k < MAX_DEV_CLIENTS => if ps[k].clientId == c then Proc(0, 0) else ps[k])
  }

  function RecycledDev(d: DevState, c: nat): DevState {
    if !d.isLoaded then d
    else
      d.(cus := RecycledUnits(d.cus, c),
         procs := WithoutProc(d.procs, c),
         isExcl := d.isExcl && d.procs[0].clientId != c,
         drift := -CusTotal(UsedLoad, DropSlots(d.cus, c)))
  }

  /** On a device that lists the client, both phases run; elsewhere the second has nothing
      to do. The early exit is never taken. */
  lemma DeviceRecycled(d: DevState, c: nat)
    requires DevInv(d) && c != 0
    ensures RecycleDev(d, c) == RecycledDev(d, c)
    ensures !GivesUp(d)
  {
    assert GoodProc(d, 0, 0);
    if d.isLoaded {
      UnitsRecycled(d, c);
      EntryGone(d, c);
    }
  }

  lemma UnitsRecycled(d: DevState, c: nat)
    requires DevInv(d) && c != 0
    ensures ClearClients(DropSlots(d.cus, c), c) == RecycledUnits(d.cus, c)
    ensures FindProc(d.procs, c) == |d.procs| ==> DropSlots(d.cus, c) == RecycledUnits(d.cus, c)
  {
    assert Listed(d, c, 0);
    forall i | 0 <= i < |d.cus|
      ensures ClearClient(DropSlotsFrom(d.cus[i], 0, c), c) == Recycled(d.cus[i], c)
      ensures FindProc(d.procs, c) == |d.procs| ==> DropSlotsFrom(d.cus[i], 0, c) == Recycled(d.cus[i], c)
    {
      assert CuInv(d.cus[i]);
      UnitRecycled(d.cus[i], c);
      LiveMember(d.cus, c, i);
      assert c in d.cus[i].clients <==> Owns(d.cus[i].channels, c);
    }
  }

  /** Emptying the client's one entry, or an exclusive device's whole table, is the same as
      emptying every entry of the client. */
  lemma EntryGone(d: DevState, c: nat)
    requires DevInv(d) && c != 0
    ensures var k := FindProc(d.procs, c);
            && (k == |d.procs| ==> WithoutProc(d.procs, c) == d.procs)
            && (k < |d.procs| ==> WithoutProc(d.procs, c) == d.procs[k := Proc(0, 0)] && d.procs[k].ref > 0)
            && (k < |d.procs| && d.isExcl ==> k == 0 && WithoutProc(d.procs, c) == EmptyTable())
  {
    var k := FindProc(d.procs, c);
    if k < |d.procs| {
      assert GoodProc(d, k, 0);
      forall i | 0 <= i < |d.procs| && d.isExcl && i > 0 ensures d.procs[i] == Proc(0, 0) {
        assert GoodProc(d, i, 0);
      }
    }
  }

  lemma RecycledLive(cus: seq<CuState>, c: nat, b: nat)
    requires c != 0 && b != 0
    ensures CusTotal(LiveChannels(b), RecycledUnits(cus, c)) == if b == c then 0 else CusTotal(LiveChannels(b), cus)
  {
    forall i | 0 <= i < |cus|
      ensures Total(LiveOf(b), Freed(cus[i].channels, c)) == if b == c then 0 else Total(LiveOf(b), cus[i].channels)
    {
      FreedTotals(cus[i].channels, c);
    }
    if b == c {
      SumZeros(CuWeights(LiveChannels(b), RecycledUnits(cus, c)));
    } else {
      assert CuWeights(LiveChannels(b), RecycledUnits(cus, c)) == CuWeights(LiveChannels(b), cus);
    }
  }

  lemma RecycledDevInv(d: DevState, c: nat)
    requires DevInv(d) && c != 0
    ensures DevInv(RecycledDev(d, c))
  {
    if d.isLoaded {
      var d' := RecycledDev(d, c);
      forall i | 0 <= i < |d.cus| ensures CuInv(d'.cus[i]) {
        assert CuInv(d.cus[i]);
        UnitRecycled(d.cus[i], c);
      }
      forall k | 0 <= k < |d.procs| ensures GoodProc(d', k, 0) {
        assert GoodProc(d, k, 0);
        if d.procs[k].clientId != 0 { RecycledLive(d.cus, c, d.procs[k].clientId); }
      }
      forall b: nat ensures Listed(d', b, 0) {
        if b != 0 { RecycledLive(d.cus, c, b); }
        assert Listed(d, b, 0);
        var k := FindProc(d.procs, b);
        if k < |d.procs| && b != c && b != 0 { assert d'.procs[k].clientId == b; }
      }
    }
  }

  // ---------------------------------------------------------------------------------
  // The whole database
  // ---------------------------------------------------------------------------------

  lemma {:induction false} RecycleFromSpec(s: SysState, d: nat, c: nat)
    requires Inv(s) && d <= |s.devs| && c != 0
    ensures var s' := RecycleFrom(s, d, c);
            && Inv(s') && s'.serviceId == s.serviceId && s'.poolId == s.poolId
            && forall e :: 0 <= e < |s.devs| ==> s'.devs[e] == if e < d then s.devs[e] else RecycledDev(s.devs[e], c)
    decreases |s.devs| - d
  {
    if d < |s.devs| {
      assert DevInv(s.devs[d]);
      DeviceRecycled(s.devs[d], c);
      RecycledDevInv(s.devs[d], c);
      RecycleFromSpec(SetDev(s, d, RecycleDev(s.devs[d], c)), d + 1, c);
    }
  }

  /** Recycling reaches every device: on each loaded one it leaves no channel, reserve slot,
      client-list entry or table entry of the client, and changes nothing else. */
  lemma RecycleSpec(s: SysState, c: nat)
    requires Inv(s) && c != 0
    ensures var s' := Recycle(s, c);
            && Inv(s') && s'.serviceId == s.serviceId && s'.poolId == s.poolId
            && forall e :: 0 <= e < |s.devs| ==> s'.devs[e] == RecycledDev(s.devs[e], c)
  {
    RecycleFromSpec(s, 0, c);
  }

  lemma RecycledLeavesNothing(cu: CuState, c: nat)
    requires CuInv(cu) && c != 0
    ensures var cu' := Recycled(cu, c);
            && (forall i :: 0 <= i < |cu'.channels| ==> cu'.channels[i].clientId != c)
            && c !in cu'.clients
            && (forall i :: 0 <= i < |cu'.reserves| ==> cu'.reserves[i].clientId != c)
    ensures forall i :: 0 <= i < |cu.channels| && cu.channels[i].clientId != c ==>
              Recycled(cu, c).channels[i] == cu.channels[i]
  {
    RemoveMembers(cu.clients, c);
    WithoutClientMembers(cu.reserves, c);
    var rs' := WithoutClient(cu.reserves, c);
    forall i | 0 <= i < |rs'| ensures rs'[i].clientId != c { assert rs'[i] in rs'; }
  }

  lemma {:induction false} WithoutClientTwice(rs: seq<Slot>, c: nat)
    ensures WithoutClient(WithoutClient(rs, c), c) == WithoutClient(rs, c)
  {
    if rs != [] {
      var front, last := WithoutClient(rs[..|rs| - 1], c), rs[|rs| - 1];
      WithoutClientTwice(rs[..|rs| - 1], c);
      assert (front + [last])[..|front|] == front;
    }
  }

  lemma RecycledTwice(cu: CuState, c: nat)
    requires CuInv(cu) && c != 0
    ensures Recycled(Recycled(cu, c), c) == Recycled(cu, c)
  {
    RecycledLeavesNothing(cu, c);
    UnitRecycled(cu, c);
    WithoutClientTwice(cu.reserves, c);
    UnlistedIsFreed(Recycled(cu, c), c);
  }

  /** Recycling is idempotent on the tables: a connection's end and an explicit destroy may
      both recycle the same client. */
  lemma RecycleIsIdempotent(s: SysState, c: nat)
    requires Inv(s) && c != 0
    ensures var s', s'' := Recycle(s, c), Recycle(Recycle(s, c), c);
            |s''.devs| == |s'.devs| &&
            forall e :: 0 <= e < |s'.devs| ==> s''.devs[e].(drift := 0) == s'.devs[e].(drift := 0)
  {
    RecycleSpec(s, c);
    var s' := Recycle(s, c);
    RecycleSpec(s', c);
    forall e | 0 <= e < |s.devs| ensures RecycledDev(s'.devs[e], c).(drift := 0) == s'.devs[e].(drift := 0) {
      assert DevInv(s.devs[e]);
      var d, d' := s.devs[e], s'.devs[e];
      forall i | 0 <= i < |d.cus| && d.isLoaded ensures Recycled(d'.cus[i], c) == d'.cus[i] {
        assert CuInv(d.cus[i]);
        RecycledTwice(d.cus[i], c);
      }
      if d.isLoaded {
        assert RecycledUnits(d'.cus, c) == d'.cus;
        assert WithoutProc(d'.procs, c) == d'.procs;
      }
    }
  }

  /** The load counter of a loaded device is right after a recycle exactly when, once the
      client's slots are dropped, nothing at all is in use on the device. */
  lemma RecycledLoadCounter(s: SysState, c: nat, e: nat)
    requires Inv(s) && c != 0 && e < |s.devs| && s.devs[e].isLoaded
    ensures Recycle(s, c).devs[e].drift == 0 <==>
              forall i :: 0 <= i < |s.devs[e].cus| ==> IdleCu(DropSlotsFrom(s.devs[e].cus[i], 0, c))
  {
    RecycleSpec(s, c);
    assert DevInv(s.devs[e]);
    var cus := DropSlots(s.devs[e].cus, c);
    forall i | 0 <= i < |cus| ensures IdleCu(cus[i]) <==> Used(cus[i]) == 0 {
      assert CuInv(s.devs[e].cus[i]);
      DropSlotsKeepInv(s.devs[e].cus[i], 0, c);
      IdleIffUnused(cus[i]);
    }
    UsedIsZero(cus);
  }

  lemma UsedIsZero(cus: seq<CuState>)
    ensures CusTotal(UsedLoad, cus) >= 0
    ensures CusTotal(UsedLoad, cus) == 0 <==> forall i :: 0 <= i < |cus| ==> Used(cus[i]) == 0
  {
    var ws := CuWeights(UsedLoad, cus);
    forall i | 0 <= i < |cus| ensures ws[i] >= 0 { UsedBounds(cus[i]); }
    SumNonNegative(ws);
    if forall i :: 0 <= i < |cus| ==> Used(cus[i]) == 0 {
      SumZeros(ws);
    } else {
      var i :| 0 <= i < |cus| && Used(cus[i]) != 0;
      SumMember(ws, i);
    }
  }
}
