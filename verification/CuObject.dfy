/** The daemon's record of one compute unit, updated in place: fixed arrays of channels,
    clients and reserve slots, and the counters derived from them. `Wf` says that every
    counter equals its sum over the tables; each method keeps it, and has the effect on the
    tables that the step of the same name in CuModel has. */
module CuObject {
  import opened Tables
  import opened Sums
  import opened CuModel
  import opened RecycleModel
  import opened QueryModel

  datatype ReserveData = ReserveData(poolId: nat, load: nat, used: int, isActive: bool, clientId: nat)

  const NO_RESERVE: ReserveData := ReserveData(0, 0, 0, false, 0)

  function SlotsOf(rs: seq<ReserveData>): (ss: seq<Slot>)
    ensures |ss| == |rs|
    ensures forall i :: 0 <= i < |rs| ==> ss[i] == Slot(rs[i].poolId, rs[i].load, rs[i].clientId)
  {
    seq(|rs|, i requires 0 <= i < |rs| => Slot(rs[i].poolId, rs[i].load, rs[i].clientId))
  }

  /** The contents of a unit's record. */
  datatype CuFields = CuFields(names: Names, channels: seq<Channel>, clients: seq<nat>, reserves: seq<ReserveData>,
                               numChanInuse: int, numClient: nat, numReserve: nat, totalUsed: int, totalReserved: int)

  function ViewOf(f: CuFields): CuState {
    CuState(f.names, f.channels,
            if f.numClient <= |f.clients| then f.clients[..f.numClient] else [],
            if f.numReserve <= |f.reserves| then SlotsOf(f.reserves[..f.numReserve]) else [])
  }

  ghost predicate GoodFields(f: CuFields) {
    && f.numClient <= |f.clients| && f.numReserve <= |f.reserves|
    && (forall i :: f.numClient <= i < |f.clients| ==> f.clients[i] == 0)
    && (forall i :: f.numReserve <= i < |f.reserves| ==> f.reserves[i] == NO_RESERVE)
    && (forall i :: 0 <= i < f.numReserve ==> GoodReserve(f.reserves[i], f.channels))
    && f.numChanInuse == Total(Live, f.channels)
    && f.totalUsed == Used(ViewOf(f))
    && f.totalReserved == Reserved(ViewOf(f).reserves)
  }

  class Cu {
    const channels: array<Channel>
    const clients: array<nat>
    const reserves: array<ReserveData>
    var names: Names
    var numChanInuse: int
    var numClient: nat
    var numReserve: nat
    var totalUsed: int
    var totalReserved: int

    ghost function Footprint(): set<object> {
      {this, channels, clients, reserves}
    }

    ghost predicate Shape() {
      channels.Length == MAX_CHANNELS && clients.Length == MAX_CHANNELS && reserves.Length == MAX_RESERVES
    }

    ghost function Fields(): CuFields
      reads Footprint()
    {
      CuFields(names, channels[..], clients[..], reserves[..],
               numChanInuse, numClient, numReserve, totalUsed, totalReserved)
    }

    /** The tables, without the counters. */
    ghost function View(): CuState
      reads Footprint()
    {
      ViewOf(Fields())
    }

    /** Arrays are zero beyond their counts, and counters equal sums over the tables. */
    ghost predicate Wf()
      reads Footprint()
    {
      Shape() && GoodFields(Fields())
    }

    constructor ()
      ensures Wf() && fresh(Footprint())
      ensures View() == FreshCu(Names("", "", ""))
    {
      channels := new Channel[MAX_CHANNELS]((i: nat) => FreeChannel(i));
      clients := new nat[MAX_CHANNELS](i => 0);
      reserves := new ReserveData[MAX_RESERVES](i => NO_RESERVE);
      names := Names("", "", "");
      numChanInuse, numClient, numReserve, totalUsed, totalReserved := 0, 0, 0, 0, 0;
      new;
      assert View() == FreshCu(names);
      FreshCounters(View());
    }

    /** Position of the client in the dense client list, or -1. */
    method IsClientUsingCu(c: nat) returns (i: int)
      requires Wf()
      ensures i == (var k := Find(View().clients, c); if k < numClient then k else -1)
    {
      i := 0;
      while i < numClient
        invariant 0 <= i <= numClient
        invariant forall j :: 0 <= j < i ==> clients[j] != c
      {
        if clients[i] == c { return; }
        i := i + 1;
      }
      i := -1;
    }

    /** Slot of the pool, or -1. */
    method IsReservePoolUsingCu(p: nat) returns (i: int)
      requires Wf()
      ensures p == 0 ==> i == -1
      ensures p != 0 ==> i == (var k := FindSlot(View().reserves, p); if k < numReserve then k else -1)
    {
      if p < 1 { return -1; }
      i := 0;
      while i < numReserve
        invariant 0 <= i <= numReserve
        invariant forall j :: 0 <= j < i ==> reserves[j].poolId != p
      {
        if reserves[i].poolId == p { return; }
        i := i + 1;
      }
      i := -1;
    }

    method FindFreeChannelId() returns (i: int)
      requires Wf()
      ensures numChanInuse >= MAX_CHANNELS ==> i == -1
      ensures numChanInuse < MAX_CHANNELS ==> i == FirstFree(channels[..]) < MAX_CHANNELS
    {
      LiveBound(channels[..]);
      if numChanInuse >= MAX_CHANNELS { return -1; }
      i := 0;
      while i < MAX_CHANNELS
        invariant 0 <= i <= MAX_CHANNELS
        invariant forall j :: 0 <= j < i ==> channels[j].load != 0
      {
        if channels[i].load == 0 { return; }
        i := i + 1;
      }
      i := -1;
    }

    /** Appends the client to the dense list unless it is there. The scan for the end of the
        list stops at its first 0, inside the array. */
    method AddClientToCu(c: nat)
      requires Wf() && c != 0 && numClient < MAX_CHANNELS
      requires forall i :: 0 <= i < numClient ==> clients[i] != 0
      modifies this`numClient, clients
      ensures Wf() && View() == old(View()).(clients := AddClient(old(View()).clients, c))
    {
      var i := IsClientUsingCu(c);
      if i >= 0 { return; }
      i := 0;
      while clients[i] != 0
        invariant 0 <= i <= numClient
        decreases numClient - i
      {
        i := i + 1;
      }
      assert i == numClient;
      clients[i] := c;
      numClient := numClient + 1;
      assert clients[..numClient] == old(clients[..numClient]) + [c];
    }

    /** Takes the client out of the list and closes the gap. */
    method RemoveClientOnCu(c: nat)
      requires Wf()
      modifies this`numClient, clients
      ensures Wf() && View() == old(View()).(clients := Remove(old(View()).clients, c))
    {
      ghost var f := Fields();
      var k := IsClientUsingCu(c);
      if k < 0 { return; }
      ShiftClients(k);
      assert Fields() == f.(clients := clients[..], numClient := numClient);
    }

    method ShiftClients(k: nat)
      requires Shape() && k < numClient <= clients.Length
      requires forall i :: numClient <= i < clients.Length ==> clients[i] == 0
      modifies this`numClient, clients
      ensures numClient == old(numClient) - 1
      ensures clients[..numClient] == DeleteAt(old(clients[..numClient]), k)
      ensures forall i :: numClient <= i < clients.Length ==> clients[i] == 0
    {
      var i := k;
      while i < numClient - 1 && i < MAX_CHANNELS - 1
        invariant numClient == old(numClient) && k <= i < numClient
        invariant forall j :: 0 <= j < k ==> clients[j] == old(clients[j])
        invariant forall j :: k <= j < i ==> clients[j] == old(clients[j + 1])
        invariant forall j :: i <= j < clients.Length ==> clients[j] == old(clients[j])
      {
        clients[i] := clients[i + 1];
        i := i + 1;
      }
      clients[i] := 0;
      numClient := numClient - 1;
    }

    /** Whether the default pool, or the request's reserve pool (then k is its slot), has the
        load the request asks for. */
    method CheckLoad(req: Request) returns (ok: bool, k: int)
      requires Wf() && CuInv(View()) && req.load > 0
      ensures ok <==> req.load <= Room(View(), req.poolId)
      ensures ok && req.poolId != 0 ==> k == FindSlot(View().reserves, req.poolId) < numReserve
    {
      k := IsReservePoolUsingCu(req.poolId);
      if req.poolId != 0 {
        if k == -1 { return false, k; }
        assert GoodReserve(reserves[k], channels[..]);
        if !reserves[k].isActive { return false, k; }
        ok := !(reserves[k].used + req.load > reserves[k].load);
      } else {
        ok := !(totalUsed + req.load > MAX_LOAD);
      }
    }

    /** The channel an allocation takes, or -1. */
    method ChooseChannel() returns (chanId: int)
      requires Wf()
      ensures chanId == (var f := FirstFree(View().channels); if f < MAX_CHANNELS then f else -1)
      ensures chanId >= 0 ==> numChanInuse < MAX_CHANNELS
    {
      LiveBound(channels[..]);
      if numChanInuse == 0 {
        AllFree(channels[..]);
        chanId := 0;
      } else if numChanInuse < MAX_CHANNELS {
        chanId := FindFreeChannelId();
      } else {
        chanId := -1;
      }
    }

    /** Gives the request a channel, from the default pool or from its reserve pool; fails
        without a trace when load or channels do not allow it. */
    method AllocChanClient(req: Request, id: nat) returns (status: Status, chanId: nat)
      requires Wf() && CuInv(View()) && req.clientId != 0 && id != 0
      modifies Footprint()
      ensures Wf()
      ensures status == (if Feasible(old(View()), req) then SUCCESS else if req.load <= 0 then INVALID else NO_KERNEL)
      ensures View() == if status == SUCCESS then PutChannel(old(View()), req, id) else old(View())
      ensures status == SUCCESS ==> chanId == FirstFree(old(View()).channels)
    {
      if req.load <= 0 { return INVALID, 0; }
      var ok, k := CheckLoad(req);
      if !ok { return NO_KERNEL, 0; }
      var chan := ChooseChannel();
      if chan < 0 { return NO_KERNEL, 0; }
      RoomForClient();
      SlotsAreTidy(View());
      assert GoodChannel(View().channels[chan], chan);
      FillChannel(chan, req, id, k);
      AddClientToCu(req.clientId);
      status, chanId := SUCCESS, chan;
    }

    /** A client list has room left while a channel is free. */
    lemma RoomForClient()
      requires Wf() && CuInv(View()) && numChanInuse < MAX_CHANNELS
      ensures numClient < MAX_CHANNELS
      ensures forall i :: 0 <= i < numClient ==> clients[i] != 0
    {
      ChannelsAreLive(View());
      ClientsBound(View().clients, channels[..]);
      forall i | 0 <= i < numClient ensures clients[i] != 0 { assert clients[i] in View().clients; }
    }

    /** Writes the free channel and books its load: against the pool's slot k, or against the
        unit's used load. */
    method FillChannel(i: nat, req: Request, id: nat, k: int)
      requires Wf() && TidySlots(View().reserves) && i < MAX_CHANNELS && channels[i] == FreeChannel(i) && req.load > 0
      requires req.poolId != 0 ==> 0 <= k < numReserve && k == FindSlot(View().reserves, req.poolId)
      modifies this`numChanInuse, this`totalUsed, channels, reserves
      ensures Wf() && View() == old(View()).(channels := old(View()).channels[i := Granted(req, i, id)])
    {
      ghost var f := Fields();
      PoolsArePositive(View().reserves);
      RebookedGood(f, i, Granted(req, i, id), req.poolId, req.load);
      WriteBooked(i, req, id, k);
    }

    method WriteBooked(i: nat, req: Request, id: nat, k: int)
      requires Wf() && i < MAX_CHANNELS && channels[i] == FreeChannel(i) && req.load > 0
      requires if req.poolId != 0 then 0 <= k < numReserve && k == FindSlot(View().reserves, req.poolId)
               else FindSlot(View().reserves, 0) == numReserve
      modifies this`numChanInuse, this`totalUsed, channels, reserves
      ensures Fields() == old(Rebooked(Fields(), i, Granted(req, i, id), req.poolId, req.load))
    {
      hide Used, Total, Reserved, CuInv;
      ghost var f := Fields();
      channels[i] := Channel(channels[i].channelId, id, req.poolId, req.clientId, req.load);
      if req.poolId != 0 {
        reserves[k] := reserves[k].(used := reserves[k].used + req.load);
      } else {
        totalUsed := totalUsed + req.load;
      }
      numChanInuse := numChanInuse + 1;
      assert channels[..] == f.channels[i := Granted(req, i, id)];
      assert reserves[..] == Rebooked(f, i, Granted(req, i, id), req.poolId, req.load).reserves;
    }

    /** Frees channel i and takes its load off what it was booked against: the pool's slot if
        the pool still has one here, the unit's used load otherwise. */
    method FreeOne(i: nat) returns (delta: int)
      requires Wf() && TidySlots(View().reserves) && i < MAX_CHANNELS
      requires GoodChannel(channels[i], i) && channels[i].load != 0
      modifies this`numChanInuse, this`totalUsed, channels, reserves
      ensures Wf() && View() == old(View()).(channels := old(View()).channels[i := FreeChannel(i)])
      ensures delta == Used(View()) - Used(old(View()))
    {
      hide Total, Reserved, CuInv, Rebooked, GoodChannel;
      PoolsArePositive(View().reserves);
      var k := IsReservePoolUsingCu(channels[i].poolId);
      ghost var f := Fields();
      RebookedGood(f, i, FreeChannel(i), channels[i].poolId, -(channels[i].load as int));
      delta := ClearBooked(i, k);
    }

    method ClearBooked(i: nat, k: int) returns (delta: int)
      requires Wf() && i < MAX_CHANNELS && GoodChannel(channels[i], i) && channels[i].load != 0
      requires k == (var j := FindSlot(View().reserves, channels[i].poolId); if j < numReserve then j else -1)
      modifies this`numChanInuse, this`totalUsed, channels, reserves
      ensures Fields() == old(Rebooked(Fields(), i, FreeChannel(i), channels[i].poolId, -(channels[i].load as int)))
      ensures delta == totalUsed - old(totalUsed)
    {
      hide Used, Total, Reserved, CuInv;
      ghost var f := Fields();
      var ch := channels[i];
      var load: int := ch.load;
      if k != -1 {
        assert GoodReserve(f.reserves[k], f.channels);
      }
      if k != -1 && reserves[k].isActive {
        reserves[k] := reserves[k].(used := reserves[k].used - load);
        delta := 0;
      } else {
        totalUsed := totalUsed - load;
        delta := 0 - load;
      }
      numChanInuse := numChanInuse - 1;
      channels[i] := Channel(ch.channelId, 0, 0, 0, 0);
      assert channels[..] == f.channels[i := FreeChannel(i)];
      assert reserves[..] == Rebooked(f, i, FreeChannel(i), ch.poolId, -load).reserves;
    }

    /** Looks through the channels for the one described, and counts the client's others. */
    method ScanChannels(serviceId: nat, poolId: nat, c: nat, chanId: nat) returns (at: int, procChanCnt: nat)
      requires Wf() && c != 0
      requires forall i :: 0 <= i < MAX_CHANNELS ==> channels[i].channelId == i
      ensures at == if chanId < MAX_CHANNELS && Described(channels[chanId], serviceId, poolId, c) then chanId else -1
      ensures procChanCnt == Total(LiveOf(c), channels[..]) - (if at >= 0 then 1 else 0)
    {
      at, procChanCnt := -1, 0;
      var i := 0;
      while i < MAX_CHANNELS
        invariant 0 <= i <= MAX_CHANNELS
        invariant at == if chanId < i && Described(channels[chanId], serviceId, poolId, c) then chanId else -1
        invariant procChanCnt == Total(LiveOf(c), channels[..i]) - (if at >= 0 then 1 else 0)
      {
        TotalLast(LiveOf(c), channels[..i + 1]);
        assert channels[..i + 1][..i] == channels[..i];
        if !(channels[i].channelId == chanId && Described(channels[i], serviceId, poolId, c)) {
          if channels[i].clientId == c { procChanCnt := procChanCnt + 1; }
        } else {
          at := i;
        }
        i := i + 1;
      }
      assert channels[..i] == channels[..];
    }

    /** Frees the channel described, if there is one, and drops the client from the list when
        none of its channels remains. */
    method ReleaseChannel(serviceId: nat, poolId: nat, c: nat, chanId: nat) returns (found: bool, delta: int)
      requires Wf() && CuInv(View()) && c != 0
      modifies Footprint()
      ensures Wf()
      ensures found <==> chanId < MAX_CHANNELS && Described(old(View()).channels[chanId], serviceId, poolId, c)
      ensures View() == if found then ClearChannel(old(View()), chanId) else old(View())
      ensures delta == Used(View()) - Used(old(View()))
    {
      hide CuInv, Total, GoodFields, TidySlots;
      ghost var cu := View();
      ChannelsAreNumbered(cu);
      SlotsAreTidy(cu);
      var at, procChanCnt := ScanChannels(serviceId, poolId, c, chanId);
      found, delta := at >= 0, 0;
      if found {
        GoodChannelAt(cu, chanId);
        TotalUpdate(LiveOf(c), cu.channels, chanId, FreeChannel(chanId));
        delta := FreeOne(at);
      }
      if procChanCnt == 0 {
        if !found { NotListed(cu, c); }
        RemoveClientOnCu(c);
      }
    }

    /** Reserves load for a pool, in its slot or a new one. */
    method ReserveLoad(p: nat, load: int, client: nat) returns (status: Status)
      requires Wf() && CuInv(View())
      requires p != 0 && FindSlot(View().reserves, p) == numReserve ==> Total(LoadInPool(p), View().channels) == 0
      modifies Footprint()
      ensures Wf()
      ensures status == (if p == 0 || load <= 0 || load > MAX_LOAD then INVALID
                         else if Reservable(old(View()), p, load) then SUCCESS else NO_KERNEL)
      ensures View() == if status == SUCCESS then ReserveSlot(old(View()), p, load, client) else old(View())
    {
      if p < 1 { return INVALID; }
      if load <= 0 || load > MAX_LOAD { return INVALID; }
      UsedBounds(View());
      if totalUsed + load <= MAX_LOAD && totalReserved + load <= MAX_LOAD {
        var k := IsReservePoolUsingCu(p);
        if k != -1 {
          GrowSlot(k, p, load, client);
          return SUCCESS;
        } else if numReserve < MAX_RESERVES {
          NewSlot(p, load, client);
          return SUCCESS;
        }
      }
      return NO_KERNEL;
    }

    method GrowSlot(k: nat, p: nat, load: nat, client: nat)
      requires Wf() && CuInv(View()) && Reservable(View(), p, load) && p != 0 && k < numReserve
      requires k == FindSlot(View().reserves, p)
      modifies this`totalUsed, this`totalReserved, reserves
      ensures Wf() && View() == ReserveSlot(old(View()), p, load, client)
    {
      ghost var f := Fields();
      totalUsed := totalUsed + load;
      totalReserved := totalReserved + load;
      reserves[k] := reserves[k].(load := reserves[k].load + load);
      ReservedGood(f, f.reserves[k := reserves[k]], p, load, client);
      assert Fields() == f.(totalUsed := f.totalUsed + load, totalReserved := f.totalReserved + load,
                            reserves := f.reserves[k := reserves[k]]);
    }

    method NewSlot(p: nat, load: nat, client: nat)
      requires Wf() && CuInv(View()) && Reservable(View(), p, load) && p != 0 && numReserve < MAX_RESERVES
      requires FindSlot(View().reserves, p) == numReserve && Total(LoadInPool(p), View().channels) == 0
      modifies this`totalUsed, this`totalReserved, this`numReserve, reserves
      ensures Wf() && View() == ReserveSlot(old(View()), p, load, client)
    {
      ghost var f := Fields();
      totalUsed := totalUsed + load;
      totalReserved := totalReserved + load;
      // the used load of the slot is not written: it is 0 beyond the count
      reserves[numReserve] := ReserveData(p, load, reserves[numReserve].used, true, client);
      numReserve := numReserve + 1;
      ReservedGood(f, f.reserves[f.numReserve := ReserveData(p, load, 0, true, client)], p, load, client);
      assert Fields() == f.(totalUsed := f.totalUsed + load, totalReserved := f.totalReserved + load,
                            numReserve := f.numReserve + 1,
                            reserves := f.reserves[f.numReserve := ReserveData(p, load, 0, true, client)]);
    }

    /** Closes the gap that slot k leaves, and empties the last slot. */
    method ShiftReserves(k: nat)
      requires Shape() && k < numReserve <= reserves.Length
      requires forall i :: numReserve <= i < reserves.Length ==> reserves[i] == NO_RESERVE
      modifies this`numReserve, reserves
      ensures numReserve == old(numReserve) - 1
      ensures reserves[..numReserve] == DeleteAt(old(reserves[..numReserve]), k)
      ensures forall i :: numReserve <= i < reserves.Length ==> reserves[i] == NO_RESERVE
    {
      var i := k;
      while i < numReserve - 1
        invariant numReserve == old(numReserve) && k <= i < numReserve
        invariant forall j :: 0 <= j < k ==> reserves[j] == old(reserves[j])
        invariant forall j :: k <= j < i ==> reserves[j] == old(reserves[j + 1])
        invariant forall j :: i <= j < reserves.Length ==> reserves[j] == old(reserves[j])
      {
        reserves[i] := reserves[i + 1];
        i := i + 1;
      }
      reserves[i] := NO_RESERVE;
      numReserve := numReserve - 1;
    }

    /** Takes slot k out: its unused load goes back to the default pool, its used load stays. */
    method TakeSlot(k: nat) returns (delta: int)
      requires Wf() && CuInv(View()) && k < numReserve
      modifies this`totalUsed, this`totalReserved, this`numReserve, reserves
      ensures Wf() && View() == DropSlot(old(View()), k)
      ensures delta == Used(View()) - Used(old(View()))
    {
      ghost var cu, rs := View(), reserves[..numReserve];
      SlotTaken(cu, k);
      assert GoodReserve(reserves[k], channels[..]);
      delta := -(reserves[k].load - reserves[k].used);
      totalUsed := totalUsed + delta;
      totalReserved := totalReserved - reserves[k].load;
      ShiftReserves(k);
      GoodAfterShift(rs, k, channels[..]);
      assert SlotsOf(reserves[..numReserve]) == DeleteAt(cu.reserves, k);
      assert forall j :: 0 <= j < numReserve ==> reserves[j] == reserves[..numReserve][j];
    }

    /** Drops the pool's slot, unless load of it is in use. */
    method RelinquishSlot(p: nat) returns (ok: bool, delta: int)
      requires Wf() && CuInv(View())
      modifies Footprint()
      ensures Wf()
      ensures ok <==> !PoolInUse(old(View()), p)
      ensures View() == if ok then DropPool(old(View()), p) else old(View())
      ensures delta == Used(View()) - Used(old(View()))
    {
      var i := 0;
      while i < numReserve
        invariant 0 <= i <= numReserve
        invariant forall j :: 0 <= j < i ==> reserves[j].poolId != p
      {
        if reserves[i].poolId == p {
          assert FindSlot(View().reserves, p) == i;
          assert GoodReserve(reserves[i], channels[..]);
          if reserves[i].used != 0 { return false, 0; }
          delta := TakeSlot(i);
          return true, delta;
        }
        i := i + 1;
      }
      return true, 0;
    }

    /** Drops slot i if it is the dead client's, whatever is in use of it. */
    method RecycleSlot(i: nat, c: nat) returns (taken: bool, delta: int)
      requires Wf() && CuInv(View()) && i < numReserve
      modifies Footprint()
      ensures Wf() && CuInv(View()) && |old(View()).reserves| == old(numReserve) && |View().reserves| == numReserve
      ensures taken <==> old(View()).reserves[i].clientId == c
      ensures View() == if taken then DropSlot(old(View()), i) else old(View())
      ensures delta == Used(View()) - Used(old(View()))
      ensures numReserve == if taken then old(numReserve) - 1 else old(numReserve)
    {
      hide Used, CuInv;
      assert GoodReserve(reserves[i], channels[..]);
      taken, delta := false, 0;
      if reserves[i].isActive && reserves[i].clientId == c {
        DropSlotKeepsInv(View(), i);
        delta := TakeSlot(i);
        taken := true;
      }
    }

    /** Drops the slots of a dead client, one by one. */
    method RecycleSlots(c: nat) returns (delta: int)
      requires Wf() && CuInv(View())
      modifies Footprint()
      ensures Wf() && View() == DropSlotsFrom(old(View()), 0, c) && CuInv(View())
      ensures delta == Used(View()) - Used(old(View()))
    {
      hide Used, CuInv, DropSlot, GoodFields, ViewOf;
      ghost var cu := View();
      SlotCount();
      delta := 0;
      var i := 0;
      while i < numReserve
        invariant i <= numReserve == |View().reserves| && Wf() && CuInv(View())
        invariant DropSlotsFrom(View(), i, c) == DropSlotsFrom(cu, 0, c)
        invariant delta == Used(View()) - Used(cu)
        decreases numReserve - i
      {
        var taken, d := RecycleSlot(i, c);
        delta := delta + d;
        if !taken { i := i + 1; }
      }
    }

    /** What the counters come to: reserved load within used load within a full unit, and no
        more clients than channels in use. */
    lemma CountersInRange()
      requires Wf() && CuInv(View())
      ensures 0 <= totalReserved <= totalUsed <= MAX_LOAD
      ensures numClient <= numChanInuse <= MAX_CHANNELS
      ensures forall k :: 0 <= k < numReserve ==> 0 <= reserves[k].used <= reserves[k].load
      ensures forall c :: c in clients[..numClient] <==> Owns(channels[..], c)
    {
      UsedBounds(View());
      LiveBound(channels[..]);
      ChannelsAreLive(View());
      ClientsBound(View().clients, channels[..]);
      forall k | 0 <= k < numReserve ensures 0 <= reserves[k].used <= reserves[k].load {
        assert GoodReserve(reserves[k], channels[..]);
        assert GoodSlot(View().reserves[k], channels[..]);
        TotalNonNegative(LoadInPool(reserves[k].poolId), channels[..]);
      }
    }

    lemma SlotCount()
      requires Wf()
      ensures |View().reserves| == numReserve
    {
    }

    /** Frees channel j if it is the client's. */
    method FreeIfOwned(j: nat, c: nat) returns (delta: int)
      requires Wf() && TidySlots(View().reserves) && j < MAX_CHANNELS && GoodChannel(channels[j], j) && c != 0
      modifies Footprint()
      ensures Wf() && View() == old(View()).(channels := FreedAt(old(View()).channels, c, j))
      ensures delta == Used(View()) - Used(old(View()))
    {
      if channels[j].clientId != 0 && channels[j].clientId == c {
        delta := FreeOne(j);
      } else {
        delta := 0;
        assert FreedAt(channels[..], c, j) == channels[..];
      }
    }

    /** Frees every channel of the client, if the unit lists it. */
    method ReleaseAllOfClient(c: nat) returns (delta: int)
      requires Wf() && CuInv(View()) && c != 0
      modifies Footprint()
      ensures Wf() && View() == ClearClient(old(View()), c)
      ensures delta == Used(View()) - Used(old(View()))
    {
      var k := IsClientUsingCu(c);
      if k < 0 {
        assert c !in View().clients;
        return 0;
      }
      assert View().clients[k] == c;
      SlotsAreTidy(View());
      ghost var chs := channels[..];
      assert forall i :: 0 <= i < |chs| ==> GoodChannel(View().channels[i], i);
      RemoveClientOnCu(c);
      delta := FreeAllOwned(c);
    }

    method FreeAllOwned(c: nat) returns (delta: int)
      requires Wf() && TidySlots(View().reserves) && c != 0
      requires forall i :: 0 <= i < MAX_CHANNELS ==> GoodChannel(channels[i], i)
      modifies Footprint()
      ensures Wf() && View() == old(View()).(channels := Freed(old(View()).channels, c))
      ensures delta == Used(View()) - Used(old(View()))
    {
      delta := 0;
      var j := 0;
      ghost var cu := View();
      assert FreedUpTo(cu.channels, c, 0) == cu.channels;
      while j < MAX_CHANNELS
        invariant 0 <= j <= MAX_CHANNELS && Wf()
        invariant View() == cu.(channels := FreedUpTo(cu.channels, c, j))
        invariant delta == Used(View()) - Used(cu)
      {
        assert channels[j] == View().channels[j] == cu.channels[j];
        FreedNext(cu.channels, c, j);
        var d := FreeIfOwned(j, c);
        delta := delta + d;
        j := j + 1;
      }
      assert FreedUpTo(cu.channels, c, j) == Freed(cu.channels, c);
    }

    /** Reserves an idle unit as a whole: slot 0 gets the full load. */
    method ReserveWholeUnit(p: nat, client: nat)
      requires Wf() && CuInv(View()) && IdleCu(View()) && p != 0
      modifies Footprint()
      ensures Wf() && View() == ReserveWhole(old(View()), p, client)
    {
      ghost var f := Fields();
      IdleIffUnused(View());
      TotalZero(LoadInPool(p), View().channels);
      ReserveWholeKeepsInv(View(), p, client);
      ReservedGood(f, f.reserves[0 := ReserveData(p, MAX_LOAD, 0, true, client)], p, MAX_LOAD, client);
      totalUsed := MAX_LOAD;
      totalReserved := MAX_LOAD;
      reserves[0] := ReserveData(p, MAX_LOAD, 0, true, client);
      numReserve := 1;
      UsedBounds(ViewOf(f));
      assert Fields() == f.(totalUsed := MAX_LOAD, totalReserved := MAX_LOAD, numReserve := 1,
                            reserves := f.reserves[0 := ReserveData(p, MAX_LOAD, 0, true, client)]);
    }

    /** Adds to acc the channels that carry the id; gives up at one more than the limit. */
    method QueryChannels(d: nat, c: nat, id: nat, limit: nat, acc: seq<Res>) returns (over: bool, rs: seq<Res>)
      requires Wf() && |acc| <= limit
      ensures var found := InChannels(d, c, View().channels, MAX_CHANNELS, id);
              && (over <==> |acc| + |found| > limit)
              && (!over ==> rs == acc + found)
    {
      ghost var chs := channels[..];
      over, rs := false, acc;
      var k := 0;
      while k < MAX_CHANNELS
        invariant 0 <= k <= MAX_CHANNELS && |rs| <= limit
        invariant rs == acc + InChannels(d, c, chs, k, id)
      {
        LongerChannels(d, c, chs, k + 1, id);
        if channels[k].serviceId == id {
          if |rs| >= limit { return true, []; }
          rs := rs + [Res(d, c, k, id, channels[k].clientId, channels[k].poolId, channels[k].load)];
        }
        k := k + 1;
      }
    }

    /** Makes the record that of a unit just loaded. */
    method Init(names: Names)
      requires Shape()
      modifies Footprint()
      ensures Wf() && View() == FreshCu(names)
    {
      this.names := names;
      for i := 0 to MAX_CHANNELS
        invariant forall j :: 0 <= j < i ==> channels[j] == FreeChannel(j) && clients[j] == 0
        invariant this.names == names
      {
        channels[i] := FreeChannel(i);
        clients[i] := 0;
      }
      for i := 0 to MAX_RESERVES
        invariant forall j :: 0 <= j < MAX_CHANNELS ==> channels[j] == FreeChannel(j) && clients[j] == 0
        invariant forall j :: 0 <= j < i ==> reserves[j] == NO_RESERVE
        invariant this.names == names
      {
        reserves[i] := NO_RESERVE;
      }
      numChanInuse, numClient, numReserve, totalUsed, totalReserved := 0, 0, 0, 0, 0;
      assert View() == FreshCu(names);
      FreshCounters(View());
    }
  }

  predicate GoodReserve(r: ReserveData, chs: seq<Channel>) {
    r.isActive && r.used == Total(LoadInPool(r.poolId), chs)
  }

  /** On a fresh unit every counter is 0. */
  lemma FreshCounters(cu: CuState)
    requires exists names :: cu == FreshCu(names)
    ensures Total(Live, cu.channels) == 0 && Used(cu) == 0 && Reserved(cu.reserves) == 0
  {
    TotalZero(Live, cu.channels);
    TotalZero(LoadOutside(Pools(cu.reserves)), cu.channels);
  }

  lemma AllFree(chs: seq<Channel>)
    requires Total(Live, chs) == 0 && |chs| > 0
    ensures FirstFree(chs) == 0
  {
    TotalMember(Live, chs, 0);
  }

  /** The channel is the one a release describes. */
  predicate Described(ch: Channel, serviceId: nat, poolId: nat, c: nat) {
    ch.serviceId == serviceId && ch.poolId == poolId && ch.clientId == c
  }

  lemma ChannelsAreLive(cu: CuState)
    requires CuInv(cu)
    ensures forall i :: 0 <= i < |cu.channels| && cu.channels[i].clientId != 0 ==> cu.channels[i].load != 0
    ensures forall c :: c in cu.clients ==> Owns(cu.channels, c)
  {
    forall i | 0 <= i < |cu.channels| && cu.channels[i].clientId != 0 ensures cu.channels[i].load != 0 {
      assert GoodChannel(cu.channels[i], i);
    }
    forall c | c in cu.clients ensures Owns(cu.channels, c) { }
  }

  lemma NotListed(cu: CuState, c: nat)
    requires CuInv(cu) && Total(LiveOf(c), cu.channels) == 0
    ensures Remove(cu.clients, c) == cu.clients
  {
    assert !Owns(cu.channels, c);
    assert forall i :: 0 <= i < |cu.clients| ==> cu.clients[i] in cu.clients;
  }

  lemma ReservedAfter(cu: CuState, p: nat, load: int, client: nat)
    requires load > 0
    ensures Reserved(ReserveSlot(cu, p, load, client).reserves) == Reserved(cu.reserves) + load
  {
    var rs, rs', k := cu.reserves, ReserveSlot(cu, p, load, client).reserves, FindSlot(cu.reserves, p);
    if k < |rs| {
      assert SlotLoads(rs') == SlotLoads(rs)[k := rs[k].load + load];
      SumUpdate(SlotLoads(rs), k, rs[k].load + load);
    } else {
      assert SlotLoads(rs')[..|rs|] == SlotLoads(rs);
    }
  }

  /** Slots have distinct, nonzero pool ids. */
  ghost predicate TidySlots(rs: seq<Slot>) {
    Distinct(PoolIds(rs)) && forall i :: 0 <= i < |rs| ==> rs[i].poolId != 0
  }

  lemma SlotsAreTidy(cu: CuState)
    requires CuInv(cu)
    ensures TidySlots(cu.reserves)
  {
    forall i | 0 <= i < |cu.reserves| ensures cu.reserves[i].poolId != 0 {
      assert GoodSlot(cu.reserves[i], cu.channels);
    }
  }

  lemma PoolsArePositive(rs: seq<Slot>)
    requires TidySlots(rs)
    ensures 0 !in Pools(rs)
  {
  }

  /** Slot j has the pool's id exactly when it is the pool's slot. */
  lemma SlotIds(rs: seq<Slot>, p: nat, j: nat)
    requires TidySlots(rs) && j < |rs|
    ensures rs[j].poolId == p <==> FindSlot(rs, p) == j
  {
    var k := FindSlot(rs, p);
    if k < |rs| && rs[j].poolId == p {
      assert PoolIds(rs)[j] == PoolIds(rs)[k];
    }
  }

  lemma GoodChannelAt(cu: CuState, i: nat)
    requires CuInv(cu) && i < MAX_CHANNELS
    ensures |cu.channels| == MAX_CHANNELS && GoodChannel(cu.channels[i], i)
  {
  }

  lemma ChannelsAreNumbered(cu: CuState)
    requires CuInv(cu)
    ensures forall i :: 0 <= i < MAX_CHANNELS ==> cu.channels[i].channelId == i
  {
    forall i | 0 <= i < MAX_CHANNELS ensures cu.channels[i].channelId == i { assert GoodChannel(cu.channels[i], i); }
  }

  lemma SlotTaken(cu: CuState, k: nat)
    requires CuInv(cu) && k < |cu.reserves|
    ensures Used(DropSlot(cu, k))
              == Used(cu) - cu.reserves[k].load + Total(LoadInPool(cu.reserves[k].poolId), cu.channels)
    ensures Reserved(DropSlot(cu, k).reserves) == Reserved(cu.reserves) - cu.reserves[k].load
  {
    DropSlotKeepsInv(cu, k);
    assert SlotLoads(DeleteAt(cu.reserves, k)) == DeleteAt(SlotLoads(cu.reserves), k);
    SumDelete(SlotLoads(cu.reserves), k);
  }

  lemma GoodAfterShift(rs: seq<ReserveData>, k: nat, chs: seq<Channel>)
    requires k < |rs| && forall i :: 0 <= i < |rs| ==> GoodReserve(rs[i], chs)
    ensures forall j :: 0 <= j < |rs| - 1 ==> GoodReserve(DeleteAt(rs, k)[j], chs)
    ensures SlotsOf(DeleteAt(rs, k)) == DeleteAt(SlotsOf(rs), k)
  {
  }

  /** Channel j freed if it is the client's. */
  function FreedAt(chs: seq<Channel>, c: nat, j: nat): seq<Channel>
    requires j < |chs|
  {
    if chs[j].clientId == c then chs[j := FreeChannel(j)] else chs
  }

  /** The client's channels before j freed. */
  function FreedUpTo(chs: seq<Channel>, c: nat, j: nat): (chs': seq<Channel>)
    requires j <= |chs|
    ensures |chs'| == |chs|
    ensures forall i :: 0 <= i < |chs| ==> chs'[i] == if i < j && chs[i].clientId == c then FreeChannel(i) else chs[i]
  {
    seq(|chs|, i requires 0 <= i < |chs| => if i < j && chs[i].clientId == c then FreeChannel(i) else chs[i])
  }

  lemma FreedNext(chs: seq<Channel>, c: nat, j: nat)
    requires j < |chs|
    ensures FreedUpTo(chs, c, j + 1) == FreedAt(FreedUpTo(chs, c, j), c, j)
  {
  }

  // ---------------------------------------------------------------------------------
  // Records after one update
  // ---------------------------------------------------------------------------------

  /** Channel i is rewritten and the load difference d booked against the slot of pool p, or
      against the used load when the pool has no slot. */
  function Rebooked(f: CuFields, i: nat, ch: Channel, p: nat, d: int): CuFields
    requires i < |f.channels| && f.numReserve <= |f.reserves|
  {
    var k := FindSlot(ViewOf(f).reserves, p);
    var n := f.numChanInuse - Weigh(Live, f.channels[i]) + Weigh(Live, ch);
    if k < f.numReserve then
      f.(channels := f.channels[i := ch], numChanInuse := n,
         reserves := f.reserves[k := f.reserves[k].(used := f.reserves[k].used + d)])
    else
      f.(channels := f.channels[i := ch], numChanInuse := n, totalUsed := f.totalUsed + d)
  }

  lemma RebookedSlots(f: CuFields, i: nat, ch: Channel, p: nat, d: int, j: nat)
    requires GoodFields(f) && TidySlots(ViewOf(f).reserves) && i < |f.channels| && j < f.numReserve
    requires d == Weigh(LoadInPool(p), ch) - Weigh(LoadInPool(p), f.channels[i])
    requires ch.poolId == p || ch.load == 0
    requires f.channels[i].poolId == p || f.channels[i].load == 0
    ensures GoodReserve(Rebooked(f, i, ch, p, d).reserves[j], f.channels[i := ch])
  {
    assert GoodReserve(f.reserves[j], f.channels);
    SlotIds(ViewOf(f).reserves, p, j);
    TotalUpdate(LoadInPool(f.reserves[j].poolId), f.channels, i, ch);
  }

  lemma RebookedView(f: CuFields, i: nat, ch: Channel, p: nat, d: int)
    requires f.numReserve <= |f.reserves| && i < |f.channels|
    ensures ViewOf(Rebooked(f, i, ch, p, d)) == ViewOf(f).(channels := f.channels[i := ch])
  {
    var f' := Rebooked(f, i, ch, p, d);
    assert SlotsOf(f'.reserves[..f.numReserve]) == SlotsOf(f.reserves[..f.numReserve]);
  }

  lemma RebookedGood(f: CuFields, i: nat, ch: Channel, p: nat, d: int)
    requires GoodFields(f) && TidySlots(ViewOf(f).reserves) && i < |f.channels|
    requires d == Weigh(LoadInPool(p), ch) - Weigh(LoadInPool(p), f.channels[i])
    requires ch.poolId == p || ch.load == 0
    requires f.channels[i].poolId == p || f.channels[i].load == 0
    ensures GoodFields(Rebooked(f, i, ch, p, d))
    ensures ViewOf(Rebooked(f, i, ch, p, d)) == ViewOf(f).(channels := f.channels[i := ch])
  {
    var f' := Rebooked(f, i, ch, p, d);
    RebookedView(f, i, ch, p, d);
    ChannelRebooked(ViewOf(f), i, ch);
    forall j | 0 <= j < f.numReserve ensures GoodReserve(f'.reserves[j], f'.channels) {
      RebookedSlots(f, i, ch, p, d, j);
    }
  }

  lemma ChannelRebooked(cu: CuState, i: nat, ch: Channel)
    requires i < |cu.channels|
    ensures var cu' := cu.(channels := cu.channels[i := ch]);
            && Used(cu') == Used(cu) - Weigh(LoadOutside(Pools(cu.reserves)), cu.channels[i])
                                     + Weigh(LoadOutside(Pools(cu.reserves)), ch)
            && Total(Live, cu'.channels) == Total(Live, cu.channels) - Weigh(Live, cu.channels[i]) + Weigh(Live, ch)
  {
    TotalUpdate(LoadOutside(Pools(cu.reserves)), cu.channels, i, ch);
    TotalUpdate(Live, cu.channels, i, ch);
  }

  /** The record after a reservation, once the slot array is known to hold it. */
  lemma ReservedGood(f: CuFields, rs: seq<ReserveData>, p: nat, load: nat, client: nat)
    requires GoodFields(f) && CuInv(ViewOf(f)) && Reservable(ViewOf(f), p, load) && p != 0
    requires var k := FindSlot(ViewOf(f).reserves, p);
             k < |f.reserves| && rs == f.reserves[k :=
               if k < f.numReserve then f.reserves[k].(load := f.reserves[k].load + load)
                 else ReserveData(p, load, 0, true, client)]
    requires FindSlot(ViewOf(f).reserves, p) == f.numReserve ==> Total(LoadInPool(p), f.channels) == 0
    ensures var k := FindSlot(ViewOf(f).reserves, p);
            var f' := f.(totalUsed := f.totalUsed + load, totalReserved := f.totalReserved + load,
                         numReserve := if k < f.numReserve then f.numReserve else f.numReserve + 1, reserves := rs);
            GoodFields(f') && ViewOf(f') == ReserveSlot(ViewOf(f), p, load, client)
  {
    var k := FindSlot(ViewOf(f).reserves, p);
    var n := if k < f.numReserve then f.numReserve else f.numReserve + 1;
    ReserveKeepsInv(ViewOf(f), p, load, client);
    ReservedAfter(ViewOf(f), p, load, client);
    assert SlotsOf(rs[..n]) == ReserveSlot(ViewOf(f), p, load, client).reserves;
    forall j | 0 <= j < n ensures GoodReserve(rs[j], f.channels) {
      if j < f.numReserve { assert GoodReserve(f.reserves[j], f.channels); }
    }
  }
}
