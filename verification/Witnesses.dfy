/** States in which the daemon does not do what one would expect: a device with one unit, all of
    whose 1000 channels one client holds, each with the least load there is. */
module Witnesses {
  import opened Tables
  import opened CuModel
  import opened DeviceModel
  import opened SystemModel
  import opened Placement
  import opened Rollback
  import opened ListModel
  import opened ExclusiveModel
  import opened ProbeModel
  import opened PolicyModel
  import opened RecycleModel
  import opened PoolModel

  function FullUnit(): CuState {
    CuState(Names("k", "", ""), seq(MAX_CHANNELS, i requires 0 <= i => Channel(i, 1, 0, 1, 1)), [1], [])
  }

  function FullDevice(): DevState {
    DevState(true, false, 0, [FullUnit()], EmptyTable()[0 := Proc(1, MAX_CHANNELS)], 0)
  }

  function FullSystem(): SysState {
    SysState([FullDevice()], 1, 0)
  }

  lemma FullTotal(m: Measure, w: int)
    requires Weigh(m, Channel(0, 1, 0, 1, 1)) == w
    ensures Total(m, FullUnit().channels) == w * MAX_CHANNELS
  {
    forall i | 0 <= i < MAX_CHANNELS ensures Weigh(m, FullUnit().channels[i]) == w { }
    SumConstant(Weights(m, FullUnit().channels), w);
  }

  lemma FullLive()
    ensures forall c: nat :: Total(LiveOf(c), FullUnit().channels) == if c == 1 then MAX_CHANNELS else 0
  {
    forall c: nat ensures Total(LiveOf(c), FullUnit().channels) == if c == 1 then MAX_CHANNELS else 0 {
      FullTotal(LiveOf(c), if c == 1 then 1 else 0);
    }
  }

  lemma FullUnitInv()
    ensures CuInv(FullUnit()) && Used(FullUnit()) == MAX_CHANNELS && !HasFree(FullUnit())
    ensures forall c: nat :: Total(LiveOf(c), FullUnit().channels) == if c == 1 then MAX_CHANNELS else 0
  {
    var cu := FullUnit();
    FullTotal(LoadOutside(Pools(cu.reserves)), 1);
    FullLive();
    forall c: nat ensures c in cu.clients <==> Owns(cu.channels, c) { }
    forall i | 0 <= i < MAX_CHANNELS ensures cu.channels[i].load != 0 { }
  }

  /** The state meets the invariant of runs. */
  lemma FullSystemIsGood()
    ensures Inv(FullSystem()) && IdsFresh(FullSystem())
  {
    var d := FullDevice();
    FullUnitInv();
    assert CuInv(d.cus[0]);
    forall c: nat ensures CusTotal(LiveChannels(c), d.cus) == if c == 1 then MAX_CHANNELS else 0 {
      assert CuWeights(LiveChannels(c), d.cus) == [Total(LiveOf(c), FullUnit().channels)];
      assert [Total(LiveOf(c), FullUnit().channels)][..0] == [];
    }
    forall k | 0 <= k < |d.procs| ensures GoodProc(d, k, 0) { }
    assert d.procs[0].clientId == 1;
    forall c: nat ensures Listed(d, c, 0) { }
    forall e, c | 0 <= e < 1 && 0 <= c < |FullSystem().devs[e].cus|
      ensures IdsUpTo(FullSystem().devs[e].cus[c], 1, 0) { }
  }

  /** The most used unit, asked for by another client, has load left but no channel: a success
      is reported, nothing is allocated, and the client's reference is lost. */
  lemma HollowSuccess()
    ensures var (s', r) := PlaceByLoad(FullSystem(), 0, MostUsed, Request(Names("k", "", ""), false, 1, 2, 0));
            r == Ok(Hollow(0, 0)) && !Inv(s')
  {
    var s, req := FullSystem(), Request(Names("k", "", ""), false, 1, 2, 0);
    FullSystemIsGood();
    FullUnitInv();
    assert s.devs[0].procs[1].clientId == 0;
    assert IsPick(s.devs[0].cus, MostUsed, req, 0);
    SuccessIsReal(s, 0, MostUsed, req, 0);
  }

  lemma FullUnitBusy()
    ensures DropSlotsFrom(FullUnit(), 0, 2) == FullUnit() && !IdleCu(FullUnit())
  {
    assert FullUnit().channels[0].load == 1;
  }

  /** Recycling a client that holds nothing at all spoils the load counter of a device in use. */
  lemma RecycleSpoilsCounter()
    ensures Recycle(FullSystem(), 2).devs[0].drift != 0
  {
    hide CuInv, DevInv, Inv, Recycle, DropSlotsFrom, IdleCu, FullUnit;
    FullSystemIsGood();
    FullUnitBusy();
    RecycledLoadCounter(FullSystem(), 2, 0);
    assert FullSystem().devs[0].cus[0] == FullUnit();
  }

  /** What the client asks for in vain: the whole device, for a kernel that is not there. */
  const VAIN: Request := Request(Names("absent", "", ""), true, 1, 1, 0)

  lemma VainTurns()
    ensures Inv(FullSystem()) && Turns(FullSystem().devs[0], VAIN) && Alone(FullSystem(), 0, 1)
    ensures !Matches(FullSystem().devs[0].cus[0], VAIN)
  {
    FullSystemIsGood();
    var ps := FullDevice().procs;
    assert ps[0].clientId == 1;
  }

  lemma VainUnserved(s': SysState, acc: seq<Res>)
    ensures |acc| == 1 ==> !Placed(FullSystem(), s', [VAIN], acc, Askers([VAIN]))
  {
    VainTurns();
    assert |acc| == 1 ==> !Serves(FullSystem(), acc[0], VAIN, NextId(1));
  }

  /** One allocation in vain, on the device or on any, leaves the device exclusive. */
  lemma FailedRequestLeavesTrace()
    ensures TryPlace(FullSystem(), 0, VAIN).1.Err? && TryPlace(FullSystem(), 0, VAIN).0 != FullSystem()
    ensures AllocCu(FullSystem(), VAIN, false).1.Err? && AllocCu(FullSystem(), VAIN, false).0 != FullSystem()
  {
    var s := FullSystem();
    VainTurns();
    AllocCuRefines(s, VAIN);
    FailedPlaceRestores(s, 0, VAIN);
    FailedAllocRestores(s, VAIN);
  }

  /** So does a list in vain, however it is asked for, and a probe. */
  lemma FailedListLeavesTrace(sameDevice: bool)
    ensures AllocCuList(FullSystem(), [VAIN], sameDevice).1.Err?
    ensures AllocCuList(FullSystem(), [VAIN], sameDevice).0 != FullSystem()
    ensures Inv(FullSystem()) && ProbeCu(FullSystem(), VAIN).0.devs != FullSystem().devs
  {
    hide Placed, Undone, Inv, AllocCuList, ProbeCu;
    var s := FullSystem();
    VainTurns();
    AllocCuListAllOrNothing(s, [VAIN], sameDevice);
    var (s', r) := AllocCuList(s, [VAIN], sameDevice);
    if r.Ok? { VainUnserved(s'.(serviceId := s.serviceId), r.value); }
    ExclusiveListRestores(s, [VAIN], sameDevice, 1);
    ProbeCuIsExact(s, VAIN);
  }
}
