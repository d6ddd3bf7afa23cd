/** Why a pool of several lists, each confined to one device, may hold less than was asked
    for: an attempt that fails on one device gives the WHOLE pool back, with the load of the
    lists already reserved, and the search goes on. `AmountModel` says exactly when it holds all. */
module SameDeviceModel {
  import opened Tables
  import opened CuModel
  import opened DeviceModel
  import opened SystemModel
  import opened PoolModel
  import opened PoolTransaction
  import opened LoadModel

  const UNIT: Names := Names("k", "", "")
  const PART: Request := Request(UNIT, false, 600_000, 1, 0)

  function OneUnit(): DevState {
    DevState(true, false, 0, [FreshCu(UNIT)], EmptyTable(), 0)
  }

  /** Two loaded devices of one unit each, with nothing in use. */
  function TwoDevices(): SysState {
    SysState([OneUnit(), OneUnit()], 0, 0)
  }

  /** Two lists of one unit each, 600,000 apiece. */
  const TWICE: PoolRequest := PoolRequest(2, [PART], true, 0, 0, 1)

  lemma TwoDevicesAreValid()
    ensures Inv(TwoDevices()) && IdsFresh(TwoDevices())
  {
    UnusedInv(OneUnit());
    forall d, c | 0 <= d < 2 && 0 <= c < |TwoDevices().devs[d].cus|
      ensures IdsUpTo(TwoDevices().devs[d].cus[c], 0, 0) { }
  }

  /** An idle unit of the right name takes 600,000, and then no more. */
  lemma TakesOnce(cu: CuState, p: nat)
    requires cu == FreshCu(UNIT) && p != 0
    ensures PickReserve([cu], p, PART) == 0
    ensures PickReserve([ReserveSlot(cu, p, 600_000, 1)], p, PART) == 1
  {
    FreshCuInv(UNIT);
    IdleIffUnused(cu);
    TotalZero(LoadInPool(p), cu.channels);
    ReserveKeepsInv(cu, p, 600_000, 1);
    var cu' := ReserveSlot(cu, p, 600_000, 1);
    assert Takes(cu, false, p, PART) && !Takes(cu, true, p, PART);
    assert !Takes(cu', false, p, PART) && !Takes(cu', true, p, PART);
    assert TakesFrom([cu], 0, true, p, PART) == 1;
    assert TakesFrom([cu'], 0, true, p, PART) == 1 && TakesFrom([cu'], 0, false, p, PART) == 1;
  }

  /** Reserving the list on a device whose one unit is idle. */
  lemma ReservesOnce(s: SysState, d: nat, p: nat)
    requires d < |s.devs| && s.devs[d].cus == [FreshCu(UNIT)] && p != 0
    ensures ReserveEach(s, d, p, [PART], 0) == (ReserveAt(s, d, 0, p, PART), SUCCESS)
  {
    TakesOnce(FreshCu(UNIT), p);
    var s1 := ReserveAt(s, d, 0, p, PART);
    assert ReserveFromDev(s, p, d, PART) == (s1, SUCCESS);
    assert ReserveEach(s1, d, p, [PART], 1) == (s1, SUCCESS);
  }

  lemma RefusesTwice(s: SysState, d: nat, p: nat)
    requires d < |s.devs| && s.devs[d].cus == [ReserveSlot(FreshCu(UNIT), p, 600_000, 1)] && p != 0
    ensures ReserveEach(s, d, p, [PART], 0) == (Relinquish(s, p).0, NO_KERNEL)
  {
    TakesOnce(FreshCu(UNIT), p);
    assert ReserveFromDev(s, p, d, PART) == (s, NO_KERNEL);
  }

  /** The second list does not fit on the first device; the attempt gives the first list's load
      back; the second list then gets the second device. The pool is granted, with 600,000 of
      the 1,200,000 asked for. */
  lemma PoolHoldsHalf()
    ensures var (s', p) := ReservePool(TwoDevices(), TWICE);
            p != 0 && HeldTotal(s', p) == 600_000 && TWICE.listNum * LoadFrom(TWICE.reqs, 0) == 1_200_000
  {
    var s, p := TwoDevices(), 1;
    TwoDevicesAreValid();
    NextPoolHoldsNothing(s);
    var s1 := ReserveAt(s, 0, 0, p, PART);
    FirstList(s, s1, p);
    ReserveAtAdds(s, s, {p}, 0, 0, p, PART);
    GivenBack(s, s1, {p}, p);
    var s2 := Relinquish(s1, p).0;
    BackToIdle(s, s2, p);
    var s3 := ReserveAt(s2, 1, 0, p, PART);
    SecondList(s1, s2, s3, p);
    ReserveAtAdds(s, s2, {p}, 1, 0, p, PART);
    assert ReserveLists(s1, p, 1, [PART], true) == (s3, SUCCESS) by {
      assert ReserveLists(s3, p, 0, [PART], true) == (s3, SUCCESS);
    }
    assert ReserveLists(s, p, 2, [PART], true) == (s3, SUCCESS);
    assert ReserveXclbins(s, p, 0, 0, 1) == (s, SUCCESS);
    assert ReservePool(s, TWICE) == (s3.(poolId := p), p);
    PoolIdAside(s, s3, {p}, p);
    assert LoadFrom([PART], 1) == 0;
  }

  lemma FirstList(s: SysState, s1: SysState, p: nat)
    requires s == TwoDevices() && p == 1 && s1 == ReserveAt(s, 0, 0, p, PART)
    ensures ReserveList(s, p, [PART], true) == (s1, SUCCESS)
    ensures s1.devs[0].cus == [ReserveSlot(FreshCu(UNIT), p, 600_000, 1)] && Reservable(FreshCu(UNIT), p, 600_000)
  {
    ReservesOnce(s, 0, p);
    TakesOnce(FreshCu(UNIT), p);
    assert NextOpen(s.devs, 0, 1) == 0;
  }

  lemma BackToIdle(s: SysState, s2: SysState, p: nat)
    requires s == TwoDevices() && Reserving(s, s2, {p} - {p})
    ensures |s2.devs| == 2 && s2.devs[1].cus == [FreshCu(UNIT)] && s2.devs[1].isLoaded && !s2.devs[1].isExcl
  {
    assert {p} - {p} == {};
    NothingAdded(s, s2);
    assert s.devs[1].(drift := 0) == s2.devs[1].(drift := 0);
  }

  lemma SecondList(s1: SysState, s2: SysState, s3: SysState, p: nat)
    requires p != 0 && s1 == ReserveAt(TwoDevices(), 0, 0, p, PART) && s2 == Relinquish(s1, p).0
    requires |s2.devs| == 2 && s2.devs[1].cus == [FreshCu(UNIT)] && s2.devs[1].isLoaded && !s2.devs[1].isExcl
    requires s3 == ReserveAt(s2, 1, 0, p, PART)
    ensures ReserveList(s1, p, [PART], true) == (s3, SUCCESS)
  {
    assert s1.devs[0].cus == [ReserveSlot(FreshCu(UNIT), p, 600_000, 1)];
    assert NextOpen(s1.devs, 0, 1) == 0 && NextOpen(s2.devs, 1, 1) == 1;
    RefusesTwice(s1, 0, p);
    ReservesOnce(s2, 1, p);
    assert ReserveSame(s1, 0, p, [PART], ERROR) == ReserveSame(s2, 1, p, [PART], NO_KERNEL);
    assert ReserveSame(s2, 1, p, [PART], NO_KERNEL) == (s3, SUCCESS);
  }
}
