/** Loading and unloading devices. What the hardware and the xclbin file do is a parameter;
    what is proved is which devices the daemon dares to touch. */
module LoadModel {
  import opened Tables
  import opened Sums
  import opened CuModel
  import opened DeviceModel
  import opened SystemModel
  import opened PoolModel

  /** What an attempt to load comes to on the hardware: the device is disabled; a step fails,
      before or after the load counter was set to 0; or the units of an xclbin appear. */
  datatype Attempt =
    | Disabled
    | Fails(counterReset: bool)
    | Loads(uuid: nat, units: seq<Names>)

  /** An xclbin has at least one unit and at most as many as the table. */
  predicate PossibleAttempt(h: Attempt) {
    h.Loads? ==> 1 <= |h.units| <= MAX_KERNELS
  }

  /** `first` and `again` are the attempts on each device, before and after an unload of it;
      `unlocks` says on which devices the driver gives up its lock. */
  datatype Hardware = Hardware(first: nat -> Attempt, again: nat -> Attempt, unlocks: nat -> bool)

  ghost predicate PossibleHardware(h: Hardware) {
    forall d: nat :: PossibleAttempt(h.first(d)) && PossibleAttempt(h.again(d))
  }

  // ---------------------------------------------------------------------------------
  // One device
  // ---------------------------------------------------------------------------------

  function FreshUnits(units: seq<Names>): (cus: seq<CuState>)
    ensures |cus| == |units|
    ensures forall c :: 0 <= c < |units| ==> cus[c] == FreshCu(units[c])
  {
    seq(|units|, c requires 0 <= c < |units| => FreshCu(units[c]))
  }

  function Installed(dev: DevState, uuid: nat, units: seq<Names>): DevState {
    dev.(isLoaded := true, uuid := uuid, cus := FreshUnits(units), drift := 0)
  }

  /** Everything but the load counter is cleared. */
  function Flushed(dev: DevState): DevState {
    DevState(false, false, 0, [], EmptyTable(), dev.drift + CusTotal(UsedLoad, dev.cus))
  }

  /** Loads the xclbin with the given id, for which the hardware attempt is h. */
  function LoadDev(dev: DevState, uuid: nat, h: Attempt): (DevState, Status) {
    match h
    case Disabled => (dev, ERROR)
    case _ =>
      if dev.isLoaded then (dev, if uuid == dev.uuid then SUCCESS else ERROR)
      else
        match h
        case Fails(counterReset) => (if counterReset then Flushed(dev.(drift := 0, cus := [])) else Flushed(dev), ERROR)
        case Loads(id, units) => (Installed(dev, id, units), SUCCESS)
  }

  function UnloadDev(dev: DevState, unlocks: bool): (DevState, Status) {
    if !dev.isLoaded then (Flushed(dev), SUCCESS)
    else if Busy(dev) then (dev, BUSY)
    else if !unlocks then (dev, LOCKED)
    else (Flushed(dev), SUCCESS)
  }

  // ---------------------------------------------------------------------------------
  // The whole database
  // ---------------------------------------------------------------------------------

  function Load(s: SysState, d: int, uuid: nat, h: Attempt): (SysState, Status) {
    if d < 0 || d >= |s.devs| then (s, INVALID)
    else
      var (dev, status) := LoadDev(s.devs[d], uuid, h);
      (SetDev(s, d, dev), status)
  }

  function Unload(s: SysState, d: int, unlocks: bool): (SysState, Status) {
    if d < 0 || d >= |s.devs| then (s, INVALID)
    else
      var (dev, status) := UnloadDev(s.devs[d], unlocks);
      (SetDev(s, d, dev), status)
  }

  /** First the devices that are not loaded, in order. */
  function LoadFree(s: SysState, d: nat, uuid: nat, h: Hardware): (r: (SysState, Option<nat>))
    requires d <= |s.devs|
    ensures |r.0.devs| == |s.devs|
    decreases |s.devs| - d
  {
    if d == |s.devs| then (s, None)
    else if s.devs[d].isLoaded then LoadFree(s, d + 1, uuid, h)
    else
      var (dev, status) := LoadDev(s.devs[d], uuid, h.first(d));
      if status == SUCCESS then (SetDev(s, d, dev), Some(d)) else LoadFree(SetDev(s, d, dev), d + 1, uuid, h)
  }

  /** Then the idle ones, each unloaded first. */
  function LoadIdle(s: SysState, d: nat, uuid: nat, h: Hardware): (r: (SysState, Option<nat>))
    requires d <= |s.devs|
    ensures |r.0.devs| == |s.devs|
    decreases |s.devs| - d
  {
    if d == |s.devs| then (s, None)
    else if Busy(s.devs[d]) then LoadIdle(s, d + 1, uuid, h)
    else
      var (dev, st) := UnloadDev(s.devs[d], h.unlocks(d));
      if st != SUCCESS then LoadIdle(SetDev(s, d, dev), d + 1, uuid, h)
      else
        var (dev', status) := LoadDev(dev, uuid, h.again(d));
        if status == SUCCESS then (SetDev(s, d, dev'), Some(d)) else LoadIdle(SetDev(s, d, dev'), d + 1, uuid, h)
  }

  function LoadAny(s: SysState, uuid: nat, h: Hardware): (SysState, Option<nat>) {
    var (s1, r1) := LoadFree(s, 0, uuid, h);
    if r1.Some? then (s1, r1) else LoadIdle(s1, 0, uuid, h)
  }

  // ---------------------------------------------------------------------------------
  // What loading and unloading keep
  // ---------------------------------------------------------------------------------

  /** A device on which nothing is in use counts no client. */
  lemma IdleHasNoClients(dev: DevState)
    requires DevInv(dev) && !Busy(dev)
    ensures dev.procs == EmptyTable() && !dev.isExcl && CusTotal(UsedLoad, dev.cus) == 0
  {
    SumZeros(CuWeights(UsedLoad, dev.cus));
    forall k | 0 <= k < |dev.procs| ensures dev.procs[k] == Proc(0, 0) {
      assert GoodProc(dev, k, 0);
      if dev.procs[k].clientId != 0 { NothingLive(dev, dev.procs[k].clientId); }
    }
  }

  lemma NothingLive(dev: DevState, c: nat)
    requires DevInv(dev) && !Busy(dev) && c != 0
    ensures CusTotal(LiveChannels(c), dev.cus) == 0
  {
    IdleDevice(dev);
    forall i | 0 <= i < |dev.cus| ensures WeighCu(LiveChannels(c), dev.cus[i]) == 0 {
      var cu := dev.cus[i];
      assert CuInv(cu) && IdleCu(cu);
      forall k | 0 <= k < |cu.channels| ensures Weigh(LiveOf(c), cu.channels[k]) == 0 {
        assert GoodChannel(cu.channels[k], k);
      }
      TotalZero(LiveOf(c), cu.channels);
    }
    SumZeros(CuWeights(LiveChannels(c), dev.cus));
  }

  /** A device nobody uses, with no client in its table, meets the invariant. */
  lemma UnusedInv(dev: DevState)
    requires dev.procs == EmptyTable() && !dev.isExcl && |dev.cus| <= MAX_KERNELS
    requires forall c :: 0 <= c < |dev.cus| ==> dev.cus[c] == FreshCu(dev.cus[c].names)
    requires dev.isLoaded <==> |dev.cus| >= 1
    ensures DevInv(dev)
  {
    forall c | 0 <= c < |dev.cus| ensures CuInv(dev.cus[c]) {
      FreshCuInv(dev.cus[c].names);
    }
    forall k | 0 <= k < |dev.procs| ensures GoodProc(dev, k, 0) { }
    forall b: nat ensures Listed(dev, b, 0) {
      if b != 0 {
        forall i | 0 <= i < |dev.cus| ensures WeighCu(LiveChannels(b), dev.cus[i]) == 0 {
          TotalZero(LiveOf(b), dev.cus[i].channels);
        }
        SumZeros(CuWeights(LiveChannels(b), dev.cus));
      }
    }
  }

  /** What a device may have become: itself, if anything on it was in use; else itself, or a
      device nobody uses, unloaded or with fresh units, which then has an exact counter. */
  ghost predicate Reloaded(x: DevState, y: DevState) {
    && DevInv(y)
    && (Busy(x) ==> y == x)
    && (y == x || (!Busy(y) && y.procs == EmptyTable() && (y.isLoaded ==> y.drift == 0)))
  }

  lemma FlushedInv(dev: DevState)
    requires DevInv(dev) && !Busy(dev)
    ensures Reloaded(dev, Flushed(dev)) && Reloaded(dev, Flushed(dev.(drift := 0, cus := [])))
  {
    UnusedInv(Flushed(dev));
    UnusedInv(Flushed(dev.(drift := 0, cus := [])));
  }

  lemma InstalledInv(dev: DevState, uuid: nat, units: seq<Names>)
    requires DevInv(dev) && !dev.isLoaded && 1 <= |units| <= MAX_KERNELS
    ensures Reloaded(dev, Installed(dev, uuid, units))
  {
    IdleHasNoClients(dev);
    var dev' := Installed(dev, uuid, units);
    UnusedInv(dev');
    forall c | 0 <= c < |dev'.cus| ensures Used(dev'.cus[c]) == 0 {
      FreshCuInv(units[c]);
      IdleIffUnused(dev'.cus[c]);
    }
  }

  lemma LoadDevKeeps(dev: DevState, uuid: nat, h: Attempt)
    requires DevInv(dev) && PossibleAttempt(h)
    ensures Reloaded(dev, LoadDev(dev, uuid, h).0)
  {
    if !dev.isLoaded {
      hide Reloaded, Flushed, Installed;
      assert dev.cus == [];
      assert !Busy(dev);
      match h
      case Disabled => UnchangedDev(dev);
      case Fails(_) => FlushedInv(dev);
      case Loads(uuid, units) => InstalledInv(dev, uuid, units);
    }
  }

  lemma UnchangedDev(dev: DevState)
    requires DevInv(dev)
    ensures Reloaded(dev, dev)
  {
  }

  /** Unloading succeeds exactly on a device that is not loaded, or on which nothing is
      allocated or reserved and whose lock is given up; it then clears the device. */
  lemma UnloadDevKeeps(dev: DevState, unlocks: bool)
    requires DevInv(dev)
    ensures var (dev', status) := UnloadDev(dev, unlocks);
            && Reloaded(dev, dev')
            && (if status == SUCCESS then !dev'.isLoaded else dev' == dev)
            && (status == SUCCESS <==>
               !dev.isLoaded || (unlocks && forall c :: 0 <= c < |dev.cus| ==> IdleCu(dev.cus[c])))
  {
    BusyIff(dev);
    if !Busy(dev) { FlushedInv(dev); }
  }

  ghost predicate AllReloaded(s: SysState, s': SysState) {
    && |s.devs| == |s'.devs| && s.serviceId == s'.serviceId && s.poolId == s'.poolId
    && forall d {:trigger Reloaded(s.devs[d], s'.devs[d])} :: 0 <= d < |s.devs| ==> Reloaded(s.devs[d], s'.devs[d])
  }

  lemma ReloadedInv(s: SysState, s': SysState)
    requires Inv(s) && AllReloaded(s, s')
    ensures Inv(s')
  {
    forall d | 0 <= d < |s'.devs| ensures DevInv(s'.devs[d]) { assert Reloaded(s.devs[d], s'.devs[d]); }
  }

  lemma OneReloaded(s: SysState, d: nat, dev: DevState)
    requires Inv(s) && d < |s.devs| && Reloaded(s.devs[d], dev)
    ensures AllReloaded(s, SetDev(s, d, dev))
  {
    forall e | 0 <= e < |s.devs| ensures Reloaded(s.devs[e], SetDev(s, d, dev).devs[e]) { assert DevInv(s.devs[e]); }
  }

  lemma ReloadedTwice(s: SysState, s1: SysState, s2: SysState)
    requires AllReloaded(s, s1) && AllReloaded(s1, s2)
    ensures AllReloaded(s, s2)
  {
    forall d | 0 <= d < |s.devs| ensures Reloaded(s.devs[d], s2.devs[d]) {
      assert Reloaded(s.devs[d], s1.devs[d]) && Reloaded(s1.devs[d], s2.devs[d]);
    }
  }

  /** The device found was idle before, and now has the fresh units of an xclbin. */
  ghost predicate FoundDevice(s: SysState, s': SysState, r: Option<nat>, h: Hardware) {
    r.Some? ==>
      && r.value < |s.devs| == |s'.devs| && !Busy(s.devs[r.value]) && s'.devs[r.value].isLoaded
      && exists a :: (a == h.first(r.value) || a == h.again(r.value)) && a.Loads?
                     && s'.devs[r.value].uuid == a.uuid && s'.devs[r.value].cus == FreshUnits(a.units)
  }

  /** What is idle after some devices were reloaded was idle before. */
  lemma FoundEarlier(s: SysState, s1: SysState, s': SysState, r: Option<nat>, h: Hardware)
    requires AllReloaded(s, s1) && FoundDevice(s1, s', r, h)
    ensures FoundDevice(s, s', r, h)
  {
    if r.Some? { assert Reloaded(s.devs[r.value], s1.devs[r.value]); }
  }

  /** A device that was idle and on which the attempt works is a device found. */
  lemma FoundHere(s: SysState, d: nat, dev: DevState, h: Hardware, a: Attempt)
    requires Inv(s) && d < |s.devs| && (!s.devs[d].isLoaded || !Busy(s.devs[d]))
    requires (a == h.first(d) || a == h.again(d)) && a.Loads?
    requires dev.isLoaded && dev.uuid == a.uuid && dev.cus == FreshUnits(a.units)
    ensures FoundDevice(s, SetDev(s, d, dev), Some(d), h)
  {
    assert DevInv(s.devs[d]);
  }

  lemma {:induction false} LoadFreeKeeps(s: SysState, d: nat, uuid: nat, h: Hardware)
    requires Inv(s) && d <= |s.devs| && PossibleHardware(h)
    ensures AllReloaded(s, LoadFree(s, d, uuid, h).0)
    ensures FoundDevice(s, LoadFree(s, d, uuid, h).0, LoadFree(s, d, uuid, h).1, h)
    decreases |s.devs| - d
  {
    hide Reloaded, DevInv, Flushed;
    if d == |s.devs| {
      NothingReloaded(s);
    } else if s.devs[d].isLoaded {
      LoadFreeKeeps(s, d + 1, uuid, h);
    } else {
      assert DevInv(s.devs[d]);
      LoadDevKeeps(s.devs[d], uuid, h.first(d));
      var s1 := SetDev(s, d, LoadDev(s.devs[d], uuid, h.first(d)).0);
      if h.first(d).Loads? { FoundHere(s, d, s1.devs[d], h, h.first(d)); }
      OneReloaded(s, d, s1.devs[d]);
      ReloadedInv(s, s1);
      LoadFreeKeeps(s1, d + 1, uuid, h);
      ReloadedTwice(s, s1, LoadFree(s1, d + 1, uuid, h).0);
      FoundEarlier(s, s1, LoadFree(s1, d + 1, uuid, h).0, LoadFree(s1, d + 1, uuid, h).1, h);
    }
  }

  lemma NothingReloaded(s: SysState)
    requires Inv(s)
    ensures AllReloaded(s, s) && forall h :: FoundDevice(s, s, None, h)
  {
    forall d | 0 <= d < |s.devs| ensures Reloaded(s.devs[d], s.devs[d]) { assert DevInv(s.devs[d]); }
  }

  /** The device after an unload and, if that worked, a load. */
  lemma UnloadThenLoad(dev: DevState, uuid: nat, unlocks: bool, h: Attempt)
    requires DevInv(dev) && PossibleAttempt(h)
    ensures Reloaded(dev, UnloadDev(dev, unlocks).0)
    ensures Reloaded(dev, LoadDev(UnloadDev(dev, unlocks).0, uuid, h).0)
  {
    UnloadDevKeeps(dev, unlocks);
    LoadDevKeeps(UnloadDev(dev, unlocks).0, uuid, h);
  }

  lemma {:induction false} LoadIdleKeeps(s: SysState, d: nat, uuid: nat, h: Hardware)
    requires Inv(s) && d <= |s.devs| && PossibleHardware(h)
    ensures AllReloaded(s, LoadIdle(s, d, uuid, h).0)
    ensures FoundDevice(s, LoadIdle(s, d, uuid, h).0, LoadIdle(s, d, uuid, h).1, h)
    decreases |s.devs| - d
  {
    hide Reloaded, DevInv, LoadDev, UnloadDev, Busy, CanBeCleared, FoundDevice;
    if d == |s.devs| {
      NothingReloaded(s);
    } else if Busy(s.devs[d]) {
      LoadIdleKeeps(s, d + 1, uuid, h);
    } else {
      assert DevInv(s.devs[d]);
      UnloadThenLoad(s.devs[d], uuid, h.unlocks(d), h.again(d));
      ClearedThenLoaded(s, d, uuid, h);
      var (dev, st) := UnloadDev(s.devs[d], h.unlocks(d));
      var s1 := SetDev(s, d, if st != SUCCESS then dev else LoadDev(dev, uuid, h.again(d)).0);
      if st == SUCCESS && h.again(d).Loads? { FoundHere(s, d, s1.devs[d], h, h.again(d)); }
      OneReloaded(s, d, s1.devs[d]);
      ReloadedInv(s, s1);
      LoadIdleKeeps(s1, d + 1, uuid, h);
      ReloadedTwice(s, s1, LoadIdle(s1, d + 1, uuid, h).0);
      FoundEarlier(s, s1, LoadIdle(s1, d + 1, uuid, h).0, LoadIdle(s1, d + 1, uuid, h).1, h);
    }
  }

  /** Looking for a device to load never touches one on which anything is allocated or
      reserved, however many other devices it unloads on the way; whatever it leaves is a
      valid database. On success the device found was idle and has the new xclbin. */
  lemma LoadAnySparesBusyDevices(s: SysState, uuid: nat, h: Hardware)
    requires Inv(s) && PossibleHardware(h)
    ensures AllReloaded(s, LoadAny(s, uuid, h).0) && Inv(LoadAny(s, uuid, h).0)
    ensures FoundDevice(s, LoadAny(s, uuid, h).0, LoadAny(s, uuid, h).1, h)
  {
    LoadFreeKeeps(s, 0, uuid, h);
    var s1 := LoadFree(s, 0, uuid, h).0;
    ReloadedInv(s, s1);
    LoadIdleKeeps(s1, 0, uuid, h);
    ReloadedTwice(s, s1, LoadIdle(s1, 0, uuid, h).0);
    FoundEarlier(s, s1, LoadIdle(s1, 0, uuid, h).0, LoadIdle(s1, 0, uuid, h).1, h);
    ReloadedInv(s, LoadAny(s, uuid, h).0);
  }

  lemma LoadKeeps(s: SysState, d: int, uuid: nat, h: Attempt)
    requires Inv(s) && PossibleAttempt(h)
    ensures AllReloaded(s, Load(s, d, uuid, h).0)
  {
    NothingReloaded(s);
    if 0 <= d < |s.devs| {
      assert DevInv(s.devs[d]);
      LoadDevKeeps(s.devs[d], uuid, h);
      OneReloaded(s, d, LoadDev(s.devs[d], uuid, h).0);
    }
  }

  lemma UnloadKeeps(s: SysState, d: int, unlocks: bool)
    requires Inv(s)
    ensures AllReloaded(s, Unload(s, d, unlocks).0)
  {
    NothingReloaded(s);
    if 0 <= d < |s.devs| {
      assert DevInv(s.devs[d]);
      UnloadDevKeeps(s.devs[d], unlocks);
      OneReloaded(s, d, UnloadDev(s.devs[d], unlocks).0);
    }
  }

  // ---------------------------------------------------------------------------------
  // Which device is found
  // ---------------------------------------------------------------------------------

  /** The device is not loaded, and takes the xclbin at once. */
  ghost predicate TakesAtOnce(s: SysState, d: nat, h: Hardware) {
    d < |s.devs| && !s.devs[d].isLoaded && h.first(d).Loads?
  }

  /** Nothing is allocated or reserved on the device, and it can be cleared. */
  ghost predicate CanBeCleared(s: SysState, d: nat, h: Hardware)
    requires d < |s.devs|
  {
    !s.devs[d].isLoaded || (h.unlocks(d) && forall c :: 0 <= c < |s.devs[d].cus| ==> IdleCu(s.devs[d].cus[c]))
  }

  /** The device takes the xclbin once it is cleared. */
  ghost predicate TakesCleared(s: SysState, d: nat, h: Hardware) {
    d < |s.devs| && CanBeCleared(s, d, h) && h.again(d).Loads?
  }

  /** The device with the units of an attempt, and nobody on it. */
  function JustLoaded(a: Attempt): DevState
    requires a.Loads?
  {
    DevState(true, false, a.uuid, FreshUnits(a.units), EmptyTable(), 0)
  }

  /** The first look: the lowest device that takes the xclbin at once; no loaded device changes,
      nor any after the one found. */
  ghost predicate FirstLook(s: SysState, d: nat, h: Hardware, s': SysState, r: Option<nat>) {
    && |s'.devs| == |s.devs|
    && (match r
        case Some(k) =>
          && d <= k && TakesAtOnce(s, k, h) && s'.devs[k] == JustLoaded(h.first(k))
          && forall e: nat :: d <= e < k ==> !TakesAtOnce(s, e, h)
        case None => forall e: nat :: d <= e ==> !TakesAtOnce(s, e, h))
    && forall e: nat {:trigger s'.devs[e]} :: e < |s.devs| ==>
         if s.devs[e].isLoaded || e < d || (r.Some? && e > r.value) then s'.devs[e] == s.devs[e]
         else s'.devs[e].isLoaded ==> r == Some(e)
  }

  /** The second look: the lowest device that takes the xclbin once cleared. A loaded device before
      it is cleared, if it can be, in vain; one after it stays as it is. */
  ghost predicate SecondLook(s: SysState, d: nat, h: Hardware, s': SysState, r: Option<nat>) {
    && |s'.devs| == |s.devs|
    && (match r
        case Some(k) =>
          && d <= k && TakesCleared(s, k, h) && s'.devs[k] == JustLoaded(h.again(k))
          && forall e: nat :: d <= e < k ==> !TakesCleared(s, e, h)
        case None => forall e: nat :: d <= e ==> !TakesCleared(s, e, h))
    && forall e: nat {:trigger s'.devs[e]} :: e < |s.devs| && r != Some(e) ==>
         if e < d || (r.Some? && e > r.value) || !CanBeCleared(s, e, h) then s'.devs[e] == s.devs[e]
         else !s'.devs[e].isLoaded
  }

  lemma LoadsAsNew(dev: DevState, uuid: nat, h: Attempt)
    requires DevInv(dev) && !dev.isLoaded
    ensures var (dev', status) := LoadDev(dev, uuid, h);
            if h.Loads? then status == SUCCESS && dev' == JustLoaded(h) else status == ERROR && !dev'.isLoaded
  {
    assert dev.cus == [];
    IdleHasNoClients(dev);
  }

  /** Loading one device succeeds exactly if the device is enabled and has the xclbin already, or
      is not loaded and the attempt works; then it has it, with nobody on it if it is new. A
      loaded device never changes, and no other does. */
  lemma LoadLands(s: SysState, d: int, uuid: nat, h: Attempt)
    requires Inv(s) && PossibleAttempt(h)
    ensures var (s', status) := Load(s, d, uuid, h);
            && |s'.devs| == |s.devs| && (forall e :: 0 <= e < |s.devs| && e != d ==> s'.devs[e] == s.devs[e])
            && if !(0 <= d < |s.devs|) then status == INVALID
               else if s.devs[d].isLoaded then
                 s'.devs[d] == s.devs[d] && status == if h.Disabled? || uuid != s.devs[d].uuid then ERROR else SUCCESS
               else if h.Loads? then status == SUCCESS && s'.devs[d] == JustLoaded(h)
               else status == ERROR && !s'.devs[d].isLoaded
  {
    if 0 <= d < |s.devs| && !s.devs[d].isLoaded {
      assert DevInv(s.devs[d]);
      LoadsAsNew(s.devs[d], uuid, h);
    }
  }

  lemma {:induction false} LoadFreeLooks(s: SysState, d: nat, uuid: nat, h: Hardware)
    requires Inv(s) && d <= |s.devs| && PossibleHardware(h)
    ensures FirstLook(s, d, h, LoadFree(s, d, uuid, h).0, LoadFree(s, d, uuid, h).1)
    decreases |s.devs| - d
  {
    hide LoadDev, JustLoaded, DevInv, Reloaded;
    if d < |s.devs| {
      if s.devs[d].isLoaded {
        LoadFreeLooks(s, d + 1, uuid, h);
      } else {
        assert DevInv(s.devs[d]);
        LoadsAsNew(s.devs[d], uuid, h.first(d));
        LoadDevKeeps(s.devs[d], uuid, h.first(d));
        var s1 := SetDev(s, d, LoadDev(s.devs[d], uuid, h.first(d)).0);
        if !h.first(d).Loads? {
          OneReloaded(s, d, s1.devs[d]);
          ReloadedInv(s, s1);
          LoadFreeLooks(s1, d + 1, uuid, h);
          FirstLookOn(s, d, h, s1, LoadFree(s1, d + 1, uuid, h).0, LoadFree(s1, d + 1, uuid, h).1);
        }
      }
    }
  }

  /** The look goes on after device d, from s1, where d has failed. */
  lemma FirstLookOn(s: SysState, d: nat, h: Hardware, s1: SysState, s': SysState, r: Option<nat>)
    requires d < |s.devs| && !TakesAtOnce(s, d, h) && !s.devs[d].isLoaded
    requires |s1.devs| == |s.devs| && s1 == SetDev(s, d, s1.devs[d]) && !s1.devs[d].isLoaded
    requires FirstLook(s1, d + 1, h, s', r)
    ensures FirstLook(s, d, h, s', r)
  {
    forall e: nat | e > d ensures TakesAtOnce(s, e, h) <==> TakesAtOnce(s1, e, h) { }
  }

  /** What one turn of the second look makes of a device that can be cleared. */
  lemma ClearedThenLoaded(s: SysState, d: nat, uuid: nat, h: Hardware)
    requires Inv(s) && d < |s.devs|
    ensures Busy(s.devs[d]) ==> !CanBeCleared(s, d, h)
    ensures !Busy(s.devs[d]) ==>
              var (dev, st) := UnloadDev(s.devs[d], h.unlocks(d));
              && (st == SUCCESS <==> CanBeCleared(s, d, h))
              && (st != SUCCESS ==> dev == s.devs[d])
              && var (dev', status) := LoadDev(dev, uuid, h.again(d));
              && (st == SUCCESS && h.again(d).Loads? ==> status == SUCCESS && dev' == JustLoaded(h.again(d)))
              && (st == SUCCESS && !h.again(d).Loads? ==> status != SUCCESS && !dev'.isLoaded)
  {
    hide LoadDev, JustLoaded;
    assert DevInv(s.devs[d]);
    BusyIff(s.devs[d]);
    UnloadDevKeeps(s.devs[d], h.unlocks(d));
    var (dev, st) := UnloadDev(s.devs[d], h.unlocks(d));
    if st == SUCCESS { LoadsAsNew(dev, uuid, h.again(d)); }
  }

  lemma {:induction false} LoadIdleLooks(s: SysState, d: nat, uuid: nat, h: Hardware)
    requires Inv(s) && d <= |s.devs| && PossibleHardware(h)
    ensures SecondLook(s, d, h, LoadIdle(s, d, uuid, h).0, LoadIdle(s, d, uuid, h).1)
    decreases |s.devs| - d
  {
    hide LoadDev, UnloadDev, JustLoaded, DevInv, Reloaded, CanBeCleared, Busy;
    if d < |s.devs| {
      ClearedThenLoaded(s, d, uuid, h);
      if Busy(s.devs[d]) {
        SetSame(s, d);
        LoadIdleLooks(s, d + 1, uuid, h);
        SecondLookOn(s, d, h, s, LoadIdle(s, d + 1, uuid, h).0, LoadIdle(s, d + 1, uuid, h).1);
      } else {
        var (dev, st) := UnloadDev(s.devs[d], h.unlocks(d));
        var s1 := SetDev(s, d, if st != SUCCESS then dev else LoadDev(dev, uuid, h.again(d)).0);
        UnloadThenLoad(s.devs[d], uuid, h.unlocks(d), h.again(d));
        OneReloaded(s, d, s1.devs[d]);
        ReloadedInv(s, s1);
        if st == SUCCESS && h.again(d).Loads? {
          FoundAtOnce(s, d, h, s1);
        } else {
          LoadIdleLooks(s1, d + 1, uuid, h);
          SecondLookOn(s, d, h, s1, LoadIdle(s1, d + 1, uuid, h).0, LoadIdle(s1, d + 1, uuid, h).1);
        }
      }
    }
  }

  lemma SetSame(s: SysState, d: nat)
    requires d < |s.devs|
    ensures SetDev(s, d, s.devs[d]) == s
  {
    assert s.devs[d := s.devs[d]] == s.devs;
  }

  lemma FoundAtOnce(s: SysState, d: nat, h: Hardware, s1: SysState)
    requires TakesCleared(s, d, h) && s1 == SetDev(s, d, JustLoaded(h.again(d)))
    ensures SecondLook(s, d, h, s1, Some(d))
  {
  }

  lemma SecondLookOn(s: SysState, d: nat, h: Hardware, s1: SysState, s': SysState, r: Option<nat>)
    requires d < |s.devs| == |s1.devs| && !TakesCleared(s, d, h) && s1 == SetDev(s, d, s1.devs[d])
    requires if CanBeCleared(s, d, h) then !s1.devs[d].isLoaded else s1.devs[d] == s.devs[d]
    requires SecondLook(s1, d + 1, h, s', r)
    ensures SecondLook(s, d, h, s', r)
  {
    hide IdleCu, JustLoaded;
    forall e: nat | d < e < |s.devs|
      ensures (TakesCleared(s, e, h) <==> TakesCleared(s1, e, h)) && (CanBeCleared(s, e, h) <==> CanBeCleared(s1, e, h))
    {
      assert s1.devs[e] == s.devs[e];
    }
  }

  /** What the search for a device comes to, on the tables and the hardware alone. */
  ghost predicate AnyLoads(s: SysState, h: Hardware, s': SysState, r: Option<nat>) {
    if exists d: nat :: TakesAtOnce(s, d, h) then FirstLook(s, 0, h, s', r)
    else
      && |s'.devs| == |s.devs|
      && (match r
          case Some(k) =>
            && TakesCleared(s, k, h) && s'.devs[k] == JustLoaded(h.again(k))
            && forall e: nat :: e < k ==> !TakesCleared(s, e, h)
          case None => forall e: nat :: !TakesCleared(s, e, h))
      && forall e: nat {:trigger s'.devs[e]} :: e < |s.devs| && s.devs[e].isLoaded && r != Some(e) ==>
           if (r.Some? && e > r.value) || !CanBeCleared(s, e, h) then s'.devs[e] == s.devs[e]
           else !s'.devs[e].isLoaded
  }

  /** Devices that are not loaded come first. If one takes the xclbin at once, the lowest such is
      the answer, and no loaded device changes; if not, the lowest is that takes it once cleared,
      and no loaded device after it changes. There is no answer exactly when no device of either
      kind exists. */
  lemma LoadAnyFindsDevice(s: SysState, uuid: nat, h: Hardware)
    requires Inv(s) && PossibleHardware(h)
    ensures AnyLoads(s, h, LoadAny(s, uuid, h).0, LoadAny(s, uuid, h).1)
  {
    hide LoadFree, LoadIdle, Reloaded, JustLoaded;
    LoadFreeLooks(s, 0, uuid, h);
    var (s1, r1) := LoadFree(s, 0, uuid, h);
    if r1.None? {
      LoadFreeKeeps(s, 0, uuid, h);
      ReloadedInv(s, s1);
      LoadIdleLooks(s1, 0, uuid, h);
      LooksAgain(s, h, s1, LoadIdle(s1, 0, uuid, h).0, LoadIdle(s1, 0, uuid, h).1);
    } else {
      assert TakesAtOnce(s, r1.value, h);
    }
  }

  /** After a first look in vain, the second sees the same devices. */
  lemma LooksAgain(s: SysState, h: Hardware, s1: SysState, s': SysState, r: Option<nat>)
    requires FirstLook(s, 0, h, s1, None) && SecondLook(s1, 0, h, s', r)
    ensures AnyLoads(s, h, s', r)
  {
    hide IdleCu, JustLoaded;
    forall e: nat | e < |s.devs|
      ensures (TakesCleared(s, e, h) <==> TakesCleared(s1, e, h)) && (CanBeCleared(s, e, h) <==> CanBeCleared(s1, e, h))
      ensures s.devs[e].isLoaded ==> s1.devs[e] == s.devs[e]
    {
      if s.devs[e].isLoaded { assert s1.devs[e] == s.devs[e]; } else { assert !s1.devs[e].isLoaded; }
    }
  }
}
