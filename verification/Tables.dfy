/** Limits and records of the resource database: what the daemon stores about
    channels, reserve slots, compute units and devices, and what a request or an
    allocated resource consists of.

    These are the tables WITHOUT the daemon's derived counters (used load, used
    reserved load, channels in use, device load). The classes in CuObject.dfy,
    DeviceObject.dfy and SystemObject.dfy keep the counters, and prove that they always
    equal the sums defined here over the tables. */
module Tables {

  const MAX_DEVICES: nat := 16
  const MAX_KERNELS: nat := 144
  const MAX_CHANNELS: nat := 1000
  const MAX_RESERVES: nat := 1000
  const MAX_DEV_CLIENTS: nat := 1152
  const MAX_LOAD: nat := 1_000_000
  const MAX_LIST: nat := 16
  const MAX_LIST_V2: nat := 64
  const MAX_ID: nat := 0xFFFF_FFFF_FFFF_FFFF

  datatype Option<+T> = None | Some(value: T)

  datatype Status = SUCCESS | ERROR | INVALID | NO_DEV | NO_KERNEL | BUSY | LOCKED

  datatype Outcome<+T> = Ok(value: T) | Err(error: Status)

  /** The three names a request can match a compute unit by; "" means "any". */
  datatype Names = Names(kernel: string, alias: string, cu: string)

  /** One channel of a compute unit. A channel is live iff its load is not 0. */
  datatype Channel = Channel(channelId: nat, serviceId: nat, poolId: nat, clientId: nat, load: nat)

  /** One reserve slot of a compute unit: load set aside for one pool. */
  datatype Slot = Slot(poolId: nat, load: nat, clientId: nat)

  datatype CuState = CuState(names: Names, channels: seq<Channel>, clients: seq<nat>, reserves: seq<Slot>)

  /** One entry of a device's client table; clientId 0 means the entry is empty. */
  datatype Proc = Proc(clientId: nat, ref: int)

  /** The client table of a device has a fixed number of entries. */
  type ClientTable = ps: seq<Proc> | |ps| == MAX_DEV_CLIENTS witness seq(MAX_DEV_CLIENTS, i => Proc(0, 0))

  /** `drift` is what the device's load counter is off by, compared with the sum of
      the used loads of its compute units. */
  datatype DevState = DevState(isLoaded: bool, isExcl: bool, uuid: nat,
                               cus: seq<CuState>, procs: ClientTable, drift: int)

  datatype SysState = SysState(devs: seq<DevState>, serviceId: nat, poolId: nat)

  /** What a client asks for. `load` is the unified load (1,000,000 is a whole unit). */
  datatype Request = Request(names: Names, devExcl: bool, load: int, clientId: nat, poolId: nat)

  /** An allocated resource, as handed back to the client. */
  datatype Res = Res(devId: nat, cuId: nat, chanId: nat, serviceId: nat,
                     clientId: nat, poolId: nat, load: nat)

  function FreeChannel(i: nat): Channel {
    Channel(i, 0, 0, 0, 0)
  }

  predicate HasName(names: Names) {
    names.kernel != "" || names.alias != "" || names.cu != ""
  }

  /** A name that the request leaves empty is not compared. */
  predicate Matches(cu: CuState, req: Request) {
    && (req.names.kernel == "" || req.names.kernel == cu.names.kernel)
    && (req.names.alias == "" || req.names.alias == cu.names.alias)
    && (req.names.cu == "" || req.names.cu == cu.names.cu)
  }

  /** Service and pool ids run through 1..MAX_ID and wrap to 1. */
  function NextId(id: nat): nat {
    if id == MAX_ID then 1 else id + 1
  }

  function Min(a: int, b: int): int {
    if a < b then a else b
  }
}
