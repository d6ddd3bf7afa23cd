# The XRM resource database, verified

XRM's daemon keeps a database of devices, of the compute units (CUs) that an xclbin puts on
them, and of the channels, clients and reservations of every unit. Requests allocate channels,
release them, reserve load for pools, give it back, load and unload devices, and clean up after
dead clients; each runs under one lock. This project models that database and every one of
those requests, and proves what the database promises.

## How it is built

Two layers, in one module per file.

*Tables.* `Tables`, `CuModel`, `DeviceModel` and `SystemModel` hold the tables as values,
WITHOUT the daemon's derived counters: the used load of a unit is *defined* as its reserved
load plus the load of every channel that was allocated from no pool still reserved there.
`CuInv`, `DevInv` and `Inv` are the invariants of a unit, a device and the database. The
operations are functions with the daemon's branches and error codes; the theorems are lemmas
about them:

- `Placement`, `ChoiceModel`: where an allocation lands, and when it is refused. `PolicyModel`:
  choosing a unit by load.
- `Rollback`, `ListModel`, `ExclusiveModel`, `ListV2Model`: list allocation, all or nothing.
- `ListChoice`, `ListV2Choice`: where a list goes, and when it is refused.
- `ProbeModel`: "how many are available?", allocate until failure and release.
- `RecycleModel`: cleaning up after a dead client.
- `PoolModel`, `PoolTransaction`, `AmountModel`, `RelinquishModel`, `SameDeviceModel`: reservations.
- `PoolChoice`: where a pool reserves, and when it is refused.
- `LoadModel`: loading and unloading. `QueryModel`: looking allocations up again.
- `ChangeModel`, `RunModel`, `GuaranteeModel`: what any request can change, and what
  therefore holds after any run. `HexModel`: xclbin ids as text.
- `Witnesses`: states on which the code does not do what one would expect.

*Objects.* `CuObject.Cu`, `DeviceObject.Device` and `SystemObject.System` are the daemon's
records with its arrays and its counters (`totalUsedLoadUnified`, `totalReservedLoadUnified`,
`numChanInuse`, `numClient`, a slot's used load, the device load and its rate), updated in
place by methods that have the daemon's loops, early exits, array shifts and rollbacks. `Wf`
says that every counter equals its sum over the tables. Every method keeps it and is proved to
have exactly the effect of the table operation of the same name, so that everything proved
about the tables holds of the objects.

The four `Choice` modules say what the searches come to without mentioning one: which unit, device
or chain of databases an operation reaches is described on the tables, with names, loads and free
channels written out, and the operation is proved to reach it if and only if it is the one
described. Two such descriptions of the same request agree, so nothing is left open.

A device's load counter is seen in the tables as its `drift`, the amount by which it differs
from the sum over the units.

## Where the code and its comments differ

- A recycle sets the device load counter to 0 instead of adding the difference
  (`src/daemon/xrm_system.cpp:4718`); `RecycleModel.RecycledLoadCounter` says when it is right,
  and `Witnesses.RecycleSpoilsCounter` is a state where it is not.
- A list reservation confined to one device gives back the whole pool when one device cannot
  take the list (`src/daemon/xrm_system.cpp:5053`), with the load of lists reserved before;
  `AmountModel.SameDevicePoolAmount` says exactly when the pool still holds all that was asked
  for, and `SameDeviceModel.PoolHoldsHalf` is a run where it does not.
- An allocation by load reports success without looking at its last step
  (`src/daemon/xrm_system.cpp:6535`); `PolicyModel.SuccessIsReal` says when it is true, and
  `Witnesses.HollowSuccess` is a valid state where it is not.
- A failed exclusive request may leave a shared device exclusive
  (`src/daemon/xrm_system.cpp:3896`): one that its client alone was using. `Placement.FailedPlaceRestores`,
  `Placement.FailedAllocRestores`, `ExclusiveModel.ExclusiveListRestores` and `ProbeModel.ProbeCuIsExact`
  say exactly when everything is as before; `Witnesses.FailedRequestLeavesTrace` and
  `Witnesses.FailedListLeavesTrace` are requests after which it is not.
- A pool request for nothing is granted every time, so that the pool probe does not end on it
  (`src/daemon/xrm_command_resource.cpp:934`); `RelinquishModel.PoolProbeEnds`: on every other
  request it ends.

## What callers owe

Client ids are not 0, and the id counters have not wrapped at 2^64-1. The client library
establishes that requested loads are positive and at most 1,000,000; the model does not need
it, because the code checks what it relies on.

## Model

| member | source | states |
|---|---|---|
| CuObject.Cu.CountersInRange | src/daemon/xrm_system.hpp:476-499 | on every unit, reserved load <= used load <= 1,000,000; clients <= channels in use <= 1000; each slot's used load is within the slot; the dense client list holds exactly the owners of live channels |
| CuModel.ClientsBound | src/daemon/xrm_system.cpp:4204-4220 | a duplicate-free list of owners of live channels is never longer than the number of live channels, so the scan for the end of the client list stays inside its array |
| CuModel.LiveBound | src/daemon/xrm_system.cpp:1106-1122 | channels in use are at most all channels, and below that number the search for a free one always finds one |
| CuModel.PutKeepsInv | src/daemon/xrm_system.cpp:4041-4194 | giving a channel keeps the unit invariant and raises the used load by the request's load exactly when it comes from the default pool |
| CuModel.ClearKeepsInv | src/daemon/xrm_system.cpp:3657-3711 | freeing a channel keeps the invariant and lowers the used load by the channel's load unless its pool still has a slot here, to which the load then returns |
| CuModel.ReserveKeepsInv | src/daemon/xrm_system.cpp:4807-4843 | reserving keeps the invariant and raises the used load by what is reserved; it needs that no channel holds the id of a pool that has no slot yet |
| CuModel.DropSlotKeepsInv | src/daemon/xrm_system.cpp:4676-4714 | dropping a slot frees its unused load only: what channels hold of it stays in the used load |
| CuModel.IdleIffUnused | src/daemon/xrm_system.cpp:1636-1647 | the used load of a unit is 0 exactly when it has no live channel and no slot |
| CuObject.Cu.AllocChanClient | src/daemon/xrm_system.cpp:4041-4194 | the in-place allocation succeeds exactly when load and a free channel allow it, then has the effect of the table step with all five counters kept right, and otherwise changes nothing |
| CuObject.Cu.ReleaseChannel | src/daemon/xrm_system.cpp:3657-3711 | the in-place release frees exactly the channel described, books its load back where it came from, and drops the client with its last channel |
| CuObject.Cu.AddClientToCu | src/daemon/xrm_system.cpp:4204-4220 | appends the client unless listed; the unbounded scan ends at the first 0, within the array |
| CuObject.Cu.RemoveClientOnCu | src/daemon/xrm_system.cpp:4373-4390 | deletes the client from the dense list and leaves zeros behind it |
| CuObject.Cu.FindFreeChannelId | src/daemon/xrm_system.cpp:1106-1122 | the lowest free channel, or -1 when the counter says that all are in use |
| CuObject.Cu.IsReservePoolUsingCu | src/daemon/xrm_system.cpp:4789-4799 | the pool's slot, or -1; never a slot for pool 0 |
| CuObject.Cu.ReserveLoad | src/daemon/xrm_system.cpp:4807-4843 | the slot of the pool grows or a new one is written, with used and reserved load raised alike, exactly when the load and the slot table allow it; each refusal's code |
| CuObject.Cu.ShiftReserves | src/daemon/xrm_system.cpp:4698-4714 | closing the gap deletes one slot, keeps the order of the others and empties the last |
| CuObject.Cu.RelinquishSlot | src/daemon/xrm_system.cpp:5702-5727 | drops the pool's slot unless load of it is in use, and then changes nothing |
| CuObject.Cu.RecycleSlots | src/daemon/xrm_system.cpp:4676-4716 | drops every slot of the client, whatever is in use of it, and returns the exact change of the used load |
| CuObject.Cu.ReleaseAllOfClient | src/daemon/xrm_system.cpp:4294-4360 | frees all channels of the client, wherever their load has to be booked back to, and returns the exact change of the used load |
| DeviceModel.RegisterRefs | src/daemon/xrm_system.cpp:3856-3923 | counting a client keeps the table: counts equal live channels plus the one being allocated, entries unique, an exclusive device with entry 0 only |
| DeviceModel.UnregisterRefs | src/daemon/xrm_system.cpp:4246-4275 | uncounting keeps the table; the entry goes, and exclusive mode with it, at zero |
| DeviceModel.UndoRegister | src/daemon/xrm_system.cpp:3896-3900 | taking a registration back restores the device exactly unless it turned a shared device that the client already used into an exclusive one: if and only if |
| DeviceModel.UsableIff | src/daemon/xrm_system.cpp:3856-3923 | a device takes a client exactly when it is loaded and, for exclusive use or on an exclusive device, lists no other client, or else lists the client or has an empty entry |
| DeviceModel.RefCountsChannels | src/daemon/xrm_system.cpp:4246-4275 | a client's count on a device is the number of its live channels there; it has exactly one entry if it has any |
| DeviceModel.ExclusiveIsOwned | src/daemon/xrm_system.cpp:3856-3923 | all live channels of an exclusive device belong to the client of entry 0, and every other entry is empty |
| DeviceObject.Device.AllocClient | src/daemon/xrm_system.cpp:3856-3923 | the in-place registration, with its three cases, is the registration of the tables |
| DeviceObject.Device.ReleaseClient | src/daemon/xrm_system.cpp:4246-4275 | the in-place uncounting is that of the tables |
| DeviceObject.Device.UpdateDeviceLoad | src/daemon/xrm_system.hpp:588-598 | adds to the load counter and recomputes the rate: the thousandfold load over the capacity of the units, cut off toward zero, with both bounds of the quotient written out |
| DeviceObject.Device.LoadMirrorsUnits | src/daemon/xrm_system.hpp:588-598 | where the counter is exact it is the sum of the units' used loads, and the rate lies within 0..1000 |
| DeviceObject.RateInRange | src/daemon/xrm_system.hpp:588-598 | the per-mille rate of a load between 0 and a full unit per unit is within 0..1000 |
| Placement.AllocCuRefines | src/daemon/xrm_system.cpp:1945-2035 | allocation from any device fails exactly when no unit of a usable device matches with load and channel left; else it takes the lexicographically least feasible (device, unit) among units in use, or if there is none among idle ones, and adds nothing but that channel |
| ChoiceModel.CanServeIff | src/daemon/xrm_system.cpp:4041-4107 | what the search asks of a unit: every name that is asked for, the load still left in the default pool or in the request's own slot, and a free channel, all written out |
| ChoiceModel.AllocCuLands | src/daemon/xrm_system.cpp:1945-2035 | an allocation comes to exactly one result: the first of all units that can serve, in use before idle, then by device and index, with every device tried in vain on the way left as described; or NO_KERNEL exactly when there is none; if and only if |
| ChoiceModel.AllocCuFromDevLands | src/daemon/xrm_system.cpp:2099-2191 | an allocation on a named device takes its lowest unit in use that can serve, or if there is none its lowest idle one; it is refused exactly when the device does not take the client or no unit can serve, each with its code; if and only if |
| Placement.FailedPlaceRestores | src/daemon/xrm_system.cpp:2099-2191 | a failed allocation on one device leaves the database as it was if and only if the device is not a shared one which the client alone uses and now asks for exclusively |
| Placement.FailedAllocRestores | src/daemon/xrm_system.cpp:1945-2035 | a failed allocation over all devices leaves the database as it was if and only if there is no such device at all |
| SystemModel.AllocCuKeepsInv | src/daemon/xrm_system.cpp:1945-2035 | allocation, exclusive or not, successful or not, keeps the invariant of the whole database |
| SystemModel.ReleaseKeepsInv | src/daemon/xrm_system.cpp:3628-3714 | release keeps the invariant of the whole database, whatever resource is named by a client |
| Witnesses.FailedRequestLeavesTrace | src/daemon/xrm_system.cpp:3896-3900 | on a valid database, a failed exclusive request, on one device or on any, leaves a shared device exclusive |
| Witnesses.FailedListLeavesTrace | src/daemon/xrm_system.cpp:3896-3900 | the same for a failed list, confined to one device or not, and for a probe |
| SystemObject.System.GetNextFreeDevForClient | src/daemon/xrm_system.cpp:3825-3849 | the lowest device from the given one on that is loaded and not held exclusively by another client |
| SystemObject.System.AllocCu | src/daemon/xrm_system.cpp:1945-2035 | the in-place search over devices and units, with its registrations taken back on the way, has exactly the effect of the specified allocation; all counters of all devices stay right |
| SystemObject.System.AllocCuFromDev | src/daemon/xrm_system.cpp:2099-2191 | the in-place allocation from a named device, with its error codes |
| SystemObject.System.ReleaseCu | src/daemon/xrm_system.cpp:3628-3714 | the in-place release, with its error codes |
| SystemObject.System.ReleaseList | src/daemon/xrm_system.cpp:3726-3741 | releases from the front and stops at the first that fails |
| Rollback.ReleaseAllRestores | src/daemon/xrm_system.cpp:3726-3741 | releasing everything that a series of allocations added, in any order, restores tables, client lists and their order, and reference counts exactly |
| ListModel.AllocCuListAllOrNothing | src/daemon/xrm_system.cpp:2792-2864 | any list, exclusive requests included, is placed in full, one channel per request, each serving its request, under one service id and all on one device if so asked, with nothing else added; or every unit is as before, and every device too but shared ones that a client which asks for exclusive use was using alone: with none of those the database is exactly as before |
| ExclusiveModel.ExclusiveListRestores | src/daemon/xrm_system.cpp:2792-2864 | a failed list of named requests that all ask for exclusive use, for one client, leaves the database as it was if and only if that client is alone on no loaded shared device |
| ListChoice.AllocCuListLands | src/daemon/xrm_system.cpp:2792-2864 | a list on any device is allocated as rs if and only if a chain of single allocations serves its requests one after another as rs, and refused exactly when such a chain stops at a request that nothing can serve; a list on one device goes to the lowest open device whose tables take all its requests one after another, and is refused exactly when none does |
| ListChoice.SameDeviceIff | src/daemon/xrm_system.cpp:2960-3015 | the search for one device, with devices to skip, comes to exactly that, and every device it tried in vain is left as it was or, exactly if an exclusive request turned it on the way, as its only client's own |
| ListChoice.ProbeListIsExact | src/daemon/xrm_command_resource.cpp:793-828 | the list probe reports n if and only if the list can be served n times in a row in that sense, and then no more |
| SystemObject.System.AllocCuList | src/daemon/xrm_system.cpp:2792-2864 | the in-place list allocation with its hand-written rollback |
| SystemObject.System.AllocSameDevice | src/daemon/xrm_system.cpp:2960-3015 | the in-place search for one device that takes a whole list and is not among those used |
| ListV2Model.AllocCuListV2Places | src/daemon/xrm_system.cpp:3053-3193 | for any list, exclusive requests included: on success every item is placed exactly once and matches, hardware indices are obeyed, items of one virtual index share a device, different indices are on different devices, and the reported number is the number of items; on failure every unit is as before, and every device too but shared ones that a client which asks for exclusive use was using alone |
| ListV2Choice.AllocCuListV2Lands | src/daemon/xrm_system.cpp:3053-3193 | a version 2 list is allocated with these results if and only if a chain, one link for each next unplaced item, places them all: an item without constraint as it would be alone on any device, one that names a device as it would be there, and a virtual index's items together, in order, on the lowest open device that takes them all and that no other index uses; it is refused with error e exactly when such a chain stops at an item or group that nothing serves, for the reason e |
| ListV2Choice.OneItemAnywhere | src/daemon/xrm_system.cpp:3089-3106 | a list of one item without constraint is allocated exactly when it has a name and some unit has room and a channel for it |
| ListV2Choice.ConstraintBits | src/lib/xrm.h:242-249 | the 32 low bits of the device information are the index and the next 8 the kind: 0 anywhere, 1 a hardware device, 2 a virtual one, all else refused |
| ListV2Choice.ItemKeepsRequest | src/daemon/xrm_system.cpp:2869-2883 | an item is served for its own kernel, alias, load, client, pool and exclusivity, and never by unit name |
| SystemObject.System.AllocCuListV2 | src/daemon/xrm_system.cpp:3053-3193 | the in-place version 2 list allocation: item by item, groups collected and filed back, everything released on failure |
| SystemObject.GroupOf | src/daemon/xrm_system.cpp:3127-3155 | collects exactly the later unplaced items of the same virtual index, in order |
| ProbeModel.ProbeCuIsExact | src/daemon/xrm_command_resource.cpp:713-751 | the probe ends and reports exactly the sum over matching units of usable devices of min(free channels, room / request); it leaves every unit as it was, and every device if and only if the request has no name or does not ask for exclusive use while its client alone uses a shared device; the service id moves once per unit counted |
| ProbeModel.AllocUsesOne | src/daemon/xrm_command_resource.cpp:715-725 | an allocation succeeds exactly when that sum is positive, and lowers it by one |
| ProbeModel.ProbeListRestores | src/daemon/xrm_command_resource.cpp:793-828 | the list probe, exclusive requests included, ends and leaves every unit as it was, and every device too but shared ones that a client which asks for exclusive use was using alone |
| RelinquishModel.ProbePoolRestores | src/daemon/xrm_command_resource.cpp:934-955 | on every request but one for nothing, refused ones included, the pool probe gives every table back; the pool id moves on by the count |
| RelinquishModel.PoolProbeEnds | src/daemon/xrm_command_resource.cpp:934-942 | some round of the probe's loop is refused, so that the loop ends, if and only if the request is not one for nothing: no list, no whole device, and not too many requests |
| RelinquishModel.EndlessIsAlwaysGranted | src/daemon/xrm_command_resource.cpp:934-942 | a request for nothing is granted in every round of that loop, however many went before, and no table ever changes |
| SystemObject.System.CheckCuAvailableNum | src/daemon/xrm_command_resource.cpp:684-751 | the in-place allocate-until-failure loop and its undo |
| SystemObject.System.CheckCuListAvailableNum | src/daemon/xrm_command_resource.cpp:753-829 | the in-place list probe |
| SystemObject.System.CheckCuPoolAvailableNum | src/daemon/xrm_command_resource.cpp:887-956 | the in-place pool probe; it may be called when pool ids cannot wrap on the way and the request is not one for nothing, on which it does not end |
| RecycleModel.RecycleSpec | src/daemon/xrm_system.cpp:4657-4752 | recycling reaches every device; on each loaded one it frees the client's channels, deletes its slots in order and empties its entries, and changes nothing else; the invariant is kept |
| RecycleModel.DeviceRecycled | src/daemon/xrm_system.cpp:4725-4745 | both phases on one device come to that closed form, and the early exit for an exclusive device that nobody uses is never taken |
| RecycleModel.RecycledLeavesNothing | src/daemon/xrm_system.cpp:4281-4362 | no channel, client entry or slot of the client is left on a unit, and every other client's channel is untouched |
| RecycleModel.OrphansBecomeDefault | src/daemon/xrm_system.cpp:4676-4714 | another client's channel that came from a pool of the dead client keeps its load, which counted in no used load but the slot's before and counts as default-pool load after |
| RecycleModel.RecycleIsIdempotent | src/daemon/xrm_system.cpp:4657-4752 | recycling the same client again changes no table |
| RecycleModel.RecycledLoadCounter | src/daemon/xrm_system.cpp:4718-4720 | the device load counter is right after a recycle if and only if nothing is in use on the device once the client's slots are dropped |
| Witnesses.RecycleSpoilsCounter | src/daemon/xrm_system.cpp:4718-4720 | on a valid database, recycling a client that holds nothing makes the load counter of a device in use wrong |
| SystemObject.System.RecycleResource | src/daemon/xrm_system.cpp:4657-4752 | the in-place recycling |
| PoolTransaction.ReservePoolTransaction | src/daemon/xrm_system.cpp:5544-5596 | a pool reservation returns 0 and every table is as before, or the new id and the tables gained slots of that pool and nothing else, which hold the lists' load once per list plus a full unit for every unit of the devices taken, devices that were idle and had the xclbin; for lists confined to one device the amount is given by SameDevicePoolAmount |
| PoolChoice.ReserveCuLands | src/daemon/xrm_system.cpp:4857-4929 | a reservation on any device goes to the first of all units of open devices that have the kernel and alias asked for, the load and a slot, in use before idle, then by device and index; it is refused exactly when there is none or no name is asked for; if and only if |
| PoolChoice.ReservePoolLands | src/daemon/xrm_system.cpp:5544-5596 | a pool is granted as s' if and only if the first idle devices with the xclbin, then the lists, one after another, can be reserved in that sense and leave s'; it returns 0 exactly when the request is malformed or one of those steps is refused |
| PoolChoice.PoolFitsUnits | src/daemon/xrm_system.cpp:4904-4912 | no unit of a device that is not taken as a whole holds more of a granted pool than the load of those requests whose kernel and alias it has, once per list |
| PoolChoice.ProbePoolIsExact | src/daemon/xrm_command_resource.cpp:934-955 | the pool probe reports n if and only if the pool can be granted n times in a row, and then no more |
| PoolChoice.RecycleEndsPool | src/daemon/xrm_system.cpp:4676-4714 | every slot of a pool granted on behalf of one client is that client's, and recycling the client leaves nothing of the pool on any unit |
| AmountModel.SameDevicePoolAmount | src/daemon/xrm_system.cpp:5025-5077 | a granted pool whose lists are confined to one device each holds all that was asked for if and only if there is no list, or one list and no whole device, or the first device open to the client is not taken as a whole and takes all the lists, one after another |
| SameDeviceModel.PoolHoldsHalf | src/daemon/xrm_system.cpp:5048-5059 | a run where the pool holds less: two devices of one unit each, two lists of 600,000; the pool is granted and holds 600,000 |
| PoolModel.WholeDevInv | src/daemon/xrm_system.cpp:5453-5476 | reserving a whole idle device keeps the invariant, and the load counter that it sets outright comes out exact |
| PoolModel.BusyIff | src/daemon/xrm_system.cpp:1636-1647 | a device is busy exactly when something on it is allocated or reserved |
| RelinquishModel.RelinquishSpec | src/daemon/xrm_system.cpp:5688-5731 | relinquish reports an error exactly when the pool is in use somewhere; it has then dropped the pool's slots on the units before the first such unit, and otherwise all of them; a slot in use is never removed |
| RelinquishModel.DropUnused | src/daemon/xrm_system.cpp:5704-5725 | dropping an unused slot lowers used and reserved load by exactly its load and keeps the others in order |
| SystemObject.System.ReserveCu | src/daemon/xrm_system.cpp:4857-4929 | the in-place reservation on any device |
| SystemObject.System.ReserveCuList | src/daemon/xrm_system.cpp:5025-5077 | the in-place reservation of a list, which gives the pool back when a request does not fit |
| SystemObject.System.ReserveCuOfXclbin | src/daemon/xrm_system.cpp:5442-5479 | the in-place reservation of the first loaded, idle device with the xclbin |
| SystemObject.System.ReserveDevice | src/daemon/xrm_system.cpp:5493-5531 | the in-place reservation of a named device, with its error codes |
| SystemObject.System.ReserveCuPool | src/daemon/xrm_system.cpp:5544-5596 | the in-place pool reservation; it may be called when the next pool id is new to the tables, which every run guarantees |
| SystemObject.System.RelinquishPool | src/daemon/xrm_system.cpp:5688-5731 | the in-place relinquish |
| LoadModel.LoadAnySparesBusyDevices | src/daemon/xrm_system.cpp:512-555 | looking for a device to load never touches one on which anything is allocated or reserved, keeps the invariant, and on success has loaded a device that was idle |
| LoadModel.LoadAnyFindsDevice | src/daemon/xrm_system.cpp:512-555 | if a device that is not loaded takes the xclbin at once, the lowest such is the answer and no loaded device changes; otherwise the lowest that takes it once cleared, and no loaded device after it changes; there is no answer exactly when there is no device of either kind |
| LoadModel.LoadLands | src/daemon/xrm_system.cpp:639-720 | loading a given device succeeds exactly if it is enabled and has the xclbin already, or is not loaded and the attempt works; a loaded device never changes, and no other device does |
| LoadModel.UnloadDevKeeps | src/daemon/xrm_system.cpp:1652-1688 | unloading succeeds exactly on a device that is not loaded, or on which nothing is allocated or reserved and whose lock is given up; else it changes nothing |
| LoadModel.IdleHasNoClients | src/daemon/xrm_system.cpp:799-831 | a device that is not busy counts no client, so that clearing its tables discards nobody |
| SystemObject.System.LoadAnyDevice | src/daemon/xrm_system.cpp:512-555 | the in-place search: devices not loaded first, then idle ones, each unloaded first |
| SystemObject.System.UnloadOneDevice | src/daemon/xrm_system.cpp:1652-1688 | the in-place unload, with its error codes |
| PolicyModel.PolicyPickIsBest | src/daemon/xrm_system.cpp:6435-6549 | over both passes, with the early exits on an exact fit and on zero load, a unit is picked if and only if it is eligible and preferred to every other eligible unit, ties going to units in use and then to the lowest; none exactly when none is eligible |
| PolicyModel.PolicyIsOptimal | src/daemon/xrm_system.cpp:4088-4106 | where every matching unit has a free channel, the request is served whenever any unit of the device can serve it, from one of maximal (most used) or minimal (least used) load |
| PolicyModel.SuccessIsReal | src/daemon/xrm_system.cpp:6533-6541 | where the tables say that unit c is eligible and preferred to all others, success is reported, and it is real, with reference counts that still match, if and only if c has a free channel |
| PolicyModel.ByLoadIsRefused | src/daemon/xrm_system.cpp:6435-6549 | an allocation by load is refused exactly for an index out of range or want of a name, by a device that does not take the client, or when no unit is eligible, each with its code and with what it leaves of the device |
| Witnesses.HollowSuccess | src/daemon/xrm_system.cpp:6533-6541 | on a valid database, one unit with 1000 channels of load 1: success is reported, nothing is allocated, and the reference counts no longer match |
| SystemObject.System.AllocCuFromDevByLoad | src/daemon/xrm_system.cpp:6435-6549 | the in-place search by load over both passes, its candidate, and the false success; counters stay right in every case, and the whole invariant where the success is real |
| QueryModel.QueryInvertsAlloc | src/daemon/xrm_system.cpp:4492-4567 | the query by the id of an allocation just made finds exactly that resource, which can be released |
| QueryModel.QueryInvertsAllocFromDev | src/daemon/xrm_command_resource.cpp:125-178 | the same for an allocation from a named device |
| QueryModel.QueryInvertsByLoad | src/daemon/xrm_system.cpp:6435-6549 | the same for an allocation by load, if its success is real; otherwise the query finds nothing |
| QueryModel.QueryInvertsList | src/daemon/xrm_system.cpp:4492-4567 | the query by the id of a list just allocated, exclusive requests included, finds exactly its resources, each once, and each can be released |
| QueryModel.QueryInvertsListV2 | src/daemon/xrm_system.cpp:4577-4651 | the same for version 2 lists; the database is valid whether or not the list succeeds |
| QueryModel.InDevicesFinds | src/daemon/xrm_system.cpp:4492-4567 | a query, with or without names, finds exactly the channels that carry the id on units that the names fit, each once |
| SystemObject.System.ResAllocationQuery | src/daemon/xrm_system.cpp:4492-4567 | the in-place query with its limit; it changes nothing |
| RunModel.EveryRunIsGood | src/daemon/xrm_system.cpp:1945-6549 | after any sequence of requests of any clients, probes with exclusive requests included, the invariant of the whole database holds, and no table holds a service id or pool id that is still to be given out |
| RunModel.InitialIsGood | src/daemon/xrm_system.cpp:45-80 | the database as the daemon starts it meets the invariant |
| GuaranteeModel.ReservationGuarantee | src/daemon/xrm_system.cpp:4054-4107 | over any run that does not allocate from a pool, relinquish it or recycle who reserved it: a unit's room in that pool never shrinks, and a request within it is refused only for want of a free channel |
| GuaranteeModel.RunKeepsPool | src/daemon/xrm_system.cpp:3671-3692 | over such a run the pool's slots keep their loads and owners, and no more of them comes into use |
| GuaranteeModel.RunKeepsExact | src/daemon/xrm_system.hpp:588-598 | over any run without a recycle, load counters that equal the sums of the units' used loads go on doing so |
| HexModel.ParseUndoesHex | src/daemon/xrm_system.cpp:1127-1155 | parsing the printed text gives back the bytes, for byte strings of every length |
| HexModel.HexUndoesParse | src/daemon/xrm_system.cpp:1139-1155 | text of lower-case digits, two per byte, is what its bytes print as |
| HexModel.HexText | src/daemon/xrm_system.cpp:1127-1135 | the text has two lower-case digits per byte |
| HexModel.BinToHexstr | src/daemon/xrm_system.cpp:1127-1135 | the printing loop |
| HexModel.HexstrToBin | src/daemon/xrm_system.cpp:1139-1155 | the parsing loop, into the caller's buffer, which it changes nowhere else |

## Left out

- Sockets, JSON, command registry, client library wrappers, bindings, logging, plugins and
  saving to disk: input and output with no property of the database.
- Hardware and driver calls and xclbin parsing: an attempt to load is a parameter that fails or
  brings a set of units; a device that is disabled refuses. An empty xclbin name is not modelled.
- Descriptive data (addresses, memory banks, plugin names, capacities, process ids, original
  loads): only kernel name, alias and unit name decide anything.
- Integer width: loads and counts are unbounded integers. Sums stay within 1,000,000 per unit by
  the invariant; a request near 2^31 would overflow in the daemon's comparison before it is refused.
- EveryRunIsGood: runs do not wrap the two 64-bit id counters, do not probe for a pool of nothing
  (`PoolProbeEnds`: such a probe has no next state), and hold no allocation by load whose success is
  not real (`SuccessIsReal`: the invariant is lost exactly then).
- UnloadOneDevice, LoadAnyDevice: the first use of the devices also initialises them, which is I/O.
- ReleaseCu: for a device id equal to the number of devices the daemon reads one record beyond
  the devices in use, which is not loaded; with all 16 devices that record does not exist. The model
  answers as for a device that is not loaded.
- AllocCuListAllOrNothing, AllocCuListV2Places, ProbeListRestores: all units are restored whatever the
  requests. That exclusive modes are restored too is one way for lists that mix requests, because which
  of the devices are reached depends on where the requests before stop; if and only if for lists all of
  whose requests are exclusive (`ExclusiveListRestores`), for single allocations (`FailedAllocRestores`)
  and for their probe (`ProbeCuIsExact`). For lists on one device `SameDeviceIff` gives the exact tables
  left behind, whatever the requests.
- PolicyIsOptimal, AllocCuFromDevByLoad: default pool only. Inside a pool the code compares with
  another unit's slot at the wrong index (`src/daemon/xrm_system.cpp:4072`).
- Version 2 pool and list reservations, version 2 releases and unit queries of reservations: the same
  steps again with more fields.
- Allocation of the least used unit of a device, allocation with load, allocation of all units of a
  load, and the choice among devices by load: their reference counts do not balance
  (`src/daemon/xrm_system.cpp:2337`, `src/daemon/xrm_system.cpp:3229`, `src/daemon/xrm_system.cpp:6409`,
  `src/daemon/xrm_system.cpp:6253`), so that the invariant does not hold after them.
- User-defined groups, the counter of concurrent clients, device reset, enabling and disabling, and
  the existence checks: they add easy members only.
- Concurrency: every request runs under one lock and is one step of a run.
