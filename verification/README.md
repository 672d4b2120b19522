# Device registry and topology engine

This project is a Dafny model of the in-memory device registry of the `deviceApi` service (`DeviceAPIImpl`), with proofs about it. The registry keeps two tables:

- a device table, from a MAC address to its `Device` (a type, the MAC and an optional uplink MAC);
- a topology graph, from a parent MAC to the ordered list of its children's MACs.

Register, update and delete change both tables together. The queries are:

- a lookup by MAC;
- a listing sorted by device type (GATEWAY, then SWITCH, then ACCESS_POINT);
- the full topology;
- the subtree below one device.

The state is an immutable value, `Registry.State(devices, topology)`, starting from `Registry.Empty`. Register, update and delete are pure functions that return `Result<(State, X), Error>`, with three error kinds:

- `MissingType` (a registration without a type);
- `AlreadyExists` (a MAC that is already registered);
- `NotFound` (an unknown MAC).

A failed operation returns no new state, so the caller's state is unchanged. The queries take a state and return no new one:

- `Registry.Get` returns `Result<Device, Error>`;
- `Registry.SubtreeTopology` returns `Result<Graph, Error>`;
- `Registry.FullTopology` returns the `Graph` itself;
- `Registry.ListSortedByType` is a method that also takes the table's iteration order and returns a sequence of devices.

Files:

- `wrappers.dfy`: `Option` and `Result`.
- `device.dfy`: `Device`, `DeviceType` and MAC validity.
- `topology.dfy`: the graph operations:
  - the first-occurrence sweep that `List.remove(Object)` performs;
  - linking under an uplink;
  - reachability, and the subtree as a terminating closure.
- `listing.dfy`: the type order, the comparator as written and the corrected comparator, the rank sort, and the device table read in a given iteration order.
- `registry.dfy`: the state, the operations, their invariants and how they combine.
- `scenarios.dfy`: the registry's unit-test histories as concrete proofs, and the stale-child history described below.

Points where the model makes a choice:

- **Uplinks are compared by content.** Update compares the incoming uplink with the stored one using Java `!=` (`src/main/java/deviceapi/api/DeviceAPIImpl.java:85`), which compares references. The model compares contents, which is evidently what was meant. Even so, an update that keeps the uplink skips the sweep but still appends. The parent's child list therefore gains a second entry for the device (`Registry.UpdateSameUplinkAppendsAgain`). A later move removes only one of the two entries, so the old parent still lists the device (`Scenarios.ScenarioStaleChildAfterUnchangedUplink`). That is why the re-parenting lemmas require that the MAC occurs at most once per child list.
- **The sweep removes one entry per list.** Delete and an uplink-changing update remove only the first occurrence of the MAC from each child list. Delete keeps the deleted device's own topology entry as a tombstone key.
- **Uplinks need not be registered.** A device may name an uplink that is not registered, so topology keys need not be device keys.
- **The subtree is a closure.** It is the closure of `{start}` under child lists. This terminates on every graph, cyclic ones included, and is proved equal to the set of nodes reachable from `start`.
- **The listing takes the iteration order as a parameter.** The hash map's iteration order becomes the parameter `order`, which must enumerate the device keys. `Listing.IterationOrder` shows that such an order exists for every key set.
- **The listing sorts by rank.** It sorts by the rank GATEWAY=0, SWITCH=1, ACCESS_POINT=2; an absent type ranks 2, as the source's comparator ties it with ACCESS_POINT. The comparator as written is modelled too, and is shown to break the comparator contract (see Findings).

## Model

| member | source | states |
|---|---|---|
| DeviceModel.DeviceTypeVariants | src/main/java/deviceapi/model/Device.java:17-21 | A device type is GATEWAY, SWITCH or ACCESS_POINT, and the three are distinct |
| DeviceModel.ValidMac | src/main/java/deviceapi/model/Device.java:24-27 | A MAC is valid exactly when it is non-empty; a null MAC cannot be represented, since a string is a value |
| Topology.RemoveFirst | src/main/java/deviceapi/api/DeviceAPIImpl.java:63 | Removing a MAC from a list that does not hold it leaves the list unchanged |
| Topology.RemoveFirstCutsFirst | src/main/java/deviceapi/api/DeviceAPIImpl.java:62-64 | Removal cuts out exactly the first occurrence and keeps every other element in its order |
| Topology.RemoveFirstCount | src/main/java/deviceapi/api/DeviceAPIImpl.java:62-64 | Removal takes away one occurrence of the MAC (if any) and nothing else, as multisets |
| Topology.Sweep | src/main/java/deviceapi/api/DeviceAPIImpl.java:86-88 | The sweep keeps the key set and removes the first occurrence from every child list |
| Topology.SweepCount | src/main/java/deviceapi/api/DeviceAPIImpl.java:62-64 | In each list the sweep takes away exactly one occurrence of the MAC, if it has one |
| Topology.SweepKeepsOthers | src/main/java/deviceapi/api/DeviceAPIImpl.java:86-88 | Every other MAC is in a swept list exactly when it was in the original |
| Topology.SweepRemovesSingleOccurrences | src/main/java/deviceapi/api/DeviceAPIImpl.java:86-88 | When the MAC occurs at most once per list, no list holds it after the sweep |
| Topology.Link | src/main/java/deviceapi/api/DeviceAPIImpl.java:94-98 | With an uplink, the MAC is appended to the uplink's list (an empty one if missing). Without one, a root entry is created only if absent, never overwritten. No other entry changes |
| Topology.LinkKeepsChildren | src/main/java/deviceapi/api/DeviceAPIImpl.java:42-46 | Linking never drops a listed child |
| Topology.Closure | src/main/java/deviceapi/api/DeviceAPIImpl.java:167-177 | The closure contains its seed set and holds the children of each of its members |
| Topology.ClosureIsReachable | src/main/java/deviceapi/api/DeviceAPIImpl.java:167-177 | The closure of a start node is exactly the set of nodes reachable from it |
| Topology.SubtreeOfClosedSet | src/main/java/deviceapi/api/DeviceAPIImpl.java:167-177 | A child-closed set that holds the start node, and whose members are all reachable from it, is the subtree's key set |
| Topology.Subtree | src/main/java/deviceapi/api/DeviceAPIImpl.java:167-177 | Its keys are exactly the nodes reachable from the start: the start itself, no ancestor, no unrelated node. Each key maps to a copy of its child list, or to empty when it has no entry. Every listed child is a key |
| Listing.Rank | src/main/java/deviceapi/api/DeviceAPIImpl.java:111-118 | GATEWAY alone ranks 0, SWITCH alone ranks 1, everything else (ACCESS_POINT, absent) ranks 2 |
| Listing.WrittenCompare | src/main/java/deviceapi/api/DeviceAPIImpl.java:111-118 | The comparator as written: on two types of equal rank it returns -1 for GATEWAY or SWITCH, and 0 only for ACCESS_POINT or an absent type |
| Listing.WrittenCompareOrdersDistinctRanks | src/main/java/deviceapi/api/DeviceAPIImpl.java:111-118 | On types of different rank, the written comparator agrees with the rank order |
| Listing.WrittenCompareIsNotComparator | src/main/java/deviceapi/api/DeviceAPIImpl.java:111-118 | The written comparator says GATEWAY < GATEWAY and SWITCH < SWITCH, so it breaks the comparator contract |
| Listing.RankCompare | src/main/java/deviceapi/api/DeviceAPIImpl.java:111-118 | The corrected comparator is negative or zero exactly when the first rank is lower or equal |
| Listing.RankCompareIsComparator | src/main/java/deviceapi/api/DeviceAPIImpl.java:111-118 | The corrected comparator meets the comparator contract: antisymmetric, transitive, and consistent on equal elements |
| Listing.SortByType | src/main/java/deviceapi/api/DeviceAPIImpl.java:110-119 | The output is a permutation of the input in which no lower-priority type precedes a higher-priority one |
| Listing.EnumerationSize | src/main/java/deviceapi/api/DeviceAPIImpl.java:110 | An iteration order of the table has one entry per key |
| Listing.IterationOrder | src/main/java/deviceapi/api/DeviceAPIImpl.java:110 | Every finite key set has a duplicate-free iteration order |
| Listing.Project | src/main/java/deviceapi/api/DeviceAPIImpl.java:110 | Reading the table in an iteration order gives one device per position, namely the device under that key |
| Listing.ProjectCount | src/main/java/deviceapi/api/DeviceAPIImpl.java:110-119 | When devices are stored under their own MAC, each stored device is read exactly once if its key is in the order, and never otherwise |
| Registry.EmptyIsValid | src/main/java/deviceapi/api/DeviceAPIImpl.java:19-20 | The empty registry (both maps empty) is well-formed and linked, the base case for the preservation lemmas |
| Registry.Register | src/main/java/deviceapi/api/DeviceAPIImpl.java:30-49 | Fails with MissingType exactly when the type is absent. Otherwise fails with AlreadyExists exactly when the MAC is taken, and succeeds exactly when the type is present and the MAC is new. On success it stores the new device under its MAC, changes no other device entry, and links it under its uplink |
| Registry.Delete | src/main/java/deviceapi/api/DeviceAPIImpl.java:56-68 | Fails with NotFound exactly for an unknown MAC. On success it returns the MAC, removes exactly that device, and replaces the topology by its sweep: the first occurrence of the MAC leaves every child list, the order of the rest is kept, and the key set is unchanged |
| Registry.Merged | src/main/java/deviceapi/api/DeviceAPIImpl.java:90-92 | The stored device takes the incoming MAC and uplink; its type is the incoming type, or the stored one when the incoming type is absent |
| Registry.Update | src/main/java/deviceapi/api/DeviceAPIImpl.java:79-103 | Fails with NotFound exactly for an unknown MAC. On success it returns the merged device and replaces that entry only. The new topology is the old one, swept of the MAC when the uplink changed, then linked as on register: appended to the new uplink's list, or given a root entry if it has none |
| Registry.Get | src/main/java/deviceapi/api/DeviceAPIImpl.java:127-136 | Returns the stored device exactly when the MAC is registered, and NotFound otherwise |
| Registry.FullTopology | src/main/java/deviceapi/api/DeviceAPIImpl.java:142-144 | In a linked registry, the dump shows every device under its uplink, or as a root key when it has no uplink |
| Registry.SubtreeTopology | src/main/java/deviceapi/api/DeviceAPIImpl.java:151-159 | Fails with NotFound exactly for an unregistered start. Otherwise its keys are exactly the nodes reachable from the start, each mapped to its child list or to empty |
| Registry.ListSortedByType | src/main/java/deviceapi/api/DeviceAPIImpl.java:109-120 | Sorted by type priority. As long as the table, and holds exactly the stored devices. In a well-formed registry it is a permutation of the stored devices, each appearing once |
| Registry.RegisterThenGet | src/main/java/deviceapi/api/DeviceAPIImpl.java:40-41 | After a successful register, a lookup returns the new device, and other lookups are unchanged |
| Registry.RegisterTwiceFails | src/main/java/deviceapi/api/DeviceAPIImpl.java:35-39 | A second registration of the same MAC fails with AlreadyExists, and the first device stays stored |
| Registry.RegisterLinking | src/main/java/deviceapi/api/DeviceAPIImpl.java:42-46 | With an uplink, its list becomes the old list (or empty) plus the MAC at the end. Without one, an existing entry for the MAC is kept, or an empty one is created. No other topology key appears or changes |
| Registry.RegisterPreservesInvariants | src/main/java/deviceapi/api/DeviceAPIImpl.java:40-46 | Given a valid MAC, register keeps every device stored under its own MAC with a type, and keeps every device placed under its uplink or as a root |
| Registry.DeleteThenGet | src/main/java/deviceapi/api/DeviceAPIImpl.java:57-61 | After a delete, a lookup of the MAC fails with NotFound, and other lookups are unchanged |
| Registry.DeleteKeepsTombstone | src/main/java/deviceapi/api/DeviceAPIImpl.java:61-64 | The deleted device's own topology entry and its child list stay in place |
| Registry.DeletePreservesInvariants | src/main/java/deviceapi/api/DeviceAPIImpl.java:61-64 | Delete keeps the registry well-formed, and keeps every remaining device placed |
| Registry.UpdateThenGet | src/main/java/deviceapi/api/DeviceAPIImpl.java:90-93 | After an update, a lookup returns the merged device, and other lookups are unchanged |
| Registry.UpdatePreservesWellFormed | src/main/java/deviceapi/api/DeviceAPIImpl.java:90-93 | Update never stores a device without a type, and keeps each device under its own MAC |
| Registry.SweepKeepsOthersPlaced | src/main/java/deviceapi/api/DeviceAPIImpl.java:86-88 | Sweeping one MAC keeps every other device placed under its uplink |
| Registry.UpdatePreservesLinked | src/main/java/deviceapi/api/DeviceAPIImpl.java:85-98 | Update keeps every device placed under its uplink or as a root |
| Registry.UpdateReparents | src/main/java/deviceapi/api/DeviceAPIImpl.java:85-98 | Suppose the uplink changes and the MAC occurred at most once per list. Afterwards it is listed once, at the end of the new uplink's list, and in no other list. With no new uplink, it is in no list and has a root entry |
| Registry.UpdateReparentsSubtrees | src/main/java/deviceapi/api/DeviceAPIImpl.java:85-98 | Given that the device's stored uplink is a registered old parent, the incoming uplink differs from it, and the MAC occurs at most once in every child list: afterwards the old parent's subtree no longer lists the device as its child, and, when the new uplink is registered too, the new parent's subtree does |
| Registry.UpdateSameUplinkAppendsAgain | src/main/java/deviceapi/api/DeviceAPIImpl.java:85-95 | An update that keeps the uplink adds one more occurrence of the MAC to the parent's list |
| Scenarios.ScenarioRegisterAndRetrieve | src/test/java/deviceapi/api/DeviceAPIImplTest.java:23-29 | A registered root gateway is found again with its type and MAC |
| Scenarios.ScenarioSortedListing | src/test/java/deviceapi/api/DeviceAPIImplTest.java:32-42 | Three devices registered out of order are listed as gateway, switch, access point |
| Scenarios.ScenarioFullTopology | src/test/java/deviceapi/api/DeviceAPIImplTest.java:45-57 | The full topology of the four-device tree holds each parent-child edge |
| Scenarios.ScenarioSubtreeScoping | src/test/java/deviceapi/api/DeviceAPIImplTest.java:60-73 | A switch's subtree has the switch and its two access points as keys, and neither the gateway nor the sibling switch |
| Scenarios.ScenarioDeleteThenLookup | src/test/java/deviceapi/api/DeviceAPIImplTest.java:76-85 | Deleting a gateway confirms its MAC, and a later lookup fails with NotFound |
| Scenarios.ScenarioUpdateReparent | src/test/java/deviceapi/api/DeviceAPIImplTest.java:88-101 | Moving a gateway from one root to another stores the new uplink, empties the old root's list and lists it under the new root |
| Scenarios.ScenarioStaleChildAfterUnchangedUplink | src/main/java/deviceapi/api/DeviceAPIImpl.java:85-98 | Re-sending an unchanged uplink lists the device twice; a later move leaves one stale entry under the old parent |

## Left out

- Logging, `APIMessage` and `HttpStatus` construction, and the wording of messages. Delete returns the deleted MAC as its confirmation.
- The HTTP controller, Spring request binding and the exception handler. They translate errors into HTTP responses and have no registry logic.
- Lombok and Jakarta validation machinery, and `Device.toString`. MAC validity is the predicate `DeviceModel.ValidMac`, part of the well-formedness invariant. The controller validates it before calling in, so the invariant lemma for register requires it.
- `Collections.unmodifiableMap`: the full-topology query returns the graph value itself.
- Hash map iteration order: the listing takes it as a parameter.
- Concurrency: the source has no locking, and the model is sequential.
- Shared mutable devices: `Device` is a value here. The source stores and returns `Device` objects by reference, and they have setters. A caller that changes a returned device changes the table without touching the topology. Passing the stored object back to `updateDevice` makes the uplink comparison see the same object, so the sweep is skipped. The HTTP adapter always passes freshly built objects.
- Registry.Update: compares uplinks by content rather than by reference (`!=` on `String`). Under reference comparison, an incoming uplink that is equal but a distinct object would also trigger the sweep. That behaviour depends on string identity, which a value model cannot express.
- Registry.ListSortedByType: states sortedness, membership and (for a well-formed table) permutation only; not the order within one type. Within one type, the source's order depends on the hash map and on the library sort acting on an inconsistent comparator, so the order is not specified.
- Listing.SortByType: does not model the exception that the library sort may throw when it detects the comparator inconsistency. The model sorts with the corrected order.
- Topology.Subtree: terminates on cyclic topologies, which register and update can create (a device registered under itself, or two devices registered under each other). The source's recursion does not terminate on them and exhausts the stack. The model returns the reachable set instead.

## Findings

| source | as written | input that shows it | evidently intended | confidence | as-written member | corrected member |
|---|---|---|---|---|---|---|
| src/main/java/deviceapi/api/DeviceAPIImpl.java:111-118 | The type comparator returns -1 whenever the first type is GATEWAY, including against another GATEWAY, and likewise for SWITCH against SWITCH | compare(GATEWAY, GATEWAY) = -1 and compare(SWITCH, SWITCH) = -1. Each of two equal elements is "smaller" than the other, which breaks the sign-antisymmetry the `Comparator` contract requires | Compare by rank (GATEWAY < SWITCH < ACCESS_POINT, equal types compare 0), which is a valid total preorder | medium, not executed | Listing.WrittenCompare, Listing.WrittenCompareIsNotComparator | Listing.RankCompare, Listing.RankCompareIsComparator, Listing.SortByType |
