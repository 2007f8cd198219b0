# comet component host: a Dafny model

comet is a small in-process component host. A host (`CComHost`, used through
`IComHost`) keeps an interface table. The table maps the type identity of an
interface (`&typeid(I)`) to an opaque pointer to the component registered
under it. Components are attached under an interface and detached again.
A host-aware component (`CComUnknown<T>`) holds a back-reference to its host
and forwards every query to it, so it can reach its siblings. `CComPtr<T>`
is an immutable handle that stores the answer to exactly one such query.

This project models that core in Dafny and proves what it promises:

- `comet.dfy`, module `Comet`. It holds the identities (`TypeId`, where
  `HostTypeId` is `IComHost`'s own identity), untyped pointers (`Ptr`) and
  the table. The value-level specification of the host's three operations is
  `QuerySpec`, `AttachSpec` and `DetachSpec`. `Resolution` is what a query
  through any host or component pointer answers. The class `ComHost` holds
  the table as a `map` field. Its methods update that field in place and are
  proved against those functions. The class `Component` holds the optional
  host back-reference. The handle `ComPtr` and the two handle constructors
  complete the module. C++ splits the abstract `IComHost` from the final
  `CComHost`. `CComHost` is its only implementation, so the model merges the
  two into the one class `ComHost`.
- `table_properties.dfy`, module `TableProperties`. It holds the lemmas on
  the table specification and on resolution. They cover attach and query,
  duplicate and forbidden attaches, detach of present and absent entries,
  the two round trips between attach and detach, and sibling lookup.
- `call_sequences.dfy`, module `CallSequences`. It covers any sequence of
  attach, detach and query calls on one host. Every table a host can reach
  leaves out the host's own identity. An identity no call writes keeps its
  entry. Queries never change the table.
- `device_scenario.dfy`, module `DeviceScenario`. It is the sample device
  set-up as a verified client of the host.

Behaviour of the source that the model makes explicit:

- `__Attach` under the host's own identity stops on `assert(false)` in debug
  builds. The model follows release builds: the call returns null and the
  table is unchanged.
- `Attach` sets the component's host back-reference before it registers the
  component. The back-reference therefore stays set when the registration is
  refused.
- `RawAttach` of a null component stores a null entry and returns null. That
  return value cannot be told apart from a refusal. Afterwards the identity is
  occupied, but a query for it answers null (see `AttachSucceedsIff`).
- Both `CComPtr` constructors call through a pointer. The plain constructor
  therefore requires a non-null source. The converting constructor requires a
  valid source handle.

## Model

| member | source | states |
|---|---|---|
| `Comet.ComHost.constructor` | src/comet.cpp:8-12 | a new host has an empty table and is valid, whatever the capacity hint |
| `Comet.NewComHost` | src/comet.cpp:56-58 | the factory returns a fresh, valid host with an empty table |
| `Comet.ComHost.QueryInterface` | src/comet.cpp:19-29 | answers the host itself for the host identity, the stored pointer for a present identity, and null otherwise; it changes nothing |
| `Comet.ComHost.DetachEntry` | src/comet.cpp:31-39 | the new table and the returned pointer are those of `DetachSpec` on the old table; the host stays valid |
| `Comet.ComHost.AttachEntry` | src/comet.cpp:41-50 | the new table and the returned pointer are those of `AttachSpec`: host identity refused, no overwrite, otherwise inserted and `impl` returned; the host stays valid |
| `Comet.ComHost.Attach` | include/comet.hpp:30-33 | the component's host becomes this host, and the table and result are exactly those of registering the component |
| `Comet.ComHost.RawAttach` | include/comet.hpp:36-40 | registers the component (or null) as `AttachSpec` says, modifying only the host, so the back-reference is untouched |
| `Comet.ComHost.Detach` | include/comet.hpp:44-47 | same table and result as `DetachEntry`, to which it forwards |
| `Comet.Component.constructor` | include/comet.hpp:71 | a new component has no host |
| `Comet.Component.SetComHost` | include/comet.hpp:60-62 | the host back-reference becomes the given host |
| `Comet.Component.QueryInterface` | include/comet.hpp:63-68 | with no host the answer is null; with a host it is exactly that host's answer |
| `Comet.QueryThrough` | include/comet.hpp:81 | a call through a non-null pointer is answered by the host or component it points to, as `Resolution` says |
| `Comet.ComPtr.Get` | include/comet.hpp:84-86 | `get()` returns the pointer stored at construction |
| `Comet.ComPtr.Arrow` | include/comet.hpp:87-89 | `operator->` returns the same stored pointer as `get()` |
| `Comet.ComPtr.IsValid` | include/comet.hpp:90-92 | the handle is valid exactly when the stored pointer is non-null |
| `Comet.MakeComPtr` | include/comet.hpp:81-82 | the handle stores the answer of one query for `T` through the source, and is valid iff that answer is non-null |
| `Comet.ConvertComPtr` | include/comet.hpp:78-80 | the handle re-queries for `T` through the object the other handle points to |
| `TableProperties.QueryHostIsSelf` | src/comet.cpp:20-22 | a query for the host identity answers the host, whatever the table holds |
| `TableProperties.QueryInterfaceEntry` | src/comet.cpp:24-28 | any other identity answers its stored pointer, or null when absent |
| `TableProperties.AttachFreshSucceeds` | src/comet.cpp:46-47 | attach under a fresh identity returns `impl`, a later query answers `impl`, and no other entry changes |
| `TableProperties.AttachDuplicateFails` | src/comet.cpp:46-49 | attach under an occupied identity returns null and leaves the table and the earlier entry unchanged |
| `TableProperties.AttachHostRefused` | src/comet.cpp:42-45 | attach under the host identity returns null and leaves the table unchanged |
| `TableProperties.AttachSucceedsIff` | src/comet.cpp:41-50 | the table changes iff the identity is neither the host's nor present; for non-null `impl` the same holds of a non-null result |
| `TableProperties.OperationsKeepWellFormed` | src/comet.cpp:31-50 | attach and detach keep the host identity out of the table |
| `TableProperties.DetachPresent` | src/comet.cpp:31-36 | detach of a present identity returns its pointer, removes exactly that entry, and a later attach under it succeeds |
| `TableProperties.DetachAbsent` | src/comet.cpp:37-38 | detach of an absent identity returns null and leaves the table unchanged |
| `TableProperties.DetachUndoesAttach` | src/comet.cpp:31-50 | detach after a successful attach returns the attached pointer and restores the original table |
| `TableProperties.AttachUndoesDetach` | src/comet.cpp:31-50 | re-attaching what a detach returned, under the same identity, restores the original table |
| `TableProperties.UnhostedComponentAnswersNull` | include/comet.hpp:63-68 | a component whose back-reference was never set answers every query with null |
| `TableProperties.ComponentSeesSiblings` | include/comet.hpp:64-65 | a hosted component answers every query as its host does, so it finds each sibling registered there |
| `TableProperties.ConvertedHandleAsksSameHost` | include/comet.hpp:78-82 | re-querying through a handle on a host, or on a component of that host, answers from that host's table |
| `CallSequences.Replay` | src/comet.cpp:19-50 | after any sequence of calls the host identity stays out of a well-formed table, and identities no call writes keep their entries |
| `CallSequences.ReplayConcat` | src/comet.cpp:19-50 | running two call sequences one after the other equals running their concatenation |
| `CallSequences.ReachableTablesWellFormed` | src/comet.cpp:42-45 | every table reachable from a new host leaves out the host identity |
| `CallSequences.QueriesLeaveTableUnchanged` | src/comet.cpp:19-29 | any sequence of queries leaves the table exactly as it was |
| `CallSequences.AttachedEntrySurvives` | src/comet.cpp:46-47 | an attach in the middle of a session, under an identity free at that point, succeeds, and later calls that do not write that identity leave its query answering the attached pointer |
| `DeviceScenario.SiblingLookup` | tests/main.cpp:4-18 | following the attaches and the detach of tests/device.cpp:37-49 and the network component's own lookup at tests/device.cpp:19: with a logger and a network component attached host-aware, handles resolved through the host, through the logger's handle and through the network component each reach the right sibling, and detach returns the logger |

## Left out

- `include/comet/traits.hpp`: compile-time type utilities with no run-time behaviour.
- `CComHost::Delete` and heap deallocation (src/comet.cpp:15-17): memory management, not table behaviour.
- The capacity hint's `reserve` call (src/comet.cpp:9-11): it affects performance only. The hint is accepted and ignored.
- `typeid`, `reinterpret_cast` and pointer adjustment between base classes: an identity is an abstract `TypeId`, and a pointer is identified with the object it points into. A mismatched cast is therefore not modelled.
- C++ access control (friend declarations, private virtuals): every member is public in the model.
- `AttachWithDeleter`, deferred deleters, the parent/child hierarchy and reference counting: the device sample calls `AttachWithDeleter` (tests/device.cpp:41), but neither include/comet.hpp nor src/comet.cpp declares or defines any of them. `DeviceScenario.SiblingLookup` attaches the network component with `Attach`.
- The sample components' logging and console output (tests/device.cpp, tests/main.cpp): I/O.
- Debug-build `assert(false)` in `__Attach`: the model follows release builds, where the call returns null.
