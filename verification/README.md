# beamr-wasm: verified model

This project models the stateful core of `beamr-wasm`, the WebAssembly host of the
BEAM runtime, and proves what that core promises.

- **Module ordering** (`Graphs`, `Tarjan`, `LoadOrder`, `Ordering`): the artifact
  loader's recursive Tarjan search and the Kahn loop over its condensation. The load
  order is defined on the graph alone; the loop is proved to reach it, and it is proved
  to be the only one.
- **Conversion under a moving collector** (`Terms`, `Context`, `Convert`, `ConvertJs`,
  `Render`): JSON and JavaScript values to terms on a heap that any reservation may
  relocate, and back. A term is correct if it *denotes* its value; the collector is any
  injective relocation that keeps what the roots reach.
- **Connection events** (`HubLog`, `Hub`): the hub with its queue and dispatch latch.
  `HubLog` states the invariants on values; `Hub` is the class, whose callbacks run
  arbitrary scripts of hub calls.
- **Host arbiter** (`Deadline`, `Sink`, `Waiters`, `Capability`, `ArbiterLog`,
  `Arbiter`): the turn machine, the one host timeout, the output sink, the exit waiters
  and the in-flight capability requests, composed. `ArbiterLog` states what holds on
  values; in `Arbiter`, the class, every host primitive may throw and every callback may
  re-enter, and `Arbiter.HostArbiter.Run` covers every order in which a host may run the
  callbacks it was given.
- **Bundle printers** (`Base64`, `JsString`, `Archive`): Base64, string literals and the
  length-prefixed archive, each against an independent reader.

`Wrappers` holds the shared option and result types. `dafny verify dfyconfig.toml`
checks the whole project.

## How the parts are read

Callbacks are scripts: a class holds the list of what coming callback invocations will
do, invoking a callback consumes the next script and runs it, and all theorems hold for
every list. JavaScript calls answer or throw, and the answers are inputs. Time is an
integer instant passed in. What the scheduler does in one drain is an input too: the
writes, capability calls, timer changes, exits and the way it stopped.

Beside the fields of the code, the classes keep what the host holds (`outstanding` turn
callbacks, `hostTimers`) and histories a maintainer could log: the events a hub has
handed out and every invocation it made, the trace of writes, answers and hooks of the
arbiter, and the fate of every capability token (`ledger`) and exit waiter (`book`).
`Valid`, `Ready` and `Inv` are the invariants; each holds between any two calls,
including calls made from inside callbacks.

Methods are proved against specification functions. What such a function computes is also
said without it, in the contract of the method or in a lemma beside it: the term of a
value kind by kind (`Convert.Stands`), the first offending element by its path
(`ConvertJs.FirstOffence`), the load order as blocks laid out back to back
(`Ordering.LoadsAs`), the archive byte by byte (`Archive.EntriesStand`).

Three places where the code does less than its comments or its wording suggest:

- `lib.rs:565-575` describes the arm gauge as a counted 0/1 cardinality. A `clearTimeout`
  that throws empties the arm slot and leaves the gauge up, so a later arm takes it to
  two (`Deadline.ThrowingClearLeaksGauge`); it counts the held arm exactly as long as no
  clear has thrown (`Deadline.GaugeTellsArmIff`).
- `lib.rs:945` takes "idle" from the drain that has ended. An abort hook run in between
  may queue a turn, and the remaining waiters are told "idle" all the same
  (`Arbiter.IdleToldWhileQueued` is such a turn). If no pid that exits has a capability
  request in flight, no hook runs and "idle" is told in Idle; if one has, a hook that
  sends one message suffices to have it told while a turn is queued
  (`Arbiter.HostArbiter.ResolveWaiters`, and for whole turns `ArbiterLog.ToldInIdleIff`).
- `convert.rs:480-502` sets the properties of a plain object. Setting `__proto__` runs the
  accessor that the object inherits, which succeeds and leaves no property, so a member
  of that name is lost (`Render.ProtoMemberIsLost`); a value makes the round trip whole
  exactly if no member at any level has that name (`Render.ConversionRoundTrips`).

## Model

| member | source | states |
|---|---|---|
| Tarjan.StronglyConnectedComponents | crates/beamr-wasm/src/artifact_loader.rs:396-413 | For every graph the emitted lists are whole strongly connected components in ascending order, cover every module, and each prefix of them is closed under edges (dependencies are emitted first). |
| Tarjan.ComponentsPartition | crates/beamr-wasm/src/artifact_loader.rs:396-413 | The components partition the modules: any two modules share one exactly if each reaches the other, and no module is in two. |
| Tarjan.SccState.constructor | crates/beamr-wasm/src/artifact_loader.rs:398-406 | A fresh search has visited nothing and keeps the whole search invariant. |
| Tarjan.SccState.Connect | crates/beamr-wasm/src/artifact_loader.rs:415-446 | One recursive visit keeps the search invariant, finishes the node and everything it reaches, and leaves a low link that is either its own number (its component is emitted) or that of a reachable module below it on the stack; it terminates because the unvisited set shrinks. |
| Tarjan.SccState.ScanEdge | crates/beamr-wasm/src/artifact_loader.rs:419-431 | One dependency: an unvisited one is searched first, and its low link, or the number of a stacked one, is taken over; the loop invariant advances by one edge. |
| Tarjan.SccState.PopComponent | crates/beamr-wasm/src/artifact_loader.rs:434-445 | Emits the stack from the root of the component upward, sorted, and clears exactly those flags. |
| Tarjan.SccState.PopUntil | crates/beamr-wasm/src/artifact_loader.rs:435-442 | Pops down to and including the node: the popped run is the reversed stack segment, nothing below it changes. |
| Tarjan.SegmentIsComponent | crates/beamr-wasm/src/artifact_loader.rs:415-446 | Closed under edges and anchored at its root, the popped stack segment is one whole component. |
| Tarjan.FinishPop | crates/beamr-wasm/src/artifact_loader.rs:415-446 | A node whose low link is its own number closes its component: popping keeps the invariant. |
| Tarjan.FinishKeep | crates/beamr-wasm/src/artifact_loader.rs:415-446 | A node with a lower low link stays on the stack and can still climb to an open module. |
| Tarjan.ScanChild | crates/beamr-wasm/src/artifact_loader.rs:424-427 | Taking over the low link of a finished child keeps the bound on all edges scanned so far. |
| Tarjan.ScanSeen | crates/beamr-wasm/src/artifact_loader.rs:428-430 | Taking over the visit number of a stacked neighbour keeps the bound on all edges scanned so far. |
| Graphs.SortAscendingCorrect | crates/beamr-wasm/src/artifact_loader.rs:443 | The in-place sort of a component yields the same members ascending. |
| Ordering.IndexByName | crates/beamr-wasm/src/artifact_loader.rs:300-304 | The name index maps each manifest name to the last entry of that name and nothing else. |
| Ordering.DepEdges | crates/beamr-wasm/src/artifact_loader.rs:306-315 | The edge lists are the declared dependencies of each entry that resolve, in order, all in range. |
| Ordering.EdgesAreDeclared | crates/beamr-wasm/src/artifact_loader.rs:300-315 | There is an edge exactly where an entry declares another by name. |
| Ordering.MissingDependency | crates/beamr-wasm/src/artifact_loader.rs:119-139 | Reports the first dependency that no entry is named by, in manifest order and then in the order of the entry; none is reported only if all resolve. |
| Ordering.ComponentOf | crates/beamr-wasm/src/artifact_loader.rs:318-323 | Each module is mapped to the one component that lists it. |
| Ordering.Condense | crates/beamr-wasm/src/artifact_loader.rs:324-344 | Indegrees count distinct predecessor components, each cross edge is recorded once, and self-loops are flagged exactly. |
| Ordering.CrossEdgesPointDown | crates/beamr-wasm/src/artifact_loader.rs:324-344 | Edges between different components lead to components emitted earlier: the condensation is acyclic. |
| Ordering.InitialReady | crates/beamr-wasm/src/artifact_loader.rs:347-353 | Ranks are the earliest members; the ready list is the components without predecessors. |
| Ordering.PickReady | crates/beamr-wasm/src/artifact_loader.rs:357-363 | Picks the ready component whose earliest member stands first in the manifest. |
| Ordering.Release | crates/beamr-wasm/src/artifact_loader.rs:374-379 | Counts down the dependants of an emitted component without underflow and readies exactly those that reach zero. |
| Ordering.KahnStep | crates/beamr-wasm/src/artifact_loader.rs:363-379 | One round of the loop keeps: indegree = predecessors not yet emitted, ready = those at zero not yet emitted, emitted = a good prefix. |
| Ordering.NothingStranded | crates/beamr-wasm/src/artifact_loader.rs:356-380 | When nothing is ready, every component has been emitted: the loop strands none, because the condensation is acyclic. |
| Ordering.DrainReady | crates/beamr-wasm/src/artifact_loader.rs:354-381 | Some complete run that emits every component once, dependencies first, with the tie-break, has exactly this order and these cycles. |
| Ordering.DrainedIsLoadOrder | crates/beamr-wasm/src/artifact_loader.rs:356-381 | A complete run of the loop, read as blocks of modules, is a load order of the graph. |
| Ordering.OrderComponents | crates/beamr-wasm/src/artifact_loader.rs:318-382 | From any correct list of components the loop yields a load order and its cycles. |
| Ordering.OrderModules | crates/beamr-wasm/src/artifact_loader.rs:299-382 | For every manifest: every module exactly once; the order is the components of the declared dependencies back to back, each ascending, dependencies first with the tie-break; and the cycles are, in load order and each once, the names of the members of exactly the cyclic components. |
| Ordering.DependencyBeforeDependant | crates/beamr-wasm/src/artifact_loader.rs:299-382 | In any such order, a declared dependency that does not depend back stands before its dependant. |
| Ordering.SortedStaysSorted | crates/beamr-wasm/src/artifact_loader.rs:299-382 | A manifest that declares only earlier entries, or itself, is loaded exactly as written. |
| LoadOrder.LoadOrderDistinct | crates/beamr-wasm/src/artifact_loader.rs:299-382 | A load order lists every module exactly once. |
| LoadOrder.DependenciesFirst | crates/beamr-wasm/src/artifact_loader.rs:299-382 | Every dependency in another component stands before its dependant. |
| LoadOrder.LoadOrderCanonical | crates/beamr-wasm/src/artifact_loader.rs:318-381 | Two load orders of graphs with the same edge set are the same list: list order, repeats and component numbering do not matter. |
| Ordering.OrderIsCanonical | crates/beamr-wasm/src/artifact_loader.rs:299-382 | Any two orderings of manifests with the same names in the same positions and the same declared pairs are equal, order and cycles alike. |
| LoadOrder.SortedManifestUnchanged | crates/beamr-wasm/src/artifact_loader.rs:299-382 | If all edges point to earlier modules or to the module itself, the only load order is the manifest order. |
| LoadOrder.ReportedIffCyclic | crates/beamr-wasm/src/artifact_loader.rs:365-372 | A component is reported (more than one member, or a self-edge) exactly if one of its modules reaches itself through at least one edge. |
| Ordering.CyclesAreCyclicComponents | crates/beamr-wasm/src/artifact_loader.rs:365-372 | The reported cycles are exactly the name lists of the cyclic components. |
| Ordering.CyclesReport | crates/beamr-wasm/src/artifact_loader.rs:365-372 | Every cyclic component is reported, once, in load order, by the names of its modules in manifest order, and nothing else is. |
| Ordering.OrderingLoads | crates/beamr-wasm/src/artifact_loader.rs:299-382 | An ordering, read without the functions that compute it: blocks of the graph of declared names, laid out back to back, with the cyclic ones named. |
| Terms.MovedDenotes | crates/beamr/src/native/context/mod.rs:803-810 | Anything reachable from a root denotes, after a relocating collection and at its new address, the value it denoted before. |
| Terms.MovedClosed | crates/beamr/src/native/context/mod.rs:803-810 | A relocating collection leaves no dangling pointer in the heap or the roots. |
| Terms.UnrootedTermGoesStale | crates/beamr-wasm/src/convert.rs:601-641 | Concrete collection that turns an unrooted term into another value: why the pre-fix replica is wrong. |
| Context.ProcessContext.EnsureHeapSpace | crates/beamr/src/native/context/mod.rs:803-810 | Any reservation may move or drop what the roots do not reach and may be refused; every root keeps its meaning. |
| Context.ProcessContext.AllocBinary | crates/beamr/src/native/context/alloc.rs:138-148 | The new term denotes the bytes; all roots keep their meaning. |
| Context.ProcessContext.AllocFloat | crates/beamr/src/native/context/alloc.rs:132-135 | The new term denotes the number; all roots keep their meaning. |
| Context.ProcessContext.ReserveRooting | crates/beamr/src/native/context/mod.rs:822-847 | Terms rooted across one reservation come back denoting what they denoted, and the root stack is as at entry. |
| Context.ProcessContext.AllocList | crates/beamr/src/native/context/alloc.rs:212-246 | Building back to front in reserved space yields a proper list of the element values in order. |
| Context.ProcessContext.AllocMap | crates/beamr/src/native/context/alloc.rs:259-284 | The map pairs each key with its own value, wherever the terms moved during the reservation. |
| Context.ProcessContext.Push | crates/beamr/src/native/context/accumulator.rs:116-125 | Appends to the innermost scope only; a push to an outer scope is refused and changes nothing. |
| Context.ProcessContext.Set | crates/beamr/src/native/context/accumulator.rs:141-160 | Overwrites one slot of the run and no other root. |
| Context.ProcessContext.Close | crates/beamr/src/native/context/accumulator.rs:77-96 | Releases the scope: the root stack returns to its entry depth, on success and failure alike. |
| Context.ProcessContext.ToList | crates/beamr/src/native/context/accumulator.rs:179-182 | The list of an accumulator denotes the values pushed, in order. |
| Context.ProcessContext.SortPairsByKey | crates/beamr/src/native/context/accumulator.rs:230-248 | The run ends as its own pairs sorted by key (of pointers, the lower address first), equal keys in their old order; an odd run is refused. |
| Context.SortKeyedSorted | crates/beamr/src/native/context/accumulator.rs:241 | Sorted pairs ascend by raw key. |
| Context.SortKeyedStable | crates/beamr/src/native/context/accumulator.rs:241 | Pairs whose keys have one raw value keep their order. |
| Context.SortedRunEntries | crates/beamr/src/native/context/accumulator.rs:230-248 | Sorting a run that denotes entries leaves a run that denotes the same entries: no key loses its value. |
| Context.ProcessContext.WriteBack | crates/beamr/src/native/context/accumulator.rs:230-248 | Writes a run of pairs back in place, key and value in their own slots. |
| Context.ProcessContext.ToMapPairs | crates/beamr/src/native/context/accumulator.rs:208-222 | The map of an alternating run denotes its entries; an odd run is refused, not truncated. |
| Convert.NumberToTerm | crates/beamr-wasm/src/convert.rs:248-263 | An integer of 61 bits becomes that small integer, and negative zero becomes 0, without a reservation; any other finite number becomes a float of that value, or a refused reservation; non-finite numbers are refused. |
| Convert.JsonValueToTerm | crates/beamr-wasm/src/convert.rs:128-246 | For every value, heap and schedule of relocating collections: the term stands for the value, spelled out kind by kind (null and booleans are atoms, a string is a binary, an array a proper list in order, an object a map with each value under its key), or the value is too deep or has a non-finite number, or a reservation was refused; roots keep number and meaning on every path. |
| Convert.OutcomeStands | crates/beamr-wasm/src/convert.rs:128-246 | Whatever denotes the value that conversion is specified to build stands for the JSON value, in the sense spelled out kind by kind. |
| Convert.JsonArrayToTerm | crates/beamr-wasm/src/convert.rs:145-187 | The array case of the above, with its scope closed on success and failure. |
| Convert.JsonObjectToTerm | crates/beamr-wasm/src/convert.rs:188-244 | The object case of the above, with its scope closed on success and failure. |
| Convert.MemberToTerm | crates/beamr-wasm/src/convert.rs:217-234 | The key is rooted before its value is built, so the pair survives the collections the value triggers. |
| Convert.FinishMap | crates/beamr-wasm/src/convert.rs:235-236 | Sorting and building the map keeps every entry. |
| Convert.ScopeKept | crates/beamr/src/native/context/accumulator.rs:1-96 | Allocation inside an open scope keeps its content and the roots below it, wherever they have moved. |
| ConvertJs.ValueToTerm | crates/beamr-wasm/src/convert.rs:90-126 | The same guarantee for the direct JavaScript path, where reading a property may throw: a term stands for the JSON value that the input has the shape of; it is refused exactly if it is nested too deep or not convertible, with the error of its first offending element. |
| ConvertJs.JsConvertsIff | crates/beamr-wasm/src/convert.rs:90-126 | Conversion succeeds exactly for nesting height at most 256 if, at every level, no number is non-finite, no value is undefined or unsupported, every key is a string and every read answers. |
| ConvertJs.FirstOffenceDecides | crates/beamr-wasm/src/convert.rs:90-365 | The error is that of the first offending element, left to right and outside in (depth, undefined, unsupported, non-finite, key, throwing read); with none, the value converts. |
| ConvertJs.JsonFirstOffence | crates/beamr-wasm/src/convert.rs:128-246 | The same first error for the JSON path. |
| ConvertJs.JsonShaped | crates/beamr-wasm/src/convert.rs:90-126 | Whatever converts has the shape of a JSON value and converts as that value does. |
| ConvertJs.ArrayToTerm | crates/beamr-wasm/src/convert.rs:265-301 | The array case of the JavaScript path. |
| ConvertJs.ObjectToTerm | crates/beamr-wasm/src/convert.rs:303-364 | The object case of the JavaScript path: a non-string key or a throwing read is an error and the scope is closed. |
| ConvertJs.PropertyToTerm | crates/beamr-wasm/src/convert.rs:327-356 | Key checked, value read, key rooted before its value is built. |
| ConvertJs.PathsAgree | crates/beamr-wasm/src/convert.rs:90-246 | The JSON path and the JavaScript path convert every JSON-shaped value to the same value or the same error. |
| Convert.ConvertsIff | crates/beamr-wasm/src/convert.rs:525-533 | Conversion succeeds exactly for nesting height at most 256 with finite numbers (given that allocation succeeds). |
| Render.TermToJs | crates/beamr-wasm/src/convert.rs:366-386 | For every value the term denotes: an answer exactly if its height is at most 256 and every part can be handed back, and then the right one; for a term without terms inside the answer is spelled out (an atom gives its name, an unresolved one is refused). |
| Render.ListToJs | crates/beamr-wasm/src/convert.rs:398-420 | The cells are followed to the empty list and their heads answered in order; an improper tail is refused. |
| Render.TupleToJs | crates/beamr-wasm/src/convert.rs:462-478 | Tuples become arrays with one answer for each element, in order. |
| Render.MapToJs | crates/beamr-wasm/src/convert.rs:480-502 | Maps become objects with each value under its own key, except that setting a key named `__proto__` leaves no property of its own; of several keys with one property name the last in storage order is kept. |
| Render.MapKeyToString | crates/beamr-wasm/src/convert.rs:504-523 | A name exactly for a resolved atom, its name, and for a text binary, its text; nothing else names a property. |
| Render.CanRenderIff | crates/beamr-wasm/src/convert.rs:366-533 | A value can be handed back exactly if its height is at most 256 and, at every level, it has no pid or other boxed term, resolved atoms, binaries that fit, proper lists, and keys that name a property. |
| Render.NamedAtomsApart | crates/beamr-wasm/src/convert.rs:388-396 | Two named atoms are handed back alike only if they have the same name. |
| Render.RoundTrip | crates/beamr-wasm/src/convert.rs:90-533 | What comes back is the value that went in, less its members named `__proto__`, with null and booleans as their atom names and -0 as 0. |
| Render.ConvertedRenders | crates/beamr-wasm/src/convert.rs:366-533 | What a conversion built can always be handed back at the same depth. |
| Render.ConversionRoundTrips | crates/beamr-wasm/src/convert.rs:90-533 | Both directions together, through any heap in which the built term denotes its value: everything but members named `__proto__` comes back, and so the whole value exactly if it has no such member at any level. |
| Render.WholeIffNoProto | crates/beamr-wasm/src/convert.rs:480-502 | Of any value that comes back less its `__proto__` members: it comes back whole exactly if no member at any level has that name. |
| Render.ProtoMemberIsLost | crates/beamr-wasm/src/convert.rs:480-502 | The failing input: an object whose one member is named `__proto__` is handed back as an empty object, whatever the value of the member. |
| Hub.BrowserConnectionHub.Run | crates/beamr-wasm/src/connection_events.rs:282-503 | Any sequence of calls, with any re-entrant callbacks, keeps the invariant, only extends the log, and ends with an empty queue if it began outside a dispatch. |
| Hub.BrowserConnectionHub.ConnectionUp | crates/beamr-wasm/src/connection_events.rs:315-339 | Accepted exactly if no session is open; then the next generation is announced, else nothing changes. |
| Hub.BrowserConnectionHub.ConnectionDown | crates/beamr-wasm/src/connection_events.rs:348-357 | Accepted exactly for a known reason and an open session; then that generation is closed, else nothing changes. |
| Hub.BrowserConnectionHub.ConnectionReplaced | crates/beamr-wasm/src/connection_events.rs:369-402 | Accepted likewise; Down(g) and Up(g+1) enter the log adjacent, else nothing changes. |
| Hub.BrowserConnectionHub.Subscribe | crates/beamr-wasm/src/connection_events.rs:406-411 | A new id, the value of the counter, at the end of the registrations; it is told only events taken from now on. |
| Hub.BrowserConnectionHub.SubscribeWithSnapshot | crates/beamr-wasm/src/connection_events.rs:422-454 | Outside a dispatch the function itself is invoked with one row per open session, in name order, and registered at the same point of the log; inside one it is a plain subscription. |
| Hub.BrowserConnectionHub.Unsubscribe | crates/beamr-wasm/src/connection_events.rs:460-465 | Removes exactly that id, answers whether it was there, and fixes where its events end. |
| Hub.BrowserConnectionHub.Deliver | crates/beamr-wasm/src/connection_events.rs:471-479 | The events join the queue adjacent; they are handed out now unless a dispatch is already running. |
| Hub.BrowserConnectionHub.DrainQueue | crates/beamr-wasm/src/connection_events.rs:485-503 | Empties the queue, including what callbacks add, each event to the subscribers of the moment it is taken. |
| Hub.BrowserConnectionHub.HandOut | crates/beamr-wasm/src/connection_events.rs:490-501 | Exactly one invocation per registration at the time the event was taken, each of the registered function, in order of registration, whatever the callbacks do. |
| Hub.BrowserConnectionHub.InvokeCallback | crates/beamr-wasm/src/connection_events.rs:496-501 | One invocation of the given function is recorded, as catch-up or under the id that registered this function, and then a script of hub calls runs; what it throws is discarded. |
| Hub.BrowserConnectionHub.LiveRows | crates/beamr-wasm/src/connection_events.rs:433-444 | One synthetic Up for each peer with an open session, with its current generation, in lexicographic order of the names. |
| Hub.BeforeIsLexLess | crates/beamr-wasm/src/connection_events.rs:288 | The order of names is lexicographic: after a common prefix one ends or goes on with a smaller character. |
| Hub.ReasonRoundTrip | crates/beamr-wasm/src/connection_events.rs:186-213 | The seven reasons and their canonical strings determine each other. |
| HubLog.AcceptKeepsInv | crates/beamr-wasm/src/connection_events.rs:315-402 | An accepted transition keeps, for every peer, the log Up(1), Down(1), Up(2), ... and the peers table as its fold. |
| HubLog.SubscribeKeepsInv | crates/beamr-wasm/src/connection_events.rs:406-411 | Registering keeps what every subscriber has been told. |
| HubLog.RemoveKeepsInv | crates/beamr-wasm/src/connection_events.rs:460-465 | Removing keeps what every subscriber has been told, the removed one included. |
| HubLog.TakeKeepsInv | crates/beamr-wasm/src/connection_events.rs:485-503 | Taking an event leaves everyone registered owed exactly that one call. |
| HubLog.CallKeepsInv | crates/beamr-wasm/src/connection_events.rs:496-501 | Calls of the registered function made in order of registration keep one global order of calls. |
| HubLog.SnapshotKeepsInv | crates/beamr-wasm/src/connection_events.rs:445-451 | Registering a function after it was invoked with the open sessions keeps the catch-up invariant. |
| HubLog.GiveKeepsInv | crates/beamr-wasm/src/connection_events.rs:445-449 | Giving one catch-up row to a function that is not registered keeps every history. |
| HubLog.SnapshotIsNoStray | crates/beamr-wasm/src/connection_events.rs:445-451 | Every catch-up row ever given belongs to a snapshot subscription. |
| HubLog.ToldExactly | crates/beamr-wasm/src/connection_events.rs:406-503 | The invocations recorded for a subscriber are of the function it registered, with one contiguous stretch of the log: from its registration to its removal, no gap, no repeat. |
| HubLog.SnapshotIsSeamless | crates/beamr-wasm/src/connection_events.rs:422-454 | The rows its function was invoked with and the events it was called with later join, per peer, into one alternating history that misses no generation. |
| HubLog.MintedDistinctIff | crates/beamr-wasm/src/connection_events.rs:406-411 | Of the ids a saturating 32-bit counter mints, as Subscribe does, the first n are distinct exactly if n is at most 2^32. |
| Hub.UnsubscribeRemovesOneIff | crates/beamr-wasm/src/connection_events.rs:460-465 | With ids from the saturating counter: one Unsubscribe of a minted id removes exactly one of the registrations made, for every such id, exactly if at most 2^32 were made; past that two share an id and go together. |
| Deadline.HostDeadlineService.constructor | crates/beamr-wasm/src/lib.rs:1079-1090 | A fresh service has no records, no arm and balanced counters. |
| Deadline.HostDeadlineService.SyncReceiveRecords | crates/beamr-wasm/src/lib.rs:1113-1141 | Cancellations leave first; then every timer scheduled has the pid and the deadline (the one sampled instant plus the delay) of its last schedule, and every other keeps its record; the record accounting balances. |
| Deadline.StampedExactly | crates/beamr-wasm/src/lib.rs:1113-1141 | What a list of schedules leaves, timer by timer: the last schedule of a timer decides, and a timer without one is untouched. |
| Deadline.HostDeadlineService.UpdateNativeEarliest | crates/beamr-wasm/src/lib.rs:1145-1148 | Stores the value and reports a new one. |
| Deadline.HostDeadlineService.RemoveReceiveRecord | crates/beamr-wasm/src/lib.rs:1152-1157 | The record leaves once, counted as retired. |
| Deadline.HostDeadlineService.UnifiedMinimum | crates/beamr-wasm/src/lib.rs:1159-1171 | The least pending deadline of either class, or none exactly if nothing is pending. |
| Deadline.HostDeadlineService.Reconcile | crates/beamr-wasm/src/lib.rs:1179-1221 | It fails exactly if a primitive it must call throws; on success the arm is at the minimum of all records and the native deadline, and each counter moved for its documented reason; a throwing clear leaves the slot empty and the gauge up. |
| Deadline.HostDeadlineService.ArmHost | crates/beamr-wasm/src/lib.rs:1227-1253 | One new host timeout under a token never used before, or nothing if the host throws. |
| Deadline.HostDeadlineService.CallbackFired | crates/beamr-wasm/src/lib.rs:1266-1307 | Any timeout callback may run: until a clear has thrown it is admitted exactly if the host still held its timeout; a cleared, replaced or spent one changes nothing; an admitted one removes and fires exactly the records due at `now`, each once. |
| Deadline.HostDeadlineService.TakeDue | crates/beamr-wasm/src/lib.rs:1290-1306 | The due records leave the map, each exactly once and none before its stamp. |
| Deadline.MinimumUnique | crates/beamr-wasm/src/lib.rs:1159-1171 | There is only one minimum, so "armed at the minimum" fixes the armed deadline. |
| Deadline.GaugeTellsArmIff | crates/beamr-wasm/src/lib.rs:565-575 | Of any balanced counters: the gauge equals the 0/1 number of held arms exactly if no clear has thrown; throw-free cancellations are re-arms plus moves or clears. |
| Deadline.ThrowingClearLeaksGauge | crates/beamr-wasm/src/lib.rs:1179-1221 | Concrete run in which one throwing clear and a retry leave the gauge at two with one arm held. |
| Sink.HostIoSinkBridge.WriteStream | crates/beamr-wasm/src/io_sink.rs:89-96 | Writes are captured in order. |
| Sink.HostIoSinkBridge.Drain | crates/beamr-wasm/src/io_sink.rs:74-80 | Takes all captured writes and leaves none. |
| Arbiter.HostArbiter.constructor | crates/beamr-wasm/src/lib.rs:618-651 | A fresh arbiter is idle, unlatched and meets the whole invariant. |
| Arbiter.HostArbiter.RequestExternalTurn | crates/beamr-wasm/src/lib.rs:657-662 | Granted exactly if not idle or the host does not throw; when idle one turn is queued, and a request while queued or draining (so also from inside the sink flush) changes nothing. |
| Arbiter.HostArbiter.QueueTurn | crates/beamr-wasm/src/lib.rs:664-703 | On success exactly one more host callback is outstanding; a throwing host resets to idle and latches. |
| Arbiter.HostArbiter.ExecuteQueuedTurn | crates/beamr-wasm/src/lib.rs:705-749 | An absorbed callback does nothing; otherwise the state is Queued (the guard never fires) and exactly one turn runs, with the output, aborts and answers of a turn; after a success nobody is parked for an exited or errored pid, a failure has latched, and a host that does not throw always succeeds. |
| Arbiter.HostArbiter.RunManualDrain | crates/beamr-wasm/src/lib.rs:751-792 | Refused, unchanged, while draining; otherwise one turn that absorbs a queued one, with the same guarantees as a queued turn; a failed drain has latched. |
| Arbiter.HostArbiter.DrainEnvelope | crates/beamr-wasm/src/lib.rs:720-748 | All output of the turn is in the trace, in write order, before anything else the turn does, also when the drain fails. After a success, whatever callbacks do: every request of an exited pid is taken or aborted, every waiter parked for one is answered, and whoever is parked when the last hook has returned has exactly the documented answer, given last. If no exited pid has or makes a request, nobody is called after the flush and everybody parked before the turn has that answer, told in the state the drain ended in. |
| Arbiter.HostArbiter.PerformDrain | crates/beamr-wasm/src/lib.rs:794-830 | Records, native deadline and exits are those the scheduler left; on success the arm is at the unified minimum before anybody is settled. |
| Arbiter.HostArbiter.Flush | crates/beamr-wasm/src/io_sink.rs:139-166 | Delivers every captured write in order: those before the first throw to the callback, from it on all to the console; nobody is settled meanwhile. |
| Arbiter.HostArbiter.Deliver | crates/beamr-wasm/src/io_sink.rs:147-163 | One write goes to the callback exactly if there is one and it does not throw, else to the console. |
| Arbiter.HostArbiter.FinishDrain | crates/beamr-wasm/src/lib.rs:832-843 | A true idle becomes Idle; a fairness yield queues exactly one more turn, or latches if the host throws. |
| Arbiter.HostArbiter.AwaitExit | crates/beamr-wasm/src/lib.rs:845-891 | The answer in order of precedence: latched error, exit result (consumed), exit error (kept), settled idle with no deadline of either class; else a new waiter stands at the end of the list of this pid, unanswered, and no other list changes. |
| Arbiter.AwaitedIsTold | crates/beamr-wasm/src/lib.rs:840-953 | From the wait to the answer: a waiter parked for a pid, any host events, then a successful drain that observes the pid: the waiter is answered whatever callbacks do, and told Exited or Errored accordingly if it was not answered before and no callback acts. |
| ArbiterLog.ParkedIsAnswered | crates/beamr-wasm/src/lib.rs:904-953 | The same for any turn, queued or manual, and anything that happened since the waiter was parked. |
| Arbiter.HostArbiter.ResolveWaiters | crates/beamr-wasm/src/lib.rs:904-954 | Aborts every untaken request of the observed pids first, then settles; from some point of the trace on it only tells. With no entry of an observed pid in flight at the call, no hook runs, the state is kept and every idle answer is told in Idle; with one in flight, a hook that sends a message has all of them told while a turn is queued. |
| Arbiter.HostArbiter.SettleObserved | crates/beamr-wasm/src/lib.rs:914-953 | Exited pids win over errored ones, and the rest are told idle only when the drain ended idle with no deadline pending; all are told in the present state. |
| Arbiter.HostArbiter.SettleExited | crates/beamr-wasm/src/lib.rs:914-928 | All waiters of the exited pids are told so; an exit result is consumed only if somebody waited. |
| Arbiter.HostArbiter.SettleErrored | crates/beamr-wasm/src/lib.rs:929-944 | All waiters of the errored pids are told so, nobody else. |
| Arbiter.HostArbiter.SettleAll | crates/beamr-wasm/src/lib.rs:945-953 | Every parked waiter is removed and given the one answer, once. |
| Arbiter.HostArbiter.SweepCapabilities | crates/beamr-wasm/src/lib.rs:909-913 | Every token issued before for the pids is taken or aborted afterwards, whatever the hooks do; with none in flight nothing changes at all. |
| Arbiter.HostArbiter.AbortPid | crates/beamr-wasm/src/capability.rs:315-327 | All entries of the pid leave the registry before the first hook; afterwards its tokens are taken or aborted; with no entry nothing changes. |
| Arbiter.HostArbiter.CallHooks | crates/beamr-wasm/src/capability.rs:319-326 | The hook of each drained entry is called once, in order; hooks without a script tell nobody anything and keep the state. |
| Arbiter.HostArbiter.Fail | crates/beamr-wasm/src/lib.rs:965-979 | The latch is set for good, every waiter parked at that moment is rejected, and then the failure callback, if one is registered, is pushed once. |
| Arbiter.HostArbiter.PushFailure | crates/beamr-wasm/src/lib.rs:975-978 | The failure callback leaves its slot and is invoked; with none registered nothing happens. |
| Arbiter.HostArbiter.SyncAndReconcile | crates/beamr-wasm/src/lib.rs:1104-1107 | On success the arm is at the minimum; on failure a host primitive has thrown. |
| Arbiter.HostArbiter.SendMessage | crates/beamr-wasm/src/lib.rs:227-244 | On success the records are those of the scheduler, the arm is at the minimum and an edge has asked for one turn; on failure a host primitive has thrown. |
| Arbiter.HostArbiter.TimerFired | crates/beamr-wasm/src/lib.rs:478-484 | As for a message, with the record of the timer gone. |
| Arbiter.HostArbiter.SpawnEdge | crates/beamr-wasm/src/lib.rs:494-501 | An edge asks for one turn; with no error channel a refused request is latched and rejects everybody. |
| Arbiter.HostArbiter.DeadlineCallback | crates/beamr-wasm/src/lib.rs:1266-1316 | The callback of a cleared, replaced or spent timeout changes nothing; an admitted fire takes exactly the due records and asks for a turn: it is queued, or the host refuses and the error is latched with everybody rejected. |
| Arbiter.HostArbiter.PromiseSettled | crates/beamr-wasm/src/capability.rs:510-550 | The token is completed, and taken unless the sweep had it; a completion after the sweep is counted and wakes nobody; a wake-up queues a turn, or the host refuses and the error is latched with everybody rejected. |
| Arbiter.HostArbiter.Run | crates/beamr-wasm/src/lib.rs:544-1316 | Every run of calls, turn callbacks, timeout callbacks (cleared ones too) and completions, anything throwing at any time, keeps the invariant: callbacks owed = ignored + queued, no timer lost until a primitive throws, the latch never empties and then nobody is parked, each waiter told once, each aborted request hooked once. |
| ArbiterLog.TellingKeepsHonest | crates/beamr-wasm/src/lib.rs:904-979 | Telling parked waiters keeps: each settled waiter told its answer once; idle only with no deadline pending, never while draining, and only in Idle until a hook has left a turn queued. |
| ArbiterLog.HookCalled | crates/beamr-wasm/src/capability.rs:319-326 | Calling one owed abort hook keeps: each aborted request is hooked once or still owed. |
| ArbiterLog.AcceptedUntilThrow | crates/beamr-wasm/src/io_sink.rs:147-163 | The split of a flush is at the first invocation that throws. |
| ArbiterLog.OutputInOrder | crates/beamr-wasm/src/io_sink.rs:147-163 | The i-th write of a turn is the i-th thing traced, to the callback exactly if one is registered and no invocation up to it has thrown. |
| ArbiterLog.TurnObserved | crates/beamr-wasm/src/lib.rs:720-748 | Output, aborts and answers of one turn follow from its steps in this order. |
| Arbiter.IdleToldWhileQueued | crates/beamr-wasm/src/lib.rs:904-954 | Concrete queued turn: pid 1 makes a request and exits, the drain ends idle, the abort hook sends a message, which queues a turn, and the waiter for pid 2 is told idle all the same. |
| ArbiterLog.ToldInIdleIff | crates/beamr-wasm/src/lib.rs:904-953 | With a hook that would send a message and somebody waiting for another pid, everybody is told in an idle arbiter exactly if no pid that exits has a request in flight or makes one in the turn. |
| ArbiterLog.GoneAreAnswered | crates/beamr-wasm/src/lib.rs:914-944 | When nobody is left parked for the pids, everybody who ever waited for one of them has an answer. |
| ArbiterLog.DeliveredNext | crates/beamr-wasm/src/io_sink.rs:139-166 | The flush so far stays a callback prefix followed by console writes: one split point. |
| Waiters.RegisterKeeps | crates/beamr-wasm/src/lib.rs:883-893 | A registration keeps: registered = settled + parked, each parked under its own pid. |
| Waiters.RegistersAtEnd | crates/beamr-wasm/src/lib.rs:883-893 | A registration puts the new waiter at the end of the list of its own pid and changes no other list. |
| Waiters.SettleKeeps | crates/beamr-wasm/src/lib.rs:914-953 | Settling one pid keeps the same balance and revokes no earlier answer. |
| Waiters.SettlesPid | crates/beamr-wasm/src/lib.rs:914-944 | Settling one pid answers exactly the waiters parked under it. |
| Waiters.ObservedInOrder | crates/beamr-wasm/src/lib.rs:914-953 | Exited, errored and idle passes in this order give every waiter the documented answer. |
| Capability.CapabilityBridge.StartCall | crates/beamr-wasm/src/capability.rs:411-433 | A fresh token is registered under the calling pid. |
| Capability.CapabilityBridge.TakeInFlight | crates/beamr-wasm/src/capability.rs:552-561 | Found exactly if in flight; then that entry and no other leaves, and a pid without entries leaves the map. |
| Capability.CapabilityBridge.OnPidExit | crates/beamr-wasm/src/capability.rs:315-327 | Drains exactly the entries of the pid; none of them was taken or aborted before. |
| Capability.CapabilityBridge.FinishRequest | crates/beamr-wasm/src/capability.rs:510-550 | Before the sweep the request is taken once and delivered if built and accepted; after it nothing is delivered and it is counted once. |
| Capability.IssuedAccounted | crates/beamr-wasm/src/capability.rs:315-561 | Every token ever issued is taken, aborted or in flight, and exactly one of these. |
| Capability.NoneInFlight | crates/beamr-wasm/src/capability.rs:315-327 | All tokens of some pids are taken or aborted exactly if none of the pids has an entry in the registry. |
| Capability.StartKeeps | crates/beamr-wasm/src/capability.rs:411-421 | Registering a token keeps the registry invariant. |
| Capability.RemoveKeeps | crates/beamr-wasm/src/capability.rs:552-561 | Removing one entry keeps the registry invariant and every other entry. |
| Capability.SweepKeeps | crates/beamr-wasm/src/capability.rs:315-327 | The sweep keeps the registry and the completion accounting. |
| Capability.FinishKeeps | crates/beamr-wasm/src/capability.rs:510-550 | A completion keeps: late count = completions after a sweep + refused deliveries. |
| Base64.Encode | crates/beamr-wasm/build.rs:222-243 | For all bytes the text decodes back to them and has length 4*ceil(n/3). |
| Base64.DecodeIffEncoded | crates/beamr-wasm/build.rs:222-243 | The printed text is the one text a strict decoder (section 4 of RFC 4648) reads as the bytes. |
| Base64.TestVectors | crates/beamr-wasm/build.rs:222-243 | The test vectors of section 10 of RFC 4648 come out as printed there. |
| Base64.TableValue | crates/beamr-wasm/build.rs:223 | The i-th table character has value i. |
| Base64.OctetsBack | crates/beamr-wasm/build.rs:229-230 | The four six-bit pieces of three bytes reassemble to them. |
| Base64.SextetsBack | crates/beamr-wasm/build.rs:225-240 | Four six-bit pieces are those of the three bytes they assemble to. |
| JsString.Print | crates/beamr-wasm/build.rs:198-216 | For every text the literal reads back as it (section 7 of RFC 8259) and holds no control character. |
| JsString.PushEscaped | crates/beamr-wasm/build.rs:200-213 | The loop body appends one of five short escapes, \u and four lower-case hexadecimal digits for any other control character, and any other character as it is. |
| JsString.PrintedReadsBack | crates/beamr-wasm/build.rs:198-216 | The printed literal is one string of the grammar, and its value is the text. |
| JsString.PrintedIsPlain | crates/beamr-wasm/build.rs:206-211 | No control character is printed raw. |
| Archive.ArchivePack | crates/beamr-wasm/build.rs:97-113 | Succeeds exactly within the u16 and u32 limits, with the header and the entries of the format, spelled out byte by byte, that parse back to the modules; otherwise names the first module that breaks a limit. |
| Archive.WriteEntry | crates/beamr-wasm/build.rs:123-141 | Appends one entry, a little-endian length before the name and before the payload, or says which limit it breaks. |
| Archive.EmptyArchiveBytes | crates/beamr-wasm/build.rs:115-121 | Magic, version and a zero count. |
| Archive.Parse | crates/beamr/src/loader/embed.rs:149-181 | Accepts exactly the archives of some module list within the limits, and returns it. |
| Archive.ParsedIffPacked | crates/beamr-wasm/build.rs:97-141 | An archive has exactly one parse: the module list it was packed from. |
| Archive.ReadWritten | crates/beamr-wasm/build.rs:123-141 | A written entry reads back whatever follows it. |
| Archive.WrittenRead | crates/beamr/src/loader/embed.rs:344-349 | An entry that reads is the layout of what was read. |
| Archive.Utf8IffEncoding | crates/beamr/src/loader/embed.rs:149-181 | The names accepted are exactly the encodings of sequences of scalar values by section 3 of RFC 3629. |

## Left out

- Arbiter.HostArbiter.Run: the host runs no callback in the middle of another call, runs a turn callback only if it holds one, and settles each promise once, as JavaScript guarantees; these are built into which events it admits.
- Hub.BrowserConnectionHub.Subscribe: ids, generations and the arbiter's counters are unbounded naturals; saturation is stated only for subscriber ids, as lemmas about registrations made with the saturating counter, and the wrap-around of 64-bit tokens is not modelled.
- Deadline.HostDeadlineService.ArmHost: the delay in whole milliseconds, its rounding and its clamp are not modelled, so a fire may come at any instant; nothing is said about promptness.
- Deadline.HostDeadlineService.SyncReceiveRecords: a deadline past the largest instant, which the code replaces by the present, is not modelled, because instants are unbounded.
- Render.TermToJs: integers are handed back as exact reals, so the rounding of integers beyond 2^53 is not modelled; for a map with two keys of one property name it says only whether there is an answer, and Render.MapToJs which value survives.
- Render.MapToJs: setting `__proto__` to an object or an array also replaces the prototype of the object; properties are its own ones here, so the inherited ones, and setters that such a prototype may bring along, are not modelled.
- Convert.NumberToTerm: a double is its exact real value with negative zero and the non-finite values apart; the bits of the encoding are not modelled.
- Terms.MovedDenotes: the collector itself, heap words and size limits are abstracted to an arbitrary relocation that keeps what the roots reach, and to refusal at any reservation.
- Binaries are text when their bytes are valid UTF-8 and raw bytes otherwise; the encoding is modelled only for archive names.
- Capability.CapabilityBridge.StartCall: argument checks, host lookup, synchronous failures and response validation are refusals before registration and are left out; what counts is whether the completion term could be built and was accepted.
- Capability.CapabilityBridge.OnPidExit: the entries are returned for their abort hooks to be invoked by the sweep; an entry without a callable hook counts as one whose hook does nothing.
- Context.ProcessContext.SortPairsByKey: the raw order of term words is by kind and payload, and atoms compare equal; conversions only sort binaries.
- Arbiter.HostArbiter.SweepCapabilities: a request that a re-entrant hook starts for a pid already swept stays in flight until the next observation, so the sweep speaks of the tokens issued before it.
- Arbiter.HostArbiter.Flush: a write is a text; lossy decoding and the console call are not modelled.
- JsString.PrintedReadsBack: the reader refuses \u escapes of surrogates, singly or paired, because the printer writes none.
- Archive.ArchivePack: compression is outside; the payload is the compressed bytes.
- Ordering.OrderModules: fetching, manifest parsing, URL resolution and loading are left out; the order and the missing-dependency check are what is modelled.
- Error texts, kinds and phases, JSON reports, the panic hook and the exports of the virtual machine object would only add single-branch facts.
- The scheduler, the interpreter, the BEAM decoder, the atom table and the drop of the service are not part of this model.
- Asynchronous NIFs and JavaScript callbacks registered as functions run inside the scheduler and are not part of this model.
