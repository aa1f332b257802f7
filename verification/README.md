# ThatsMatter bridge: verified model

A Dafny model of the part of the ThatsMatter bridge that carries state between Home Assistant (HA), the
HTTP control plane and the Matter stack thread:

- the **catalog** of exports, its wrapping endpoint allocator and its two files on disk;
- the **reconciler** in the HA integration that drives the catalog, and the copy of endpoint ids back into HA;
- the **export plane**: the slot table rebuilt from the catalog, pending reports, the controller command queue,
  the configuration generation, the wake-up permit, the pairing mailbox and the pairing window;
- the pure parts they rest on: cover positions and motion (section 5.3 of the Matter Application Cluster
  Specification), UTF-8 label clamping (sections 3 and 4 of RFC 3629), and LAN interface selection.

Objects the source updates in place are classes (`CatalogStore`, `ExportSlot`, `ExportPlane`, `AppState`,
`BridgeClient`, `ExportStore`, `Coordinator`, `LanNetifs`). Their methods keep the source's control flow and
are proved equal to functions on values; what those functions guarantee is proved as lemmas, over every input
or every run. Concurrency is a step relation per protocol, and its theorems range over all interleavings.

| file | content |
|---|---|
| Wrappers, Model, Ids | shared types; ascending traversal of maps |
| Catalog, CatalogRuns | the store; what every run of requests, I/O failures, crashes and restarts keeps |
| OnOffMap, WindowCovering, Utf8 | HA state strings, lift arithmetic, label clamp |
| Slots, SlotTable, Plane | one slot; the table; the plane object |
| PlaneRuns | interleavings of rebuilds, pushes, commands, notifications and drains |
| StackLoop, PlaneLoopRuns | generations and wake-ups; the same joined to the slot table's own steps |
| Mailbox, MailboxLoopRuns | the one-slot mailbox; the same joined to the loop that drains it |
| PairingWindow | the window, explained by the events alone |
| Handlers | create/patch/delete followed by the sync into the plane |
| Reconcile | differences between catalogs, the planned writes, and what a write that landed leaves |
| Client, Coordinator | `sync_catalog` over an unreliable network; the push, its endpoint ids, its durability |
| LanNetif | scoring, selection and start-up validation |

Assumptions. A closure run under the shared lock of the slot table is one step, as is each atomic operation.
A write guard excludes such closures between the copy and the swap of a rebuild. `Notify` stores one permit.
Time does not run backwards. The two catalog files are each replaced atomically. Stack calls (bumping the
configuration version, opening and closing a window), I/O outcomes, the network between HA and the bridge,
random ids and initial data versions are parameters or nondeterministic steps. Generation counters are
unbounded (64 bits in the source); data versions and endpoint ids wrap as in the source.

Where the code and its comments part, the model follows the code:

- A caller whose pairing request times out empties the mailbox whoever's request it holds, not only its own
  (bridge/src/matter/export_plane.rs:569-577). `Mailbox.TimeoutEvictsAnotherCaller` is a run in which a fresh
  request of a second caller is lost this way; `Mailbox.DroppedOnlyByClear` says exactly when that happens.
- A patch rejected for its primary entity keeps the name and type it had already assigned, in memory only
  (bridge/src/catalog/store.rs:251-267); `CatalogRuns.RejectedPatchChangesIff` gives the exact condition,
  `CatalogRuns.RejectedPatchLeaks` an input. The handler then skips the sync, so the plane is proved to mirror
  the catalog after every successful request only.
- A create that fails while saving stays in the bridge's memory (bridge/src/catalog/store.rs:234-236), so a
  rerun of the reconciliation sends nothing and reports success, and a restart forgets the export:
  `Coordinator.UnsavedCreateIsLost`. `Coordinator.Coordinator.PushCatalog` says exactly when a settled push
  outlives a restart.
- A push that carries a covering past a target still ahead of it shows the opposite motion until the next push
  (bridge/src/matter/export_plane.rs:251-281): `Slots.OvershootShowsOpposite` is an input, `Slots.MotionShowsIff`
  the exact condition.
- An export turned into a contact sensor starts as "open", while a newly bridged one starts as "closed"
  (bridge/src/matter/export_plane.rs:170-175, 933-936).

## Model

| member | source | states |
|---|---|---|
| Catalog.CatalogStore.AllocEndpoint | bridge/src/catalog/store.rs:301-318 | the wrapping search terminates (distance to the first free id) and returns the first unused id of 1..=65535 in cyclic order from the counter, leaving the counter just past it |
| Catalog.FirstFreeUnique | bridge/src/catalog/store.rs:307-317 | "first unused in cyclic order" names one id |
| Catalog.AllocFailsIffFull | bridge/src/catalog/store.rs:302-306 | allocation fails exactly when all 65535 ids are taken |
| Catalog.CatalogStore.Create | bridge/src/catalog/store.rs:218-237 | reply, memory and both files after a create, for every way persisting can fail |
| Catalog.CatalogStore.Patch | bridge/src/catalog/store.rs:239-283 | reply, memory and files after a patch, rejected ones included |
| Catalog.CatalogStore.Delete | bridge/src/catalog/store.rs:285-289 | reply, memory and files after a delete |
| Catalog.CatalogStore.LoadOrNew | bridge/src/catalog/store.rs:111-152 | start-up from any readable files: counter pushed past assigned ids, missing ids filled afterwards |
| Catalog.CatalogStore.Persist | bridge/src/catalog/store.rs:320-340 | the counter file is written before the exports file, and a failure in between leaves only the first |
| CatalogRuns.EndpointsAlwaysDistinct | bridge/src/catalog/store.rs:111-340 | in every reachable state endpoint ids are assigned, distinct and non-zero, in memory and on disk |
| CatalogRuns.StableIdentity | bridge/src/catalog/store.rs:218-340 | after a completed create or patch the export keeps that endpoint through failed writes, crashes between the renames and restarts, until a delete of it is requested |
| CatalogRuns.NeverReissued | bridge/src/catalog/store.rs:301-340 | an id returned by a completed create is given to no later create, and held by no other export, as long as no create has pushed the counter past 65535; restarts need no proviso |
| CatalogRuns.ReissuedWhenOneIsLeft | bridge/src/catalog/store.rs:307-317 | the proviso is needed: with one id left free, create, delete, create gives the same id to another export |
| CatalogRuns.LoadKeepsIdentity | bridge/src/catalog/store.rs:131-149 | a start-up keeps every assigned id, fills the missing ones without collision and invents no export |
| CatalogRuns.RejectedPatchChangesIff | bridge/src/catalog/store.rs:251-267 | exactly when a rejected patch leaves memory changed |
| CatalogRuns.RejectedPatchLeaks | bridge/src/catalog/store.rs:251-267 | a rename with a cleared primary entity is refused, yet the new name stays in memory and the old one on disk |
| CatalogRuns.CreateAnswers | bridge/src/catalog/store.rs:218-237 | a create succeeds exactly with a name of 1 to 64 bytes, a primary entity, an unused id and an endpoint left; otherwise it names the first that failed and changes nothing |
| CatalogRuns.PatchAnswers | bridge/src/catalog/store.rs:239-283 | exactly when a patch succeeds or fails and why; a success sets the given fields and no others |
| CatalogRuns.ScanCounts | bridge/src/catalog/store.rs:136-143 | the counter read at start-up is behind no assigned id, and is where it started or just past one |
| CatalogRuns.StartsPastTheFile | bridge/src/catalog/store.rs:124-149 | even with the counter file lost, the first id given out lies past every id in the exports file, if that stops short of 65535 |
| CatalogRuns.FirstMissingIsFirstFree | bridge/src/catalog/store.rs:144-149 | ids are filled in file order and only after all assigned ones are known |
| CatalogRuns.FailedCreateSpendsItsId | bridge/src/catalog/store.rs:320-340 | with the counter written and the exports not, a failed create's id is not given out after a restart |
| CatalogRuns.ReplyTellsRestart | bridge/src/catalog/store.rs:218-340 | after a success a restart brings back memory; after an error it brings back what it would have before the request |
| CatalogRuns.RestartKeepsIff | bridge/src/catalog/store.rs:111-152 | in every run from files the store wrote, a restart would bring back the catalog in memory exactly when the exports file lists it |
| OnOffMap.LinkedStatesIgnored | bridge/src/matter/on_off_map.rs:27-39 | states of linked entities anywhere in a push have no effect on the primary's value |
| OnOffMap.PrimaryStateIff | bridge/src/matter/on_off_map.rs:35-38 | the first state of the primary entity counts, and there is none exactly when it has no state |
| OnOffMap.HaStateIsOnIff | bridge/src/matter/on_off_map.rs:8-14 | exactly the strings that mean on and off, in any case and white-space padding |
| OnOffMap.NormalizeIff | bridge/src/matter/on_off_map.rs:9 | trimming and lower-casing yield a word exactly when the string spells it with capitals and padding |
| WindowCovering.HaCoverReads | bridge/src/matter/clusters/window_covering.rs:140-163 | a usable position attribute decides whatever the state string; without one "open" and "closed" do; "opening" and "closing" alone are motion |
| WindowCovering.LiftRoundTrip | bridge/src/matter/clusters/window_covering.rs:38-52 | HA positions survive the trip to Matter and back; Matter percentages come back rounded up to a whole percent |
| Slots.ToldAsServed | bridge/src/matter/export_plane.rs:341-369 | the device type told is the one of the cluster served, whatever the export was before, and separates exactly light, plug, contact, motion and covering |
| Slots.SurfaceIff | bridge/src/matter/export_plane.rs:377-379 | two slots look the same exactly when endpoint, export and device class agree |
| Slots.LabelIsPrefix | bridge/src/matter/export_plane.rs:337-339 | the label is the longest valid prefix of the name within 32 bytes |
| Slots.ConversionForgets | bridge/src/matter/export_plane.rs:925-966 | a new export reads off, closed, unoccupied or fully open with no report owed; a converted one forgets what it was and reads the same, except a contact, which reads open |
| Slots.PushReads | bridge/src/matter/export_plane.rs:641-718 | the slot reads as HA said after any push, per device type: position, target and motion of coverings on the Matter scale, contacts inverted |
| Slots.MotionShowsIff | bridge/src/matter/export_plane.rs:251-281 | HA's motion shows at once, or Stopped at the limit, except exactly when the push reaches or passes a target ahead |
| Slots.OvershootShowsOpposite | bridge/src/matter/export_plane.rs:251-281 | an input on which an opening covering shows as closing |
| Slots.ActionReads | bridge/src/matter/export_plane.rs:722-785 | which devices take which commands, and what is read after each: open aims at 0, close at 10000, stop at the present position |
| Slots.ChangeMovesVersion | bridge/src/matter/export_plane.rs:385-388 | a push or command touches only value, data version and functional report, exactly when the value changed |
| Slots.PushIsIdempotent | bridge/src/matter/export_plane.rs:641-690 | a determinate push fixes the value whatever the slot held, contact inverted, and repeating it reports nothing |
| Slots.ExportSlot.ApplyCoverHa | bridge/src/matter/export_plane.rs:234-297 | new position, target and motion; true exactly when one of them changed |
| Slots.CoverPushSettles | bridge/src/matter/export_plane.rs:251-296 | a repeated cover push settles within two applications, in range, showing HA's motion or Stopped at the limit |
| Slots.CoverPushSettlesAtOnceIff | bridge/src/matter/export_plane.rs:251-296 | one application suffices except exactly when the push reaches a commanded target that lay ahead |
| Slots.RebuildReports | bridge/src/matter/export_plane.rs:893-923 | a rebuild raises NodeLabel exactly when clamped labels differ and Descriptor exactly when the surface moved, and drops nothing pending |
| Slots.ExportSlot.ApplyPush | bridge/src/matter/export_plane.rs:655-711 | the slot after an HA push, with data version and pending bit moved only on change |
| Utf8.ClampUtf8 | bridge/src/matter/export_plane.rs:986-995 | the clamping loop terminates and returns the specified prefix |
| Utf8.ClampIsLongestPrefix | bridge/src/matter/export_plane.rs:985-995 | the clamp is the longest valid UTF-8 prefix within the limit, at most three bytes short of it |
| Utf8.BoundaryIff | bridge/src/matter/export_plane.rs:991-993 | a cut is a valid string exactly at a character boundary |
| Utf8.ValidIff | bridge/src/matter/export_plane.rs:985-995 | the byte strings taken for UTF-8 are exactly the encodings of sequences of Unicode scalar values |
| SlotTable.TableIsCanonical | bridge/src/matter/export_plane.rs:401-416 | slots strictly ascend from 2 with distinct exports; root, aggregator and slots strictly increase |
| SlotTable.OrderIndependent | bridge/src/matter/export_plane.rs:587-590 | the bridged set and its order do not depend on the input order |
| SlotTable.BridgedIff | bridge/src/matter/export_plane.rs:587-613 | exactly which exports are bridged, conflicts included, and at which endpoint |
| SlotTable.SurfacesFromExports | bridge/src/matter/export_plane.rs:587-620 | the surface of a rebuilt table is fixed by the exports, whatever table and seeds it replaces |
| SlotTable.ClassChangeIsReported | bridge/src/matter/export_plane.rs:913-921 | an export that stays bridged but changes device class changes the surface and leaves its DeviceTypeList to be reported |
| SlotTable.NoticesOfIff | bridge/src/matter/export_plane.rs:798-852 | a slot's notices are exactly the attributes it has a value for whose bit is pending |
| SlotTable.NoticesInOrder | bridge/src/matter/export_plane.rs:793-859 | the drain goes through the endpoints in order and lists nothing twice |
| Plane.ExportPlane.SlotAt | bridge/src/matter/export_plane.rs:418-424 | binary search by endpoint agrees with a linear scan |
| Plane.ExportPlane.SurfaceChanged | bridge/src/matter/export_plane.rs:615-620 | the length test and pairwise comparison decide whether two tables have different surfaces |
| Plane.ExportPlane.SetExports | bridge/src/matter/export_plane.rs:586-637 | the rebuilt table, the generation raised exactly on a changed surface, the permit stored exactly when there is work |
| Plane.ExportPlane.ApplyState | bridge/src/matter/export_plane.rs:641-718 | the table after a push, the count answered for known and unknown exports, nothing queued |
| Plane.ExportPlane.ApplyControllerOnOff | bridge/src/matter/export_plane.rs:722-742 | slot and queue after an on/off command, or nothing when no such slot serves the endpoint |
| Plane.ExportPlane.ApplyControllerCover | bridge/src/matter/export_plane.rs:747-785 | slot and queue after a cover command, or nothing |
| Plane.ExportPlane.GoToLiftPercentage | bridge/src/matter/export_plane.rs:1536-1546 | above 10000: an error with slots and queue unchanged; otherwise the position command |
| Plane.ExportPlane.DrainReports | bridge/src/matter/export_plane.rs:793-859 | the notices of every slot in order, their bits cleared |
| Plane.ExportPlane.AcknowledgeConfigGeneration | bridge/src/matter/export_plane.rs:1662-1673 | the compare-and-swap loop ends with the maximum of applied and acknowledged |
| Plane.ExportPlane.ExecuteWindowOp | bridge/src/matter/export_plane.rs:1240-1317 | window state, reply and stack calls of one open or close, for every stack answer |
| Plane.ExportPlane.ApplyFabricSample | bridge/src/matter/export_plane.rs:513-527 | baseline and deadline after a fabric sample |
| Plane.ExportPlane.NoteStartupCommissioningState | bridge/src/matter/export_plane.rs:490-502 | the start-up window exists exactly when there are no fabrics |
| PlaneRuns.TableAlwaysOk | bridge/src/matter/export_plane.rs:586-859 | over every interleaving the table stays canonical, every slot serves and announces what its device type is, and cover positions and targets stay within 0..=100 |
| PlaneRuns.PushIsShown | bridge/src/matter/export_plane.rs:641-718 | after every push in every run the export's slot reads as HA said, with data version and report moved exactly on a change, and no other slot is touched |
| PlaneRuns.ReportCoherence | bridge/src/matter/export_plane.rs:793-859 | attribute by attribute: what reads differently from the value last told is in the next drain, or about to be announced by the handler that changed it; a drain lists exactly the attributes a slot has with a pending report |
| PlaneRuns.DrainCatchesUp | bridge/src/matter/export_plane.rs:1209-1211 | learning only the attributes listed, controllers are up to date on every slot after a drain |
| PlaneRuns.BitsAppearWithNotify | bridge/src/matter/export_plane.rs:634-718 | report bits appear only with a push that changed a value or a rebuild left with some, the two places that notify; a drain leaves none |
| PlaneRuns.RebuildLosesNothing | bridge/src/matter/export_plane.rs:593-626 | with copy and swap apart, a surviving export keeps the values and pending bits it has at the swap and its data versions move by at most one |
| PlaneRuns.CommandsConserved | bridge/src/matter/export_plane.rs:722-790 | drained commands followed by the queue are the accepted controller actions in order; pushes and rebuilds add none |
| PlaneRuns.QueuedRequestMatchesSlot | bridge/src/matter/export_plane.rs:722-785 | an action a device takes queues exactly one command for the export at the endpoint, its position the slot's new target, and shows on that slot alone; any other action does nothing |
| PlaneRuns.LiftEndToEnd | bridge/src/matter/export_plane.rs:1536-1595 | a lift percentage queues floor((10000-p)/100), reads back rounded up to a whole percent, and settles there once HA reports that position attribute with neither motion word |
| StackLoop.NoSurfaceChangeDropped | bridge/src/matter/export_plane.rs:628-633 | applied never passes requested, neither falls, every surface change is requested or about to be, and every applied generation had a successful bump begun after its request |
| StackLoop.AppliedWasBumped | bridge/src/matter/export_plane.rs:1180-1207 | every applied generation was requested at some step, after which a bump began and succeeded |
| StackLoop.NoMissedWakeUp | bridge/src/matter/export_plane.rs:1156-1212 | a parked thread with reports, a request or a generation outstanding has a permit or a notifying writer, except for generations whose last bump failed |
| StackLoop.WakesArePaidFor | bridge/src/matter/export_plane.rs:1157-1170 | apart from its timer the thread wakes at most once per notification |
| StackLoop.InnerLoopEnds | bridge/src/matter/export_plane.rs:1180-1207 | in every run, while no generation is requested the thread takes at most 4 * outstanding + 3 steps in the inner loop, whatever other writers do and however bumps end |
| PlaneLoopRuns.NoMissedWakeUp | bridge/src/matter/export_plane.rs:1156-1212 | the wake-up guarantee with "reports" read off the real slot table, over joint runs of table and loop |
| PlaneLoopRuns.UnreportedChangeWakes | bridge/src/matter/export_plane.rs:381-388 | while a parked thread has no wake-up coming, nothing reads differently from what controllers were told, save a command its handler is about to announce |
| PlaneLoopRuns.NoSurfaceChangeDropped | bridge/src/matter/export_plane.rs:628-633 | the swaps that changed the table's surface number the generations requested or about to be, and every applied one had a later successful bump |
| PlaneLoopRuns.UninterruptedRebuild | bridge/src/matter/export_plane.rs:586-637 | copy, swap, request and notify in one go leave the table, generation and permit the set_exports method promises |
| PlaneLoopRuns.UninterruptedPush | bridge/src/matter/export_plane.rs:641-718 | a push and its notification in one go leave the table and permit the apply_state method promises |
| Mailbox.MailboxProtocol | bridge/src/matter/export_plane.rs:557-580 | each request executes at most once and is answered with its result, Ok means one's own request succeeded, and a returned caller has nothing left in the mailbox |
| Mailbox.AnswerIff | bridge/src/matter/export_plane.rs:557-580 | a caller has returned Ok or an error exactly when a step gave it that: refused at an occupied mailbox, cleared after giving up, or told what its own request finished with |
| Mailbox.ExecutedIff | bridge/src/matter/export_plane.rs:1218-1236 | the execution record is what the stack thread finished, for whom and with what result |
| Mailbox.PostAndTake | bridge/src/matter/export_plane.rs:559-566 | only an accepted post fills the mailbox and only the stack thread takes a request out to run it |
| Mailbox.DroppedOnlyByClear | bridge/src/matter/export_plane.rs:569-577 | a request leaves unexecuted exactly by a timed-out caller's clear, and another's clear only after its own request had left |
| Mailbox.TimeoutEvictsAnotherCaller | bridge/src/matter/export_plane.rs:569-577 | a run in which one caller's timeout discards another's request |
| MailboxLoopRuns.PostedRequestWakes | bridge/src/matter/export_plane.rs:559-566 | over joint runs of mailbox and loop, a request in the mailbox of a parked thread has a wake-up coming, and the thread never parks, bumps or drains half-way through one |
| MailboxLoopRuns.WokenThreadTakes | bridge/src/matter/export_plane.rs:1172-1177 | once woken, the thread's next move is to take the request that is there |
| PairingWindow.PairingOpenIff | bridge/src/matter/export_plane.rs:478-541 | told from the events alone: the window is open at t exactly when the latest opening has not timed out, no later sample exceeded the fabrics then last recorded and no later close of it succeeded; the baseline kept is the count last recorded |
| PairingWindow.OpenBetween180And900 | bridge/src/matter/backend.rs:53-64 | a window nothing ends stays open for 180 seconds, and none is open 900 seconds after its own opening |
| PairingWindow.OpenWhileOpenIsNoOp | bridge/src/matter/export_plane.rs:1251-1259 | an open while open extends nothing and makes no stack call |
| PairingWindow.OpenWhileClosedAsksOnce | bridge/src/matter/export_plane.rs:1260-1292 | an open while closed asks the stack once, for the clamped time, and answers success, busy or failure as the stack does |
| PairingWindow.StackCloseOnlyWhenTracked | bridge/src/matter/export_plane.rs:1294-1315 | the stack close is called once, exactly for a close that finds one of the bridge's own windows running; only a refused one fails, and leaves the window |
| Handlers.AppState.CreateExport | bridge/src/ipc/handlers.rs:164-176 | catalog, then plane, with the sync skipped on failure |
| Handlers.AppState.PatchExport | bridge/src/ipc/handlers.rs:179-195 | likewise for a patch |
| Handlers.AppState.DeleteExport | bridge/src/ipc/handlers.rs:198-210 | likewise for a delete |
| Handlers.PlaneMirrorsCatalog | bridge/src/ipc/handlers.rs:255-258 | after start-up and every successful request the slots are exactly the enabled exports with id at most 65534, each at id + 1 |
| Handlers.GenerationCountsChanges | bridge/src/matter/export_plane.rs:615-633 | the plane shows the surface of the catalog last synced, and the generation is one for a start-up that bridged anything plus one per successful request whose catalog asks for a different surface; failed requests never raise it |
| Handlers.TypePatchIsAnnounced | bridge/src/ipc/handlers.rs:179-195 | a patch that turns a bridged export into another device class raises the generation by one and leaves DeviceTypeList in the next drain at its endpoint |
| Client.BridgeClient.SyncCatalog | custom_components/thatsmatter/bridge_client.py:173-214 | from any bridge state and network: success means every compared field agrees and the planned writes were sent; any outcome keeps surviving endpoints; with a healthy network and valid exports it succeeds |
| Reconcile.PlanEmpty | custom_components/thatsmatter/bridge_client.py:182-213 | a reconciliation sends no write exactly when the catalogs already agree |
| Reconcile.DiffConverges | custom_components/thatsmatter/bridge_client.py:193-209 | the difference sent as a patch makes the fields equal, passes when the export is valid, and is empty exactly when they already are |
| Reconcile.LastItemCounts | custom_components/thatsmatter/bridge_client.py:178-181 | of several items with one id the last is the one looked up |
| Reconcile.KeyOrderIsFirstPlace | custom_components/thatsmatter/bridge_client.py:178-181 | ids come in the order of first occurrence |
| Coordinator.ExportStore.ApplyEndpointIds | custom_components/thatsmatter/store.py:104-116 | endpoint ids copied back, change reported exactly when one differed |
| Coordinator.Coordinator.PushCatalog | custom_components/thatsmatter/coordinator.py:220-235 | a successful push settles fields and endpoint ids; from a settled state it writes and changes nothing; a settled push survives a restart exactly when it had a write to send or the exports file already listed memory |
| Coordinator.Coordinator.PushTwice | custom_components/thatsmatter/coordinator.py:220-235 | after a first push that failed anywhere, a second succeeds and settles once the network is healthy and the exports are acceptable; after a successful one it sends nothing |
| Coordinator.PushSurvivesIff | bridge/src/catalog/store.rs:320-340 | after a successful reconciliation a restart brings back memory exactly when a write was sent or the file already listed it |
| Coordinator.UnsavedCreateIsLost | bridge/src/catalog/store.rs:218-237 | a create that fails in saving leaves nothing to reconcile, and a restart drops it |
| LanNetif.ScoreIsLexicographic | bridge/src/matter/lan_netif.rs:338-358 | the score orders faces lexicographically by operational, Matter IPv6, real MAC, usable IPv4, routable IPv6 |
| LanNetif.MatterIpv6Iff | bridge/src/matter/lan_netif.rs:322-334 | as 128-bit numbers, Matter takes exactly the addresses strictly between ::1 and ff00::, and fe80::/10 is link-local |
| LanNetif.UsableIpv4Iff | bridge/src/matter/lan_netif.rs:317-319 | the excluded IPv4 addresses as ranges of 32-bit numbers |
| LanNetif.RealMacIff | bridge/src/matter/lan_netif.rs:312-314 | only the first six bytes count |
| LanNetif.FamiliesAreVirtual | bridge/src/matter/lan_netif.rs:296-309 | every name of the container, tunnel and loopback families is virtual, whatever follows |
| LanNetif.LanNamesAreReal | bridge/src/matter/lan_netif.rs:301-309 | wired, wireless and plain bridge names are not |
| LanNetif.PinIsTrimmed | bridge/src/matter/lan_netif.rs:57-60 | a pin is used without its padding, and a blank one is none |
| LanNetif.AutoPickMeans | bridge/src/matter/lan_netif.rs:212-272 | an automatic pick is operational, not loopback and has Matter IPv6, and is missing only when no face is all three |
| LanNetif.LanNetifs.StartRefusedIff | bridge/src/matter/lan_netif.rs:68-112 | exactly when and why start-up is refused |
| LanNetif.LanNetifs.Pick | bridge/src/matter/lan_netif.rs:186-273 | a pin is obeyed or nothing is picked; otherwise the first maximal eligible face, then the first maximal fallback |
| LanNetif.LanNetifs.ValidateThenPick | bridge/src/matter/lan_netif.rs:68-112 | passing validation, the pick is operational with Matter IPv6, and the pin or a real LAN face |

## Left out

- rs-matter, rs-matter-stack, mDNS, sockets, D-Bus and thread start-up: only the success or failure of their calls appears.
- HTTP routing, JSON parsing, logging, configuration and pairing codes: plumbing and library encoding.
- Home Assistant entities, config flow, services, notifications and poll loops: outside the bridge's state.
- `DevMatterBackend`: a development backend whose window timer is not one step.
- `CatalogStore::replace` and `set_bridge_name`: the first keeps caller-supplied endpoint ids unchecked and has no caller in the service; the second only rewrites the name.
- Concurrent HTTP handlers: the sync lists the catalog and updates the plane outside the catalog lock, so Handlers serves requests one at a time.
- Waiting inside `post_window_request`: a blocking call is split into the steps of Mailbox instead of being one method.
- Snapshots handed to rs-matter: a handler that holds an old table is modelled only through the commands and notifications it issues on the current one.
- Brightness conversion, device revisions, fixed cluster attributes and the bit packing of the operational status: small constant tables.
- Python dictionaries of unknown JSON shape: HA's exports are typed, with canonical export ids.
- PlaneRuns.ReportCoherence: an export removed and bridged again, or moved to another functional cluster, starts a fresh record, as does one whose endpoint moves between a command and that command's own notification, because controllers read a new path before they are told about it.
