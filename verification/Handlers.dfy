// The HTTP handlers: mutate the catalog, then push its listing into the plane.
module Handlers {
  import opened Wrappers
  import opened Model
  import opened Ids
  import opened OnOffMap
  import opened Catalog
  import opened Slots
  import opened SlotTable
  import opened Plane
  import R = CatalogRuns

  datatype App = App(store: Store, slots: seq<Slot>, requested: nat)

  // `sync_exports`: rebuild the table from the listing and count a changed surface.
  function Sync(a: App, seeds: Seeds): App {
    var slots := RebuildTable(Listing(a.store.mem.byId), a.slots, seeds);
    App(a.store, slots, a.requested + if Surfaces(slots) != Surfaces(a.slots) then 1 else 0)
  }

  // A rejected request returns before the sync.
  function Serve(a: App, outcome: (Result<Export, CatalogError>, Store), seeds: Seeds): App {
    var a' := a.(store := outcome.1);
    if outcome.0.Success? then Sync(a', seeds) else a'
  }

  class AppState {
    const catalog: CatalogStore
    const plane: ExportPlane

    constructor (catalog: CatalogStore, plane: ExportPlane)
      ensures this.catalog == catalog && this.plane == plane
    {
      this.catalog, this.plane := catalog, plane;
    }

    ghost function Value(): App
      reads catalog, plane, plane.slots
    {
      App(catalog.Value(), plane.Views(), plane.configRequested)
    }

    method SyncExports(seeds: Seeds)
      requires plane.Valid()
      modifies plane
      ensures plane.Valid() && Value() == Sync(old(Value()), seeds)
    {
      var exports := Listing(catalog.byId);
      plane.SetExports(exports, seeds);
    }

    method CreateExport(body: CreateExport, newId: Uuid, io: WriteOutcome, seeds: Seeds)
      returns (r: Result<Export, CatalogError>)
      requires plane.Valid()
      modifies catalog, plane
      ensures plane.Valid()
      ensures r == StoreCreate(old(catalog.Value()), body, newId, io).0
      ensures Value() == Serve(old(Value()), StoreCreate(old(catalog.Value()), body, newId, io), seeds)
    {
      hide StoreCreate, RebuildTable, Surfaces, Listing;
      r := catalog.Create(body, newId, io);
      if r.Success? {
        SyncExports(seeds);
      }
    }

    method PatchExport(id: Uuid, body: PatchExport, io: WriteOutcome, seeds: Seeds)
      returns (r: Result<Export, CatalogError>)
      requires plane.Valid()
      modifies catalog, plane
      ensures plane.Valid()
      ensures r == StorePatch(old(catalog.Value()), id, body, io).0
      ensures Value() == Serve(old(Value()), StorePatch(old(catalog.Value()), id, body, io), seeds)
    {
      hide StorePatch, RebuildTable, Surfaces, Listing;
      r := catalog.Patch(id, body, io);
      if r.Success? {
        SyncExports(seeds);
      }
    }

    method DeleteExport(id: Uuid, io: WriteOutcome, seeds: Seeds) returns (r: Result<Export, CatalogError>)
      requires plane.Valid()
      modifies catalog, plane
      ensures plane.Valid()
      ensures r == StoreDelete(old(catalog.Value()), id, io).0
      ensures Value() == Serve(old(Value()), StoreDelete(old(catalog.Value()), id, io), seeds)
    {
      hide StoreDelete, RebuildTable, Surfaces, Listing;
      r := catalog.Delete(id, io);
      if r.Success? {
        SyncExports(seeds);
      }
    }
  }

  // ---------- Runs of requests served one at a time ----------

  ghost function Outcome(s: Store, step: R.Step): (Result<Export, CatalogError>, Store)
    requires !step.Restarting?
  {
    match step
    case Creating(body, newId, io) => StoreCreate(s, body, newId, io)
    case Patching(id, body, io) => StorePatch(s, id, body, io)
    case Deleting(id, io) => StoreDelete(s, id, io)
  }

  // Start-up loads the catalog and pushes it into an empty plane.
  ghost predicate IsRun(apps: seq<App>, steps: seq<R.Step>, seeds: seq<Seeds>) {
    && |apps| == |steps| + 1 && |seeds| == |steps| + 1
    && R.Inv(apps[0].store)
    && apps[0] == Sync(App(apps[0].store, [], 0), seeds[|steps|])
    && forall k :: 0 <= k < |steps| ==>
         !steps[k].Restarting? && apps[k + 1] == Serve(apps[k], Outcome(apps[k].store, steps[k]), seeds[k])
  }

  lemma OutcomeKeepsInv(s: Store, step: R.Step)
    requires R.Inv(s) && !step.Restarting?
    ensures R.Inv(Outcome(s, step).1)
  {
    hide R.Inv, StoreCreate, StorePatch, StoreDelete;
    R.InvStep(s, step, Outcome(s, step).1);
  }

  lemma {:induction false} CatalogInvAlways(apps: seq<App>, steps: seq<R.Step>, seeds: seq<Seeds>, k: nat)
    requires IsRun(apps, steps, seeds) && k < |apps|
    ensures R.Inv(apps[k].store)
  {
    hide R.Inv, Outcome, RebuildTable, Surfaces, Listing;
    if k > 0 {
      CatalogInvAlways(apps, steps, seeds, k - 1);
      assert apps[k - 1 + 1] == Serve(apps[k - 1], Outcome(apps[k - 1].store, steps[k - 1]), seeds[k - 1]);
      OutcomeKeepsInv(apps[k - 1].store, steps[k - 1]);
    }
  }

  predicate HasSlot(slots: seq<Slot>, e: Export, ep: U16) {
    exists i :: 0 <= i < |slots| && slots[i].exp == e && slots[i].matterEndpoint == ep
  }

  // The plane shows exactly the enabled exports with an endpoint id of at most 65534, each one
  // endpoint up; no export loses its place to another.
  ghost predicate Mirrors(slots: seq<Slot>, byId: Exports) {
    forall e: Export, ep: U16 :: HasSlot(slots, e, ep) <==>
      && e.exportId in byId && byId[e.exportId] == e && e.enabled
      && e.endpointId.Some? && e.endpointId.value <= 65534 && ep == e.endpointId.value + 1
  }

  lemma HasSlotIffPlaced(exports: seq<Export>, previous: seq<Slot>, seeds: Seeds, e: Export, ep: U16)
    ensures HasSlot(RebuildTable(exports, previous, seeds), e, ep) <==> Placed(e, ep) in Bridged(exports)
  {
    hide Rebuild, Place, Sort, Candidates;
    RebuiltPlaces(exports, previous, seeds);
    var slots, placed := RebuildTable(exports, previous, seeds), Bridged(exports);
    if Placed(e, ep) in placed {
      var i :| 0 <= i < |placed| && placed[i] == Placed(e, ep);
      assert slots[i].exp == e;
    }
    if HasSlot(slots, e, ep) {
      var i :| 0 <= i < |slots| && slots[i].exp == e && slots[i].matterEndpoint == ep;
      assert placed[i] == Placed(e, ep);
    }
  }

  lemma SyncMirrors(byId: Exports, previous: seq<Slot>, seeds: Seeds)
    requires R.WellFormed(byId)
    ensures Mirrors(RebuildTable(Listing(byId), previous, seeds), byId)
  {
    hide RebuildTable, Bridged, HasSlot, Listing;
    var exports := Listing(byId);
    ListingDistinct(byId);
    ListingMembers(byId);
    forall e: Export, ep: U16
      ensures HasSlot(RebuildTable(exports, previous, seeds), e, ep) <==>
        && e.exportId in byId && byId[e.exportId] == e && e.enabled
        && e.endpointId.Some? && e.endpointId.value <= 65534 && ep == e.endpointId.value + 1
    {
      HasSlotIffPlaced(exports, previous, seeds, e, ep);
      BridgedIff(exports, e, ep);
      if e in exports {
        forall x | x in exports && x.endpointId == e.endpointId
          ensures x == e
        {
          assert byId[x.exportId] == x && byId[e.exportId] == e;
        }
      }
    }
  }

  // After start-up and after every successful request the plane mirrors the catalog.
  lemma PlaneMirrorsCatalog(apps: seq<App>, steps: seq<R.Step>, seeds: seq<Seeds>, k: nat)
    requires IsRun(apps, steps, seeds) && k < |apps|
    requires k > 0 ==> Outcome(apps[k - 1].store, steps[k - 1]).0.Success?
    ensures Mirrors(apps[k].slots, apps[k].store.mem.byId)
  {
    hide RebuildTable, Listing, Outcome, Mirrors, R.WellFormed, R.FileOk;
    CatalogInvAlways(apps, steps, seeds, k);
    if k == 0 {
      SyncMirrors(apps[0].store.mem.byId, [], seeds[|steps|]);
    } else {
      assert apps[k - 1 + 1] == Serve(apps[k - 1], Outcome(apps[k - 1].store, steps[k - 1]), seeds[k - 1]);
      SyncMirrors(apps[k].store.mem.byId, apps[k - 1].slots, seeds[k - 1]);
    }
  }

  // ---------- The generation counter, read off the catalog ----------

  // The (endpoint, export, device type) sequence a catalog asks for.
  function CatalogSurface(s: Store): seq<Surface> {
    PlacedSurfaces(Bridged(Listing(s.mem.byId)))
  }

  // The last state up to n the plane was synced with; a failed request may have left the
  // catalog in memory ahead of it.
  ghost function LastSynced(apps: seq<App>, steps: seq<R.Step>, n: nat): (k: nat)
    requires n < |apps| == |steps| + 1 && forall k :: 0 <= k < |steps| ==> !steps[k].Restarting?
    ensures k <= n
  {
    if n == 0 || Outcome(apps[n - 1].store, steps[n - 1]).0.Success? then n else LastSynced(apps, steps, n - 1)
  }

  // Successful requests among the first n whose catalog asks for another surface than the one
  // last synced.
  ghost function CatalogChanges(apps: seq<App>, steps: seq<R.Step>, n: nat): nat
    requires n < |apps| == |steps| + 1 && forall k :: 0 <= k < |steps| ==> !steps[k].Restarting?
  {
    if n == 0 then 0
    else
      var synced := LastSynced(apps, steps, n - 1);
      var changed :=
        && Outcome(apps[n - 1].store, steps[n - 1]).0.Success?
        && CatalogSurface(apps[n].store) != CatalogSurface(apps[synced].store);
      CatalogChanges(apps, steps, n - 1) + if changed then 1 else 0
  }

  lemma SyncFollowsCatalog(a: App, seeds: Seeds)
    ensures Surfaces(Sync(a, seeds).slots) == CatalogSurface(a.store)
    ensures Sync(a, seeds).requested == a.requested + if CatalogSurface(a.store) != Surfaces(a.slots) then 1 else 0
  {
    hide RebuildTable, Bridged, Listing;
    SurfacesFromExports(Listing(a.store.mem.byId), a.slots, seeds);
  }

  // The plane always shows the surface of the catalog it was last synced with, and the
  // configuration generation is 1 for a start-up that bridged anything plus one for every
  // successful request that changed that surface; a failed request never raises it.
  lemma {:induction false} GenerationCountsChanges(apps: seq<App>, steps: seq<R.Step>, seeds: seq<Seeds>, n: nat)
    requires IsRun(apps, steps, seeds) && n < |apps|
    ensures Surfaces(apps[n].slots) == CatalogSurface(apps[LastSynced(apps, steps, n)].store)
    ensures apps[n].requested ==
      (if CatalogSurface(apps[0].store) == [] then 0 else 1) + CatalogChanges(apps, steps, n)
  {
    hide Outcome, R.Inv, Sync, CatalogSurface;
    if n == 0 {
      SyncFollowsCatalog(App(apps[0].store, [], 0), seeds[|steps|]);
      assert apps[0] == Sync(App(apps[0].store, [], 0), seeds[|steps|]);
    } else {
      GenerationCountsChanges(apps, steps, seeds, n - 1);
      var outcome := Outcome(apps[n - 1].store, steps[n - 1]);
      assert apps[n - 1 + 1] == Serve(apps[n - 1], outcome, seeds[n - 1]);
      SyncKeepsStore(apps[n - 1].(store := outcome.1), seeds[n - 1]);
      SyncFollowsCatalog(apps[n - 1].(store := outcome.1), seeds[n - 1]);
    }
  }

  lemma SyncKeepsStore(a: App, seeds: Seeds)
    ensures Sync(a, seeds).store == a.store
  {
  }

  // ---------- A device that becomes another one ----------

  lemma {:induction false} SlotsAlwaysDistinct(apps: seq<App>, steps: seq<R.Step>, seeds: seq<Seeds>, k: nat)
    requires IsRun(apps, steps, seeds) && k < |apps|
    ensures forall i, j :: 0 <= i < j < |apps[k].slots| ==>
      apps[k].slots[i].exp.exportId != apps[k].slots[j].exp.exportId
  {
    hide Outcome, R.Inv, RebuildTable, Surfaces, Listing;
    CatalogInvAlways(apps, steps, seeds, k);
    ListingIsDistinct(apps[k].store);
    if k == 0 {
      TableIsCanonical(Listing(apps[0].store.mem.byId), [], seeds[|steps|]);
    } else {
      SlotsAlwaysDistinct(apps, steps, seeds, k - 1);
      assert apps[k - 1 + 1] == Serve(apps[k - 1], Outcome(apps[k - 1].store, steps[k - 1]), seeds[k - 1]);
      TableIsCanonical(Listing(apps[k].store.mem.byId), apps[k - 1].slots, seeds[k - 1]);
    }
  }

  lemma ListingIsDistinct(s: Store)
    requires R.Inv(s)
    ensures DistinctIds(Listing(s.mem.byId))
  {
    ListingDistinct(s.mem.byId);
  }

  // A patch that turns a bridged export into a device controllers can tell apart raises the
  // generation by one and leaves the new device type to be reported at the export's endpoint.
  lemma TypePatchIsAnnounced(apps: seq<App>, steps: seq<R.Step>, seeds: seq<Seeds>, k: nat, i: nat)
    requires IsRun(apps, steps, seeds) && k < |steps| && steps[k].Patching? && i < |apps[k].slots|
    requires apps[k].slots[i].exp.exportId == steps[k].id
    requires var r := Outcome(apps[k].store, steps[k]).0;
      && r.Success? && r.value.enabled && r.value.endpointId.Some? && r.value.endpointId.value <= 65534
      && !SameDeviceClass(apps[k].slots[i].exp.type_, r.value.type_)
    ensures apps[k + 1].requested == apps[k].requested + 1
    ensures var e, slots := Outcome(apps[k].store, steps[k]).0.value, apps[k + 1].slots;
      exists j :: 0 <= j < |slots| && slots[j].exp == e && slots[j].matterEndpoint == e.endpointId.value + 1
        && Notice(slots[j].matterEndpoint, DeviceTypeListAttr) in Notices(slots)
  {
    hide Outcome, R.Inv, RebuildTable, Surfaces, Listing, SameDeviceClass, NoticesOf, Notices, Mirrors;
    var outcome := Outcome(apps[k].store, steps[k]);
    var e := outcome.0.value;
    var exports := Listing(outcome.1.mem.byId);
    CatalogInvAlways(apps, steps, seeds, k);
    CatalogInvAlways(apps, steps, seeds, k + 1);
    ListingIsDistinct(outcome.1);
    PatchedIsHeld(apps[k].store, steps[k]);
    SyncMirrors(outcome.1.mem.byId, apps[k].slots, seeds[k]);
    SlotsAlwaysDistinct(apps, steps, seeds, k);
    var slots := RebuildTable(exports, apps[k].slots, seeds[k]);
    MirrorsAt(slots, outcome.1.mem.byId, e);
    var j :| 0 <= j < |slots| && slots[j].exp == e && slots[j].matterEndpoint == e.endpointId.value + 1;
    ClassChangeIsReported(exports, apps[k].slots, seeds[k], i, j);
    PendingIsListed(slots, j, DeviceTypeListAttr);
  }

  lemma MirrorsAt(slots: seq<Slot>, byId: Exports, e: Export)
    requires Mirrors(slots, byId) && e.exportId in byId && byId[e.exportId] == e && e.enabled
    requires e.endpointId.Some? && e.endpointId.value <= 65534
    ensures HasSlot(slots, e, e.endpointId.value + 1)
  {
  }

  lemma PatchedIsHeld(s: Store, step: R.Step)
    requires R.Inv(s) && step.Patching? && Outcome(s, step).0.Success?
    ensures var r := Outcome(s, step);
      r.0.value.exportId == step.id && step.id in r.1.mem.byId && r.1.mem.byId[step.id] == r.0.value
    ensures R.WellFormed(Outcome(s, step).1.mem.byId)
  {
    hide R.Separate, PatchOn, Listing;
    R.PatchedEntry(s.mem, step.id, step.patch);
    R.PatchKeepsWellFormed(s.mem, step.id, step.patch);
  }
}
