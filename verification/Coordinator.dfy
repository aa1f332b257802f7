// The local export store, the coordinator's push, and when a push outlives a restart.
module Coordinator {
  import opened Wrappers
  import opened Model
  import opened Ids
  import opened Catalog
  import opened Reconcile
  import opened Client
  import R = CatalogRuns

  function WithEndpoints(exports: seq<Export>, bridge: Exports): seq<Export> {
    seq(|exports|, i requires 0 <= i < |exports| =>
      var e := exports[i];
      if e.exportId in bridge && bridge[e.exportId].endpointId.Some?
      then e.(endpointId := bridge[e.exportId].endpointId)
      else e)
  }

  class ExportStore {
    var exports: seq<Export>

    constructor (exports: seq<Export>)
      ensures this.exports == exports
    {
      this.exports := exports;
    }

    // Copies assigned endpoint ids in; reports a change exactly when one differed.
    method ApplyEndpointIds(bridgeExports: seq<Export>) returns (changed: bool)
      modifies this
      ensures exports == WithEndpoints(old(exports), ById(bridgeExports))
      ensures changed == (exports != old(exports))
      ensures |exports| == |old(exports)| && forall i :: 0 <= i < |exports| ==>
        var e, was, bridge := exports[i], old(exports)[i], ById(bridgeExports);
        && e == was.(endpointId := e.endpointId)
        && (if was.exportId in bridge && bridge[was.exportId].endpointId != None
            then e.endpointId == bridge[was.exportId].endpointId else e == was)
    {
      var byId := ById(bridgeExports);
      changed := false;
      ghost var before, after := exports, WithEndpoints(exports, byId);
      var i := 0;
      while i < |exports|
        invariant 0 <= i <= |exports| == |before|
        invariant forall j :: 0 <= j < i ==> exports[j] == after[j]
        invariant forall j :: i <= j < |before| ==> exports[j] == before[j]
        invariant changed == exists j :: 0 <= j < i && after[j] != before[j]
      {
        var e := exports[i];
        if e.exportId in byId {
          var ep := byId[e.exportId].endpointId;
          if ep.Some? && e.endpointId != ep {
            exports := exports[i := e.(endpointId := ep)];
            changed := true;
          }
        }
        i := i + 1;
      }
    }
  }

  lemma EndpointsKeepKeys(exports: seq<Export>, bridge: Exports)
    ensures KeyOrder(WithEndpoints(exports, bridge)) == KeyOrder(exports)
    ensures ById(WithEndpoints(exports, bridge)).Keys == ById(exports).Keys
    ensures forall u :: u in ById(exports) ==> SameFields(ById(WithEndpoints(exports, bridge))[u], ById(exports)[u])
    decreases |exports|
  {
    if exports != [] {
      var init := exports[..|exports| - 1];
      EndpointsKeepKeys(init, bridge);
      assert WithEndpoints(exports, bridge)[..|exports| - 1] == WithEndpoints(init, bridge);
    }
  }

  // The list a reconciliation returns, read as a dictionary, is the bridge's catalog.
  lemma ListsDict(items: seq<Export>, ids: seq<Uuid>, byId: Exports)
    requires Lists(items, ids, byId) && R.Identified(byId)
    ensures forall u :: u in ids ==> u in byId && u in ById(items) && ById(items)[u] == byId[u]
    ensures forall u :: u in ById(items) ==> u in ids
    decreases |ids|
  {
    if ids != [] {
      var n := |ids| - 1;
      ListsDict(items[..n], ids[..n], byId);
      assert ids == ids[..n] + [ids[n]];
    }
  }

  // Local and bridge agree on every field, endpoint ids included.
  ghost predicate Settled(exports: seq<Export>, byId: Exports) {
    && InSync(byId, ById(exports))
    && forall e :: e in exports ==> e.exportId in byId && e.endpointId == byId[e.exportId].endpointId
  }

  lemma ApplySettles(exports: seq<Export>, items: seq<Export>, byId: Exports)
    requires R.WellFormed(byId) && InSync(byId, ById(exports)) && Lists(items, KeyOrder(exports), byId)
    ensures Settled(WithEndpoints(exports, ById(items)), byId)
    ensures Settled(exports, byId) ==> WithEndpoints(exports, ById(items)) == exports
  {
    hide Lists, KeyOrder, ById;
    var bridge := ById(items);
    DictFacts(exports);
    ListsDict(items, KeyOrder(exports), byId);
    EndpointsKeepKeys(exports, bridge);
    forall e | e in exports
      ensures e.exportId in byId && e.exportId in bridge && bridge[e.exportId] == byId[e.exportId]
    {
    }
    var after := WithEndpoints(exports, bridge);
    forall x | x in after
      ensures x.exportId in byId && x.endpointId == byId[x.exportId].endpointId
    {
      var i :| 0 <= i < |after| && after[i] == x;
      assert exports[i] in exports;
    }
    SameFieldsTransitive(byId, ById(exports), ById(after));
    if Settled(exports, byId) {
      forall i | 0 <= i < |exports|
        ensures after[i] == exports[i]
      {
        assert exports[i] in exports;
      }
    }
  }

  lemma SameFieldsTransitive(a: Exports, b: Exports, c: Exports)
    requires InSync(a, b) && b.Keys == c.Keys && forall u :: u in b ==> SameFields(c[u], b[u])
    ensures InSync(a, c)
  {
  }

  // The exports of a catalog that may differ from another's in their endpoint ids only.
  ghost predicate SameLocal(a: Exports, b: Exports) {
    a.Keys == b.Keys && forall u :: u in a ==> SameFields(a[u], b[u])
  }

  class Coordinator {
    const client: BridgeClient
    const store: ExportStore

    constructor (client: BridgeClient, store: ExportStore)
      ensures this.client == client && this.store == store
    {
      this.client, this.store := client, store;
    }

    // One push of the local catalog. Success always ends settled; a push from a settled state
    // sends no write and reports no change. A failed push leaves a state the next one may start
    // from, with surviving exports still at their endpoints.
    // A settled push outlives a restart of the bridge exactly when it had something to send or
    // the bridge's file already listed what the bridge had in memory.
    method PushCatalog() returns (ok: bool, changed: bool)
      requires R.WellFormed(client.server.byId)
      modifies client, client.server, store
      ensures Safe(old(client.server.byId), client.server.byId, ById(old(store.exports)))
      ensures SameLocal(ById(store.exports), ById(old(store.exports)))
      ensures ok ==> Settled(store.exports, client.server.byId)
      ensures ok ==> client.writes == old(client.writes) + Plan(old(client.server.byId), old(store.exports))
      ensures ok && Settled(old(store.exports), old(client.server.byId)) ==>
        client.writes == old(client.writes) && !changed && store.exports == old(store.exports)
      ensures !ok ==> store.exports == old(store.exports) && !changed
      ensures old(client.HealthyFrom(client.sent)) && Acceptable(ById(old(store.exports))) ==> ok
      ensures ok && old(R.Written(client.server.disk)) ==>
        (R.Survives(client.server.Value()) <==>
          !InSync(old(client.server.byId), ById(old(store.exports))) || R.OnDisk(old(client.server.Value())))
    {
      hide Lists, InSync, Safe, Plan, R.WellFormed, AllPass, ById, KeyOrder, Landed, R.Survives, R.OnDisk, R.Written,
        SameLocal;
      ghost var before, value := client.server.byId, client.server.Value();
      SameLocalAsItself(ById(store.exports));
      var synced := client.SyncCatalog(store.exports);
      if synced.Failure? {
        return false, false;
      }
      PlanEmpty(before, store.exports);
      SafeWellFormed(before, client.server.byId, ById(store.exports));
      if R.Written(value.disk) {
        PushSurvivesIff(value, old(client.writes), client.server.Value(), client.writes);
      }
      ApplySettles(store.exports, synced.value, client.server.byId);
      if Settled(store.exports, before) {
        SettledBefore(before, client.server.byId, store.exports);
      }
      EndpointsKeepLocal(store.exports, ById(synced.value));
      changed := store.ApplyEndpointIds(synced.value);
      ok := true;
    }

    // Two pushes in a row, the first of which may have failed at any request. If the second
    // succeeds everything is settled, and if both do the second sent nothing. The second does
    // succeed when the network is healthy from its first request and the exports are acceptable.
    method PushTwice() returns (first: bool, second: bool, ghost began: nat)
      requires R.WellFormed(client.server.byId)
      modifies client, client.server, store
      ensures second ==> Settled(store.exports, client.server.byId)
      ensures first && second ==>
        client.writes == old(client.writes) + Plan(old(client.server.byId), old(store.exports))
      ensures !first && !second ==> store.exports == old(store.exports)
      ensures client.HealthyFrom(began) && Acceptable(ById(old(store.exports))) ==> second
    {
      hide Settled, Safe, Plan, R.WellFormed, ById, SameLocal, Acceptable, R.Survives, R.OnDisk, R.Written, InSync;
      ghost var before, exports := client.server.byId, store.exports;
      var changed;
      first, changed := PushCatalog();
      SafeWellFormed(before, client.server.byId, ById(exports));
      AcceptableKept(ById(store.exports), ById(exports));
      began := client.sent;
      second, changed := PushCatalog();
    }
  }

  // The bridge accepts every export and has room for all of them.
  ghost predicate Acceptable(local: Exports) {
    AllPass(local) && |local| <= U16_MAX
  }

  lemma SameLocalAsItself(local: Exports)
    ensures SameLocal(local, local)
  {
  }

  lemma EndpointsKeepLocal(exports: seq<Export>, bridge: Exports)
    ensures SameLocal(ById(WithEndpoints(exports, bridge)), ById(exports))
  {
    hide ById;
    EndpointsKeepKeys(exports, bridge);
  }

  lemma AcceptableKept(a: Exports, b: Exports)
    requires SameLocal(a, b)
    ensures Acceptable(b) ==> Acceptable(a)
  {
    assert |a| == |a.Keys| && |b| == |b.Keys|;
  }

  // Writes that landed are on disk; without any, the files are those from before.
  lemma PushSurvivesIff(v: Store, w: seq<Write>, v': Store, w': seq<Write>)
    requires R.WellFormed(v'.mem.byId) && R.Written(v.disk) && Landed(v, w, v', w')
    ensures R.Written(v'.disk)
    ensures R.Survives(v') <==> |w| < |w'| || R.OnDisk(v)
  {
    hide R.WellFormed, R.Survives, Listing;
    if |w| < |w'| {
      assert FileOnDisk(v'.disk) == Listing(v'.mem.byId);
    }
    R.SurvivesIff(v');
  }

  // How a settled push can be lost: a create that could not be saved leaves the bridge's memory
  // agreeing with the local catalog, so a rerun sends nothing, and a restart forgets the export.
  lemma UnsavedCreateIsLost(s: Store, body: CreateExport, newId: Uuid, io: WriteOutcome, exports: seq<Export>)
    requires R.WellFormed(s.mem.byId) && R.OnDisk(s)
    requires CreateOn(s.mem, body, newId).0.Success? && !io.BothWritten?
    requires var s' := StoreCreate(s, body, newId, io).1;
      InSync(s'.mem.byId, ById(exports))
    ensures var s' := StoreCreate(s, body, newId, io).1;
      var id := CreateOn(s.mem, body, newId).0.value.exportId;
      && StoreCreate(s, body, newId, io).0 == Failure(Io)
      && id in s'.mem.byId && Plan(s'.mem.byId, exports) == []
      && Load(s'.disk).Success? && id !in Load(s'.disk).value.byId
  {
    hide Alloc, Plan, ById, Load, Listing, R.WellFormed, InSync;
    R.CreateKeepsWellFormed(s.mem, body, newId);
    PlanEmpty(StoreCreate(s, body, newId, io).1.mem.byId, exports);
    R.LoadOfListing(StoreCreate(s, body, newId, io).1.disk, s.mem.byId);
  }

  lemma SafeWellFormed(before: Exports, after: Exports, local: Exports)
    requires Safe(before, after, local)
    ensures R.WellFormed(after)
  {
  }

  // A catalog that agreed on every field before a push agrees after it.
  lemma SettledBefore(before: Exports, after: Exports, exports: seq<Export>)
    requires Settled(exports, before) && Safe(before, after, ById(exports)) && InSync(after, ById(exports))
    ensures Settled(exports, after)
  {
    hide ById;
    DictFacts(exports);
  }
}
