// What Home Assistant's reconciler sends, and why it converges: dictionaries, the per-field
// difference, the plan of writes, and the facts each step of the loop keeps.
module Reconcile {
  import opened Wrappers
  import opened Model
  import opened Ids
  import opened Catalog
  import R = CatalogRuns

  datatype Write = DeleteWrite(id: Uuid) | CreateWrite(body: CreateExport) | PatchWrite(id: Uuid, patch: PatchExport)

  // ---------- Dictionaries keyed by export id ----------

  // A later item with the same id replaces the value and keeps the first position.
  function ById(items: seq<Export>): Exports {
    if items == [] then map[] else ById(items[..|items| - 1])[items[|items| - 1].exportId := items[|items| - 1]]
  }

  function KeyOrder(items: seq<Export>): seq<Uuid> {
    if items == [] then []
    else
      var keys := KeyOrder(items[..|items| - 1]);
      var id := items[|items| - 1].exportId;
      if id in keys then keys else keys + [id]
  }

  lemma {:induction false} DictFacts(items: seq<Export>)
    ensures forall u :: u in KeyOrder(items) <==> u in ById(items)
    ensures forall i, j :: 0 <= i < j < |KeyOrder(items)| ==> KeyOrder(items)[i] != KeyOrder(items)[j]
    ensures forall u :: u in ById(items) ==> ById(items)[u].exportId == u && ById(items)[u] in items
    ensures forall e :: e in items ==> e.exportId in ById(items)
  {
    if items != [] {
      DictFacts(items[..|items| - 1]);
    }
  }

  predicate IsLastOfItsId(items: seq<Export>, i: nat) {
    i < |items| && forall j :: i < j < |items| ==> items[j].exportId != items[i].exportId
  }

  // The last item with an id is the one looked up.
  lemma {:induction false} LastItemCounts(items: seq<Export>, i: nat)
    requires IsLastOfItsId(items, i)
    ensures items[i].exportId in ById(items) && ById(items)[items[i].exportId] == items[i]
  {
    if i < |items| - 1 {
      LastItemCounts(items[..|items| - 1], i);
    }
  }

  // Some item has id a, and none up to it has id b.
  ghost predicate Precedes(items: seq<Export>, a: Uuid, b: Uuid) {
    exists i :: 0 <= i < |items| && items[i].exportId == a && forall j :: 0 <= j <= i ==> items[j].exportId != b
  }

  lemma PrecedesLonger(init: seq<Export>, items: seq<Export>, a: Uuid, b: Uuid)
    requires init <= items && Precedes(init, a, b)
    ensures Precedes(items, a, b)
  {
    var i :| 0 <= i < |init| && init[i].exportId == a && forall j :: 0 <= j <= i ==> init[j].exportId != b;
    assert items[i].exportId == a && forall j :: 0 <= j <= i ==> items[j] == init[j];
  }

  lemma NewPrecedes(init: seq<Export>, a: Uuid, b: Uuid)
    requires a in KeyOrder(init) && b !in KeyOrder(init)
    ensures Precedes(init, a, b)
  {
    DictFacts(init);
    var i := PlaceOf(init, a);
    assert forall j :: 0 <= j < |init| ==> init[j] in init;
  }

  // Ids come in the order of their first occurrence.
  lemma {:induction false} KeyOrderIsFirstPlace(items: seq<Export>, a: nat, b: nat)
    requires a < b < |KeyOrder(items)|
    ensures Precedes(items, KeyOrder(items)[a], KeyOrder(items)[b])
  {
    hide Precedes;
    var init := items[..|items| - 1];
    if b < |KeyOrder(init)| {
      KeyOrderIsFirstPlace(init, a, b);
    } else {
      NewPrecedes(init, KeyOrder(items)[a], KeyOrder(items)[b]);
    }
    PrecedesLonger(init, items, KeyOrder(items)[a], KeyOrder(items)[b]);
  }

  lemma PlaceOf(items: seq<Export>, id: Uuid) returns (i: nat)
    requires id in KeyOrder(items)
    ensures i < |items| && items[i].exportId == id
  {
    DictFacts(items);
    assert ById(items)[id] in items;
    i :| i < |items| && items[i] == ById(items)[id];
  }

  // The keys of a dictionary, each once, and items stored under their own id.
  ghost predicate KeysOf(ids: seq<Uuid>, dict: Exports) {
    && (forall u :: u in ids <==> u in dict)
    && (forall i, j :: 0 <= i < j < |ids| ==> ids[i] != ids[j])
    && (forall u :: u in dict ==> dict[u].exportId == u)
  }

  lemma DictKeys(items: seq<Export>)
    ensures KeysOf(KeyOrder(items), ById(items))
  {
    DictFacts(items);
  }

  lemma {:induction false} DistinctDict(items: seq<Export>)
    requires DistinctIds(items)
    ensures forall e :: e in items ==> e.exportId in ById(items) && ById(items)[e.exportId] == e
  {
    if items != [] {
      var init, last := items[..|items| - 1], items[|items| - 1];
      DistinctDict(init);
      forall e | e in init
        ensures e.exportId != last.exportId
      {
        var i :| 0 <= i < |init| && init[i] == e;
        assert items[i] == e;
      }
    }
  }

  // The dictionary built from a listing is the catalog itself.
  lemma ListingDict(byId: Exports)
    requires R.Identified(byId)
    ensures ById(Listing(byId)) == byId
  {
    hide Listing, ById;
    ListingDistinct(byId);
    ListingMembers(byId);
    DistinctDict(Listing(byId));
    DictFacts(Listing(byId));
    var d := ById(Listing(byId));
    forall u | u in byId
      ensures u in d && d[u] == byId[u]
    {
      assert byId[u] in Listing(byId);
    }
    forall u | u in d
      ensures u in byId
    {
      assert d[u] in Listing(byId);
    }
  }

  // ---------- Comparing and patching ----------

  // The compared fields: everything but the endpoint id.
  predicate SameFields(a: Export, b: Export) {
    a == b.(endpointId := a.endpointId)
  }

  const EMPTY_PATCH := PatchExport(None, None, None, None, None, None)

  function Diff(remote: Export, local: Export): PatchExport {
    PatchExport(
      if remote.name != local.name then Some(local.name) else None,
      if remote.type_ != local.type_ then Some(local.type_) else None,
      if remote.primaryEntityId != local.primaryEntityId then Some(local.primaryEntityId) else None,
      if remote.linked != local.linked then Some(local.linked) else None,
      if remote.areaId != local.areaId then Some(local.areaId) else None,
      if remote.enabled != local.enabled then Some(local.enabled) else None)
  }

  function CreateBody(e: Export): CreateExport {
    CreateExport(Some(e.exportId), e.name, e.type_, e.primaryEntityId, e.linked, e.areaId, e.enabled)
  }

  predicate PassesValidation(e: Export) {
    NameOk(e.name) && e.primaryEntityId != ""
  }

  // The patch that a difference sends makes the bridge's export equal field by field.
  lemma DiffConverges(remote: Export, local: Export, newEndpoint: Option<U16>)
    requires remote.exportId == local.exportId && remote.endpointId.Some?
    ensures Diff(remote, local) == EMPTY_PATCH <==> SameFields(remote, local)
    ensures PassesValidation(local) ==> PatchFields(remote, Diff(remote, local), newEndpoint).0.None?
    ensures PatchFields(remote, Diff(remote, local), newEndpoint).0.None? ==>
      SameFields(PatchFields(remote, Diff(remote, local), newEndpoint).1, local)
  {
  }

  ghost predicate InSync(remote: Exports, local: Exports) {
    remote.Keys == local.Keys && forall u :: u in local ==> SameFields(remote[u], local[u])
  }

  // ---------- The plan: which writes one reconciliation sends ----------

  function DeletesFor(ids: seq<Uuid>, local: Exports): seq<Write> {
    if ids == [] then []
    else
      var id := ids[|ids| - 1];
      DeletesFor(ids[..|ids| - 1], local) + if id in local then [] else [DeleteWrite(id)]
  }

  function UpsertFor(id: Uuid, remote: Exports, local: Exports): seq<Write>
    requires id in local
  {
    if id !in remote then [CreateWrite(CreateBody(local[id]))]
    else if Diff(remote[id], local[id]) != EMPTY_PATCH then [PatchWrite(id, Diff(remote[id], local[id]))]
    else []
  }

  function UpsertsFor(ids: seq<Uuid>, remote: Exports, local: Exports): seq<Write>
    requires forall u :: u in ids ==> u in local
  {
    if ids == [] then []
    else
      var id := ids[|ids| - 1];
      assert id in ids;
      UpsertsFor(ids[..|ids| - 1], remote, local) + UpsertFor(id, remote, local)
  }

  lemma {:induction false} NoDeletesIff(ids: seq<Uuid>, local: Exports)
    ensures DeletesFor(ids, local) == [] <==> forall u :: u in ids ==> u in local
  {
    if ids != [] {
      var init, id := ids[..|ids| - 1], ids[|ids| - 1];
      NoDeletesIff(init, local);
      assert forall u :: u in ids <==> u in init || u == id by {
        assert ids == init + [id];
      }
      assert |DeletesFor(ids, local)| == |DeletesFor(init, local)| + if id in local then 0 else 1;
    }
  }

  lemma {:induction false} NoUpsertsIff(ids: seq<Uuid>, remote: Exports, local: Exports)
    requires forall u :: u in ids ==> u in local && local[u].exportId == u
    requires R.WellFormed(remote)
    ensures UpsertsFor(ids, remote, local) == [] <==>
      forall u :: u in ids ==> u in remote && SameFields(remote[u], local[u])
  {
    if ids != [] {
      var id := ids[|ids| - 1];
      assert id in ids;
      NoUpsertsIff(ids[..|ids| - 1], remote, local);
      assert ids == ids[..|ids| - 1] + [id];
      if id in remote {
        DiffConverges(remote[id], local[id], None);
      }
    }
  }

  // A reconciliation sends no write exactly when the two catalogs already agree.
  lemma PlanEmptyIff(remoteIds: seq<Uuid>, remote: Exports, exports: seq<Export>)
    requires R.WellFormed(remote) && forall u :: u in remoteIds <==> u in remote
    ensures forall u :: u in KeyOrder(exports) ==> u in ById(exports)
    ensures DeletesFor(remoteIds, ById(exports)) + UpsertsFor(KeyOrder(exports), remote, ById(exports)) == []
      <==> InSync(remote, ById(exports))
  {
    hide R.WellFormed, ById, KeyOrder, UpsertsFor, DeletesFor, SameFields;
    DictFacts(exports);
    NoDeletesIff(remoteIds, ById(exports));
    NoUpsertsIff(KeyOrder(exports), remote, ById(exports));
  }

  lemma {:induction false} UsedSize(byId: Exports)
    ensures |Used(byId)| <= |byId|
    decreases |byId|
  {
    if byId != map[] {
      var u :| u in byId;
      var rest := byId - {u};
      UsedSize(rest);
      var here: set<U16> := if byId[u].endpointId.Some? then {byId[u].endpointId.value} else {};
      forall ep | ep in Used(byId)
        ensures ep in Used(rest) + here
      {
        var v :| v in byId && byId[v].endpointId.Some? && byId[v].endpointId.value == ep;
        assert v == u || v in rest;
      }
      SubsetSize(Used(byId), Used(rest) + here);
    }
  }

  // What the server does with a create body for a new id.
  lemma CreateServed(c: Catalog, e: Export)
    requires R.WellFormed(c.byId) && e.exportId !in c.byId
    ensures var (r, c') := CreateOn(c, CreateBody(e), 0);
      && R.WellFormed(c'.byId)
      && (r.Success? ==> SameFields(r.value, e) && c'.byId == c.byId[e.exportId := r.value])
      && (r.Failure? ==> c' == c)
      && (PassesValidation(e) && |c.byId| < U16_MAX ==> r.Success?)
  {
    hide R.WellFormed, Used;
    R.CreateKeepsWellFormed(c, CreateBody(e), 0);
    UsedSize(c.byId);
  }

  // What the server does with a difference for an id it has: the other exports are untouched
  // and the endpoint stays, even when the patch is rejected half-way.
  lemma PatchServed(c: Catalog, local: Export)
    requires R.WellFormed(c.byId) && local.exportId in c.byId
    ensures var id := local.exportId;
      var (r, c') := PatchOn(c, id, Diff(c.byId[id], local));
      && R.WellFormed(c'.byId)
      && id in c'.byId && c'.byId == c.byId[id := c'.byId[id]] && c'.byId[id].endpointId == c.byId[id].endpointId
      && (r.Success? ==> r.value == c'.byId[id] && SameFields(r.value, local))
      && (PassesValidation(local) ==> r.Success?)
  {
    var id := local.exportId;
    R.PatchKeepsWellFormed(c, id, Diff(c.byId[id], local));
    DiffConverges(c.byId[id], local, None);
  }

  // ---------- What a reconciliation keeps, step by step ----------

  // What any attempt keeps, finished or not: the catalog stays well formed, surviving exports
  // keep their endpoints, and nothing foreign appears.
  ghost predicate Safe(before: Exports, after: Exports, local: Exports) {
    && R.WellFormed(after)
    && (forall u :: u in after ==> u in before || u in local)
    && (forall u :: u in before && u in local ==> u in after)
    && (forall u :: u in before && u in after ==> after[u].endpointId == before[u].endpointId)
  }

  // Between two moments: no write was sent and the server is as it was, or writes were sent and
  // both files hold what memory holds.
  ghost predicate Landed(v: Store, w: seq<Write>, v': Store, w': seq<Write>) {
    && |w| <= |w'|
    && (|w| == |w'| ==> v' == v)
    && (|w| < |w'| ==> Saved(v'))
  }

  lemma LandedNothing(v: Store, w: seq<Write>)
    ensures Landed(v, w, v, w)
  {
  }

  lemma LandedThen(v: Store, w: seq<Write>, v': Store, w': seq<Write>, v'': Store, w'': seq<Write>)
    requires Landed(v, w, v', w') && Landed(v', w', v'', w'')
    ensures Landed(v, w, v'', w'')
  {
    hide Saved;
  }

  lemma KeyStep(ids: seq<Uuid>, local: Exports, i: nat)
    requires i < |ids| && KeysOf(ids, local)
    ensures ids[i] in local && local[ids[i]].exportId ==
      ids[i] && ids[i] !in ids[..i] && ids[..i + 1] == ids[..i] + [ids[i]]
    ensures AllPass(local) ==> PassesValidation(local[ids[i]])
  {
    assert ids[i] in ids;
  }

  lemma KeysCovered(ids: seq<Uuid>, local: Exports)
    requires KeysOf(ids, local)
    ensures forall u :: u in ids ==> u in local
  {
  }

  // Some exports the local catalog does not have are gone; nothing else changed.
  ghost predicate Trimmed(before: Exports, byId: Exports, local: Exports) {
    && (forall u :: u in byId ==> u in before && byId[u] == before[u])
    && (forall u :: u in before && u in local ==> u in byId)
  }

  // Of the ids in `done`, only local ones are left.
  ghost predicate Remaining(before: Exports, byId: Exports, local: Exports, done: seq<Uuid>) {
    && (forall u :: u in byId <==> u in before && (u in local || u !in done))
    && (forall u :: u in byId ==> byId[u] == before[u])
  }

  lemma RemainingAtStart(before: Exports, local: Exports)
    ensures Remaining(before, before, local, [])
  {
  }

  lemma RemainingStep(before: Exports, byId: Exports, local: Exports, ids: seq<Uuid>, i: nat)
    requires i < |ids| && KeysOf(ids, before) && Remaining(before, byId, local, ids[..i])
    ensures ids[i] in before && (ids[i] !in local ==> ids[i] in byId)
    ensures Remaining(before, if ids[i] in local then byId else byId - {ids[i]}, local, ids[..i + 1])
  {
    assert ids[i] in ids && ids[i] !in ids[..i];
    assert ids[..i + 1] == ids[..i] + [ids[i]];
  }

  lemma RemainingTrimmed(before: Exports, byId: Exports, local: Exports, done: seq<Uuid>)
    requires Remaining(before, byId, local, done)
    ensures Trimmed(before, byId, local)
  {
  }

  lemma RemainingAtEnd(before: Exports, byId: Exports, local: Exports, ids: seq<Uuid>)
    requires Remaining(before, byId, local, ids) && KeysOf(ids, before)
    ensures byId.Keys <= local.Keys
  {
  }

  // After the deletes only local ids are left, and those the bridge had keep their endpoints.
  ghost predicate Kept(before: Exports, byId: Exports, local: Exports) {
    && R.WellFormed(byId)
    && (forall u :: u in byId ==> u in local)
    && (forall u :: u in local && u in before ==> u in byId && byId[u].endpointId == before[u].endpointId)
  }

  // Every id in `done` agrees with the local catalog; the rest of the bridge is untouched.
  ghost predicate Progress(before: Exports, byId: Exports, local: Exports, done: seq<Uuid>) {
    && Kept(before, byId, local)
    && (forall u :: u in byId && u !in done ==> u in before && byId[u] == before[u])
    && (forall u :: u in done && u in local ==> u in byId && SameFields(byId[u], local[u]))
  }

  ghost predicate Lists(items: seq<Export>, ids: seq<Uuid>, byId: Exports) {
    |items| == |ids| && forall i :: 0 <= i < |ids| ==> ids[i] in byId && items[i] == byId[ids[i]]
  }

  // One upsert touched at most the entry of eid.
  ghost predicate OneEntry(was: Exports, byId: Exports, eid: Uuid) {
    byId == was || (eid in byId && byId == was[eid := byId[eid]])
  }

  lemma ProgressReady(before: Exports, byId: Exports, local: Exports, done: seq<Uuid>, eid: Uuid)
    requires Progress(before, byId, local, done) && eid in local && eid !in done
    ensures R.WellFormed(byId) && (eid in before <==> eid in byId)
    ensures eid in before ==> before[eid] == byId[eid]
    ensures eid !in before ==> |byId| < |local|
  {
    hide R.WellFormed, SameFields;
    if eid !in before {
      SmallerKeys(byId, local, eid);
    }
  }

  lemma ProgressKept(before: Exports, byId: Exports, local: Exports, done: seq<Uuid>)
    requires Progress(before, byId, local, done)
    ensures Kept(before, byId, local)
  {
  }

  lemma KeptStep(before: Exports, was: Exports, byId: Exports, local: Exports, eid: Uuid)
    requires Kept(before, was, local) && R.WellFormed(byId) && OneEntry(was, byId, eid) && eid in local
    requires eid in before ==> eid in byId && byId[eid].endpointId == before[eid].endpointId
    ensures Kept(before, byId, local)
  {
    hide R.WellFormed;
  }

  lemma ProgressStep(before: Exports, was: Exports, byId: Exports, local: Exports, done: seq<Uuid>, eid: Uuid)
    requires Progress(before, was, local, done) && R.WellFormed(byId) && OneEntry(was, byId, eid) && eid in local
    requires eid in byId && SameFields(byId[eid], local[eid])
    requires eid in before ==> byId[eid].endpointId == before[eid].endpointId
    ensures Progress(before, byId, local, done + [eid])
  {
    hide R.WellFormed, SameFields;
    KeptStep(before, was, byId, local, eid);
  }

  lemma ListsNothing(byId: Exports)
    ensures Lists([], [], byId)
  {
  }

  lemma ListsStep(items: seq<Export>, ids: seq<Uuid>, was: Exports, eid: Uuid, e: Export, byId: Exports)
    requires Lists(items, ids, was) && eid !in ids && OneEntry(was, byId, eid) && eid in byId && e == byId[eid]
    ensures Lists(items + [e], ids + [eid], byId)
  {
  }

  lemma SafeAtStart(before: Exports, local: Exports)
    requires R.WellFormed(before)
    ensures Safe(before, before, local)
  {
  }

  lemma SafeAfterDeletes(before: Exports, byId: Exports, local: Exports)
    requires R.WellFormed(byId) && Trimmed(before, byId, local)
    ensures Safe(before, byId, local)
    ensures byId.Keys <= local.Keys ==> Progress(before, byId, local, [])
  {
  }

  lemma SafeAfterKept(before: Exports, byId: Exports, local: Exports)
    requires Kept(before, byId, local)
    ensures Safe(before, byId, local)
  {
  }

  lemma SyncedAtEnd(before: Exports, byId: Exports, local: Exports, ids: seq<Uuid>)
    requires Progress(before, byId, local, ids) && KeysOf(ids, local)
    ensures InSync(byId, local)
  {
    hide R.WellFormed, SameFields;
  }

  ghost predicate AllPass(local: Exports) {
    forall u :: u in local ==> PassesValidation(local[u])
  }

  function Plan(remote: Exports, exports: seq<Export>): seq<Write> {
    DictFacts(exports);
    DeletesFor(KeyOrder(Listing(remote)), ById(exports)) + UpsertsFor(KeyOrder(exports), remote, ById(exports))
  }

  lemma PlanParts(remote: Exports, exports: seq<Export>)
    ensures forall u :: u in KeyOrder(exports) ==> u in ById(exports)
    ensures Plan(remote, exports) ==
      DeletesFor(KeyOrder(Listing(remote)), ById(exports)) + UpsertsFor(KeyOrder(exports), remote, ById(exports))
  {
    DictFacts(exports);
  }

  lemma ListingDictOf(byId: Exports)
    requires R.WellFormed(byId)
    ensures ById(Listing(byId)) == byId
  {
    ListingDict(byId);
  }

  lemma NoDeletesYet(ids: seq<Uuid>, local: Exports)
    ensures DeletesFor(ids[..0], local) == []
  {
  }

  lemma DeletesStep(ids: seq<Uuid>, local: Exports, i: nat)
    requires i < |ids|
    ensures DeletesFor(ids[..i + 1], local) == DeletesFor(ids[..i], local)
      + if ids[i] in local then [] else [DeleteWrite(ids[i])]
  {
    assert ids[..i + 1][..i] == ids[..i];
  }

  lemma NoUpsertsYet(ids: seq<Uuid>, remote: Exports, local: Exports)
    ensures UpsertsFor(ids[..0], remote, local) == []
  {
  }

  lemma UpsertsStep(ids: seq<Uuid>, remote: Exports, local: Exports, i: nat)
    requires i < |ids| && KeysOf(ids, local)
    ensures ids[i] in local && (forall u :: u in ids[..i + 1] ==>
      u in local) && forall u :: u in ids[..i] ==> u in local
    ensures UpsertsFor(ids[..i + 1], remote, local) ==
      UpsertsFor(ids[..i], remote, local) + UpsertFor(ids[i], remote, local)
  {
    assert ids[i] in ids;
    assert forall u :: u in ids[..i + 1] ==> u in ids;
    assert ids[..i + 1][..i] == ids[..i];
  }

  lemma DiffConvergesFor(remote: Exports, e: Export)
    requires R.WellFormed(remote) && e.exportId in remote
    ensures Diff(remote[e.exportId], e) == EMPTY_PATCH <==> SameFields(remote[e.exportId], e)
  {
    DiffConverges(remote[e.exportId], e, None);
  }

  lemma SmallerKeys(a: Exports, b: Exports, id: Uuid)
    requires id in b && id !in a && forall u :: u in a ==> u in b
    ensures |a| < |b|
  {
    SubsetSize(a.Keys, b.Keys - {id});
    assert |a| == |a.Keys| && |b| == |b.Keys|;
  }

  // The whole reconciliation sends no write exactly when the catalogs already agree.
  lemma PlanEmpty(remote: Exports, exports: seq<Export>)
    requires R.WellFormed(remote)
    ensures Plan(remote, exports) == [] <==> InSync(remote, ById(exports))
  {
    hide R.WellFormed, ById, KeyOrder, UpsertsFor, DeletesFor, Listing, InSync;
    ListingDictOf(remote);
    DictFacts(Listing(remote));
    PlanEmptyIff(KeyOrder(Listing(remote)), remote, exports);
  }
}
