// The HTTP client's reconciliation against the catalog store, over a network that may lose any
// request or reply.
module Client {
  import opened Wrappers
  import opened Model
  import opened Ids
  import opened Catalog
  import opened Reconcile
  import R = CatalogRuns

  // What becomes of one request: served and answered, never received, or served but unanswered.
  datatype Net = Delivered(io: WriteOutcome) | LostRequest | LostReply(io: WriteOutcome)

  datatype ClientError = BridgeError | Unreachable

  class BridgeClient {
    const server: CatalogStore
    // The fate of the n-th request.
    const net: nat -> Net
    var sent: nat
    ghost var writes: seq<Write>

    constructor (server: CatalogStore, net: nat -> Net)
      ensures this.server == server && this.net == net && writes == [] && sent == 0
    {
      this.server, this.net, sent, writes := server, net, 0, [];
    }

    // From request n on everything is served, stored and answered.
    ghost predicate HealthyFrom(n: nat) {
      forall k :: k >= n ==> net(k) == Delivered(BothWritten)
    }

    method ListExports() returns (r: Result<seq<Export>, ClientError>)
      modifies this`sent
      ensures sent == old(sent) + 1
      ensures r.Success? ==> r.value == Listing(server.byId)
      ensures net(old(sent)) == Delivered(BothWritten) ==> r.Success?
    {
      var fate := net(sent);
      sent := sent + 1;
      r := if fate.Delivered? then Success(Listing(server.byId)) else Failure(Unreachable);
    }

    method DeleteRemote(id: Uuid) returns (r: Result<Export, ClientError>)
      modifies this, server
      ensures sent == old(sent) + 1 && writes == old(writes) + [DeleteWrite(id)]
      ensures server.byId == old(server.byId) || server.byId == old(server.byId) - {id}
      ensures r.Success? ==> server.byId == old(server.byId) - {id}
      ensures r.Success? ==> Saved(server.Value())
      ensures id in old(server.byId) && net(old(sent)) == Delivered(BothWritten) ==> r.Success?
    {
      var fate := net(sent);
      sent, writes := sent + 1, writes + [DeleteWrite(id)];
      if fate.LostRequest? {
        return Failure(Unreachable);
      }
      var served := server.Delete(id, fate.io);
      if fate.LostReply? {
        return Failure(Unreachable);
      }
      r := if served.Success? then Success(served.value) else Failure(BridgeError);
    }

    method CreateRemote(e: Export) returns (r: Result<Export, ClientError>)
      modifies this, server
      ensures sent == old(sent) + 1 && writes == old(writes) + [CreateWrite(CreateBody(e))]
      ensures server.Mem() == old(server.Mem()) || server.Mem() == CreateOn(old(server.Mem()), CreateBody(e), 0).1
      ensures r.Success? ==> CreateOn(old(server.Mem()), CreateBody(e), 0) == (Success(r.value), server.Mem())
      ensures r.Success? ==> Saved(server.Value())
      ensures CreateOn(old(server.Mem()), CreateBody(e), 0).0.Success? && net(old(sent)) == Delivered(BothWritten) ==>
        r.Success?
    {
      hide CreateOn;
      var fate := net(sent);
      sent, writes := sent + 1, writes + [CreateWrite(CreateBody(e))];
      if fate.LostRequest? {
        return Failure(Unreachable);
      }
      var served := server.Create(CreateBody(e), 0, fate.io);
      if fate.LostReply? {
        return Failure(Unreachable);
      }
      r := if served.Success? then Success(served.value) else Failure(BridgeError);
    }

    method PatchRemote(id: Uuid, patch: PatchExport) returns (r: Result<Export, ClientError>)
      modifies this, server
      ensures sent == old(sent) + 1 && writes == old(writes) + [PatchWrite(id, patch)]
      ensures server.Mem() == old(server.Mem()) || server.Mem() == PatchOn(old(server.Mem()), id, patch).1
      ensures r.Success? ==> PatchOn(old(server.Mem()), id, patch) == (Success(r.value), server.Mem())
      ensures r.Success? ==> Saved(server.Value())
      ensures PatchOn(old(server.Mem()), id, patch).0.Success? && net(old(sent)) == Delivered(BothWritten) ==>
        r.Success?
    {
      hide PatchOn;
      var fate := net(sent);
      sent, writes := sent + 1, writes + [PatchWrite(id, patch)];
      if fate.LostRequest? {
        return Failure(Unreachable);
      }
      var served := server.Patch(id, patch, fate.io);
      if fate.LostReply? {
        return Failure(Unreachable);
      }
      r := if served.Success? then Success(served.value) else Failure(BridgeError);
    }

    // Delete the exports only the bridge has.
    method DeleteExtras(ids: seq<Uuid>, local: Exports) returns (ok: bool)
      requires R.WellFormed(server.byId)
      requires KeysOf(ids, server.byId)
      modifies this, server
      ensures R.WellFormed(server.byId) && sent >= old(sent)
      ensures Trimmed(old(server.byId), server.byId, local)
      ensures ok ==> server.byId.Keys <= local.Keys && writes == old(writes) + DeletesFor(ids, local)
      ensures ok ==> Landed(old(server.Value()), old(writes), server.Value(), writes)
      ensures HealthyFrom(old(sent)) ==> ok
    {
      hide DeletesFor, R.WellFormed, Remaining, KeysOf, Trimmed, HealthyFrom, Saved;
      ghost var before := server.byId;
      NoDeletesYet(ids, local);
      RemainingAtStart(before, local);
      assert ids[..0] == [];
      var i := 0;
      while i < |ids|
        invariant 0 <= i <= |ids| && sent >= old(sent)
        invariant R.WellFormed(server.byId) && Remaining(before, server.byId, local, ids[..i])
        invariant writes == old(writes) + DeletesFor(ids[..i], local)
        invariant Landed(old(server.Value()), old(writes), server.Value(), writes)
      {
        var id := ids[i];
        DeletesStep(ids, local, i);
        RemainingStep(before, server.byId, local, ids, i);
        HealthyAt(old(sent), sent);
        if id !in local {
          R.DeleteKeepsWellFormed(server.Mem(), id);
          RemainingTrimmed(before, server.byId, local, ids[..i]);
          RemainingTrimmed(before, server.byId - {id}, local, ids[..i + 1]);
          var r := DeleteRemote(id);
          if r.Failure? {
            return false;
          }
        }
        i := i + 1;
      }
      assert ids[..i] == ids;
      RemainingTrimmed(before, server.byId, local, ids);
      RemainingAtEnd(before, server.byId, local, ids);
      ok := true;
    }

    lemma HealthyAt(n: nat, m: nat)
      requires n <= m
      ensures HealthyFrom(n) ==> net(m) == Delivered(BothWritten)
    {
    }

    // Create, patch or leave alone one local export.
    method Upsert(e: Export, before: Exports, local: Exports) returns (r: Result<Export, ClientError>)
      requires R.WellFormed(server.byId)
      requires e.exportId in local && local[e.exportId] == e
      requires e.exportId in before <==> e.exportId in server.byId
      requires e.exportId in before ==> before[e.exportId] == server.byId[e.exportId]
      modifies this, server
      ensures R.WellFormed(server.byId) && sent >= old(sent)
      ensures OneEntry(old(server.byId), server.byId, e.exportId)
      ensures e.exportId in before ==>
        e.exportId in server.byId && server.byId[e.exportId].endpointId == before[e.exportId].endpointId
      ensures r.Success? ==>
        && e.exportId in server.byId && r.value == server.byId[e.exportId] && SameFields(r.value, e)
        && writes == old(writes) + UpsertFor(e.exportId, before, local)
        && Landed(old(server.Value()), old(writes), server.Value(), writes)
      ensures HealthyFrom(old(sent)) && PassesValidation(e) && (e.exportId in before || |old(server.byId)| < U16_MAX)
        ==> r.Success?
    {
      hide R.Identified, R.Assigned, R.Separate, CreateOn, PatchOn, Diff, Saved;
      var id := e.exportId;
      if id !in before {
        CreateServed(server.Mem(), e);
        r := CreateRemote(e);
      } else {
        var patch := Diff(before[id], e);
        DiffConvergesFor(server.byId, e);
        if patch != EMPTY_PATCH {
          PatchServed(server.Mem(), e);
          r := PatchRemote(id, patch);
        } else {
          r := Success(before[id]);
        }
      }
    }

    // Bring every local export up to date, in dictionary order.
    method UpsertAll(ids: seq<Uuid>, before: Exports, local: Exports) returns (r: Result<seq<Export>, ClientError>)
      requires Progress(before, server.byId, local, [])
      requires KeysOf(ids, local)
      modifies this, server
      ensures sent >= old(sent)
      ensures Kept(before, server.byId, local)
      ensures r.Success? ==> Progress(before, server.byId, local, ids) && Lists(r.value, ids, server.byId)
      ensures r.Success? ==>
        (forall u :: u in ids ==> u in local) && writes == old(writes) + UpsertsFor(ids, before, local)
      ensures r.Success? ==> Landed(old(server.Value()), old(writes), server.Value(), writes)
      ensures HealthyFrom(old(sent)) && AllPass(local) && |local| <= U16_MAX ==> r.Success?
    {
      hide Progress, Kept, R.WellFormed, SameFields, UpsertsFor, UpsertFor, PassesValidation, Lists, OneEntry,
        HealthyFrom,
        KeysOf, AllPass, Landed;
      LandedNothing(server.Value(), writes);
      ListsNothing(server.byId);
      ProgressKept(before, server.byId, local, []);
      NoUpsertsYet(ids, before, local);
      var result: seq<Export> := [];
      ghost var done: seq<Uuid> := [];
      assert ids[..0] == [] == done;
      var i := 0;
      while i < |ids|
        invariant 0 <= i <= |ids| && sent >= old(sent) && done == ids[..i]
        invariant Kept(before, server.byId, local) && Progress(before, server.byId, local, done)
          && Lists(result, done, server.byId)
        invariant forall u :: u in done ==> u in local
        invariant writes == old(writes) + UpsertsFor(done, before, local)
        invariant Landed(old(server.Value()), old(writes), server.Value(), writes)
      {
        var eid := ids[i];
        KeyStep(ids, local, i);
        UpsertsStep(ids, before, local, i);
        ProgressReady(before, server.byId, local, done, eid);
        HealthyLater(old(sent), sent);
        ghost var was, value, log := server.byId, server.Value(), writes;
        var one := Upsert(local[eid], before, local);
        KeptStep(before, was, server.byId, local, eid);
        if one.Failure? {
          return Failure(one.error);
        }
        ProgressStep(before, was, server.byId, local, done, eid);
        ListsStep(result, done, was, eid, one.value, server.byId);
        LandedThen(old(server.Value()), old(writes), value, log, server.Value(), writes);
        result, done := result + [one.value], done + [eid];
        i := i + 1;
      }
      assert ids[..i] == ids;
      KeysCovered(ids, local);
      r := Success(result);
    }

    lemma HealthyLater(n: nat, m: nat)
      requires n <= m
      ensures HealthyFrom(n) ==> HealthyFrom(m)
    {
    }

    method SyncCatalog(exports: seq<Export>) returns (r: Result<seq<Export>, ClientError>)
      requires R.WellFormed(server.byId)
      modifies this, server
      ensures Safe(old(server.byId), server.byId, ById(exports))
      ensures r.Success? ==> InSync(server.byId, ById(exports)) && Lists(r.value, KeyOrder(exports), server.byId)
      ensures r.Success? ==> writes == old(writes) + Plan(old(server.byId), exports)
      ensures r.Success? ==> Landed(old(server.Value()), old(writes), server.Value(), writes)
      ensures HealthyFrom(old(sent)) && AllPass(ById(exports)) && |ById(exports)| <= U16_MAX ==> r.Success?
    {
      hide SameFields, UpsertsFor, DeletesFor, AllPass, Listing, ById, KeyOrder, Lists, Progress, Kept, R.WellFormed,
        Safe, InSync, Plan, KeysOf, Trimmed, Landed;
      ghost var before := server.byId;
      SafeAtStart(before, ById(exports));
      var remote := ListExports();
      if remote.Failure? {
        return Failure(remote.error);
      }
      var remoteById := ById(remote.value);
      var remoteIds := KeyOrder(remote.value);
      ListingDictOf(before);
      DictKeys(remote.value);
      var localById := ById(exports);
      var localIds := KeyOrder(exports);
      DictKeys(exports);
      PlanParts(before, exports);
      var ok := DeleteExtras(remoteIds, localById);
      if !ok {
        SafeAfterDeletes(before, server.byId, localById);
        return Failure(BridgeError);
      }
      SafeAfterDeletes(before, server.byId, localById);
      ghost var value, log := server.Value(), writes;
      r := UpsertAll(localIds, remoteById, localById);
      SafeAfterKept(before, server.byId, localById);
      if r.Success? {
        SyncedAtEnd(before, server.byId, localById, localIds);
        LandedThen(old(server.Value()), old(writes), value, log, server.Value(), writes);
      }
    }
  }
}
