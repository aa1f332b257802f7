// What the catalog guarantees over every run of requests, I/O failures, crashes and restarts.
// A crash between the two renames of `persist` is a request ending `ConfigOnly`, then a restart.
module CatalogRuns {
  import opened Wrappers
  import opened Model
  import opened Ids
  import opened Catalog

  datatype Step =
    | Creating(body: CreateExport, newId: Uuid, io: WriteOutcome)
    | Patching(id: Uuid, patch: PatchExport, io: WriteOutcome)
    | Deleting(id: Uuid, io: WriteOutcome)
    | Restarting

  ghost predicate Next(s: Store, step: Step, s': Store) {
    match step
    case Creating(body, newId, io) => s' == StoreCreate(s, body, newId, io).1
    case Patching(id, body, io) => s' == StorePatch(s, id, body, io).1
    case Deleting(id, io) => s' == StoreDelete(s, id, io).1
    case Restarting => Load(s.disk) == Success(s'.mem) && s'.disk == s.disk
  }

  // Start-up from any files whose exports have distinct ids and distinct non-zero endpoints;
  // an export may still lack an endpoint, as in files older than endpoint assignment.
  ghost predicate Init(s: Store) {
    FileOk(FileOnDisk(s.disk)) && Load(s.disk) == Success(s.mem)
  }

  ghost predicate IsRun(ss: seq<Store>, steps: seq<Step>) {
    && |ss| == |steps| + 1
    && Init(ss[0])
    && forall i :: 0 <= i < |steps| ==> Next(ss[i], steps[i], ss[i + 1])
  }

  // ---------- Invariant ----------

  ghost predicate Identified(byId: Exports) {
    forall u :: u in byId ==> byId[u].exportId == u
  }

  ghost predicate Assigned(byId: Exports) {
    forall u :: u in byId ==> byId[u].endpointId.Some?
  }

  ghost predicate Separate(byId: Exports) {
    && (forall u :: u in byId ==> byId[u].endpointId != Some(0))
    && forall u, v :: u in byId && v in byId && u != v && byId[u].endpointId.Some? ==>
      byId[u].endpointId != byId[v].endpointId
  }

  // Every export carries its own key and a non-zero endpoint no other export has.
  ghost predicate WellFormed(byId: Exports) {
    Identified(byId) && Assigned(byId) && Separate(byId)
  }

  ghost predicate FileOk(file: seq<Export>) {
    && DistinctIds(file)
    && (forall i :: 0 <= i < |file| ==> file[i].endpointId != Some(0))
    && forall i, j :: 0 <= i < j < |file| && file[i].endpointId.Some? ==> file[i].endpointId != file[j].endpointId
  }

  ghost predicate Inv(s: Store) {
    WellFormed(s.mem.byId) && FileOk(FileOnDisk(s.disk))
  }

  lemma ListingFileOk(byId: Exports)
    requires Identified(byId) && Separate(byId)
    ensures FileOk(Listing(byId))
  {
    ListingDistinct(byId);
    ListingMembers(byId);
    var r := Listing(byId);
    forall i | 0 <= i < |r|
      ensures r[i].exportId in byId && byId[r[i].exportId] == r[i]
    {
      assert r[i] in r;
    }
  }

  lemma AllocIsUnused(c: Catalog)
    requires Alloc(c).Success?
    ensures Alloc(c).value != 0
    ensures forall u :: u in c.byId ==> c.byId[u].endpointId != Some(Alloc(c).value)
  {
    forall u | u in c.byId
      ensures c.byId[u].endpointId != Some(Alloc(c).value)
    {
      if c.byId[u].endpointId.Some? {
        assert c.byId[u].endpointId.value in Used(c.byId);
      }
    }
  }

  lemma {:induction false} ScanMissing(start: U16, file: seq<Export>)
    requires DistinctIds(file)
    ensures forall u :: u in Scan(start, file).missing <==>
      exists e :: e in file && e.exportId == u && e.endpointId.None?
    ensures start <= Scan(start, file).next
  {
    if file != [] {
      var init, e := file[..|file| - 1], file[|file| - 1];
      ScanMissing(start, init);
      assert forall x :: x in file <==> x in init || x == e by {
        assert file == init + [e];
      }
    }
  }

  lemma {:induction false} ScanFromFile(start: U16, file: seq<Export>)
    ensures forall u :: u in Scan(start, file).byId ==>
      Scan(start, file).byId[u].exportId == u && Scan(start, file).byId[u] in file
  {
    if file != [] {
      var init, e := file[..|file| - 1], file[|file| - 1];
      ScanFromFile(start, init);
      assert forall x :: x in init ==> x in file;
      assert e in file;
    }
  }

  lemma {:induction false} ScanHasFile(start: U16, file: seq<Export>, i: nat)
    requires DistinctIds(file) && i < |file|
    ensures file[i].exportId in Scan(start, file).byId && Scan(start, file).byId[file[i].exportId] == file[i]
  {
    var init := file[..|file| - 1];
    if i < |init| {
      ScanHasFile(start, init, i);
    }
  }

  lemma ScanMembers(start: U16, file: seq<Export>)
    requires DistinctIds(file)
    ensures var byId := Scan(start, file).byId;
      && (forall u :: u in byId ==> byId[u].exportId == u && byId[u] in file)
      && (forall e :: e in file ==> e.exportId in byId && byId[e.exportId] == e)
  {
    hide Scan, DistinctIds;
    ScanFromFile(start, file);
    forall e | e in file
      ensures e.exportId in Scan(start, file).byId && Scan(start, file).byId[e.exportId] == e
    {
      var i :| 0 <= i < |file| && file[i] == e;
      ScanHasFile(start, file, i);
    }
  }

  lemma ScanFacts(start: U16, file: seq<Export>)
    requires FileOk(file)
    ensures var s := Scan(start, file);
      && Identified(s.byId) && Separate(s.byId) && start <= s.next
      && (forall u :: u in s.byId ==> s.byId[u].exportId == u && s.byId[u] in file)
      && (forall e :: e in file ==> e.exportId in s.byId && s.byId[e.exportId] == e)
      && (forall u :: u in s.missing <==> u in s.byId && s.byId[u].endpointId.None?)
  {
    hide Scan;
    ScanMembers(start, file);
    ScanMissing(start, file);
    var byId := Scan(start, file).byId;
    forall u, v | u in byId && v in byId && u != v && byId[u].endpointId.Some?
      ensures byId[u].endpointId != byId[v].endpointId
    {
      var i :| 0 <= i < |file| && file[i] == byId[u];
      var j :| 0 <= j < |file| && file[j] == byId[v];
      assert i < j || j < i;
    }
  }

  lemma {:induction false} FillFacts(c: Catalog, missing: seq<Uuid>)
    requires Identified(c.byId) && Separate(c.byId)
    requires forall u :: u in missing ==> u in c.byId
    requires Fill(c, missing).Success?
    ensures var r := Fill(c, missing).value;
      && r.byId.Keys == c.byId.Keys && Identified(r.byId) && Separate(r.byId)
      && (forall u :: u in c.byId && u !in missing ==> r.byId[u] == c.byId[u])
      && (forall u :: u in missing ==> r.byId[u].endpointId.Some?)
    decreases missing
  {
    if missing != [] {
      var ep, id := Alloc(c).value, missing[0];
      AllocIsUnused(c);
      var c' := Catalog(c.byId[id := c.byId[id].(endpointId := Some(ep))], WrappingSucc(ep));
      FillFacts(c', missing[1..]);
      assert forall u :: u in missing ==> u == id || u in missing[1..];
    }
  }

  // A start-up never invents, drops or renumbers an export the file assigns.
  lemma LoadKeepsIdentity(disk: Disk)
    requires FileOk(FileOnDisk(disk)) && Load(disk).Success?
    ensures WellFormed(Load(disk).value.byId)
    ensures forall e :: e in FileOnDisk(disk) && e.endpointId.Some? ==>
      e.exportId in Load(disk).value.byId && Load(disk).value.byId[e.exportId] == e
    ensures forall u :: u in Load(disk).value.byId ==> exists e :: e in FileOnDisk(disk) && e.exportId == u
  {
    var s := ScanDisk(disk);
    ScanFacts(CounterOnDisk(disk), FileOnDisk(disk));
    FillFacts(Catalog(s.byId, s.next), s.missing);
    var r := Load(disk).value.byId;
    forall u | u in r
      ensures r[u].endpointId.Some? && exists e :: e in FileOnDisk(disk) && e.exportId == u
    {
      assert s.byId[u] in FileOnDisk(disk);
      assert u in s.missing || r[u] == s.byId[u];
    }
  }

  lemma CreateKeepsWellFormed(c: Catalog, body: CreateExport, newId: Uuid)
    requires WellFormed(c.byId)
    ensures WellFormed(CreateOn(c, body, newId).1.byId)
  {
    if Alloc(c).Success? {
      AllocIsUnused(c);
    }
  }

  lemma PatchKeepsWellFormed(c: Catalog, id: Uuid, body: PatchExport)
    requires WellFormed(c.byId)
    ensures WellFormed(PatchOn(c, id, body).1.byId)
    ensures PatchOn(c, id, body).1.next == c.next
    ensures PatchOn(c, id, body).1.byId.Keys == c.byId.Keys
    ensures forall u :: u in c.byId ==> PatchOn(c, id, body).1.byId[u].endpointId == c.byId[u].endpointId
  {
  }

  // A rejected patch is not atomic: it leaves a changed export in memory exactly when the
  // primary entity is what it fails on and the name or type before it brought something new.
  lemma RejectedPatchChangesIff(c: Catalog, id: Uuid, body: PatchExport)
    requires WellFormed(c.byId) && PatchOn(c, id, body).0.Failure?
    ensures PatchOn(c, id, body).1 != c <==>
      && id in c.byId
      && (body.name.Some? ==> NameOk(body.name.value))
      && body.primaryEntityId == Some("")
      && ((body.name.Some? && body.name.value != c.byId[id].name)
        || (body.type_.Some? && body.type_.value != c.byId[id].type_))
  {
    hide Separate, Alloc;
    var c' := PatchOn(c, id, body).1;
    if id in c.byId {
      assert c'.byId == c.byId[id := c'.byId[id]];
      assert c' == c <==> c'.byId[id] == c.byId[id];
    }
  }

  // For instance: renaming an export and clearing its primary entity in one patch answers with
  // an error, leaves the new name in memory, and the old one on disk.
  lemma RejectedPatchLeaks()
    ensures
      var lamp := Export(7, [0x41], Light, "light.a", map[], None, true, Some(1));
      var s := Store(Catalog(map[7 := lamp], 2), Disk(Some(2), Some([lamp])));
      var body := PatchExport(Some([0x42]), None, Some(""), None, None, None);
      forall io ::
        StorePatch(s, 7, body, io) ==
          (Failure(InvalidPrimary), Store(Catalog(map[7 := lamp.(name := [0x42])], 2), s.disk))
  {
    var lamp := Export(7, [0x41], Light, "light.a", map[], None, true, Some(1));
    var c := Catalog(map[7 := lamp], 2);
    var body := PatchExport(Some([0x42]), None, Some(""), None, None, None);
    assert map[7 := lamp][7 := lamp.(name := [0x42])] == map[7 := lamp.(name := [0x42])];
    assert PatchOn(c, 7, body) == (Failure(InvalidPrimary), Catalog(map[7 := lamp.(name := [0x42])], 2));
  }

  lemma DeleteKeepsWellFormed(c: Catalog, id: Uuid)
    requires WellFormed(c.byId)
    ensures WellFormed(DeleteOn(c, id).1.byId)
  {
  }

  lemma InvStep(s: Store, step: Step, s': Store)
    requires Inv(s) && Next(s, step, s')
    ensures Inv(s')
  {
    hide CreateOn, PatchOn, DeleteOn, Load, Listing, FileOk, Identified, Separate, Assigned;
    match step {
      case Creating(body, newId, io) => CreateKeepsWellFormed(s.mem, body, newId);
      case Patching(id, body, io) => PatchKeepsWellFormed(s.mem, id, body);
      case Deleting(id, io) => DeleteKeepsWellFormed(s.mem, id);
      case Restarting => LoadKeepsIdentity(s.disk);
    }
    ListingFileOk(s'.mem.byId);
  }

  // Endpoint ids are distinct and non-zero in every reachable state, in memory and on disk.
  lemma {:induction false} EndpointsAlwaysDistinct(ss: seq<Store>, steps: seq<Step>, i: nat)
    requires IsRun(ss, steps) && i < |ss|
    ensures Inv(ss[i])
  {
    if i == 0 {
      LoadKeepsIdentity(ss[0].disk);
    } else {
      EndpointsAlwaysDistinct(ss, steps, i - 1);
      InvStep(ss[i - 1], steps[i - 1], ss[i]);
    }
  }

  // ---------- What one request does ----------

  // Each file is either untouched or rewritten from memory.
  ghost predicate FilesFollow(disk: Disk, disk': Disk, mem': Catalog) {
    && (FileOnDisk(disk') == FileOnDisk(disk) || FileOnDisk(disk') == Listing(mem'.byId))
    && (disk'.config == disk.config || disk'.config == Some(mem'.next))
  }

  // Exports stay unless deleted and keep their endpoints; the only new endpoint is the allocated one.
  ghost predicate MemoryFollows(mem: Catalog, step: Step, mem': Catalog) {
    && (forall u :: u in mem.byId && !(step.Deleting? && step.id == u) ==> u in mem'.byId)
    && (forall u :: u in mem.byId && u in mem'.byId ==> mem'.byId[u].endpointId == mem.byId[u].endpointId)
    && (forall u :: u in mem'.byId && u !in mem.byId ==> Allocated(mem, step, mem', mem'.byId[u]))
    && (mem'.next != mem.next ==> exists e :: Allocated(mem, step, mem', e))
  }

  ghost predicate Allocated(mem: Catalog, step: Step, mem': Catalog, e: Export) {
    && step.Creating? && mem' != mem && Alloc(mem).Success?
    && e.endpointId == Some(Alloc(mem).value) && mem'.next == WrappingSucc(Alloc(mem).value)
  }

  lemma CreateFollows(mem: Catalog, step: Step)
    requires step.Creating?
    ensures MemoryFollows(mem, step, CreateOn(mem, step.body, step.newId).1)
  {
    hide Alloc;
    var r := CreateOn(mem, step.body, step.newId);
    if r.0.Success? {
      assert r.1.byId == mem.byId[r.0.value.exportId := r.0.value];
      assert r.0.value.exportId in r.1.byId;
      assert Allocated(mem, step, r.1, r.0.value);
    }
  }

  lemma RequestFollows(s: Store, step: Step, s': Store)
    requires Inv(s) && Next(s, step, s') && !step.Restarting?
    ensures FilesFollow(s.disk, s'.disk, s'.mem) && MemoryFollows(s.mem, step, s'.mem)
  {
    hide CreateOn, PatchOn, DeleteOn, Commit, Separate, MemoryFollows, FilesFollow;
    match step
    case Creating(body, newId, io) =>
      CreateFollows(s.mem, step);
      CommitFollows(s.disk, CreateOn(s.mem, body, newId), io);
    case Patching(id, body, io) =>
      PatchFollows(s.mem, step);
      CommitFollows(s.disk, PatchOn(s.mem, id, body), io);
    case Deleting(id, io) =>
      DeleteFollows(s.mem, step);
      CommitFollows(s.disk, DeleteOn(s.mem, id), io);
  }

  lemma CommitFollows(disk: Disk, outcome: (Result<Export, CatalogError>, Catalog), io: WriteOutcome)
    ensures Commit(disk, outcome, io).1.mem == outcome.1
    ensures FilesFollow(disk, Commit(disk, outcome, io).1.disk, outcome.1)
  {
    hide Listing;
  }

  lemma PatchFollows(mem: Catalog, step: Step)
    requires WellFormed(mem.byId) && step.Patching?
    ensures MemoryFollows(mem, step, PatchOn(mem, step.id, step.patch).1)
  {
    hide PatchOn, Allocated, Separate;
    PatchKeepsWellFormed(mem, step.id, step.patch);
  }

  lemma DeleteFollows(mem: Catalog, step: Step)
    requires step.Deleting?
    ensures MemoryFollows(mem, step, DeleteOn(mem, step.id).1)
  {
    hide Allocated;
  }

  // A completed create or patch has both files rewritten; a create answers with the allocated id.
  lemma CompletedFacts(s: Store, step: Step, s': Store, u: Uuid, ep: U16)
    requires Inv(s) && Next(s, step, s') && Completed(s, step, u, ep)
    ensures u in s'.mem.byId && s'.mem.byId[u].exportId == u && s'.mem.byId[u].endpointId == Some(ep)
    ensures s'.disk == Disk(Some(s'.mem.next), Some(Listing(s'.mem.byId)))
    ensures step.Creating? ==>
      s'.mem != s.mem && IsFirstFree(Used(s.mem.byId), s.mem.next, ep) && s'.mem.next == WrappingSucc(ep)
  {
    hide Used, Listing, PatchFields, Separate, IsFirstFree;
    if step.Patching? {
      PatchKeepsWellFormed(s.mem, step.id, step.patch);
      PatchedEntry(s.mem, step.id, step.patch);
    }
  }

  lemma PatchedEntry(c: Catalog, id: Uuid, body: PatchExport)
    requires Identified(c.byId) && PatchOn(c, id, body).0.Success?
    ensures id in PatchOn(c, id, body).1.byId && PatchOn(c, id, body).1.byId[id] == PatchOn(c, id, body).0.value
    ensures PatchOn(c, id, body).0.value.exportId == id
  {
  }

  // ---------- An export keeps its id ----------

  // The endpoint a completed create or patch answered with.
  ghost predicate Completed(s: Store, step: Step, u: Uuid, ep: U16) {
    match step
    case Creating(body, newId, io) =>
      var r := StoreCreate(s, body, newId, io).0;
      r.Success? && r.value.exportId == u && r.value.endpointId == Some(ep)
    case Patching(id, body, io) =>
      var r := StorePatch(s, id, body, io).0;
      r.Success? && r.value.exportId == u && r.value.endpointId == Some(ep)
    case _ => false
  }

  // Memory and disk agree that export u sits at endpoint ep.
  ghost predicate Held(s: Store, u: Uuid, ep: U16) {
    && u in s.mem.byId && s.mem.byId[u].endpointId == Some(ep)
    && exists e :: e in FileOnDisk(s.disk) && e.exportId == u && e.endpointId == Some(ep)
  }

  lemma ListingHolds(byId: Exports, u: Uuid)
    requires Identified(byId) && u in byId
    ensures byId[u] in Listing(byId) && byId[u].exportId == u
  {
    ListingMembers(byId);
  }

  lemma CompletedIsHeld(s: Store, step: Step, s': Store, u: Uuid, ep: U16)
    requires Inv(s) && Next(s, step, s') && Completed(s, step, u, ep)
    ensures Held(s', u, ep)
  {
    hide Next, Completed, Listing;
    CompletedFacts(s, step, s', u, ep);
    InvStep(s, step, s');
    ListingHolds(s'.mem.byId, u);
  }

  lemma HeldStep(s: Store, step: Step, s': Store, u: Uuid, ep: U16)
    requires Inv(s) && Next(s, step, s') && Held(s, u, ep)
    requires !(step.Deleting? && step.id == u)
    ensures Held(s', u, ep)
  {
    hide Listing;
    if step.Restarting? {
      LoadKeepsIdentity(s.disk);
    } else {
      HeldRequest(s, step, s', u, ep);
    }
  }

  lemma HeldRequest(s: Store, step: Step, s': Store, u: Uuid, ep: U16)
    requires Inv(s) && Next(s, step, s') && Held(s, u, ep)
    requires !(step.Deleting? && step.id == u) && !step.Restarting?
    ensures Held(s', u, ep)
  {
    hide Next, Listing, Separate;
    RequestFollows(s, step, s');
    InvStep(s, step, s');
    ListingHolds(s'.mem.byId, u);
  }

  // Once a create or patch of u completes with endpoint ep, every later state still has u at
  // ep, through failed writes, crashes and restarts, until someone asks to delete u.
  lemma {:induction false} StableIdentity(ss: seq<Store>, steps: seq<Step>, i: nat, j: nat, u: Uuid, ep: U16)
    requires IsRun(ss, steps) && i < j < |ss|
    requires Completed(ss[i], steps[i], u, ep)
    requires forall k :: i < k < j ==> !(steps[k].Deleting? && steps[k].id == u)
    ensures Held(ss[j], u, ep)
    decreases j
  {
    hide Next, Completed, Held, Inv;
    EndpointsAlwaysDistinct(ss, steps, j - 1);
    if j == i + 1 {
      CompletedIsHeld(ss[i], steps[i], ss[j], u, ep);
    } else {
      StableIdentity(ss, steps, i, j - 1, u, ep);
      HeldStep(ss[j - 1], steps[j - 1], ss[j], u, ep);
    }
  }

  // ---------- An id is not given to another export ----------

  // A create that moved the counter past 65535.
  ghost predicate CounterWrapped(s: Store, step: Step, s': Store) {
    step.Creating? && s'.mem != s.mem && s'.mem.next <= s.mem.next
  }

  ghost predicate FileAssigned(file: seq<Export>) {
    forall e :: e in file ==> e.endpointId.Some?
  }

  // ep is behind both counters, and only u can be found holding it. Everything on disk is
  // assigned by now, so a restart allocates nothing.
  ghost predicate Burned(s: Store, u: Uuid, ep: U16) {
    && ep < s.mem.next
    && s.disk.config.Some? && ep < s.disk.config.value
    && (forall v :: v in s.mem.byId && s.mem.byId[v].endpointId == Some(ep) ==> v == u)
    && (forall e :: e in FileOnDisk(s.disk) && e.endpointId == Some(ep) ==> e.exportId == u)
    && FileAssigned(FileOnDisk(s.disk))
  }

  lemma FirstFreeNotBehind(used: set<U16>, next: U16, id: U16)
    requires IsFirstFree(used, next, id) && next < WrappingSucc(id)
    ensures next <= id
  {
  }

  lemma ListingBurned(byId: Exports, u: Uuid, ep: U16)
    requires Identified(byId)
    requires forall v :: v in byId && byId[v].endpointId == Some(ep) ==> v == u
    ensures forall e :: e in Listing(byId) && e.endpointId == Some(ep) ==> e.exportId == u
    ensures Assigned(byId) ==> FileAssigned(Listing(byId))
  {
    hide Listing;
    ListingMembers(byId);
  }

  lemma CreatedIsBurned(s: Store, step: Step, s': Store, u: Uuid, ep: U16)
    requires Inv(s) && Next(s, step, s') && step.Creating? && Completed(s, step, u, ep)
    requires !CounterWrapped(s, step, s')
    ensures Burned(s', u, ep)
  {
    hide Next, Completed, Listing, IsFirstFree;
    CompletedFacts(s, step, s', u, ep);
    InvStep(s, step, s');
    FirstFreeNotBehind(Used(s.mem.byId), s.mem.next, ep);
    ListingBurned(s'.mem.byId, u, ep);
  }

  lemma BurnedRequest(s: Store, step: Step, s': Store, u: Uuid, ep: U16)
    requires Inv(s) && Next(s, step, s') && Burned(s, u, ep)
    requires !step.Restarting? && !CounterWrapped(s, step, s')
    ensures Burned(s', u, ep)
  {
    hide Next, Listing, IsFirstFree, Used, Separate;
    RequestFollows(s, step, s');
    InvStep(s, step, s');
    if e :| Allocated(s.mem, step, s'.mem, e) {
      FirstFreeNotBehind(Used(s.mem.byId), s.mem.next, Alloc(s.mem).value);
    }
    ListingBurned(s'.mem.byId, u, ep);
  }

  // With every export on disk assigned, a start-up is the file and the counter past it.
  lemma LoadOfAssigned(disk: Disk)
    requires FileOk(FileOnDisk(disk)) && FileAssigned(FileOnDisk(disk))
    ensures var s := ScanDisk(disk);
      && Load(disk) == Success(Catalog(s.byId, s.next))
      && CounterOnDisk(disk) <= s.next
      && (forall u :: u in s.byId ==> s.byId[u].exportId == u && s.byId[u] in FileOnDisk(disk))
      && (forall e :: e in FileOnDisk(disk) ==> e.exportId in s.byId && s.byId[e.exportId] == e)
  {
    hide Scan, FileOk;
    var s := ScanDisk(disk);
    ScanFacts(CounterOnDisk(disk), FileOnDisk(disk));
    EmptyIfNoMember(s.missing);
  }

  lemma EmptyIfNoMember(ids: seq<Uuid>)
    ensures (forall u :: u !in ids) ==> ids == []
  {
    if ids != [] {
      assert ids[0] in ids;
    }
  }

  lemma BurnedRestart(s: Store, s': Store, u: Uuid, ep: U16)
    requires Inv(s) && Next(s, Restarting, s') && Burned(s, u, ep)
    ensures Burned(s', u, ep)
  {
    hide Load, Scan, FileOk, WellFormed;
    LoadOfAssigned(s.disk);
  }

  // Only creates move the counter at all.
  lemma NotWrappedAt(ss: seq<Store>, steps: seq<Step>, i: nat, j: nat, k: nat)
    requires |ss| == |steps| + 1 && i <= k < j <= |steps|
    requires forall k :: i <= k < j && steps[k].Creating? ==> !CounterWrapped(ss[k], steps[k], ss[k + 1])
    ensures !CounterWrapped(ss[k], steps[k], ss[k + 1])
  {
    if steps[k].Creating? {
      assert !CounterWrapped(ss[k], steps[k], ss[k + 1]);
    }
  }

  lemma {:induction false} BurnedStays(ss: seq<Store>, steps: seq<Step>, i: nat, j: nat, u: Uuid, ep: U16)
    requires IsRun(ss, steps) && i < j < |ss|
    requires steps[i].Creating? && Completed(ss[i], steps[i], u, ep)
    requires forall k :: i <= k < j && steps[k].Creating? ==> !CounterWrapped(ss[k], steps[k], ss[k + 1])
    ensures Burned(ss[j], u, ep)
    decreases j
  {
    hide Next, Completed, Inv, Burned, CounterWrapped;
    EndpointsAlwaysDistinct(ss, steps, j - 1);
    if j == i + 1 {
      CreatedIsBurned(ss[i], steps[i], ss[j], u, ep);
    } else {
      BurnedStays(ss, steps, i, j - 1, u, ep);
      NotWrappedAt(ss, steps, i, j, j - 1);
      if steps[j - 1].Restarting? {
        BurnedRestart(ss[j - 1], ss[j], u, ep);
      } else {
        BurnedRequest(ss[j - 1], steps[j - 1], ss[j], u, ep);
      }
    }
  }

  // The id a completed create returned is given to no later create and held by no other
  // export, whatever was deleted, lost or restarted in between, until the counter passes 65535.
  lemma NeverReissued(ss: seq<Store>, steps: seq<Step>, i: nat, j: nat, u: Uuid, ep: U16)
    requires IsRun(ss, steps) && i < j < |steps|
    requires steps[i].Creating? && Completed(ss[i], steps[i], u, ep)
    requires forall k :: i <= k <= j && steps[k].Creating? ==> !CounterWrapped(ss[k], steps[k], ss[k + 1])
    ensures forall v, ep' :: steps[j].Creating? && Completed(ss[j], steps[j], v, ep') ==> ep' != ep
    ensures forall w :: w in ss[j].mem.byId && ss[j].mem.byId[w].endpointId == Some(ep) ==> w == u
  {
    hide Next, Completed, Inv, IsFirstFree, CounterWrapped;
    BurnedStays(ss, steps, i, j, u, ep);
    EndpointsAlwaysDistinct(ss, steps, j);
    forall v, ep' | steps[j].Creating? && Completed(ss[j], steps[j], v, ep')
      ensures ep' != ep
    {
      BurnedNotGiven(ss[j], steps[j], ss[j + 1], u, ep, v, ep');
    }
  }

  lemma BurnedNotGiven(s: Store, step: Step, s': Store, u: Uuid, ep: U16, v: Uuid, ep': U16)
    requires Inv(s) && Next(s, step, s') && Burned(s, u, ep) && !CounterWrapped(s, step, s')
    requires step.Creating? && Completed(s, step, v, ep')
    ensures ep != ep'
  {
    hide Next, Completed, Inv, IsFirstFree;
    CompletedFacts(s, step, s', v, ep');
    FirstFreeNotBehind(Used(s.mem.byId), s.mem.next, ep');
  }

  // The proviso is needed: when a single id is left free, creating, deleting and creating
  // again hands the very same id to another export.
  lemma ReissuedWhenOneIsLeft(c: Catalog, free: U16, body: CreateExport, a: Uuid, b: Uuid)
    requires WellFormed(c.byId) && a !in c.byId && b !in c.byId && a != b
    requires NameOk(body.name) && body.primaryEntityId != "" && body.exportId.None?
    requires free != 0 && forall id: U16 :: id != 0 ==> (id in Used(c.byId) <==> id != free)
    ensures var (r1, c1) := CreateOn(c, body, a);
      var (r2, c2) := DeleteOn(c1, a);
      var (r3, c3) := CreateOn(c2, body, b);
      r1.Success? && r2.Success? && r3.Success? && r1.value.endpointId == r3.value.endpointId == Some(free)
  {
    hide Separate, FirstFree;
    OnlyOneFree(c, free);
    var (r1, c1) := CreateOn(c, body, a);
    var (r2, c2) := DeleteOn(c1, a);
    assert c2.byId == c.byId;
    OnlyOneFree(c2, free);
  }

  lemma OnlyOneFree(c: Catalog, free: U16)
    requires WellFormed(c.byId)
    requires free != 0 && forall id: U16 :: id != 0 ==> (id in Used(c.byId) <==> id != free)
    ensures Alloc(c) == Success(free)
  {
    NoZeroUsed(c.byId);
    AllocFailsIffFull(c);
    assert free !in Used(c.byId);
    var id := Alloc(c).value;
    assert id != 0 && id !in Used(c.byId);
  }

  lemma NoZeroUsed(byId: Exports)
    requires Separate(byId)
    ensures 0 !in Used(byId)
  {
  }

  // ---------- What requests answer ----------

  // A create succeeds exactly with a name of 1 to 64 bytes, a primary entity, a new id and an
  // endpoint left; otherwise it names the first of these that failed and changes nothing.
  lemma CreateAnswers(c: Catalog, body: CreateExport, newId: Uuid)
    ensures var (r, c') := CreateOn(c, body, newId);
      var id := if body.exportId.Some? then body.exportId.value else newId;
      var named, primary, full := 1 <= |body.name| <= 64, |body.primaryEntityId| > 0, |Used(c.byId)| >= 65535;
      && (r == Failure(InvalidName) <==> !named)
      && (r == Failure(InvalidPrimary) <==> named && !primary)
      && (r == Failure(AlreadyExists(id)) <==> named && primary && id in c.byId)
      && (r == Failure(EndpointExhausted) <==> named && primary && id !in c.byId && full)
      && (r.Success? <==> named && primary && id !in c.byId && !full)
      && (r.Failure? ==> c' == c)
      && (r.Success? ==>
            && c'.byId == c.byId[id := r.value] && r.value.exportId == id
            && r.value.name == body.name && r.value.type_ == body.type_ && r.value.linked == body.linked
            && r.value.primaryEntityId == body.primaryEntityId && r.value.areaId == body.areaId
            && r.value.enabled == body.enabled && r.value.endpointId.Some?
            && IsFirstFree(Used(c.byId), c.next, r.value.endpointId.value))
  {
    hide IsFirstFree;
    if |Used(c.byId)| < U16_MAX {
      assert IsFirstFree(Used(c.byId), c.next, Alloc(c).value);
    }
  }

  function Updated<T>(change: Option<T>, old_: T): T {
    if change.Some? then change.value else old_
  }

  // A patch succeeds exactly on a known export with no empty or overlong new name and no empty
  // new primary entity; it then sets the given fields, and no others.
  lemma PatchAnswers(c: Catalog, id: Uuid, body: PatchExport)
    requires WellFormed(c.byId)
    ensures var (r, c') := PatchOn(c, id, body);
      var badName := body.name.Some? && !(1 <= |body.name.value| <= 64);
      var badPrimary := body.primaryEntityId.Some? && |body.primaryEntityId.value| == 0;
      && (r == Failure(NotFound(id)) <==> id !in c.byId)
      && (r == Failure(InvalidName) <==> id in c.byId && badName)
      && (r == Failure(InvalidPrimary) <==> id in c.byId && !badName && badPrimary)
      && (r.Success? <==> id in c.byId && !badName && !badPrimary)
      && c'.next == c.next
      && (r.Success? ==>
            var e := c.byId[id];
            && c'.byId == c.byId[id := r.value]
            && r.value == Export(id, Updated(body.name, e.name), Updated(body.type_, e.type_),
                 Updated(body.primaryEntityId, e.primaryEntityId), Updated(body.linked, e.linked),
                 Updated(body.areaId, e.areaId), Updated(body.enabled, e.enabled), e.endpointId))
  {
    hide Separate, Alloc;
  }

  // ---------- Where the counter starts ----------

  // The id after ep, staying at 65535 once there.
  predicate JustPast(next: U16, ep: U16) {
    next as int == if ep == 65535 then 65535 else ep + 1
  }

  // The counter after reading the file is no id's predecessor: it is where it started or just
  // past some id in the file, and behind none of them.
  lemma {:induction false} ScanCounts(start: U16, file: seq<Export>)
    ensures var next := Scan(start, file).next;
      && start <= next
      && (forall e :: e in file && e.endpointId.Some? ==> e.endpointId.value < next || next == 65535)
      && (next == start || exists e :: e in file && e.endpointId.Some? && JustPast(next, e.endpointId.value))
  {
    if file != [] {
      var init, e := file[..|file| - 1], file[|file| - 1];
      ScanCounts(start, init);
      assert forall x :: x in file <==> x in init || x == e by {
        assert file == init + [e];
      }
      if x :| x in init && x.endpointId.Some? && JustPast(Scan(start, init).next, x.endpointId.value) {
        assert x in file;
      }
    }
  }

  // Even with the counter file lost, the first id given out after a start-up lies past every id
  // the exports file holds, as long as that file stops short of 65535.
  lemma StartsPastTheFile(disk: Disk)
    requires FileOk(FileOnDisk(disk)) && FileAssigned(FileOnDisk(disk))
    requires forall e :: e in FileOnDisk(disk) ==> e.endpointId != Some(65535)
    ensures Load(disk).Success?
    ensures var c := Load(disk).value;
      && (disk.config.Some? ==> disk.config.value <= c.next)
      && (forall e :: e in FileOnDisk(disk) ==> e.endpointId.value < c.next)
      && (|Used(c.byId)| < 65535 ==> Alloc(c) == Success(c.next))
  {
    hide Scan, FileOk, IsFirstFree, FirstFree;
    LoadOfAssigned(disk);
    ScanCounts(CounterOnDisk(disk), FileOnDisk(disk));
    if |Used(Load(disk).value.byId)| < 65535 {
      NextIsFree(disk);
    }
  }

  lemma NextIsFree(disk: Disk)
    requires Load(disk).Success? && |Used(Load(disk).value.byId)| < 65535
    requires forall u :: u in Load(disk).value.byId ==> Load(disk).value.byId[u] in FileOnDisk(disk)
    requires forall e :: e in FileOnDisk(disk) && e.endpointId.Some? ==> e.endpointId.value < Load(disk).value.next
    requires 0 < Load(disk).value.next
    ensures Alloc(Load(disk).value) == Success(Load(disk).value.next)
  {
    hide Load, FirstFree;
    var c := Load(disk).value;
    assert c.next !in Used(c.byId);
    assert IsFirstFree(Used(c.byId), c.next, c.next);
    FirstFreeUnique(Used(c.byId), c.next, c.next, FirstFree(Used(c.byId), c.next));
  }

  lemma {:induction false} ScanFirstMissing(start: U16, file: seq<Export>, i: nat)
    requires i < |file| && file[i].endpointId.None? && forall j :: 0 <= j < i ==> file[j].endpointId.Some?
    ensures Scan(start, file).missing != [] && Scan(start, file).missing[0] == file[i].exportId
  {
    var init := file[..|file| - 1];
    if i < |init| {
      ScanFirstMissing(start, init, i);
    } else {
      NoneMissing(start, init);
    }
  }

  lemma {:induction false} NoneMissing(start: U16, file: seq<Export>)
    requires forall j :: 0 <= j < |file| ==> file[j].endpointId.Some?
    ensures Scan(start, file).missing == []
  {
    if file != [] {
      NoneMissing(start, file[..|file| - 1]);
    }
  }

  // Missing ids are filled in file order, starting at the counter and only after every assigned
  // id is known: the first export without one gets the first id free of all those in the file.
  lemma FirstMissingIsFirstFree(disk: Disk, i: nat)
    requires FileOk(FileOnDisk(disk)) && Load(disk).Success? && i < |FileOnDisk(disk)|
    requires var file := FileOnDisk(disk);
      file[i].endpointId.None? && forall j :: 0 <= j < i ==> file[j].endpointId.Some?
    ensures var s, id := ScanDisk(disk), FileOnDisk(disk)[i].exportId;
      && id in Load(disk).value.byId && Load(disk).value.byId[id].endpointId.Some?
      && IsFirstFree(Used(s.byId), s.next, Load(disk).value.byId[id].endpointId.value)
  {
    hide Scan, IsFirstFree, Used;
    var s, id := ScanDisk(disk), FileOnDisk(disk)[i].exportId;
    ScanFacts(CounterOnDisk(disk), FileOnDisk(disk));
    ScanFirstMissing(CounterOnDisk(disk), FileOnDisk(disk), i);
    ScanMissingOnce(CounterOnDisk(disk), FileOnDisk(disk));
    FillFirst(Catalog(s.byId, s.next), s.missing);
  }

  lemma {:induction false} ScanMissingOnce(start: U16, file: seq<Export>)
    requires DistinctIds(file)
    ensures forall i, j :: 0 <= i < j < |Scan(start, file).missing| ==>
      Scan(start, file).missing[i] != Scan(start, file).missing[j]
  {
    if file != [] {
      var init := file[..|file| - 1];
      ScanMissingOnce(start, init);
      ScanMissing(start, init);
      assert forall e :: e in init ==> e.exportId != file[|file| - 1].exportId;
      assert file[|file| - 1].exportId !in Scan(start, init).missing;
    }
  }

  lemma FillFirst(c: Catalog, missing: seq<Uuid>)
    requires Identified(c.byId) && Separate(c.byId) && missing != []
    requires forall u :: u in missing ==> u in c.byId
    requires forall i, j :: 0 <= i < j < |missing| ==> missing[i] != missing[j]
    requires Fill(c, missing).Success?
    ensures var r := Fill(c, missing).value;
      && missing[0] in r.byId && r.byId[missing[0]].endpointId.Some?
      && IsFirstFree(Used(c.byId), c.next, r.byId[missing[0]].endpointId.value)
  {
    hide IsFirstFree, Used;
    var ep, id := Alloc(c).value, missing[0];
    AllocIsUnused(c);
    FillFacts(Catalog(c.byId[id := c.byId[id].(endpointId := Some(ep))], WrappingSucc(ep)), missing[1..]);
  }

  // Why the counter is written first: once it is, the id of a create that then failed is not
  // given out after a restart either, although no export holds it.
  lemma FailedCreateSpendsItsId(s: Store, body: CreateExport, newId: Uuid, io: WriteOutcome)
    requires Inv(s) && FileAssigned(FileOnDisk(s.disk))
    requires CreateOn(s.mem, body, newId).0.Success? && s.mem.next < CreateOn(s.mem, body, newId).1.next
    requires !io.NothingWritten?
    ensures var ep, s' := CreateOn(s.mem, body, newId).0.value.endpointId.value, StoreCreate(s, body, newId, io).1;
      && s'.disk.config.Some? && ep < s'.disk.config.value
      && (io.ConfigOnly? ==> Load(s'.disk).Success? && ep < Load(s'.disk).value.next)
      && (io.ConfigOnly? ==> forall u :: u in Load(s'.disk).value.byId ==>
            Load(s'.disk).value.byId[u] in FileOnDisk(s.disk))
  {
    hide Load, Scan, FileOk, WellFormed, IsFirstFree, Used, Listing;
    var ep, s' := CreateOn(s.mem, body, newId).0.value.endpointId.value, StoreCreate(s, body, newId, io).1;
    assert ep == FirstFree(Used(s.mem.byId), s.mem.next);
    FirstFreeAssignable(Used(s.mem.byId), s.mem.next, ep);
    if io.ConfigOnly? {
      assert FileOnDisk(s'.disk) == FileOnDisk(s.disk);
      LoadOfAssigned(s'.disk);
    }
  }

  lemma FirstFreeAssignable(used: set<U16>, next: U16, id: U16)
    requires IsFirstFree(used, next, id)
    ensures id != 0
  {
  }

  // ---------- What a restart brings back ----------

  // The exports file is one this store wrote, or was never written.
  ghost predicate Written(disk: Disk) {
    exists byId :: WellFormed(byId) && FileOnDisk(disk) == Listing(byId)
  }

  ghost predicate OnDisk(s: Store) {
    FileOnDisk(s.disk) == Listing(s.mem.byId)
  }

  // A restart now would bring back exactly the catalog in memory.
  ghost predicate Survives(s: Store) {
    Load(s.disk).Success? && Load(s.disk).value.byId == s.mem.byId
  }

  lemma LoadOfListing(disk: Disk, byId: Exports)
    requires WellFormed(byId) && FileOnDisk(disk) == Listing(byId)
    ensures Load(disk).Success? && Load(disk).value.byId == byId
  {
    hide Load, Scan, Listing, FileOk, FileAssigned;
    ListingFileOk(byId);
    ListingAssigned(byId);
    ListingMembers(byId);
    LoadOfAssigned(disk);
    var loaded := ScanDisk(disk).byId;
    forall u | u in byId
      ensures u in loaded && loaded[u] == byId[u]
    {
      assert byId[u] in Listing(byId);
    }
  }

  lemma ListingAssigned(byId: Exports)
    requires WellFormed(byId)
    ensures FileAssigned(Listing(byId))
  {
    hide Listing;
    ListingMembers(byId);
  }

  // A restart brings memory back exactly when the exports file lists it.
  lemma SurvivesIff(s: Store)
    requires WellFormed(s.mem.byId) && Written(s.disk)
    ensures Survives(s) <==> OnDisk(s)
  {
    hide WellFormed, Load, Listing;
    var byId :| WellFormed(byId) && FileOnDisk(s.disk) == Listing(byId);
    LoadOfListing(s.disk, byId);
    if OnDisk(s) {
      LoadOfListing(s.disk, s.mem.byId);
    }
  }

  lemma WrittenStep(s: Store, step: Step, s': Store)
    requires Inv(s) && Next(s, step, s') && Written(s.disk)
    ensures Written(s'.disk)
  {
    hide Listing, WellFormed, MemoryFollows, StoreCreate, StorePatch, StoreDelete, Load;
    InvStep(s, step, s');
    if !step.Restarting? {
      RequestFollows(s, step, s');
    }
  }

  // From files this store wrote (or none) every later file is one it wrote, and a restart at
  // any moment brings back memory exactly when the exports file lists it.
  lemma {:induction false} RestartKeepsIff(ss: seq<Store>, steps: seq<Step>, k: nat)
    requires IsRun(ss, steps) && k < |ss| && Written(ss[0].disk)
    ensures Written(ss[k].disk)
    ensures Survives(ss[k]) <==> OnDisk(ss[k])
  {
    hide Written, Next, Survives, OnDisk;
    if k > 0 {
      RestartKeepsIff(ss, steps, k - 1);
      EndpointsAlwaysDistinct(ss, steps, k - 1);
      assert Next(ss[k - 1], steps[k - 1], ss[k - 1 + 1]);
      WrittenStep(ss[k - 1], steps[k - 1], ss[k]);
    }
    EndpointsAlwaysDistinct(ss, steps, k);
    SurvivesIff(ss[k]);
  }

  ghost function Reply(s: Store, step: Step): Result<Export, CatalogError>
    requires !step.Restarting?
  {
    match step
    case Creating(body, newId, io) => StoreCreate(s, body, newId, io).0
    case Patching(id, body, io) => StorePatch(s, id, body, io).0
    case Deleting(id, io) => StoreDelete(s, id, io).0
  }

  // The reply tells what a restart right after the request would bring back: with success the
  // catalog as it now is in memory, with an error the catalog it would have brought back before.
  lemma ReplyTellsRestart(ss: seq<Store>, steps: seq<Step>, k: nat)
    requires IsRun(ss, steps) && k < |steps| && !steps[k].Restarting? && Written(ss[0].disk)
    ensures Reply(ss[k], steps[k]).Success? ==> Survives(ss[k + 1])
    ensures Reply(ss[k], steps[k]).Failure? ==>
      && Load(ss[k].disk).Success? && Load(ss[k + 1].disk).Success?
      && Load(ss[k + 1].disk).value.byId == Load(ss[k].disk).value.byId
  {
    hide CreateOn, PatchOn, DeleteOn, Load, Survives, Inv, Listing, WellFormed;
    RestartKeepsIff(ss, steps, k);
    RestartKeepsIff(ss, steps, k + 1);
    assert Next(ss[k], steps[k], ss[k + 1]);
    if Reply(ss[k], steps[k]).Failure? {
      assert FileOnDisk(ss[k + 1].disk) == FileOnDisk(ss[k].disk);
      var byId :| WellFormed(byId) && FileOnDisk(ss[k].disk) == Listing(byId);
      LoadOfListing(ss[k].disk, byId);
      LoadOfListing(ss[k + 1].disk, byId);
    }
  }
}
